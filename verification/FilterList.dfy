/** Lists of packages with a cursor that is kept between lookups: filterlist.c. */
module FilterList {
  import opened Options
  import opened Strings

  datatype What = Install | Unchanged | AutoHold | Purge | Warning | Deinstall | Hold | Supersede | UpgradeOnly
    | Failing

  /** What a line says about a package; with a version it counts for that version only. */
  datatype Rule = Rule(what: What, version: Option<Name>)

  datatype Line = Line(name: Name, rule: Rule)

  type Rules = map<Name, Rule>

  class Item {
    var next: Item?
    const name: Name
    const rule: Rule

    constructor (line: Line, next: Item?)
      ensures name == line.name && rule == line.rule && this.next == next
    {
      name, rule, this.next := line.name, line.rule, next;
    }
  }

  ghost function ItemAt(items: seq<Item>, i: nat): Item? { if i < |items| then items[i] else null }

  ghost function Members(items: seq<Item>): set<Item> { set p | p in items }

  ghost predicate Chain(head: Item?, items: seq<Item>)
    reads Members(items)`next
  {
    head == ItemAt(items, 0)
    && forall i {:trigger items[i].next} :: 0 <= i < |items| ==> items[i].next == ItemAt(items, i + 1)
  }

  ghost predicate Increasing(items: seq<Item>) {
    forall i, j :: 0 <= i < j < |items| ==> Before(items[i].name, items[j].name)
  }

  /** Smaller names before position k, larger ones from there on. */
  ghost predicate Gap(items: seq<Item>, k: nat, name: Name) {
    && k <= |items| && (forall i :: 0 <= i < k ==> Before(items[i].name, name))
    && (forall i :: k <= i < |items| ==> Before(name, items[i].name))
  }

  lemma GapHere(items: seq<Item>, k: nat, name: Name)
    requires Increasing(items) && k <= |items|
    requires k > 0 ==> Before(items[k - 1].name, name)
    requires k < |items| ==> Before(name, items[k].name)
    ensures Gap(items, k, name) && forall p :: p in items ==> p.name != name
  {
    forall i | 0 <= i < k - 1 ensures Before(items[i].name, name) {
      BeforeTransitive(items[i].name, items[k - 1].name, name);
    }
    forall i | k < i < |items| ensures Before(name, items[i].name) {
      BeforeTransitive(name, items[k].name, items[i].name);
    }
    CompareEqual(name, name);
  }

  ghost predicate Apart(items: seq<Item>) { forall i, j :: 0 <= i < j < |items| ==> items[i] != items[j] }

  lemma Different(items: seq<Item>)
    requires Increasing(items)
    ensures Apart(items)
  {
    forall i, j | 0 <= i < j < |items| ensures items[i] != items[j] {
      CompareEqual(items[i].name, items[j].name);
      assert Before(items[i].name, items[j].name);
    }
  }

  /** The items are the rules. */
  ghost predicate Shows(items: seq<Item>, rules: Rules) {
    && (forall p :: p in items ==> p.name in rules && rules[p.name] == p.rule)
    && (forall n :: n in rules ==> exists p :: p in items && p.name == n)
  }

  lemma GapOut(items: seq<Item>, k: nat, name: Name, rules: Rules)
    requires Gap(items, k, name) && Shows(items, rules)
    ensures name !in rules
  {
    CompareEqual(name, name);
  }

  lemma ItemIn(items: seq<Item>, k: nat, rules: Rules)
    requires Shows(items, rules) && k < |items|
    ensures items[k].name in rules
  {
  }

  class FilterFile {
    var root: Item?
    var last: Item?
    ghost var items: seq<Item>
    ghost var rules: Rules

    ghost predicate Valid()
      reads this, Members(items)`next
    {
      && Chain(root, items) && Increasing(items) && Shows(items, rules)
      && (last == null || last in items) && (root != null ==> last != null)
    }

    /** The last part of find: from an item with a smaller name on. */
    method FindAfter(name: Name, start: Item, ghost i: nat) returns (found: bool)
      requires Valid() && i < |items| && items[i] == start && Before(start.name, name)
      modifies `last
      ensures Valid() && (found <==> name in rules) && (found ==> last != null && last.name == name)
    {
      var p := start;
      ghost var k := i;
      hide Increasing, Compare;
      while p.next != null
        invariant i <= k < |items| && p == items[k] && Before(p.name, name)
        decreases |items| - k
      {
        var cmp := Compare(name, p.next.name);
        CompareEqual(name, p.next.name);
        CompareSwap(p.next.name, name);
        if cmp == Equal {
          last := p.next;
          return true;
        }
        if cmp == Less {
          GapHere(items, k + 1, name);
          last := p;
          return false;
        }
        p, k := p.next, k + 1;
      }
      GapHere(items, k + 1, name);
      last := p;
      found := false;
    }

    /** find: whether there is a rule for a package; the cursor is then on it. */
    method Find(name: Name) returns (found: bool)
      requires Valid() && root != null
      modifies `last
      ensures Valid() && (found <==> name in rules) && (found ==> last != null && last.name == name)
    {
      hide Compare;
      ghost var k :| 0 <= k < |items| && items[k] == last;
      var p: Item := last;
      var cmp := Less;
      if p.next != null {
        cmp := Compare(name, p.next.name);
        CompareEqual(name, p.next.name);
        CompareSwap(p.next.name, name);
        if cmp == Equal {
          last := p.next;
          return true;
        }
        assert Before(p.name, items[k + 1].name);
        if cmp == Greater {
          BeforeTransitive(p.name, items[k + 1].name, name);
        }
      }
      if p.next == null || cmp == Less {
        cmp := Compare(name, p.name);
        CompareEqual(name, p.name);
        CompareSwap(p.name, name);
        if cmp == Equal {
          return true;
        } else if cmp == Greater {
          GapHere(items, k + 1, name);
          return false;
        }
        p, k := root, 0;
        cmp := Compare(name, p.name);
        CompareEqual(name, p.name);
        CompareSwap(p.name, name);
        if cmp == Equal {
          last := root;
          return true;
        } else if cmp == Less {
          GapHere(items, 0, name);
          return false;
        }
      }
      found := FindAfter(name, p, k);
    }

    constructor ()
      ensures Valid() && rules == map[] && root == null && last == null
    {
      root, last, items, rules := null, null, [], map[];
    }

    /** Puts an item into the list at position k, by the link in front of it. */
    method LinkIn(added: Item, before: Item?, ghost k: nat)
      requires Chain(root, items) && Apart(items) && k <= |items| && added !in items && added.next == ItemAt(items, k)
      requires before == if k == 0 then null else items[k - 1]
      modifies `root, `items, (if before == null then {} else {before})`next
      ensures items == old(items)[..k] + [added] + old(items)[k..] && Chain(root, items)
    {
      ghost var was := items;
      if before == null {
        root := added;
      } else {
        before.next := added;
      }
      items := was[..k] + [added] + was[k..];
      forall i | 0 <= i < |items| ensures items[i].next == ItemAt(items, i + 1) {
        if i > k {
          assert items[i] == was[i - 1];
        }
      }
    }

    /** The items before their places are final: the cursor is not used yet. */
    ghost predicate Filling()
      reads this, Members(items)`next
    {
      Chain(root, items) && Increasing(items) && Shows(items, rules)
    }

    /** Where a line belongs, searched from the link before position k on or from the root. */
    method Seek(name: Name, before: Item?, ghost k: nat) returns (ok: bool, prev: Item?, at: Item?, ghost j: nat)
      requires Filling() && k <= |items| && before == if k == 0 then null else items[k - 1]
      ensures j <= |items| && prev == (if j == 0 then null else items[j - 1]) && at == ItemAt(items, j)
      ensures ok <==> name !in rules
      ensures ok ==> Gap(items, j, name)
      ensures Filling()
    {
      hide Compare, Shows, Increasing, Gap;
      prev, j := before, k;
      at := if prev == null then root else prev.next;
      if at == null || Compare(name, at.name) == Less {
        prev, at, j := null, root, 0;
      } else {
        CompareSwap(at.name, name);
        CompareEqual(name, at.name);
        ReachedBefore(items, j, name);
      }
      while at != null && Compare(name, at.name) == Greater
        invariant j <= |items| && prev == (if j == 0 then null else items[j - 1]) && at == ItemAt(items, j)
        invariant j > 0 ==> Before(items[j - 1].name, name)
        decreases |items| - j
      {
        CompareSwap(at.name, name);
        prev, at, j := at, at.next, j + 1;
      }
      ok := at == null || Compare(name, at.name) != Equal;
      if at != null {
        CompareEqual(name, at.name);
      }
      if ok {
        GapHere(items, j, name);
        GapOut(items, j, name, rules);
      } else {
        ItemIn(items, j, rules);
      }
    }

    /** Puts an item where it belongs. */
    method Insert(added: Item, prev: Item?, ghost j: nat)
      requires Filling() && Gap(items, j, added.name) && added !in items && added.next == ItemAt(items, j)
      requires prev == (if j == 0 then null else items[j - 1])
      modifies `root, `items, `rules, (if prev == null then {} else {prev})`next
      ensures Filling() && rules == old(rules)[added.name := added.rule]
      ensures items == old(items)[..j] + [added] + old(items)[j..]
    {
      Different(items);
      WithIncreasing(items, j, added);
      WithShows(items, j, added, rules);
      hide Chain, Increasing, Shows, Gap, Apart;
      LinkIn(added, prev, j);
      rules := rules[added.name := added.rule];
    }

    /** A new item where it belongs. */
    method AddAt(line: Line, prev: Item?, at: Item?, ghost j: nat)
      requires Filling() && Gap(items, j, line.name) && at == ItemAt(items, j)
      requires prev == (if j == 0 then null else items[j - 1])
      modifies `root, `items, `rules, (if prev == null then {} else {prev})`next
      ensures Filling() && rules == old(rules)[line.name := line.rule]
      ensures forall p :: p in Members(items) ==> p in old(Members(items)) || fresh(p)
      ensures j < |items| && items[j].name == line.name && (j > 0 ==> prev == items[j - 1])
    {
      ghost var was := items;
      assert j <= |was|;
      hide Filling, Gap, ItemAt;
      var added := new Item(line, at);
      Insert(added, prev, j);
      InsertedItems(was, j, added);
    }

    /** One line: an item more, unless there is one of that name. */
    method AddLine(line: Line, before: Item?, ghost k: nat) returns (ok: bool, prev: Item?, ghost j: nat)
      requires Filling() && k <= |items| && before == if k == 0 then null else items[k - 1]
      modifies this, Members(items)
      ensures ok <==> line.name !in old(rules)
      ensures forall p :: p in Members(items) ==> p in old(Members(items)) || fresh(p)
      ensures Filling() && j <= |items| && prev == (if j == 0 then null else items[j - 1])
      ensures rules == if ok then old(rules)[line.name := line.rule] else old(rules)
      ensures ok ==> j < |items| && items[j].name == line.name
    {
      var at;
      ok, prev, at, j := Seek(line.name, before, k);
      assert prev != null ==> prev in items;
      hide Filling, Gap;
      if ok {
        AddAt(line, prev, at, j);
      }
    }

    /** The first lines have been taken in, and prev is the item before the last of them. */
    ghost predicate Parsing(lines: seq<Line>, i: nat, prev: Item?, k: nat)
      reads this, Members(items)`next
    {
      && i <= |lines| && Filling() && Distinct(lines[..i]) && rules == RulesOf(lines[..i]) && k <= |items|
      && (if i == 0 then items == [] else k < |items|) && prev == (if k == 0 then null else items[k - 1])
    }

    lemma ParsingStart(lines: seq<Line>)
      requires Valid() && items == [] && rules == map[]
      ensures Parsing(lines, 0, null, 0)
    {
    }

    lemma ParsingEnd(lines: seq<Line>, prev: Item?, k: nat)
      requires Parsing(lines, |lines|, prev, k)
      ensures Filling() && Distinct(lines) && rules == RulesOf(lines) && (root == null <==> lines == [])
      ensures var at := if prev == null then root else prev.next;
        (at == null || at in items) && (root != null ==> at != null)
    {
      assert lines[..|lines|] == lines;
    }

    method ParseLine(lines: seq<Line>, i: nat, prev: Item?, ghost k: nat)
      returns (ok: bool, prev': Item?, ghost k': nat)
      requires i < |lines| && Parsing(lines, i, prev, k)
      modifies this, Members(items)
      ensures (ok <==> Distinct(lines[..i + 1])) && (Distinct(lines) ==> ok)
      ensures ok ==> Parsing(lines, i + 1, prev', k')
      ensures forall p :: p in Members(items) ==> p in old(Members(items)) || fresh(p)
    {
      RulesMore(lines, i);
      hide Filling, Distinct, RulesOf;
      ok, prev', k' := AddLine(lines[i], prev, k);
    }

    method SetLast(at: Item?)
      requires Filling() && (at == null || at in items) && (root != null ==> at != null)
      modifies `last
      ensures Valid() && rules == old(rules) && root == old(root)
    {
      last := at;
    }

    /** The lines of a file one after the other; two about the same package are an error. */
    method Parse(lines: seq<Line>) returns (ok: bool)
      requires Valid() && items == [] && rules == map[]
      modifies this, Members(items)
      ensures ok <==> Distinct(lines)
      ensures ok ==> Valid() && rules == RulesOf(lines) && (root == null <==> lines == [])
    {
      var prev: Item? := null;
      ghost var k: nat := 0;
      hide *;
      ParsingStart(lines);
      for i := 0 to |lines|
        invariant Parsing(lines, i, prev, k)
        invariant forall p :: p in Members(items) ==> p in old(Members(items)) || fresh(p)
      {
        ok, prev, k := ParseLine(lines, i, prev, k);
        if !ok {
          return;
        }
      }
      ParsingEnd(lines, prev, k);
      SetLast(if prev == null then root else prev.next);
      ok := true;
    }
  }

  lemma InsertedItems(items: seq<Item>, j: nat, p: Item)
    requires j <= |items|
    ensures var r := items[..j] + [p] + items[j..]; r[j] == p && (j > 0 ==> r[j - 1] == items[j - 1])
    ensures forall q :: q in items[..j] + [p] + items[j..] <==> q in items || q == p
  {
    assert items == items[..j] + items[j..];
  }

  lemma WithIncreasing(items: seq<Item>, j: nat, p: Item)
    requires Increasing(items) && Gap(items, j, p.name)
    ensures Increasing(items[..j] + [p] + items[j..])
  {
  }

  lemma WithShows(items: seq<Item>, j: nat, p: Item, rules: Rules)
    requires Gap(items, j, p.name) && Shows(items, rules)
    ensures Shows(items[..j] + [p] + items[j..], rules[p.name := p.rule]) && p !in items
  {
    assert items == items[..j] + items[j..];
    CompareEqual(p.name, p.name);
    var r := items[..j] + [p] + items[j..];
    assert forall q :: q in r <==> q in items || q == p;
    assert forall q :: q in items ==> q.name != p.name;
    hide Gap, Compare;
  }

  /** No two lines about the same package. */
  ghost predicate Distinct(lines: seq<Line>) { forall i, j :: 0 <= i < j < |lines| ==> lines[i].name != lines[j].name }

  ghost function RulesOf(lines: seq<Line>): Rules {
    if lines == [] then map[] else RulesOf(lines[..|lines| - 1])[lines[|lines| - 1].name := lines[|lines| - 1].rule]
  }

  lemma {:induction false} RulesKeys(lines: seq<Line>, n: Name)
    ensures n in RulesOf(lines) <==> exists i :: 0 <= i < |lines| && lines[i].name == n
  {
    if lines != [] {
      var before := lines[..|lines| - 1];
      RulesKeys(before, n);
      if exists i :: 0 <= i < |before| && before[i].name == n {
        var i :| 0 <= i < |before| && before[i].name == n;
        assert lines[i].name == n;
      }
      if exists i :: 0 <= i < |lines| && lines[i].name == n {
        var i :| 0 <= i < |lines| && lines[i].name == n;
        assert i < |before| ==> before[i].name == n;
      }
    }
  }

  lemma RulesMore(lines: seq<Line>, i: nat)
    requires i < |lines| && Distinct(lines[..i])
    ensures lines[i].name !in RulesOf(lines[..i]) <==> Distinct(lines[..i + 1])
    ensures RulesOf(lines[..i + 1]) == RulesOf(lines[..i])[lines[i].name := lines[i].rule]
    ensures Distinct(lines) ==> Distinct(lines[..i + 1])
  {
    var a, b := lines[..i], lines[..i + 1];
    assert b[..i] == a && b[i] == lines[i];
    RulesKeys(a, lines[i].name);
    if exists k :: 0 <= k < |a| && a[k].name == lines[i].name {
      var k :| 0 <= k < |a| && a[k].name == lines[i].name;
      assert b[k].name == b[i].name;
    }
  }

  // ----- filterlist_find

  /** The first file with a rule for the package and this version decides. */
  function FirstMatch(files: seq<Rules>, name: Name, version: Name, default: What): What {
    if files == [] then default
    else if name in files[0] && (files[0][name].version == None || files[0][name].version == Some(version))
      then files[0][name].what
    else FirstMatch(files[1..], name, version, default)
  }

  /** The rules of a file say something about this version of the package. */
  predicate Applies(rules: Rules, name: Name, version: Name) {
    name in rules && (rules[name].version == None || rules[name].version == Some(version))
  }

  /** The answer is that of the one file that says something while none before it does, or else the default. */
  lemma {:induction false} FirstMatchIs(files: seq<Rules>, i: nat, name: Name, version: Name, default: What)
    requires i <= |files| && forall k :: 0 <= k < i ==> !Applies(files[k], name, version)
    ensures i < |files| && Applies(files[i], name, version) ==>
              FirstMatch(files, name, version, default) == files[i][name].what
    ensures i == |files| ==> FirstMatch(files, name, version, default) == default
  {
    if i > 0 {
      assert !Applies(files[0], name, version) && forall k :: 0 < k < |files| ==> files[1..][k - 1] == files[k];
      FirstMatchIs(files[1..], i - 1, name, version, default);
    }
  }

  /** The rule for a package is that of its line. */
  lemma {:induction false} RulesAt(lines: seq<Line>, i: nat)
    requires Distinct(lines) && i < |lines|
    ensures lines[i].name in RulesOf(lines) && RulesOf(lines)[lines[i].name] == lines[i].rule
    decreases |lines|
  {
    var k := |lines| - 1;
    if i < k {
      RulesAt(lines[..k], i);
    }
  }

  ghost function AllRules(files: seq<FilterFile>): (r: seq<Rules>)
    reads files`rules
    ensures |r| == |files| && forall i :: 0 <= i < |files| ==> r[i] == files[i].rules
  {
    if files == [] then [] else [files[0].rules] + AllRules(files[1..])
  }

  /** All files are in order, with their items among these. */
  ghost predicate AllValid(files: seq<FilterFile>, all: set<Item>)
    reads files, all
  {
    forall f :: f in files ==> (forall p :: p in f.items ==> p in all) && f.Valid()
  }

  lemma FirstMatchStep(files: seq<Rules>, i: nat, name: Name, version: Name, default: What)
    requires i < |files|
    ensures FirstMatch(files[i..], name, version, default)
      == if name in files[i] && (files[i][name].version == None || files[i][name].version == Some(version))
         then files[i][name].what else FirstMatch(files[i + 1..], name, version, default)
  {
    assert files[i..][0] == files[i] && files[i..][1..] == files[i + 1..];
  }

  /** One of the lookups. */
  method FindIn(ghost files: seq<FilterFile>, f: FilterFile, name: Name, ghost all: set<Item>) returns (found: bool)
    requires AllValid(files, all) && f in files && f.root != null
    modifies f`last
    ensures AllValid(files, all) && (found <==> name in f.rules)
    ensures found ==> f.last != null && f.last.name == name && f.last.rule == f.rules[name]
  {
    found := f.Find(name);
    forall g: FilterFile | g in files ensures (forall p :: p in g.items ==> p in all) && g.Valid() {
      if g != f {
        assert old(g.Valid());
      }
    }
  }

  /** filterlist_find: the lookups with their cursors answer like a search without. */
  method FilterlistFind(files: seq<FilterFile>, name: Name, version: Name, default: What, ghost all: set<Item>)
    returns (r: What)
    requires AllValid(files, all)
    modifies files`last
    ensures AllValid(files, all) && r == FirstMatch(AllRules(files), name, version, default)
  {
    ghost var rules := AllRules(files);
    assert rules[0..] == rules;
    hide AllValid, FirstMatch, AllRules;
    for i := 0 to |files|
      invariant AllValid(files, all) && AllRules(files) == rules
      invariant FirstMatch(rules, name, version, default) == FirstMatch(rules[i..], name, version, default)
    {
      FirstMatchStep(rules, i, name, version, default);
      if files[i].root == null {
        EmptyFile(files, i, all);
        continue;
      }
      var found := FindIn(files, files[i], name, all);
      if !found {
        continue;
      }
      if files[i].last.rule.version == None {
        return files[i].last.rule.what;
      }
      if files[i].last.rule.version == Some(version) {
        return files[i].last.rule.what;
      }
    }
    NoMatch(rules, name, version, default);
    r := default;
  }

  lemma NoMatch(files: seq<Rules>, name: Name, version: Name, default: What)
    ensures FirstMatch(files[|files|..], name, version, default) == default
  {
  }

  lemma EmptyFile(files: seq<FilterFile>, i: nat, all: set<Item>)
    requires AllValid(files, all) && i < |files| && files[i].root == null
    ensures files[i].rules == map[]
  {
    assert files[i] in files;
    if files[i].rules != map[] {
      var n :| n in files[i].rules;
    }
  }

  /** The items before one that is not larger than the name are smaller. */
  lemma ReachedBefore(items: seq<Item>, j: nat, name: Name)
    requires Increasing(items) && j < |items| && (items[j].name == name || Before(items[j].name, name))
    ensures j > 0 ==> Before(items[j - 1].name, name)
  {
    if j > 0 {
      assert Before(items[j - 1].name, items[j].name);
      if items[j].name != name {
        BeforeTransitive(items[j - 1].name, items[j].name, name);
      }
    }
  }
}
