/** The sorted list of architecture-all packages with its cursor, in archallflood.c. */
module FloodList {
  import opened Options
  import opened CText
  import opened Strings
  import S = SourceTree
  import opened FloodChoice
  import V = Versions

  /** A package of another architecture that is offered. */
  datatype Package = Package(name: Name, version: CString, source: Name, sourceVersion: Name)

  datatype Result = Ok | Nothing | Error

  class PackageData {
    var next: PackageData?
    const name: Name
    const oldVersion: Option<CString>
    const oldSource: S.SourceVersion?
    var newVersion: Option<CString>
    var newSource: S.SourceVersion?
    var newHasSibling: bool

    constructor (name: Name, oldVersion: Option<CString>, oldSource: S.SourceVersion?,
                 newVersion: Option<CString>, newSource: S.SourceVersion?, next: PackageData?)
      ensures this.name == name && this.oldVersion == oldVersion && this.oldSource == oldSource && this.next == next
      ensures this.newVersion == newVersion && this.newSource == newSource && !newHasSibling
    {
      this.name, this.oldVersion, this.oldSource, this.next := name, oldVersion, oldSource, next;
      this.newVersion, this.newSource, newHasSibling := newVersion, newSource, false;
    }

    method SetNew(version: CString, source: S.SourceVersion?, sibling: bool)
      modifies `newVersion, `newSource, `newHasSibling
      ensures newVersion == Some(version) && newSource == source && newHasSibling == sibling
    {
      newVersion := Some(version);
      newSource := source;
      newHasSibling := sibling;
    }
  }

  ghost function Members(items: seq<PackageData>): set<PackageData> { set p | p in items }

  ghost function ItemAt(items: seq<PackageData>, i: nat): PackageData? {
    if i < |items| then items[i] else null
  }

  /** The item before position i, or null at the head. */
  ghost function ItemBefore(items: seq<PackageData>, i: nat): PackageData?
    requires i <= |items|
  {
    if i == 0 then null else items[i - 1]
  }

  ghost predicate Chain(head: PackageData?, items: seq<PackageData>)
    reads Members(items)`next
  {
    head == ItemAt(items, 0) && forall i {:trigger items[i].next} :: 0 <= i < |items| ==>
      items[i].next == ItemAt(items, i + 1)
  }

  ghost predicate Increasing(items: seq<PackageData>) {
    forall i, j :: 0 <= i < j < |items| ==> Before(items[i].name, items[j].name)
  }

  /** All names before position k are smaller, those from there on larger. */
  ghost predicate Gap(items: seq<PackageData>, k: nat, name: Name) {
    && k <= |items|
    && (forall i :: 0 <= i < k ==> Before(items[i].name, name))
    && (forall i :: k <= i < |items| ==> Before(name, items[i].name))
  }

  class List {
    var list: PackageData?
    var last: PackageData?
    const sources: S.Sources
    ghost var items: seq<PackageData>
    ghost var states: States

    constructor (sources: S.Sources)
      ensures Valid() && items == [] && states == map[] && this.sources == sources
    {
      list, last, items, states := null, null, [], map[];
      this.sources := sources;
    }

    /** The list is strictly sorted by name, and the cursor is in it or before it. */
    ghost predicate Valid()
      reads `list, `last, `items, Members(items)`next
    {
      Chain(list, items) && Increasing(items) && (last == null || last in items)
    }

    /** Where a package of this name is, or between which items it belongs; starts over at most once. */
    method Search(name: Name) returns (insertafter: PackageData?, current: PackageData?, ghost k: nat)
      requires Valid()
      ensures current != null ==> current in items && current.name == name
      ensures current == null ==> Gap(items, k, name) && insertafter == ItemBefore(items, k)
    {
      hide Increasing, Gap, Compare;
      ghost var restarts: nat := 0;
      insertafter := last;
      k := 0;
      if insertafter != null {
        k :| k < |items| && items[k] == insertafter;
        k := k + 1;
        current := insertafter.next;
      } else {
        current := list;
      }
      while true
        invariant k <= |items| && insertafter == ItemBefore(items, k) && current == ItemAt(items, k)
        invariant restarts <= 1 && (restarts == 1 && k > 0 ==> Before(items[k - 1].name, name))
        decreases 1 - restarts, |items| - k
      {
        var cmp := if current == null then Less else Compare(name, current.name);
        if current != null {
          CompareEqual(name, current.name);
          CompareSwap(current.name, name);
        }
        if cmp == Equal {
          break;
        }
        if cmp == Less {
          if insertafter == null {
            GapHere(items, k, name);
            current := null;
            break;
          }
          var precmp := Compare(name, insertafter.name);
          CompareEqual(name, insertafter.name);
          CompareSwap(insertafter.name, name);
          CompareSwap(name, insertafter.name);
          if precmp == Equal {
            current := insertafter;
            break;
          } else if precmp == Less {
            assert restarts == 0;
            current := list;
            insertafter := null;
            k, restarts := 0, restarts + 1;
            continue;
          } else {
            GapHere(items, k, name);
            current := null;
            break;
          }
        }
        insertafter := current;
        current := current.next;
        k := k + 1;
        if current == null {
          GapHere(items, k, name);
          break;
        }
      }
    }

    /** Links an item into the list before position k. */
    method LinkIn(added: PackageData, insertafter: PackageData?, ghost k: nat)
      requires sources.Valid()
      requires Chain(list, items) && Apart(items) && k <= |items| && added !in items
      requires added.next == ItemAt(items, k) && insertafter == ItemBefore(items, k)
      modifies `list, `items, (if insertafter == null then {} else {insertafter})`next
      ensures sources.Valid() && forall v :: v in sources.all ==> v.hasSibling == old(v.hasSibling)
      ensures forall q :: q in old(Members(items)) ==>
        q.newVersion == old(q.newVersion) && q.newSource == old(q.newSource) && q.newHasSibling == old(q.newHasSibling)
      ensures items == With(old(items), k, added) && Chain(list, items) && states == old(states)
    {
      hide S.Sources.Valid;
      ghost var was := items;
      if insertafter != null {
        insertafter.next := added;
      } else {
        list := added;
      }
      items := With(items, k, added);
      forall i | 0 <= i < |items| ensures items[i].next == ItemAt(items, i + 1) {
        if i > k {
          assert items[i] == was[i - 1];
        }
      }
    }

    /** Puts an item into the gap where it belongs, and the cursor to it. */
    method Insert(added: PackageData, insertafter: PackageData?, ghost k: nat)
      requires sources.Valid()
      requires Valid() && Gap(items, k, added.name) && added !in items
      requires added.next == ItemAt(items, k) && insertafter == ItemBefore(items, k)
      modifies `list, `last, `items, (if insertafter == null then {} else {insertafter})`next
      ensures sources.Valid() && forall v :: v in sources.all ==> v.hasSibling == old(v.hasSibling)
      ensures forall q :: q in old(Members(items)) ==>
        q.newVersion == old(q.newVersion) && q.newSource == old(q.newSource) && q.newHasSibling == old(q.newHasSibling)
      ensures Valid() && last == added && items == With(old(items), k, added) && states == old(states)
      ensures forall q :: q in items <==> q in old(items) || q == added
    {
      Different(items);
      WithIncreasing(items, k, added);
      hide Increasing, Gap, Apart, Chain;
      LinkIn(added, insertafter, k);
      last := added;
    }

    /** The package is not in the list yet: it goes into the gap, and the cursor to it. */
    method InsertNew(p: Package, src: S.SourceVersion?, insertafter: PackageData?, ghost k: nat)
      requires sources.Valid()
      requires Valid() && Gap(items, k, p.name) && insertafter == ItemBefore(items, k)
      modifies `list, `last, `items, (if insertafter == null then {} else {insertafter})`next
      ensures sources.Valid() && forall v :: v in sources.all ==> v.hasSibling == old(v.hasSibling)
      ensures forall q :: q in old(Members(items)) ==>
        q.newVersion == old(q.newVersion) && q.newSource == old(q.newSource) && q.newHasSibling == old(q.newHasSibling)
      ensures Valid() && last != null && fresh(last) && states == old(states)
      ensures forall q :: q in items <==> q in old(items) || q == last
      ensures last.name == p.name && last.oldVersion == None && last.newVersion == Some(p.version)
      ensures last.newSource == src && last.oldSource == null && !last.newHasSibling
    {
      var after := if insertafter != null then insertafter.next else list;
      hide Increasing, Gap;
      var added := new PackageData(p.name, None, null, Some(p.version), src, after);
      Insert(added, insertafter, k);
    }

    ghost predicate Consistent()
      reads this, Members(items), sources, S.Nodes(sources.shape), sources.all
    {
      Valid() && sources.Valid() && Shows(items, sources.all, states) && AllReady(states)
    }

    lemma SiblingFound(p: Package, src: S.SourceVersion?)
      requires sources.Valid() && IsSource(sources.all, p, src)
      ensures SourceHasSibling(src, sources.all) == OfferedSibling(sources.all, p)
    {
      forall v, w | v in sources.all && w in sources.all && v.name.name == w.name.name && v.version == w.version
        ensures v == w
      {
        sources.VersionsUnique(v, w);
      }
      SourceSibling(sources.all, p, src);
    }

    /** The new item shows as one more state. */
    method InsertShown(p: Package, src: S.SourceVersion?, insertafter: PackageData?, ghost k: nat)
      requires sources.Valid()
      requires Valid() && Gap(items, k, p.name) && insertafter == ItemBefore(items, k)
      requires Shows(items, sources.all, states) && SourceHasSibling(src, sources.all) == OfferedSibling(sources.all, p)
      modifies `list, `last, `items, (if insertafter == null then {} else {insertafter})`next
      ensures sources.Valid() && forall v :: v in sources.all ==> v.hasSibling == old(v.hasSibling)
      ensures Valid() && p.name !in old(states)
      ensures forall q :: q in Members(items) ==> q in old(Members(items)) || fresh(q)
      ensures Shows(items, sources.all, old(states[p.name := Unknown(OfferOf(p, sources.all))]))
      ensures old(AllParse(items)) && V.Parse(p.version).Ok? ==> AllParse(items)
    {
      ghost var all := sources.all;
      AbsentName(items, k, all, states, p.name);
      hide *;
      InsertNew(p, src, insertafter, k);
      NewState(p, src, last, all);
      ShowsMore();
    }

    lemma NewFrom(p: Package, src: S.SourceVersion?)
      requires Consistent() && IsSource(sources.all, p, src)
      ensures Valid() && sources.Valid() && Shows(items, sources.all, states)
      ensures SourceHasSibling(src, sources.all) == OfferedSibling(sources.all, p)
      ensures var m := Flooded(states, p.name, OfferOf(p, sources.all));
        AllReady(m) && (p.name !in states ==> m == states[p.name := Unknown(OfferOf(p, sources.all))])
    {
      SiblingFound(p, src);
    }

    /** The offer is for a package not in the list. */
    method TryNew(p: Package, src: S.SourceVersion?, insertafter: PackageData?, ghost k: nat)
      requires Consistent() && Gap(items, k, p.name) && insertafter == ItemBefore(items, k)
      requires IsSource(sources.all, p, src)
      modifies `list, `last, `items, `states, (if insertafter == null then {} else {insertafter})`next
      ensures Consistent() && states == old(Flooded(states, p.name, OfferOf(p, sources.all)))
      ensures old(AllParse(items)) && V.Parse(p.version).Ok? ==> AllParse(items)
      ensures forall q :: q in Members(items) ==> q in old(Members(items)) || fresh(q)
    {
      ghost var m := Flooded(states, p.name, OfferOf(p, sources.all));
      NewFrom(p, src);
      hide *;
      InsertShown(p, src, insertafter, k);
      Redraw(m);
    }

    lemma ChooseFrom(current: PackageData)
      requires Consistent() && current in items
      ensures ItemOk(current, sources.all) && forall q :: q in items && q.name == current.name ==> q == current
    {
      NamesDiffer(items, current);
    }

    /** What the list shows when an item has been changed. */
    twostate lemma Chosen(new current: PackageData, p: Package, new src: S.SourceVersion?)
      requires old(Consistent()) && current in items && current.name == p.name && (src != null ==> src in sources.all)
      requires SourceHasSibling(src, sources.all) == OfferedSibling(sources.all, p)
      requires unchanged(this) && unchanged(sources) && unchanged(old(S.Nodes(sources.shape)))
      requires unchanged(old(sources.all)) && unchanged(old(Members(items))`next)
      requires current.newVersion == Some(p.version) && current.newSource == src
      requires current.newHasSibling == (src != null && src.hasSibling)
      requires forall q :: q in items && q != current ==>
        q.newVersion == old(q.newVersion) && q.newSource == old(q.newSource) && q.newHasSibling == old(q.newHasSibling)
      ensures Valid() && sources.Valid()
      ensures var s := old(Replaced(StateOf(current, sources.all), OfferOf(p, sources.all)));
        AllReady(states[p.name := s]) && Shows(items, sources.all, states[p.name := s])
      ensures old(AllParse(items)) && V.Parse(p.version).Ok? ==> AllParse(items)
    {
      NamesDiffer(items, current);
      hide Valid, S.Sources.Valid, V.Parse, S.Nodes;
      assert old(ItemOk(current, sources.all));
      assert StateOf(current, sources.all) == Replaced(old(StateOf(current, sources.all)), OfferOf(p, sources.all));
      assert ItemOk(current, sources.all);
      ShowsChanged(current);
      ReadyChanged(states, p.name, StateOf(current, sources.all));
    }

    /** The offer replaces what was chosen for an item. */
    method Choose(current: PackageData, p: Package, src: S.SourceVersion?)
      requires Consistent() && current in items && current.name == p.name && (src != null ==> src in sources.all)
      requires SourceHasSibling(src, sources.all) == OfferedSibling(sources.all, p)
      modifies `states, current`newVersion, current`newSource, current`newHasSibling
      ensures Consistent()
      ensures states == old(states[p.name := Replaced(StateOf(current, sources.all), OfferOf(p, sources.all))])
      ensures old(AllParse(items)) && V.Parse(p.version).Ok? ==> AllParse(items)
    {
      ghost var members, all, nodes := Members(items), sources.all, S.Nodes(sources.shape);
      ghost var m := states[p.name := Replaced(StateOf(current, all), OfferOf(p, all))];
      Parts();
      ChooseFrom(current);
      hide *;
      current.SetNew(p.version, src, src != null && src.hasSibling);
      assert unchanged(sources) && unchanged(nodes) && unchanged(all);
      Chosen(current, p, src);
      Redraw(m);
    }

    twostate lemma ShowsChanged(p: PackageData)
      requires old(Shows(items, sources.all, states)) && sources.all == old(sources.all) && states == old(states)
      requires p in items && items == old(items) && ItemOk(p, sources.all)
      requires forall q :: q in items && q.name == p.name ==> q == p
      requires forall q :: q in items && q != p ==>
        q.newVersion == old(q.newVersion) && q.newSource == old(q.newSource) && q.newHasSibling == old(q.newHasSibling)
      requires forall v :: v in sources.all ==> v.hasSibling == old(v.hasSibling)
      ensures Shows(items, sources.all, states[p.name := StateOf(p, sources.all)])
    {
      hide StateOf, ItemOk;
      forall q | q in items && q != p
        ensures StateOf(q, sources.all) == old(StateOf(q, sources.all)) && ItemOk(q, sources.all)
      {
        SameState(q, sources.all);
      }
    }

    lemma ItemState(current: PackageData)
      requires Consistent() && current in items
      ensures ItemOk(current, sources.all) && Ready(StateOf(current, sources.all))
      ensures current.name in states && states[current.name] == StateOf(current, sources.all)
    {
    }

    /** Nothing that matters for offers has changed. */
    twostate predicate Same()
      reads this, Members(items), sources, sources.all, S.Nodes(sources.shape)
    {
      && Consistent() && items == old(items) && states == old(states) && sources.all == old(sources.all)
      && AllParse(items) == old(AllParse(items))
      && (forall v :: v in sources.all ==> v.hasSibling == old(v.hasSibling))
      && forall p :: OfferOf(p, sources.all) == old(OfferOf(p, sources.all))
    }

    twostate lemma Undisturbed()
      requires old(Consistent()) && Valid() && items == old(items) && states == old(states)
      requires unchanged(old(Members(items))) && unchanged(sources)
      requires unchanged(old(sources.all)) && unchanged(old(S.Nodes(sources.shape)))
      ensures Same()
    {
      hide Valid, S.Sources.Valid, Shows, AllParse, OfferOf, V.Parse, Members, AllReady;
      assert Shows(items, sources.all, states);
      Together();
    }

    twostate lemma SameList()
      requires Same()
      ensures Consistent() && items == old(items) && states == old(states) && AllParse(items) == old(AllParse(items))
      ensures sources.all == old(sources.all) && forall v :: v in sources.all ==> v.hasSibling == old(v.hasSibling)
    {
    }

    /** Moves the cursor. */
    method Point(current: PackageData?)
      requires Consistent() && (current == null || current in items)
      modifies `last
      ensures Same() && last == current
    {
      ghost var members, all, nodes := Members(items), sources.all, S.Nodes(sources.shape);
      Parts();
      hide *;
      SetLast(current);
      assert unchanged(sources) && unchanged(nodes) && unchanged(all) && unchanged(members);
      Undisturbed();
    }

    method SetLast(current: PackageData?)
      requires Valid() && (current == null || current in items)
      modifies `last
      ensures Valid() && last == current
    {
      last := current;
    }

    lemma JudgeFrom(current: PackageData, p: Package, src: S.SourceVersion?)
      requires Consistent() && current in items && current.name == p.name && IsSource(sources.all, p, src)
      ensures ItemOk(current, sources.all) && (src != null ==> src in sources.all)
      ensures AllParse(items) ==> Parses(current)
      ensures SourceHasSibling(src, sources.all) == OfferedSibling(sources.all, p)
      ensures OfferOf(p, sources.all) == Offer(ParsedOf(p.version), SourceHasSibling(src, sources.all))
      ensures var s, o := StateOf(current, sources.all), OfferOf(p, sources.all);
        && Ready(s) && states[p.name := s] == states
        && Flooded(states, p.name, o) == states[p.name := Take(s, o)]
    {
      Parts();
      hide Consistent, Valid, sources.Valid, V.Parse;
      SiblingFound(p, src);
      ItemState(current);
      FloodedKnown(states, p.name, OfferOf(p, sources.all));
    }

    /** The decision about an offer, and what it makes of the state of the item. */
    method Judge(current: PackageData, p: Package, src: S.SourceVersion?) returns (d: Decision)
      requires Consistent() && current in items && current.name == p.name && IsSource(sources.all, p, src)
      ensures Same() && StateOf(current, sources.all) == old(StateOf(current, sources.all))
      ensures d == Fail ==> !(AllParse(items) && V.Parse(p.version).Ok?)
      ensures d == Reject ==> states == Flooded(states, p.name, OfferOf(p, sources.all))
      ensures d == Accept ==>
        states[p.name := Replaced(StateOf(current, sources.all), OfferOf(p, sources.all))]
          == Flooded(states, p.name, OfferOf(p, sources.all))
    {
      ghost var members, all, nodes := Members(items), sources.all, S.Nodes(sources.shape);
      Parts();
      JudgeFrom(current, p, src);
      hide *;
      d := Decide(current, p, src, all);
      assert unchanged(sources) && unchanged(nodes) && unchanged(all) && unchanged(members);
      Undisturbed();
    }

    /** What the answer about an offer says. */
    twostate predicate Answer(r: Result, p: Package)
      requires old(Consistent())
      reads this, Members(items), sources, sources.all, S.Nodes(sources.shape)
    {
      && (r != Error ==> states == old(Flooded(states, p.name, OfferOf(p, sources.all))))
      && (r != Ok ==> states == old(states) && items == old(items))
      && (r == Error ==> !(old(AllParse(items)) && V.Parse(p.version).Ok?))
      && (old(AllParse(items)) && V.Parse(p.version).Ok? ==> AllParse(items))
    }

    /** The offer is for a package in the list. */
    method TryKnown(current: PackageData, p: Package, src: S.SourceVersion?) returns (r: Result)
      requires Consistent() && current in items && current.name == p.name && IsSource(sources.all, p, src)
      modifies `states, current`newVersion, current`newSource, current`newHasSibling
      ensures Consistent() && Answer(r, p)
    {
      hide Consistent, Flooded, AllParse, V.Parse, OfferOf, StateOf, Replaced;
      hide IsSource, SourceHasSibling, OfferedSibling;
      JudgeFrom(current, p, src);
      var d := Judge(current, p, src);
      if d == Fail {
        return Error;
      }
      if d == Reject {
        return Nothing;
      }
      Choose(current, p, src);
      return Ok;
    }

    lemma SourceIs(p: Package, v: S.SourceVersion?)
      requires v != null ==> v in sources.all && v.name.name == p.source && v.version == p.sourceVersion
      requires v == null ==> forall w :: w in sources.all ==> w.name.name != p.source || w.version != p.sourceVersion
      ensures IsSource(sources.all, p, v)
    {
    }

    /** The source of the package and its place in the list. */
    method Place(p: Package)
      returns (src: S.SourceVersion?, insertafter: PackageData?, current: PackageData?, ghost k: nat)
      requires Consistent()
      ensures Same() && IsSource(sources.all, p, src)
      ensures current != null ==> current in items && current.name == p.name
      ensures current == null ==> Gap(items, k, p.name) && insertafter == ItemBefore(items, k)
      ensures current == null && insertafter != null ==> insertafter in items
    {
      ghost var members, all, nodes := Members(items), sources.all, S.Nodes(sources.shape);
      Parts();
      hide *;
      insertafter, current, k := Search(p.name);
      assert unchanged(sources) && unchanged(nodes) && unchanged(all) && unchanged(members);
      assert Valid();
      src := sources.Find(p.source, p.sourceVersion);
      assert unchanged(sources) && unchanged(nodes) && unchanged(all) && unchanged(members);
      assert Valid();
      Undisturbed();
      SourceIs(p, src);
      BeforeIn(items, k);
    }

    /** floodlist_trypackage */
    method TryPackage(p: Package) returns (r: Result)
      requires Consistent()
      modifies this, Members(items)
      ensures Consistent() && forall q :: q in Members(items) ==> q in old(Members(items)) || fresh(q)
      ensures r != Error ==> states == old(Flooded(states, p.name, OfferOf(p, sources.all)))
      ensures r != Ok ==> states == old(states) && items == old(items)
      ensures r == Error ==> !(old(AllParse(items)) && V.Parse(p.version).Ok?)
      ensures old(AllParse(items)) && V.Parse(p.version).Ok? ==> AllParse(items)
    {
      hide Consistent, Flooded, AllParse, V.Parse, OfferOf, Gap, ItemBefore;
      var insertafter, current, src;
      ghost var k;
      src, insertafter, current, k := Place(p);
      if current == null {
        TryNew(p, src, insertafter, k);
        return Ok;
      }
      Point(current);
      r := TryKnown(current, p, src);
    }

    /** The states are those of m after the first i packages; if all is good, all versions can be parsed. */
    ghost predicate Fed(m: States, packages: seq<Package>, i: nat, good: bool)
      reads this, Members(items), sources, S.Nodes(sources.shape), sources.all
    {
      && i <= |packages| && Consistent() && AllReady(m) && states == FloodAll(m, Feed(packages[..i], sources.all))
      && (good ==> AllParse(items) && AllGood(packages))
    }

    lemma FedNothing(m: States, packages: seq<Package>, good: bool)
      requires Consistent() && states == m && (good ==> AllParse(items) && AllGood(packages))
      ensures Fed(m, packages, 0, good)
    {
      assert packages[..0] == [];
    }

    lemma FedNext(m: States, packages: seq<Package>, i: nat, good: bool)
      requires i < |packages| && Fed(m, packages, i, good)
      ensures Consistent() && AllReady(m)
      ensures FloodAll(m, Feed(packages[..i + 1], sources.all))
        == Flooded(states, packages[i].name, OfferOf(packages[i], sources.all))
      ensures good ==> AllParse(items) && V.Parse(packages[i].version).Ok? && AllGood(packages)
    {
      hide Consistent, Flooded, OfferOf, V.Parse, FloodAll;
      FeedMore(packages, i, sources.all, m);
    }

    lemma FedOneMore(m: States, packages: seq<Package>, i: nat, good: bool)
      requires i <= |packages| && Consistent() && AllReady(m) && states == FloodAll(m, Feed(packages[..i], sources.all))
      requires good ==> AllParse(items) && AllGood(packages)
      ensures Fed(m, packages, i, good)
    {
    }

    lemma FedAll(m: States, packages: seq<Package>, good: bool)
      requires Fed(m, packages, |packages|, good)
      ensures Consistent() && AllReady(m) && states == FloodAll(m, Feed(packages, sources.all))
      ensures good ==> AllParse(items)
    {
      assert packages[..|packages|] == packages;
    }

    /** The packages before one of these have been fed. */
    ghost predicate FedPart(m: States, packages: seq<Package>)
      reads this, Members(items), sources, S.Nodes(sources.shape), sources.all
    {
      exists i: nat :: i < |packages| && Fed(m, packages, i, false)
    }

    method Turn(packages: seq<Package>, i: nat, ghost m: States, ghost good: bool) returns (r: Result)
      requires i < |packages| && Fed(m, packages, i, good)
      modifies this, Members(items)
      ensures r != Error ==> Fed(m, packages, i + 1, good)
      ensures r == Error ==> FedPart(m, packages) && !good
      ensures r == Nothing ==> states == old(states)
      ensures Consistent() && forall q :: q in Members(items) ==> q in old(Members(items)) || fresh(q)
    {
      ghost var all := sources.all;
      assert allocated(all);
      hide *;
      FedNext(m, packages, i, good);
      r := TryPackage(packages[i]);
      assert unchanged(all);
      if r == Error {
        FedOneMore(m, packages, i, false);
        PartFed(m, packages, i);
      } else {
        FedOneMore(m, packages, i + 1, good);
      }
    }

    lemma PartFed(m: States, packages: seq<Package>, i: nat)
      requires i < |packages| && Fed(m, packages, i, false)
      ensures FedPart(m, packages)
    {
    }

    /** Offers one package after the other, until one cannot be compared. */
    method Offered(packages: seq<Package>, ghost m: States, ghost good: bool) returns (r: Result)
      requires AllReady(m) && Fed(m, packages, 0, good)
      modifies this, Members(items)
      ensures Consistent() && forall q :: q in Members(items) ==> q in old(Members(items)) || fresh(q)
      ensures r != Error ==> states == FloodAll(m, Feed(packages, sources.all)) && (good ==> AllParse(items))
      ensures r == Nothing ==> states == old(states)
      ensures r == Error ==> FedPart(m, packages) && !good
    {
      hide *;
      r := Nothing;
      for i := 0 to |packages|
        invariant Fed(m, packages, i, good) && r != Error && (r == Nothing ==> states == old(states))
        invariant forall q :: q in Members(items) ==> q in old(Members(items)) || fresh(q)
      {
        var one := Turn(packages, i, m, good);
        if one != Nothing {
          r := one;
        }
        if one == Error {
          return;
        }
      }
      FedAll(m, packages, good);
    }

    /** floodlist_pull: goes back to before the list and offers the packages. */
    method Pull(packages: seq<Package>) returns (r: Result)
      requires Consistent()
      modifies this, Members(items)
      ensures Consistent() && forall q :: q in Members(items) ==> q in old(Members(items)) || fresh(q)
      ensures r != Error ==> states == FloodAll(old(states), Feed(packages, sources.all))
      ensures r == Nothing ==> states == old(states)
      ensures r == Error ==> FedPart(old(states), packages)
      ensures old(AllParse(items)) && AllGood(packages) ==> r != Error && AllParse(items)
    {
      ghost var m, good := states, AllParse(items) && AllGood(packages);
      assert AllParse(items) && AllGood(packages) ==> good;
      hide *;
      Point(null);
      SameList();
      FedNothing(m, packages, good);
      r := Offered(packages, m, good);
    }

    twostate lemma ShowsMore()
      requires old(Shows(items, sources.all, states)) && sources.all == old(sources.all) && states == old(states)
      requires last != null && ItemOk(last, sources.all) && last.name !in states
      requires forall q :: q in items <==> q in old(items) || q == last
      requires forall q :: q in old(Members(items)) ==>
        q.newVersion == old(q.newVersion) && q.newSource == old(q.newSource) && q.newHasSibling == old(q.newHasSibling)
      requires forall v :: v in sources.all ==> v.hasSibling == old(v.hasSibling)
      ensures Shows(items, sources.all, states[last.name := StateOf(last, sources.all)])
      ensures forall q :: q in Members(items) ==> q in old(Members(items)) || q == last
      ensures old(AllParse(items)) && Parses(last) ==> AllParse(items)
    {
      ghost var all, m := sources.all, states[last.name := StateOf(last, sources.all)];
      hide StateOf, ItemOk, Parses, V.Parse;
      forall q | q in items
        ensures q.name in m && m[q.name] == StateOf(q, all) && ItemOk(q, all)
        ensures q != last ==> q in old(items) && Parses(q) == old(Parses(q))
      {
        if q != last {
          assert q in old(Members(items));
          SameState(q, all);
        }
      }
      forall n | n in m ensures exists q :: q in items && q.name == n {
        if n == last.name {
          assert last in items;
        } else {
          var q :| q in old(items) && q.name == n;
          assert q in items;
        }
      }
    }

    lemma Together()
      requires Valid() && sources.Valid() && Shows(items, sources.all, states) && AllReady(states)
      ensures Consistent()
    {
    }

    lemma Parts()
      requires Consistent()
      ensures Valid() && sources.Valid() && Shows(items, sources.all, states) && AllReady(states)
    {
    }

    ghost method Redraw(m: States)
      requires Valid() && sources.Valid() && Shows(items, sources.all, m) && AllReady(m)
      modifies `states
      ensures Consistent() && states == m && AllParse(items) == old(AllParse(items)) && items == old(items)
      ensures sources.all == old(sources.all)
    {
      hide *;
      ghost var members, all := Members(items), sources.all;
      assert allocated(members) && allocated(all);
      states := m;
      assert unchanged(members) && unchanged(all);
      assert Shows(items, all, m);
      Together();
    }
  }

  lemma BeforeIn(items: seq<PackageData>, k: nat)
    ensures k <= |items| && ItemBefore(items, k) != null ==> ItemBefore(items, k) in items
  {
  }

  /** An item is shown as it was if nothing that is shown has changed. */
  twostate lemma SameState(q: PackageData, new all: set<S.SourceVersion>)
    requires q.newVersion == old(q.newVersion) && q.newSource == old(q.newSource)
    requires q.newHasSibling == old(q.newHasSibling)
    requires old(allocated(all)) && forall v :: v in all ==> v.hasSibling == old(v.hasSibling)
    ensures StateOf(q, all) == old(StateOf(q, all)) && ItemOk(q, all) == old(ItemOk(q, all))
    ensures Parses(q) == old(Parses(q))
  {
    hide V.Parse, ParsedOf;
  }

  lemma NamesDiffer(items: seq<PackageData>, p: PackageData)
    requires Increasing(items) && p in items
    ensures forall q :: q in items && q.name == p.name ==> q == p
  {
    forall i, j | 0 <= i < j < |items| ensures items[i].name != items[j].name {
      CompareEqual(items[i].name, items[j].name);
      assert Before(items[i].name, items[j].name);
    }
  }

  lemma FloodedKnown(m: States, name: Name, o: Offer)
    requires AllReady(m) && name in m
    ensures Flooded(m, name, o) == m[name := Take(m[name], o)] && m[name := m[name]] == m
  {
  }

  lemma ReadyChanged(m: States, n: seq<int>, s: State)
    requires AllReady(m) && Ready(s)
    ensures AllReady(m[n := s])
  {
  }

  lemma NewState(p: Package, src: S.SourceVersion?, d: PackageData, all: set<S.SourceVersion>)
    requires d.name == p.name && d.oldVersion == None && d.newVersion == Some(p.version)
    requires d.newSource == src && d.oldSource == null && !d.newHasSibling
    requires SourceHasSibling(src, all) == OfferedSibling(all, p)
    ensures StateOf(d, all) == Unknown(OfferOf(p, all)) && ItemOk(d, all) && (V.Parse(p.version).Ok? ==> Parses(d))
  {
  }

  ghost predicate Apart(items: seq<PackageData>) { forall i, j :: 0 <= i < j < |items| ==> items[i] != items[j] }

  lemma Different(items: seq<PackageData>)
    requires Increasing(items)
    ensures Apart(items)
  {
    forall i, j | 0 <= i < j < |items| ensures items[i] != items[j] {
      CompareEqual(items[i].name, items[j].name);
      assert Before(items[i].name, items[j].name);
    }
  }

  lemma GapHere(items: seq<PackageData>, k: nat, name: Name)
    requires Increasing(items) && k <= |items|
    requires k > 0 ==> Before(items[k - 1].name, name)
    requires k < |items| ==> Before(name, items[k].name)
    ensures Gap(items, k, name)
  {
    forall i | 0 <= i < k - 1 ensures Before(items[i].name, name) {
      BeforeTransitive(items[i].name, items[k - 1].name, name);
    }
    forall i | k < i < |items| ensures Before(name, items[i].name) {
      BeforeTransitive(name, items[k].name, items[i].name);
    }
  }

  // ----- what the items mean

  ghost function ParsedOf(s: CString): V.Version {
    if V.Parse(s).Ok? then V.Parse(s).value else V.Version(0, [], [])
  }

  /** A known source version with a binary package of it in the target. */
  ghost predicate SourceHasSibling(v: S.SourceVersion?, all: set<S.SourceVersion>)
    reads all`hasSibling
  {
    v != null && v in all && v.hasSibling
  }

  ghost function StateOf(p: PackageData, all: set<S.SourceVersion>): State
    reads p`newVersion, p`newSource, p`newHasSibling, all`hasSibling
  {
    State(if p.oldVersion.Some? then Some(ParsedOf(p.oldVersion.value)) else None, SourceHasSibling(p.oldSource, all),
          if p.newVersion == None then None
          else Some(Offer(ParsedOf(p.newVersion.value), SourceHasSibling(p.newSource, all))),
          p.newHasSibling)
  }

  ghost predicate Parses(p: PackageData)
    reads p`newVersion
  {
    (p.oldVersion.Some? ==> V.Parse(p.oldVersion.value).Ok?) && (p.newVersion.Some? ==> V.Parse(p.newVersion.value).Ok?)
  }

  ghost predicate ItemOk(p: PackageData, all: set<S.SourceVersion>)
    reads p`newVersion, p`newHasSibling
  {
    && (p.oldVersion.Some? || p.newVersion.Some?) && (p.newHasSibling ==> p.newVersion.Some?)
    && (p.oldVersion.Some? ==> p.oldSource != null && p.oldSource in all)
  }

  /** What find_source finds for a package. */
  ghost predicate IsSource(all: set<S.SourceVersion>, p: Package, v: S.SourceVersion?) {
    if v == null then forall w :: w in all ==> w.name.name != p.source || w.version != p.sourceVersion
    else v in all && v.name.name == p.source && v.version == p.sourceVersion
  }

  /** Whether the target has a binary package of the source version of an offer. */
  ghost predicate OfferedSibling(all: set<S.SourceVersion>, p: Package)
    reads all`hasSibling
  {
    exists v :: v in all && v.name.name == p.source && v.version == p.sourceVersion && v.hasSibling
  }

  ghost function OfferOf(p: Package, all: set<S.SourceVersion>): Offer
    reads all`hasSibling
  {
    Offer(ParsedOf(p.version), OfferedSibling(all, p))
  }

  ghost predicate OneEach(all: set<S.SourceVersion>) {
    forall v, w :: v in all && w in all && v.name.name == w.name.name && v.version == w.version ==> v == w
  }

  lemma SourceSibling(all: set<S.SourceVersion>, p: Package, v: S.SourceVersion?)
    requires IsSource(all, p, v) && OneEach(all)
    ensures SourceHasSibling(v, all) == OfferedSibling(all, p)
  {
  }

  datatype Decision = Accept | Reject | Fail

  /** dpkgversions_cmp, asked whether the first version is the newer one. */
  method IsNewer(a: CString, b: CString) returns (d: Decision)
    ensures d == Fail <==> !(V.Parse(a).Ok? && V.Parse(b).Ok?)
    ensures d != Fail ==> (d == Accept <==> Newer(ParsedOf(a), ParsedOf(b)))
  {
    hide V.Parse, V.VersionOrder;
    var c := V.Compare(a, b);
    if c.Failed? {
      return Fail;
    }
    return if c.r <= 0 then Reject else Accept;
  }

  /** Whether an offer replaces what is known of a package; the checks in the order in which they are made. */
  method Decide(current: PackageData, p: Package, src: S.SourceVersion?, ghost all: set<S.SourceVersion>)
    returns (d: Decision)
    requires ItemOk(current, all) && (src != null ==> src in all)
    ensures d == Fail ==> !(Parses(current) && V.Parse(p.version).Ok?)
    ensures d != Fail ==>
      var o := Offer(ParsedOf(p.version), SourceHasSibling(src, all));
      Take(StateOf(current, all), o)
      == if d == Accept then Replaced(StateOf(current, all), o) else StateOf(current, all)
  {
    hide V.Parse, V.VersionOrder, Newer;
    d := Accept;
    if current.newHasSibling {
      d := IsNewer(p.version, current.newVersion.value);
    } else if current.oldVersion != None {
      d := IsNewer(p.version, current.oldVersion.value);
    }
    if d != Accept {
      return;
    }
    if src == null || !src.hasSibling {
      if current.newVersion == None {
        if current.oldSource.hasSibling {
          return Reject;
        }
      } else if current.newHasSibling {
        return Reject;
      } else {
        d := IsNewer(p.version, current.newVersion.value);
      }
    }
  }

  ghost function Replaced(s: State, o: Offer): State { State(s.held, s.heldSibling, Some(o), o.sibling) }

  // ----- the list as a map from names to states

  /** The items are those of the map. */
  ghost predicate Shows(items: seq<PackageData>, all: set<S.SourceVersion>, m: States)
    reads Members(items), all
  {
    && (forall p :: p in items ==> p.name in m && m[p.name] == StateOf(p, all) && ItemOk(p, all))
    && (forall n :: n in m ==> exists p :: p in items && p.name == n)
  }

  ghost predicate AllParse(items: seq<PackageData>)
    reads Members(items)
  {
    forall p :: p in items ==> Parses(p)
  }

  ghost function With(items: seq<PackageData>, k: nat, p: PackageData): seq<PackageData>
    requires k <= |items|
  {
    items[..k] + [p] + items[k..]
  }

  lemma WithIncreasing(items: seq<PackageData>, k: nat, p: PackageData)
    requires Increasing(items) && Gap(items, k, p.name)
    ensures Increasing(With(items, k, p)) && forall q :: q in With(items, k, p) <==> q in items || q == p
    ensures forall q :: q in items ==> q.name != p.name
  {
    assert items == items[..k] + items[k..];
    CompareEqual(p.name, p.name);
  }

  lemma AbsentName(items: seq<PackageData>, k: nat, all: set<S.SourceVersion>, m: States, name: Name)
    requires Gap(items, k, name) && Shows(items, all, m)
    ensures name !in m
  {
    if name in m {
      var p :| p in items && p.name == name;
      CompareEqual(name, name);
    }
  }

  ghost predicate AllGood(packages: seq<Package>) {
    forall p :: p in packages ==> V.Parse(p.version).Ok?
  }

  /** What a list of packages offers. */
  ghost function Feed(packages: seq<Package>, all: set<S.SourceVersion>): seq<Named>
    reads all`hasSibling
  {
    if packages == [] then []
    else
      var last := packages[|packages| - 1];
      Feed(packages[..|packages| - 1], all) + [Named(last.name, OfferOf(last, all))]
  }

  lemma FeedMore(packages: seq<Package>, i: nat, all: set<S.SourceVersion>, m: States)
    requires i < |packages| && AllReady(m)
    ensures FloodAll(m, Feed(packages[..i + 1], all))
      == Flooded(FloodAll(m, Feed(packages[..i], all)), packages[i].name, OfferOf(packages[i], all))
  {
    var more, feed := packages[..i + 1], Feed(packages[..i], all);
    assert more[..i] == packages[..i] && more[i] == packages[i];
    assert Feed(more, all)[..|feed|] == feed;
  }
}
