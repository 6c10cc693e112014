/**
  * Flooding one target from its beginning: reading what it holds, and pulling from other architectures, in
  * archallflood.c.
  */
module FloodTarget {
  import opened Options
  import opened CText
  import opened Strings
  import S = SourceTree
  import opened FloodChoice
  import opened FloodList
  import V = Versions
  import Sequences

  /** A package in the target; `all`: it is of architecture all. */
  datatype Held = Held(name: Name, version: CString, source: Name, sourceVersion: Name, all: bool)

  // ----- what the target says

  predicate Sibling(h: Held, source: Name, sourceVersion: Name) {
    !h.all && h.source == source && h.sourceVersion == sourceVersion
  }

  /** There is a binary package of this source version in the target that is not of architecture all. */
  predicate HasBinary(target: seq<Held>, source: Name, sourceVersion: Name) {
    exists h :: h in target && Sibling(h, source, sourceVersion)
  }

  /** The packages of architecture all. */
  function Alls(target: seq<Held>): seq<Held> {
    if target == [] then []
    else
      var last := target[|target| - 1];
      Alls(target[..|target| - 1]) + if last.all then [last] else []
  }

  predicate Sorted(hs: seq<Held>) { forall i, j :: 0 <= i < j < |hs| ==> Before(hs[i].name, hs[j].name) }

  ghost function StateIn(target: seq<Held>, h: Held): State {
    Known(ParsedOf(h.version), HasBinary(target, h.source, h.sourceVersion))
  }

  /** What is known of these packages in this target. */
  ghost function StatesIn(target: seq<Held>, hs: seq<Held>): (m: States)
    ensures AllReady(m)
  {
    if hs == [] then map[]
    else StatesIn(target, hs[..|hs| - 1])[hs[|hs| - 1].name := StateIn(target, hs[|hs| - 1])]
  }

  ghost function HeldStates(target: seq<Held>): (m: States)
    ensures AllReady(m)
  {
    StatesIn(target, Alls(target))
  }

  ghost function OfferIn(target: seq<Held>, p: Package): Offer {
    Offer(ParsedOf(p.version), HasBinary(target, p.source, p.sourceVersion))
  }

  /** What a list of packages offers to the target. */
  ghost function FeedIn(target: seq<Held>, packages: seq<Package>): seq<Named> {
    if packages == [] then []
    else
      var last := packages[|packages| - 1];
      FeedIn(target, packages[..|packages| - 1]) + [Named(last.name, OfferIn(target, last))]
  }

  function Joined(lists: seq<seq<Package>>): seq<Package> {
    if lists == [] then [] else Joined(lists[..|lists| - 1]) + lists[|lists| - 1]
  }

  // ----- lemmas about these

  lemma {:induction false} StatesNames(target: seq<Held>, hs: seq<Held>, n: seq<int>)
    ensures n in StatesIn(target, hs) <==> exists i :: 0 <= i < |hs| && hs[i].name == n
  {
    hide StateIn;
    if hs != [] {
      var k := |hs| - 1;
      StatesNames(target, hs[..k], n);
      if i :| 0 <= i < k && hs[i].name == n {
        assert hs[..k][i] == hs[i];
      }
    }
  }

  lemma {:induction false} StatesAt(target: seq<Held>, hs: seq<Held>, i: nat)
    requires Sorted(hs) && i < |hs|
    ensures hs[i].name in StatesIn(target, hs) && StatesIn(target, hs)[hs[i].name] == StateIn(target, hs[i])
    decreases |hs|
  {
    hide StateIn;
    var k := |hs| - 1;
    if i < k {
      CompareEqual(hs[i].name, hs[k].name);
      assert Before(hs[i].name, hs[k].name) && hs[..k][i] == hs[i];
      StatesAt(target, hs[..k], i);
    }
  }

  lemma {:induction false} FeedInConcat(target: seq<Held>, a: seq<Package>, b: seq<Package>)
    ensures FeedIn(target, a + b) == FeedIn(target, a) + FeedIn(target, b)
  {
    hide OfferIn;
    if b == [] {
      assert a + b == a;
    } else {
      var k := |b| - 1;
      var more := [Named(b[k].name, OfferIn(target, b[k]))];
      assert (a + b)[..|a| + k] == a + b[..k] && (a + b)[|a| + k] == b[k];
      FeedInConcat(target, a, b[..k]);
      assert FeedIn(target, a + b) == FeedIn(target, a + b[..k]) + more
        && FeedIn(target, b) == FeedIn(target, b[..k]) + more;
      hide FeedIn;
    }
  }

  lemma FedNone(m: States)
    requires AllReady(m)
    ensures FloodAll(m, []) == m
  {
  }

  lemma FedLast(m: States, feed: seq<Named>)
    requires AllReady(m) && feed != []
    ensures var k := |feed| - 1; FloodAll(m, feed) == Flooded(FloodAll(m, feed[..k]), feed[k].name, feed[k].offer)
  {
  }

  /** Feeding one list after the other is feeding them as one. */
  lemma {:induction false} FloodAllConcat(m: States, a: seq<Named>, b: seq<Named>)
    requires AllReady(m)
    ensures FloodAll(m, a + b) == FloodAll(FloodAll(m, a), b)
  {
    hide *;
    if b == [] {
      Sequences.Nothing(a);
      FedNone(FloodAll(m, a));
    } else {
      var k := |b| - 1;
      FloodAllConcat(m, a, b[..k]);
      assert (a + b)[..|a| + k] == a + b[..k] && (a + b)[|a| + k] == b[k];
      FedLast(m, a + b);
      FedLast(FloodAll(m, a), b);
    }
  }

  lemma AllsMore(target: seq<Held>, h: Held)
    ensures Alls(target + [h]) == Alls(target) + if h.all then [h] else []
  {
    assert (target + [h])[..|target|] == target;
  }

  lemma {:induction false} AllsIn(target: seq<Held>, h: Held)
    ensures h in Alls(target) <==> h in target && h.all
  {
    if target != [] {
      AllsIn(target[..|target| - 1], h);
      assert target == target[..|target| - 1] + [target[|target| - 1]];
    }
  }

  lemma BinaryMore(target: seq<Held>, h: Held, source: Name, sourceVersion: Name)
    ensures HasBinary(target + [h], source, sourceVersion)
       <==> HasBinary(target, source, sourceVersion) || Sibling(h, source, sourceVersion)
  {
    assert h in target + [h];
    assert forall g :: g in target + [h] <==> g in target || g == h;
  }

  // ----- reading the target

  /** The flags of the sources are those of the packages read so far, all of which have their source. */
  ghost predicate Flagged(all: set<S.SourceVersion>, seen: seq<Held>)
    reads all`hasSibling
  {
    && (forall v :: v in all ==> (v.hasSibling <==> HasBinary(seen, v.name.name, v.version)))
    && forall h :: h in seen ==> Sourced(all, h)
  }

  ghost predicate Sourced(all: set<S.SourceVersion>, h: Held) {
    exists v :: v in all && v.name.name == h.source && v.version == h.sourceVersion
  }

  ghost predicate SavedAs(d: PackageData, h: Held, all: set<S.SourceVersion>)
    reads d`newVersion, d`newSource, d`newHasSibling
  {
    && d.name == h.name && d.oldVersion == Some(h.version)
    && d.oldSource != null && d.oldSource in all
    && d.oldSource.name.name == h.source && d.oldSource.version == h.sourceVersion
    && d.newVersion == None && d.newSource == null && !d.newHasSibling
  }

  ghost predicate Saved(items: seq<PackageData>, hs: seq<Held>, all: set<S.SourceVersion>)
    reads Members(items)
  {
    |items| == |hs| && forall i :: 0 <= i < |items| ==> SavedAs(items[i], hs[i], all)
  }

  /** These packages have been read, and the list is at its end. */
  ghost predicate Loaded(l: List, seen: seq<Held>)
    reads l, Members(l.items), l.sources, S.Nodes(l.sources.shape), l.sources.all
  {
    && l.Valid() && l.last == ItemBefore(l.items, |l.items|)
    && l.sources.Valid() && Flagged(l.sources.all, seen) && Saved(l.items, Alls(seen), l.sources.all)
  }

  /** The source that is found is the only one of its name and version, and has the flag of the packages so far. */
  lemma FlagBefore(sources: S.Sources, h: Held, src: S.SourceVersion, before: set<S.SourceVersion>, seen: seq<Held>)
    requires sources.Valid() && sources.all == before + {src} && Flagged(before, seen)
    requires src.name.name == h.source && src.version == h.sourceVersion && (src !in before ==> !src.hasSibling)
    ensures forall v :: v in sources.all && v.name.name == h.source && v.version == h.sourceVersion ==> v == src
    ensures src.hasSibling <==> HasBinary(seen, h.source, h.sourceVersion)
  {
    forall v | v in sources.all && v.name.name == h.source && v.version == h.sourceVersion ensures v == src {
      sources.VersionsUnique(v, src);
    }
    hide S.Sources.Valid;
    if HasBinary(seen, h.source, h.sourceVersion) {
      var g :| g in seen && Sibling(g, h.source, h.sourceVersion);
      assert Sourced(before, g);
    }
  }

  /** One package more has been seen, and the flag of its source is set if it is of another architecture. */
  twostate lemma FlaggedNext(all: set<S.SourceVersion>, new h: Held, new src: S.SourceVersion,
                             new before: set<S.SourceVersion>, new seen: seq<Held>)
    requires all == before + {src} && old(allocated(src)) && old(allocated(before)) && old(Flagged(before, seen))
    requires src.name.name == h.source && src.version == h.sourceVersion
    requires forall v :: v in all && v.name.name == h.source && v.version == h.sourceVersion ==> v == src
    requires old(src.hasSibling) <==> HasBinary(seen, h.source, h.sourceVersion)
    requires src.hasSibling <==> old(src.hasSibling) || !h.all
    requires forall v :: v in all && v != src ==> v.hasSibling == old(v.hasSibling)
    ensures Flagged(all, seen + [h])
  {
    forall v | v in all ensures v.hasSibling <==> HasBinary(seen + [h], v.name.name, v.version) {
      BinaryMore(seen, h, v.name.name, v.version);
    }
    hide HasBinary;
    forall g | g in seen + [h] ensures Sourced(all, g) {
      if g in seen {
        assert Sourced(before, g);
      }
    }
  }

  /** Sets the flag of the source for a package of another architecture: the flags are right for one package more. */
  method Flag(sources: S.Sources, h: Held, src: S.SourceVersion, ghost before: set<S.SourceVersion>,
              ghost seen: seq<Held>)
    requires sources.Valid() && sources.all == before + {src} && Flagged(before, seen)
    requires src.name.name == h.source && src.version == h.sourceVersion && (src !in before ==> !src.hasSibling)
    modifies src`hasSibling
    ensures sources.Valid() && Flagged(sources.all, seen + [h]) && unchanged(sources)
  {
    ghost var all := sources.all;
    FlagBefore(sources, h, src, before, seen);
    hide *;
    if !h.all {
      src.hasSibling := true;
    }
    FlaggedNext(all, h, src, before, seen);
  }

  /** Puts a package of architecture all behind the last one, if it comes after it. */
  method SaveHeld(l: List, h: Held, src: S.SourceVersion, ghost all: set<S.SourceVersion>) returns (ok: bool)
    requires l.Valid() && l.last == ItemBefore(l.items, |l.items|) && src in all && l.sources.Valid()
    requires src.name.name == h.source && src.version == h.sourceVersion
    modifies l`list, l`last, l`items, (if l.last == null then {} else {l.last})`next
    ensures ok <==> old(l.items) == [] || Before(old(l.items)[|old(l.items)| - 1].name, h.name)
    ensures ok ==> l.Valid() && l.last != null && fresh(l.last) && l.items == old(l.items) + [l.last]
    ensures ok ==> SavedAs(l.last, h, all) && l.sources.Valid()
    ensures ok ==> forall v :: v in l.sources.all ==> v.hasSibling == old(v.hasSibling)
    ensures ok ==> forall q :: q in old(Members(l.items)) ==>
      q.newVersion == old(q.newVersion) && q.newSource == old(q.newSource) && q.newHasSibling == old(q.newHasSibling)
  {
    if l.list != null {
      CompareSwap(l.last.name, h.name);
      if Compare(h.name, l.last.name) != Greater {
        return false;
      }
    }
    GapHere(l.items, |l.items|, h.name);
    hide Increasing, Gap;
    var added := new PackageData(h.name, Some(h.version), src, None, null, null);
    assert added.next == ItemAt(l.items, |l.items|);
    l.Insert(added, l.last, |l.items|);
    assert l.items == old(l.items) + [added];
    ok := true;
  }

  lemma SavedMore(items: seq<PackageData>, hs: seq<Held>, before: set<S.SourceVersion>, all: set<S.SourceVersion>)
    requires Saved(items, hs, before) && before <= all
    ensures Saved(items, hs, all)
  {
    forall i | 0 <= i < |items| ensures SavedAs(items[i], hs[i], all) {
      assert SavedAs(items[i], hs[i], before);
    }
  }

  /** Names are in order up to here. */
  predicate SortedNext(hs: seq<Held>, h: Held) { hs == [] || Before(hs[|hs| - 1].name, h.name) }

  /** What is in the list does not depend on the sources, but for the set they are in. */
  ghost predicate Listed(l: List, seen: seq<Held>, all: set<S.SourceVersion>)
    reads l`list, l`last, l`items, Members(l.items)
  {
    l.Valid() && l.last == ItemBefore(l.items, |l.items|) && Saved(l.items, Alls(seen), all)
  }

  /** The source of a package, made if need be, with its flag set if the package is of another architecture. */
  method AddSource(sources: S.Sources, h: Held, ghost seen: seq<Held>) returns (src: S.SourceVersion)
    requires sources.Valid() && Flagged(sources.all, seen)
    modifies sources, S.Nodes(sources.shape), sources.all
    ensures sources.Valid() && Flagged(sources.all, seen + [h]) && sources.all == old(sources.all) + {src}
    ensures src.name.name == h.source && src.version == h.sourceVersion
    ensures src in old(sources.all) || fresh(src)
    ensures forall n :: n in S.Nodes(sources.shape) ==> n in old(S.Nodes(sources.shape)) || fresh(n)
  {
    ghost var before := sources.all;
    assert allocated(before);
    hide *;
    src := sources.FindOrAdd(h.source, h.sourceVersion);
    Flag(sources, h, src, before, seen);
  }

  lemma ListedNext(l: List, h: Held, seen: seq<Held>, all: set<S.SourceVersion>)
    requires Listed(l, seen, all)
    ensures !h.all ==> Listed(l, seen + [h], all)
    ensures l.items == [] || Before(l.items[|l.items| - 1].name, h.name) <==> SortedNext(Alls(seen), h)
  {
    AllsMore(seen, h);
    assert l.items != [] ==> SavedAs(l.items[|l.items| - 1], Alls(seen)[|l.items| - 1], all);
  }

  lemma ListedWider(l: List, seen: seq<Held>, before: set<S.SourceVersion>, all: set<S.SourceVersion>)
    requires Listed(l, seen, before) && before <= all
    ensures Listed(l, seen, all)
  {
    SavedMore(l.items, Alls(seen), before, all);
  }

  lemma ListedIs(l: List, seen: seq<Held>, all: set<S.SourceVersion>)
    requires Listed(l, seen, all)
    ensures l.Valid() && l.last == ItemBefore(l.items, |l.items|) && Saved(l.items, Alls(seen), all)
  {
  }

  lemma IsListed(l: List, seen: seq<Held>, all: set<S.SourceVersion>)
    requires l.Valid() && l.last == ItemBefore(l.items, |l.items|) && Saved(l.items, Alls(seen), all)
    ensures Listed(l, seen, all)
  {
  }

  lemma LastIs(items: seq<PackageData>, added: PackageData)
    ensures ItemBefore(items + [added], |items + [added]|) == added
    ensures Members(items + [added]) == Members(items) + {added}
  {
  }

  /** The items with one more behind are those of the packages with one more behind. */
  twostate lemma SavedNext(new l: List, new hs: seq<Held>, new h: Held, all: set<S.SourceVersion>)
    requires l.last != null && old(allocated(l)) && old(Saved(l.items, hs, all)) && SavedAs(l.last, h, all)
    requires l.items == old(l.items) + [l.last]
    requires forall q :: q in old(Members(l.items)) ==>
      q.newVersion == old(q.newVersion) && q.newSource == old(q.newSource) && q.newHasSibling == old(q.newHasSibling)
    ensures Saved(l.items, hs + [h], all)
  {
    ghost var was := old(l.items);
    forall i | 0 <= i < |was| ensures SavedAs(was[i], hs[i], all) {
      assert was[i] in old(Members(l.items)) && old(SavedAs(was[i], hs[i], all));
    }
  }

  /** The list with one more package behind. */
  method ListHeld(l: List, h: Held, src: S.SourceVersion, ghost seen: seq<Held>, ghost all: set<S.SourceVersion>)
    returns (ok: bool)
    requires l.sources.Valid()
    requires Listed(l, seen, all) && h.all && src in all && src.name.name == h.source && src.version == h.sourceVersion
    modifies l`list, l`last, l`items, (if l.last == null then {} else {l.last})`next
    ensures ok <==> SortedNext(Alls(seen), h)
    ensures ok ==> l.sources.Valid() && forall v :: v in l.sources.all ==> v.hasSibling == old(v.hasSibling)
    ensures ok ==> Listed(l, seen + [h], all)
    ensures ok ==> forall d :: d in Members(l.items) ==> d in old(Members(l.items)) || fresh(d)
  {
    ghost var items, hs := l.items, Alls(seen);
    ListedIs(l, seen, all);
    ListedNext(l, h, seen, all);
    AllsMore(seen, h);
    hide *;
    ok := SaveHeld(l, h, src, all);
    if ok {
      SavedNext(l, hs, h, all);
      LastIs(items, l.last);
      IsListed(l, seen + [h], all);
    }
  }

  /** No item of the list is part of the sources. */
  method AddSourceApart(l: List, h: Held, ghost seen: seq<Held>) returns (src: S.SourceVersion)
    requires l.sources.Valid() && Flagged(l.sources.all, seen)
    modifies l.sources, S.Nodes(l.sources.shape), l.sources.all
    ensures l.sources.Valid() && Flagged(l.sources.all, seen + [h]) && l.sources.all == old(l.sources.all) + {src}
    ensures src.name.name == h.source && src.version == h.sourceVersion
    ensures src in old(l.sources.all) || fresh(src)
    ensures forall n :: n in S.Nodes(l.sources.shape) ==> n in old(S.Nodes(l.sources.shape)) || fresh(n)
    ensures unchanged(l) && unchanged(old(Members(l.items)))
  {
    hide *;
    ghost var members, nodes := Members(l.items), S.Nodes(l.sources.shape);
    assert allocated(members) && allocated(nodes);
    assert forall d: object :: d in members || d == l ==> d !in nodes && d !in l.sources.all && d != l.sources;
    src := AddSource(l.sources, h, seen);
    assert unchanged(l) && unchanged(members);
  }

  /** The source of a package, which leaves the list as it is. */
  method AddSourceFor(l: List, h: Held, ghost seen: seq<Held>) returns (src: S.SourceVersion)
    requires Loaded(l, seen)
    modifies l.sources, S.Nodes(l.sources.shape), l.sources.all
    ensures Listed(l, seen, l.sources.all) && l.sources.Valid() && Flagged(l.sources.all, seen + [h])
    ensures src in l.sources.all && src.name.name == h.source && src.version == h.sourceVersion
    ensures forall v :: v in l.sources.all ==> v in old(l.sources.all) || fresh(v)
    ensures forall n :: n in S.Nodes(l.sources.shape) ==> n in old(S.Nodes(l.sources.shape)) || fresh(n)
  {
    ghost var before, nodes, members := l.sources.all, S.Nodes(l.sources.shape), Members(l.items);
    LoadedParts(l, seen);
    assert allocated(before) && allocated(nodes) && allocated(members);
    hide *;
    src := AddSourceApart(l, h, seen);
    assert Listed(l, seen, before);
    ListedWider(l, seen, before, l.sources.all);
  }

  /** `save_package_version` */
  method SavePackageVersion(l: List, h: Held, ghost seen: seq<Held>) returns (ok: bool)
    requires Loaded(l, seen)
    modifies l`list, l`last, l`items, (if l.last == null then {} else {l.last})`next
    modifies l.sources, S.Nodes(l.sources.shape), l.sources.all
    ensures ok <==> (h.all ==> SortedNext(Alls(seen), h))
    ensures ok ==> Loaded(l, seen + [h]) && forall d :: d in Members(l.items) ==> d in old(Members(l.items)) || fresh(d)
    ensures forall v :: v in l.sources.all ==> v in old(l.sources.all) || fresh(v)
    ensures forall n :: n in S.Nodes(l.sources.shape) ==> n in old(S.Nodes(l.sources.shape)) || fresh(n)
  {
    hide *;
    var src := AddSourceFor(l, h, seen);
    if h.all {
      ok := SaveListed(l, h, src, seen);
    } else {
      ListedNext(l, h, seen, l.sources.all);
      PartsLoaded(l, seen + [h]);
      ok := true;
    }
  }

  twostate lemma FlaggedStill(all: set<S.SourceVersion>, new seen: seq<Held>)
    requires old(Flagged(all, seen)) && forall v :: v in all ==> v.hasSibling == old(v.hasSibling)
    ensures Flagged(all, seen)
  {
  }

  method SaveListed(l: List, h: Held, src: S.SourceVersion, ghost seen: seq<Held>) returns (ok: bool)
    requires Listed(l, seen, l.sources.all) && l.sources.Valid() && Flagged(l.sources.all, seen + [h]) && h.all
    requires src in l.sources.all && src.name.name == h.source && src.version == h.sourceVersion
    modifies l`list, l`last, l`items, (if l.last == null then {} else {l.last})`next
    ensures ok <==> SortedNext(Alls(seen), h)
    ensures ok ==> Loaded(l, seen + [h]) && forall d :: d in Members(l.items) ==> d in old(Members(l.items)) || fresh(d)
  {
    ghost var all := l.sources.all;
    hide *;
    ok := ListHeld(l, h, src, seen, all);
    if ok {
      FlaggedStill(all, seen + [h]);
      PartsLoaded(l, seen + [h]);
    }
  }

  lemma LoadedParts(l: List, seen: seq<Held>)
    requires Loaded(l, seen)
    ensures Listed(l, seen, l.sources.all) && l.sources.Valid() && Flagged(l.sources.all, seen)
  {
  }

  lemma PartsLoaded(l: List, seen: seq<Held>)
    requires Listed(l, seen, l.sources.all) && l.sources.Valid() && Flagged(l.sources.all, seen)
    ensures Loaded(l, seen)
  {
  }

  lemma SortedOneMore(hs: seq<Held>, h: Held)
    ensures Sorted(hs + [h]) <==> Sorted(hs) && SortedNext(hs, h)
  {
    if Sorted(hs) && SortedNext(hs, h) {
      forall i | 0 <= i < |hs| - 1 ensures Before(hs[i].name, h.name) {
        BeforeTransitive(hs[i].name, hs[|hs| - 1].name, h.name);
      }
    }
    if Sorted(hs + [h]) {
      var all := hs + [h];
      assert forall i, j :: 0 <= i < j < |hs| ==> hs[i] == all[i] && hs[j] == all[j];
      if hs != [] {
        assert Before(all[|hs| - 1].name, all[|hs|].name);
      }
    }
  }

  /** The list that was read shows the states of the target. */
  lemma LoadedShows(l: List, target: seq<Held>)
    requires Loaded(l, target)
    ensures l.Valid() && l.sources.Valid() && Flagged(l.sources.all, target)
    ensures Shows(l.items, l.sources.all, HeldStates(target))
    ensures Good(target) ==> AllParse(l.items)
  {
    hide V.Parse, Alls;
    SavedSorted(l.items, Alls(target), l.sources.all);
    SavedShows(l.items, Alls(target), target, l.sources.all);
    forall h | h in Alls(target) ensures h in target && h.all {
      AllsIn(target, h);
    }
  }

  lemma SavedShows(items: seq<PackageData>, hs: seq<Held>, target: seq<Held>, all: set<S.SourceVersion>)
    requires Saved(items, hs, all) && Flagged(all, target) && Sorted(hs)
    ensures Shows(items, all, StatesIn(target, hs))
    ensures (forall h :: h in hs ==> V.Parse(h.version).Ok?) ==> AllParse(items)
  {
    hide V.Parse, StateOf, StateIn, StatesIn, Flagged, Parses, ItemOk, Sorted;
    forall p | p in items
      ensures p.name in StatesIn(target, hs) && StatesIn(target, hs)[p.name] == StateOf(p, all) && ItemOk(p, all)
      ensures (forall h :: h in hs ==> V.Parse(h.version).Ok?) ==> Parses(p)
    {
      var i :| 0 <= i < |items| && items[i] == p;
      SavedItem(items, hs, i, target, all);
    }
    forall n | n in StatesIn(target, hs) ensures exists p :: p in items && p.name == n {
      StatesNames(target, hs, n);
      var i :| 0 <= i < |hs| && hs[i].name == n;
      SavedItem(items, hs, i, target, all);
      assert items[i] in items;
    }
  }

  lemma SavedItem(items: seq<PackageData>, hs: seq<Held>, i: nat, target: seq<Held>, all: set<S.SourceVersion>)
    requires Saved(items, hs, all) && Flagged(all, target) && Sorted(hs) && i < |items|
    ensures items[i].name in StatesIn(target, hs) && StatesIn(target, hs)[items[i].name] == StateOf(items[i], all)
    ensures items[i].name == hs[i].name && ItemOk(items[i], all)
    ensures hs[i] in hs && (V.Parse(hs[i].version).Ok? ==> Parses(items[i]))
  {
    assert SavedAs(items[i], hs[i], all);
    StatesAt(target, hs, i);
    SavedState(items[i], hs[i], target, all);
  }

  lemma SavedSorted(items: seq<PackageData>, hs: seq<Held>, all: set<S.SourceVersion>)
    requires Saved(items, hs, all) && Increasing(items)
    ensures Sorted(hs)
  {
    forall i, j | 0 <= i < j < |hs| ensures Before(hs[i].name, hs[j].name) {
      assert SavedAs(items[i], hs[i], all) && SavedAs(items[j], hs[j], all);
    }
  }

  lemma SavedState(p: PackageData, h: Held, target: seq<Held>, all: set<S.SourceVersion>)
    requires SavedAs(p, h, all) && Flagged(all, target)
    ensures StateOf(p, all) == StateIn(target, h) && ItemOk(p, all) && (V.Parse(h.version).Ok? ==> Parses(p))
  {
  }

  /** The list is ready for offers to this target. */
  ghost predicate Reading(l: List, target: seq<Held>)
    reads l, Members(l.items), l.sources, S.Nodes(l.sources.shape), l.sources.all
  {
    l.Consistent() && Flagged(l.sources.all, target)
  }

  ghost predicate Good(target: seq<Held>) {
    forall h :: h in target && h.all ==> V.Parse(h.version).Ok?
  }

  /** The end of floodlist_initialize: the cursor goes back to before the list. */
  method EndReading(l: List, ghost target: seq<Held>)
    requires Loaded(l, target)
    modifies l`last, l`states
    ensures Reading(l, target) && l.states == HeldStates(target) && (Good(target) ==> AllParse(l.items))
  {
    ghost var all := l.sources.all;
    assert AllReady(HeldStates(target)) && allocated(all);
    hide *;
    LoadedShows(l, target);
    l.Redraw(HeldStates(target));
    assert l.sources.all == all && Flagged(all, target);
    label drawn:
    l.Point(null);
    StillReading@drawn(l, target);
  }

  /** Up to here the packages come in the order of their names. */
  predicate SortedTo(target: seq<Held>, i: nat)
    requires i <= |target|
  {
    forall j :: 0 <= j < i && target[j].all ==> SortedNext(Alls(target[..j]), target[j])
  }

  lemma LoadStep(target: seq<Held>, i: nat)
    requires i < |target|
    ensures target[..i + 1] == target[..i] + [target[i]]
    ensures SortedTo(target, i + 1)
       <==> SortedTo(target, i) && (target[i].all ==> SortedNext(Alls(target[..i]), target[i]))
  {
  }

  lemma SortedToEnd(target: seq<Held>, i: nat)
    requires i <= |target|
    ensures target[..0] == [] && target[..|target|] == target && SortedTo(target, 0)
    ensures SortedTo(target, |target|) <==> Sorted(Alls(target))
    ensures SortedTo(target, |target|) ==> SortedTo(target, i)
  {
    SortedAlls(target);
  }

  lemma {:induction false} SortedAlls(target: seq<Held>)
    ensures SortedTo(target, |target|) <==> Sorted(Alls(target))
  {
    if target != [] {
      var k := |target| - 1;
      var before, h := target[..k], target[k];
      SortedAlls(before);
      SortedPart(target, k);
      LoadStep(target, k);
      hide *;
      SortedOneMore(Alls(before), h);
      AllsLast(target);
    }
  }

  lemma AllsLast(target: seq<Held>)
    requires target != []
    ensures var k := |target| - 1;
      Alls(target) == if target[k].all then Alls(target[..k]) + [target[k]] else Alls(target[..k])
    ensures SortedTo(target, |target|) <==> SortedTo(target, |target| - 1 + 1)
  {
  }

  lemma SortedPart(target: seq<Held>, k: nat)
    requires k <= |target|
    ensures SortedTo(target[..k], k) <==> SortedTo(target, k)
  {
    assert forall j :: 0 <= j < k ==> target[..k][..j] == target[..j] && target[..k][j] == target[j];
  }

  lemma LastListed(l: List, seen: seq<Held>)
    requires Loaded(l, seen)
    ensures l.last == null || l.last in Members(l.items)
  {
  }

  /** The loop over the packages of the target. */
  method ReadAll(l: List, target: seq<Held>) returns (ok: bool)
    requires Loaded(l, [])
    modifies l, Members(l.items), l.sources, S.Nodes(l.sources.shape), l.sources.all
    ensures ok <==> Sorted(Alls(target))
    ensures ok ==> Loaded(l, target) && forall d :: d in Members(l.items) ==> d in old(Members(l.items)) || fresh(d)
  {
    hide *;
    SortedToEnd(target, 0);
    for i := 0 to |target|
      invariant Loaded(l, target[..i]) && SortedTo(target, i)
      invariant forall d :: d in Members(l.items) ==> d in old(Members(l.items)) || fresh(d)
      invariant forall v :: v in l.sources.all ==> v in old(l.sources.all) || fresh(v)
      invariant forall n :: n in S.Nodes(l.sources.shape) ==> n in old(S.Nodes(l.sources.shape)) || fresh(n)
    {
      LoadStep(target, i);
      LastListed(l, target[..i]);
      ok := SavePackageVersion(l, target[i], target[..i]);
      if !ok {
        SortedToEnd(target, i + 1);
        return;
      }
    }
    ok := true;
  }

  method NewList() returns (l: List)
    ensures Loaded(l, []) && Members(l.items) == {}
    ensures fresh(l) && fresh(l.sources) && fresh(l.sources.all) && fresh(S.Nodes(l.sources.shape))
  {
    var sources := new S.Sources();
    l := new List(sources);
    LoadedNothing(l);
  }

  /** floodlist_initialize; it gives up exactly if the packages do not come in the order of their names. */
  method Initialize(target: seq<Held>) returns (ok: bool, l: List)
    ensures ok <==> Sorted(Alls(target))
    ensures fresh(l) && (ok ==> Reading(l, target) && l.states == HeldStates(target))
    ensures ok ==> fresh(Members(l.items)) && (Good(target) ==> AllParse(l.items))
  {
    hide *;
    l := NewList();
    ok := ReadAll(l, target);
    if ok {
      EndReading(l, target);
    }
  }

  lemma LoadedNothing(l: List)
    requires l.Valid() && l.last == null && l.items == [] && l.sources.Valid() && l.sources.all == {}
    ensures Loaded(l, [])
  {
  }

  // ----- pulling

  lemma {:induction false} FeedIs(target: seq<Held>, packages: seq<Package>, all: set<S.SourceVersion>)
    requires Flagged(all, target)
    ensures Feed(packages, all) == FeedIn(target, packages)
  {
    if packages != [] {
      var p := packages[|packages| - 1];
      FeedIs(target, packages[..|packages| - 1], all);
      assert OfferedSibling(all, p) <==> HasBinary(target, p.source, p.sourceVersion) by {
        if HasBinary(target, p.source, p.sourceVersion) {
          var h :| h in target && Sibling(h, p.source, p.sourceVersion);
          assert Sourced(all, h);
        }
      }
    }
  }

  /** What a package offers: its version, and whether the target has a binary of its source version. */
  ghost predicate Offers(target: seq<Held>, p: Package, name: Name, o: Offer) {
    && p.name == name && o.version == ParsedOf(p.version)
    && (o.sibling <==> exists h :: h in target && !h.all && h.source == p.source && h.sourceVersion == p.sourceVersion)
  }

  lemma OffersIs(target: seq<Held>, p: Package, name: Name, o: Offer)
    ensures Offers(target, p, name, o) <==> p.name == name && o == OfferIn(target, p)
  {
    assert HasBinary(target, p.source, p.sourceVersion)
      <==> exists h :: h in target && !h.all && h.source == p.source && h.sourceVersion == p.sourceVersion by {
      if h :| h in target && !h.all && h.source == p.source && h.sourceVersion == p.sourceVersion {
        assert Sibling(h, p.source, p.sourceVersion);
      }
    }
    hide ParsedOf;
  }

  lemma FeedLast(target: seq<Held>, packages: seq<Package>, name: Name)
    requires packages != []
    ensures var k := |packages| - 1; var last := packages[k];
      OffersFor(FeedIn(target, packages), name)
      == OffersFor(FeedIn(target, packages[..k]), name) + if last.name == name then [OfferIn(target, last)] else []
  {
    var k := |packages| - 1;
    var feed := FeedIn(target, packages);
    OffersMore(feed, name);
    hide OffersFor, OfferIn;
    assert feed[..|feed| - 1] == FeedIn(target, packages[..k]);
  }

  /** What is fed for a name are the offers of the packages of that name, and nothing else. */
  lemma {:induction false} OffersAre(target: seq<Held>, packages: seq<Package>, name: Name, o: Offer)
    ensures o in OffersFor(FeedIn(target, packages), name)
       <==> exists p :: p in packages && Offers(target, p, name, o)
  {
    if packages != [] {
      hide *;
      var k := |packages| - 1;
      var last := packages[k];
      FeedLast(target, packages, name);
      OffersAre(target, packages[..k], name, o);
      OffersIs(target, last, name, o);
      assert forall p :: p in packages <==> p in packages[..k] || p == last;
    }
  }

  /** What the target's packages of architecture all become, whatever is pulled from how many architectures. */
  lemma FloodedTarget(target: seq<Held>, packages: seq<Package>, h: Held)
    requires Sorted(Alls(target)) && h in target && h.all
    ensures var m := FloodAll(HeldStates(target), FeedIn(target, packages));
      h.name in m && Best(ParsedOf(h.version), HasBinary(target, h.source, h.sourceVersion),
                          OffersFor(FeedIn(target, packages), h.name), m[h.name].chosen)
  {
    AllsIn(target, h);
    var i :| 0 <= i < |Alls(target)| && Alls(target)[i] == h;
    StatesAt(target, Alls(target), i);
    FloodChoosesBest(HeldStates(target), FeedIn(target, packages), h.name, ParsedOf(h.version),
                     HasBinary(target, h.source, h.sourceVersion));
  }

  lemma ReadingIs(l: List, target: seq<Held>)
    requires Reading(l, target)
    ensures l.Consistent() && Flagged(l.sources.all, target)
  {
  }

  lemma ReadOn(l: List, target: seq<Held>)
    requires l.Consistent() && Flagged(l.sources.all, target)
    ensures Reading(l, target)
  {
  }

  /** Moving the cursor leaves the flags alone. */
  twostate lemma StillReading(l: List, new target: seq<Held>)
    requires l.Same() && old(Flagged(l.sources.all, target))
    ensures Reading(l, target) && l.states == old(l.states) && AllParse(l.items) == old(AllParse(l.items))
  {
    hide *;
    l.SameList();
    FlaggedStill(l.sources.all, target);
    ReadOn(l, target);
  }

  /** No item of the list is part of the sources. */
  method PullApart(l: List, packages: seq<Package>) returns (r: Result)
    requires l.Consistent()
    modifies l, Members(l.items)
    ensures l.Consistent() && forall d :: d in Members(l.items) ==> d in old(Members(l.items)) || fresh(d)
    ensures r != Error ==> l.states == FloodAll(old(l.states), old(Feed(packages, l.sources.all)))
    ensures old(AllParse(l.items)) && AllGood(packages) ==> r != Error && AllParse(l.items)
    ensures l.sources.all == old(l.sources.all) && forall v :: v in l.sources.all ==> v.hasSibling == old(v.hasSibling)
  {
    hide *;
    ghost var all := l.sources.all;
    assert allocated(all);
    r := l.Pull(packages);
    assert unchanged(all);
  }

  /** floodlist_pull leaves the flags of the sources alone. */
  method PullOnce(l: List, packages: seq<Package>, ghost target: seq<Held>) returns (r: Result)
    requires Reading(l, target)
    modifies l, Members(l.items)
    ensures Reading(l, target) && forall d :: d in Members(l.items) ==> d in old(Members(l.items)) || fresh(d)
    ensures r != Error ==> l.states == FloodAll(old(l.states), FeedIn(target, packages))
    ensures old(AllParse(l.items)) && AllGood(packages) ==> r != Error && AllParse(l.items)
  {
    ghost var all := l.sources.all;
    assert allocated(all);
    hide *;
    ReadingIs(l, target);
    FeedIs(target, packages, all);
    r := PullApart(l, packages);
    FlaggedStill(all, target);
    ReadOn(l, target);
  }

  /** The pulls from one architecture after the other, until one fails. */
  method PullAll(l: List, feeds: seq<seq<Package>>, ghost target: seq<Held>) returns (r: Result)
    requires Reading(l, target) && l.states == HeldStates(target)
    modifies l, Members(l.items)
    ensures Reading(l, target)
    ensures r != Error ==> l.states == FloodAll(HeldStates(target), FeedIn(target, Joined(feeds)))
    ensures old(AllParse(l.items)) && AllGood(Joined(feeds)) ==> r != Error
  {
    ghost var good := AllParse(l.items) && AllGood(Joined(feeds));
    assert AllParse(l.items) && AllGood(Joined(feeds)) ==> good;
    assert good ==> AllParse(l.items) && AllGood(Joined(feeds));
    hide *;
    FloodedNothing(target, feeds);
    r := Nothing;
    for i := 0 to |feeds|
      invariant Reading(l, target) && forall d :: d in Members(l.items) ==> d in old(Members(l.items)) || fresh(d)
      invariant r != Error && l.states == FloodedBy(target, feeds[..i]) && (good ==> AllParse(l.items))
    {
      FloodedMore(target, feeds, i);
      var one := PullOnce(l, feeds[i], target);
      if one == Error {
        return one;
      }
      r := if one == Ok then one else r;
    }
    FloodedIs(target, feeds);
  }

  /** What is known of the packages after these have been pulled. */
  ghost function FloodedBy(target: seq<Held>, feeds: seq<seq<Package>>): (m: States)
    ensures AllReady(m)
  {
    FloodAll(HeldStates(target), FeedIn(target, Joined(feeds)))
  }

  lemma FloodedNothing(target: seq<Held>, feeds: seq<seq<Package>>)
    ensures FloodedBy(target, feeds[..0]) == HeldStates(target)
  {
    assert feeds[..0] == [];
  }

  lemma FloodedIs(target: seq<Held>, feeds: seq<seq<Package>>)
    ensures FloodedBy(target, feeds[..|feeds|]) == FloodAll(HeldStates(target), FeedIn(target, Joined(feeds)))
  {
    assert feeds[..|feeds|] == feeds;
  }

  lemma FloodedMore(target: seq<Held>, feeds: seq<seq<Package>>, i: nat)
    requires i < |feeds|
    ensures FloodedBy(target, feeds[..i + 1]) == FloodAll(FloodedBy(target, feeds[..i]), FeedIn(target, feeds[i]))
    ensures AllGood(Joined(feeds)) ==> AllGood(feeds[i])
  {
    var before := Joined(feeds[..i]);
    assert feeds[..i + 1][..i] == feeds[..i];
    JoinedIn(feeds, i);
    hide FeedIn, FloodAll, HeldStates, V.Parse;
    FeedInConcat(target, before, feeds[i]);
    FloodAllConcat(HeldStates(target), FeedIn(target, before), FeedIn(target, feeds[i]));
  }

  lemma {:induction false} JoinedIn(feeds: seq<seq<Package>>, i: nat)
    requires i < |feeds|
    ensures forall p :: p in feeds[i] ==> p in Joined(feeds)
  {
    var k := |feeds| - 1;
    if i < k {
      JoinedIn(feeds[..k], i);
    }
  }

  /** Reads the target and pulls. */
  method Flood(target: seq<Held>, feeds: seq<seq<Package>>) returns (ok: bool, r: Result, l: List)
    ensures ok <==> Sorted(Alls(target))
    ensures ok ==> l.Consistent()
    ensures ok && r != Error ==> l.states == FloodAll(HeldStates(target), FeedIn(target, Joined(feeds)))
    ensures ok && Good(target) && AllGood(Joined(feeds)) ==> r != Error
  {
    hide *;
    r := Nothing;
    ok, l := Initialize(target);
    if ok {
      r := PullAll(l, feeds, target);
      ReadingIs(l, target);
    }
  }
}
