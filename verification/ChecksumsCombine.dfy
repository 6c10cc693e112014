/** Combining two checksum records, and comparing them: checksums.c. */
module ChecksumsCombine {
  import opened CText
  import opened Options
  import opened Checksums
  import Sequences

  // ----- what combining means

  /** The hashes of both, the first one's where the kinds meet. */
  function Merge(a: seq<Hash>, b: seq<Hash>): seq<Hash>
    decreases |a| + |b|
  {
    if a == [] && b == [] then []
    else if b == [] || (a != [] && a[0].kind <= b[0].kind) then
      [a[0]] + Merge(a[1..], if b != [] && b[0].kind == a[0].kind then b[1..] else b)
    else [b[0]] + Merge(a, b[1..])
  }

  function Combine(a: Record, b: Record): Record {
    var last := if a.md5 == [DASH] && b.md5 != [DASH] then b else a;
    Record(Merge(a.hashes, b.hashes), last.md5, last.size)
  }

  /** Does the second one bring a hash of this kind? */
  function Brings(a: seq<Hash>, b: seq<Hash>, kind: Code): bool
    decreases |a| + |b|
  {
    if a == [] && b == [] then false
    else if b == [] || (a != [] && a[0].kind <= b[0].kind) then
      Brings(a[1..], if b != [] && b[0].kind == a[0].kind then b[1..] else b, kind)
    else b[0].kind == kind || Brings(a, b[1..], kind)
  }

  /** At most one hash of a kind, in the order of the kinds. */
  ghost predicate Sorted(hs: seq<Hash>) { forall i, j :: 0 <= i < j < |hs| ==> hs[i].kind < hs[j].kind }

  /** The hash of a kind, if there is one. */
  function Lookup(hs: seq<Hash>, kind: Code): Option<seq<Code>> {
    if hs == [] then None else if hs[0].kind == kind then Some(hs[0].value) else Lookup(hs[1..], kind)
  }

  lemma {:induction false} LookupSmaller(hs: seq<Hash>, kind: Code)
    requires Sorted(hs) && (hs != [] ==> kind < hs[0].kind)
    ensures Lookup(hs, kind) == None
  {
    if hs != [] {
      SortedRest(hs);
      LookupSmaller(hs[1..], kind);
    }
  }

  lemma SortedRest(hs: seq<Hash>)
    requires Sorted(hs) && hs != []
    ensures Sorted(hs[1..]) && (|hs| > 1 ==> hs[0].kind < hs[1..][0].kind)
  {
  }

  lemma SortedCons(h: Hash, hs: seq<Hash>)
    requires Sorted(hs) && (hs != [] ==> h.kind < hs[0].kind)
    ensures Sorted([h] + hs)
  {
  }

  /** Which kind comes first. */
  lemma {:induction false} MergeFirst(a: seq<Hash>, b: seq<Hash>, kind: Code)
    requires (a != [] ==> kind < a[0].kind) && (b != [] ==> kind < b[0].kind)
    ensures Merge(a, b) != [] ==> kind < Merge(a, b)[0].kind
  {
  }

  /**
   Of sorted hashes the result is the sorted union of the kinds, known and unknown,
   with the first one's value where both have one.
   */
  lemma {:induction false} MergeIsUnion(a: seq<Hash>, b: seq<Hash>, kind: Code)
    requires Sorted(a) && Sorted(b)
    ensures Sorted(Merge(a, b))
    ensures Lookup(Merge(a, b), kind) == if Lookup(a, kind).Some? then Lookup(a, kind) else Lookup(b, kind)
    ensures Brings(a, b, kind) <==> Lookup(a, kind).None? && Lookup(b, kind).Some?
    decreases |a| + |b|
  {
    if a != [] { SortedRest(a); }
    if b != [] { SortedRest(b); }
    if a == [] && b == [] {
    } else if b == [] || (a != [] && a[0].kind <= b[0].kind) {
      var b' := if b != [] && b[0].kind == a[0].kind then b[1..] else b;
      MergeIsUnion(a[1..], b', kind);
      MergeFirst(a[1..], b', a[0].kind);
      SortedCons(a[0], Merge(a[1..], b'));
      LookupSmaller(a[1..], a[0].kind);
      LookupSmaller(b', a[0].kind);
    } else {
      MergeIsUnion(a, b[1..], kind);
      MergeFirst(a, b[1..], b[0].kind);
      SortedCons(b[0], Merge(a, b[1..]));
      LookupSmaller(a, b[0].kind);
    }
  }

  // ----- what the known parts of a stored record are

  datatype Kind = Md5 | Sha1 | Sha256 | Length

  function PartOf(c: Checksums, t: Kind): Part {
    match t
    case Md5 => c.md5
    case Sha1 => c.sha1
    case Sha256 => c.sha256
    case Length => c.length
  }

  predicate Placed(c: Checksums) {
    forall t :: PartOf(c, t).ofs + PartOf(c, t).len <= |c.representation|
  }

  /** A part of a structure; one of length 0 counts as missing. */
  function Value(c: Checksums, t: Kind): Option<seq<Code>>
    requires Placed(c)
  {
    var p := PartOf(c, t);
    if p.len == 0 then None else Some(c.representation[p.ofs..p.ofs + p.len])
  }

  function NonEmpty(v: Option<seq<Code>>): Option<seq<Code>> { if v == Some([]) then None else v }

  /** The same of a record. */
  function Known(r: Record, t: Kind): Option<seq<Code>> {
    match t
    case Md5 => if r.md5 == [DASH] then None else NonEmpty(Some(r.md5))
    case Sha1 => NonEmpty(Lookup(r.hashes, SHA1))
    case Sha256 => NonEmpty(Lookup(r.hashes, SHA256))
    case Length => NonEmpty(Some(r.size))
  }

  /** The same, if a missing md5sum is counted as a dash. */
  function KnownAs(r: Record, dash: nat, t: Kind): Option<seq<Code>> {
    if t == Md5 && r.md5 == [DASH] && dash == 1 then Some([DASH]) else Known(r, t)
  }

  /** This part of a text is this value. */
  ghost predicate PartIs(text: seq<Code>, p: Part, v: seq<Code>) {
    p.len == |v| && p.ofs + p.len <= |text| && text[p.ofs..p.ofs + p.len] == v
  }

  lemma KindPartNext(hs: seq<Hash>, kind: Code, ofs: nat, none: Part)
    ensures KindPart(hs, kind, ofs, none)
      == if hs == [] then none
         else KindPart(hs[1..], kind, ofs + |HashText(hs[0])|,
                       if hs[0].kind == kind then Short(ofs + 3, |hs[0].value|) else none)
    ensures Lookup(hs, kind)
      == if hs == [] then None else if hs[0].kind == kind then Some(hs[0].value) else Lookup(hs[1..], kind)
  {
  }

  lemma TextNext(before: seq<Code>, hs: seq<Hash>, after: seq<Code>)
    requires hs != []
    ensures before + (HashesText(hs) + after) == before + HashText(hs[0]) + (HashesText(hs[1..]) + after)
    ensures |before + HashText(hs[0])| == |before| + |HashText(hs[0])|
  {
    assert HashesText(hs) == HashText(hs[0]) + HashesText(hs[1..]);
    hide HashText, HashesText;
    Sequences.Regroup(HashText(hs[0]), HashesText(hs[1..]), after);
    Sequences.Regroup(before, HashText(hs[0]), HashesText(hs[1..]) + after);
  }

  /** The place that is stored for a kind is that of its value. */
  lemma {:induction false} KindPartIs(hs: seq<Hash>, kind: Code, before: seq<Code>, after: seq<Code>, none: Part)
    requires Sorted(hs) && |before + (HashesText(hs) + after)| < 0x1_0000
    ensures Lookup(hs, kind) == None ==> KindPart(hs, kind, |before|, none) == none
    ensures Lookup(hs, kind) != None ==>
              PartIs(before + (HashesText(hs) + after), KindPart(hs, kind, |before|, none), Lookup(hs, kind).value)
  {
    hide *;
    KindPartNext(hs, kind, |before|, none);
    if hs != [] {
      var h, more := hs[0], hs[1..];
      SortedRest(hs);
      TextNext(before, hs, after);
      if h.kind == kind {
        LookupSmaller(more, kind);
        HashValueAt(before, h, HashesText(more) + after);
        KindPartIs(more, kind, before + HashText(h), after, Short(|before| + 3, |h.value|));
      } else {
        KindPartIs(more, kind, before + HashText(h), after, none);
      }
    }
  }

  lemma HashValueAt(before: seq<Code>, h: Hash, after: seq<Code>)
    requires |before + HashText(h) + after| < 0x1_0000
    ensures PartIs(before + HashText(h) + after, Short(|before| + 3, |h.value|), h.value)
  {
  }

  function Slice(text: seq<Code>, p: Part): Option<seq<Code>>
    requires p.ofs + p.len <= |text|
  {
    if p.len == 0 then None else Some(text[p.ofs..p.ofs + p.len])
  }

  lemma StoredHash(r: Record, kind: Code)
    requires Sorted(r.hashes) && |Render(r)| < 0x1_0000
    ensures var p := KindPart(r.hashes, kind, 0, Part(0, 0));
      p.ofs + p.len <= |Render(r)| && Slice(Render(r), p) == NonEmpty(Lookup(r.hashes, kind))
  {
    assert [] + (HashesText(r.hashes) + Tail(r)) == Render(r);
    KindPartIs(r.hashes, kind, [], Tail(r), Part(0, 0));
    hide HashesText, KindPart, Lookup, Render, Tail;
  }

  lemma StoredIs(r: Record, dash: nat)
    ensures var c, a := Stored(r, dash), HashesText(r.hashes);
      && c.representation == Render(r) && Render(r) == a + (r.md5 + ([SPACE] + r.size))
      && c.md5 == Short(|a|, if r.md5 == [DASH] then dash else |r.md5|)
      && c.length == Short(|a| + |r.md5| + 1, |r.size|)
      && c.sha1 == KindPart(r.hashes, SHA1, 0, Part(0, 0)) && c.sha256 == KindPart(r.hashes, SHA256, 0, Part(0, 0))
  {
    hide HashesText, KindPart;
  }

  lemma SizeThere(r: Record)
    requires Canonical(r)
    ensures NonEmpty(Some(r.size)) == Some(r.size)
  {
  }

  lemma SliceNone(text: seq<Code>, ofs: nat)
    requires ofs <= |text| && Short(ofs, 0) == Part(ofs, 0)
    ensures Short(ofs, 0).ofs + Short(ofs, 0).len <= |text| && Slice(text, Short(ofs, 0)) == None
  {
  }

  lemma Md5Is(r: Record, dash: nat)
    requires dash <= 1
    ensures KnownAs(r, dash, Md5) == if r.md5 == [DASH] && dash == 0 then None else NonEmpty(Some(r.md5))
  {
  }

  lemma StoredTail(r: Record, dash: nat)
    requires Canonical(r) && |Render(r)| < 0x1_0000 && dash <= 1
    ensures var c := Stored(r, dash);
      && c.md5.ofs + c.md5.len <= |Render(r)| && c.length.ofs + c.length.len <= |Render(r)|
      && Slice(Render(r), c.length) == Some(r.size)
      && Slice(Render(r), c.md5) == KnownAs(r, dash, Md5)
  {
    hide *;
    StoredIs(r, dash);
    SizeThere(r);
    var a, text := HashesText(r.hashes), Render(r);
    TailAt(a, r.md5, r.size);
    SliceIs(text, Short(|a| + |r.md5| + 1, |r.size|), r.size);
    if r.md5 == [DASH] && dash == 0 {
      SliceNone(text, |a|);
    } else {
      SliceIs(text, Short(|a|, |r.md5|), r.md5);
    }
    Md5Is(r, dash);
  }

  lemma StoredPart(r: Record, dash: nat, t: Kind)
    requires Canonical(r) && Sorted(r.hashes) && |Render(r)| < 0x1_0000 && dash <= 1
    ensures var c := Stored(r, dash); var p := PartOf(c, t);
      p.ofs + p.len <= |c.representation| && Slice(c.representation, p) == KnownAs(r, dash, t)
  {
    StoredIs(r, dash);
    match t
    case Md5 => StoredTail(r, dash);
    case Sha1 => StoredHash(r, SHA1);
    case Sha256 => StoredHash(r, SHA256);
    case Length =>
      StoredTail(r, dash);
      assert r.size != [];
    hide Render, KindPart, Lookup, HashesText, Stored, Canonical, Sorted, Slice;
  }

  lemma StoredPlaced(r: Record, dash: nat)
    requires forall t :: var c := Stored(r, dash); var p := PartOf(c, t);
      p.ofs + p.len <= |c.representation| && Slice(c.representation, p) == KnownAs(r, dash, t)
    ensures Placed(Stored(r, dash)) && forall t :: Value(Stored(r, dash), t) == KnownAs(r, dash, t)
  {
    hide Stored, KnownAs;
  }

  /** The parts of a stored record are those of the record, if its text fits the 16 bits of the offsets. */
  lemma StoredValues(r: Record, dash: nat)
    requires Canonical(r) && Sorted(r.hashes) && |Render(r)| < 0x1_0000 && dash <= 1
    ensures Placed(Stored(r, dash))
    ensures forall t :: Value(Stored(r, dash), t) == KnownAs(r, dash, t)
  {
    hide *;
    forall t
      ensures PartOf(Stored(r, dash), t).ofs + PartOf(Stored(r, dash), t).len <= |Stored(r, dash).representation|
      ensures Slice(Stored(r, dash).representation, PartOf(Stored(r, dash), t)) == KnownAs(r, dash, t)
    {
      StoredPart(r, dash, t);
    }
    StoredPlaced(r, dash);
  }

  lemma ShortIs(ofs: nat, len: nat)
    requires ofs < 0x1_0000 && len < 0x1_0000
    ensures Short(ofs, len) == Part(ofs, len)
  {
  }

  lemma PartAt(text: seq<Code>, a: seq<Code>, m: seq<Code>, b: seq<Code>)
    requires text == a + (m + b) && |text| < 0x1_0000
    ensures PartIs(text, Short(|a|, |m|), m) && |a| <= |text| && Short(|a|, 0) == Part(|a|, 0)
  {
    Sequences.Between(a, m, b);
    ShortIs(|a|, |m|);
    ShortIs(|a|, 0);
    hide Short;
  }

  lemma TailText(a: seq<Code>, md5: seq<Code>, size: seq<Code>)
    ensures a + (md5 + ([SPACE] + size)) == a + (md5 + [SPACE]) + (size + [])
    ensures |a + (md5 + [SPACE])| == |a| + |md5| + 1
  {
    Sequences.Regroup(md5, [SPACE], size);
    Sequences.Regroup(a, md5 + [SPACE], size);
    Sequences.Nothing(size);
  }

  lemma TailAt(a: seq<Code>, md5: seq<Code>, size: seq<Code>)
    requires |a + (md5 + ([SPACE] + size))| < 0x1_0000
    ensures PartIs(a + (md5 + ([SPACE] + size)), Short(|a|, |md5|), md5)
    ensures PartIs(a + (md5 + ([SPACE] + size)), Short(|a| + |md5| + 1, |size|), size)
    ensures |a| <= |a + (md5 + ([SPACE] + size))| && Short(|a|, 0) == Part(|a|, 0)
  {
    var text, head := a + (md5 + ([SPACE] + size)), a + (md5 + [SPACE]);
    PartAt(text, a, md5, [SPACE] + size);
    TailText(a, md5, size);
    PartAt(text, head, size, []);
    hide PartIs;
  }

  lemma SliceIs(text: seq<Code>, p: Part, v: seq<Code>)
    requires PartIs(text, p, v)
    ensures p.ofs + p.len <= |text| && Slice(text, p) == NonEmpty(Some(v))
  {
  }

  // ----- checksums_check

  /** Two parts that are both there are equal. */
  predicate Agree(a: Option<seq<Code>>, b: Option<seq<Code>>) { a.None? || b.None? || a == b }

  method Differ(a: Checksums, b: Checksums, t: Kind) returns (d: bool)
    requires Placed(a) && Placed(b)
    ensures d <==> !Agree(Value(a, t), Value(b, t))
  {
    var p, q := PartOf(a, t), PartOf(b, t);
    if p.len == 0 || q.len == 0 {
      return false;
    }
    if p.len != q.len {
      assert |a.representation[p.ofs..p.ofs + p.len]| != |b.representation[q.ofs..q.ofs + q.len]|;
      return true;
    }
    d := a.representation[p.ofs..p.ofs + p.len] != b.representation[q.ofs..q.ofs + q.len];
  }

  /** checksums_check: no known part differs; and whether the second one knows more. */
  method Check(a: Checksums, b: Checksums) returns (same: bool, improves: bool)
    requires Placed(a) && Placed(b)
    ensures same <==> forall t :: Agree(Value(a, t), Value(b, t))
    ensures same ==> (improves <==> exists t :: Value(a, t).None? && Value(b, t).Some?)
  {
    improves := false;
    var kinds := [Md5, Sha1, Sha256, Length];
    for i := 0 to 4
      invariant forall k :: 0 <= k < i ==> Agree(Value(a, kinds[k]), Value(b, kinds[k]))
      invariant improves <==> exists k :: 0 <= k < i && Value(a, kinds[k]).None? && Value(b, kinds[k]).Some?
    {
      var differs := Differ(a, b, kinds[i]);
      if differs {
        return false, improves;
      }
      if PartOf(a, kinds[i]).len == 0 && PartOf(b, kinds[i]).len != 0 {
        improves := true;
      }
    }
    forall t ensures Agree(Value(a, t), Value(b, t)) { assert kinds[Place(t)] == t; }
    if exists t :: Value(a, t).None? && Value(b, t).Some? {
      ghost var t :| Value(a, t).None? && Value(b, t).Some?;
      assert kinds[Place(t)] == t;
    }
    same := true;
  }

  function Place(t: Kind): nat { match t case Md5 => 0 case Sha1 => 1 case Sha256 => 2 case Length => 3 }

  // ----- combined records

  /** As the check of one against the other. */
  ghost predicate Compatible(a: Record, b: Record) { forall t :: Agree(Known(a, t), Known(b, t)) }

  lemma {:induction false} MergePlain(a: seq<Hash>, b: seq<Hash>)
    requires PlainHashes(a) && PlainHashes(b)
    ensures PlainHashes(Merge(a, b)) && |HashesText(Merge(a, b))| <= |HashesText(a)| + |HashesText(b)|
    ensures a != [] || b != [] ==> Merge(a, b) != []
    decreases |a| + |b|
  {
    hide HashText, Plain;
    if a == [] && b == [] {
    } else if b == [] || (a != [] && a[0].kind <= b[0].kind) {
      MergePlain(a[1..], if b != [] && b[0].kind == a[0].kind then b[1..] else b);
    } else {
      MergePlain(a, b[1..]);
    }
  }

  lemma CombineCanonical(a: Record, b: Record)
    requires Canonical(a) && Canonical(b) && (a.md5 == [] ==> b.hashes == []) && (b.md5 == [] ==> a.hashes == [])
    ensures Canonical(Combine(a, b)) && |Render(Combine(a, b))| <= |Render(a)| + |Render(b)|
  {
    MergePlain(a.hashes, b.hashes);
    hide HashesText, Plain;
  }

  /** What is known after combining: what the first one knows, and else what the second one knows. */
  lemma CombineKnown(a: Record, b: Record, t: Kind)
    requires Sorted(a.hashes) && Sorted(b.hashes) && Compatible(a, b) && a.size != [] && b.size != []
    requires forall h :: h in a.hashes + b.hashes ==> h.value != []
    ensures a.md5 != [] && b.md5 != [] ==>
      Known(Combine(a, b), t) == if Known(a, t).Some? then Known(a, t) else Known(b, t)
  {
    MergeIsUnion(a.hashes, b.hashes, SHA1);
    MergeIsUnion(a.hashes, b.hashes, SHA256);
    LookupFilled(a.hashes, SHA1);
    LookupFilled(a.hashes, SHA256);
    assert Agree(Known(a, Length), Known(b, Length));
    hide Merge, Lookup;
  }

  lemma {:induction false} LookupFilled(hs: seq<Hash>, kind: Code)
    requires forall h :: h in hs ==> h.value != []
    ensures Lookup(hs, kind) != Some([])
  {
    if hs != [] {
      assert hs[0] in hs;
      LookupFilled(hs[1..], kind);
    }
  }

  /** As the documented form demands: an md5sum or a dash, and no hash that is empty; each kind once, in order. */
  ghost predicate WellFormed(r: Record) {
    Canonical(r) && Sorted(r.hashes) && r.md5 != [] && forall h :: h in r.hashes ==> h.value != []
  }

  /**
   Combining compatible records.  The structure knows just what one of them
   knew, unless neither has an md5sum: then it takes the dash for one.  In any
   case it agrees with both, and neither knows more.
   */
  lemma CombinedStands(a: Record, b: Record)
    requires WellFormed(a) && WellFormed(b) && Compatible(a, b) && |Render(a)| + |Render(b)| < 0x1_0000
    ensures var n := Stored(Combine(a, b), 1);
      && Placed(n) && Canonical(Combine(a, b))
      && (forall t :: Agree(Value(n, t), Known(a, t)) && Agree(Value(n, t), Known(b, t)))
      && (forall t :: Value(n, t).None? ==> Known(a, t).None? && Known(b, t).None?)
      && ((forall t :: Value(n, t) == if Known(a, t).Some? then Known(a, t) else Known(b, t))
          <==> !(a.md5 == [DASH] && b.md5 == [DASH]))
  {
    CombineCanonical(a, b);
    MergeIsUnion(a.hashes, b.hashes, 0);
    StoredValues(Combine(a, b), 1);
    forall t ensures Known(Combine(a, b), t) == if Known(a, t).Some? then Known(a, t) else Known(b, t) {
      CombineKnown(a, b, t);
    }
    var n := Stored(Combine(a, b), 1);
    hide Merge, Stored, Lookup, Render, Canonical;
    assert Value(n, Md5) == KnownAs(Combine(a, b), 1, Md5);
    forall t ensures Agree(Value(n, t), Known(a, t)) && Agree(Value(n, t), Known(b, t)) {
      assert Agree(Known(a, t), Known(b, t));
    }
  }

  /** So two records without an md5sum, each of which fits a third one, need not fit it when combined. */
  lemma DashIsNoMd5(a: Record, b: Record, c: Record)
    requires WellFormed(a) && WellFormed(b) && WellFormed(c) && Compatible(a, b) && |Render(a)| + |Render(b)| < 0x1_0000
    requires a.md5 == [DASH] && b.md5 == [DASH] && c.md5 != [DASH]
    ensures Agree(Known(a, Md5), Known(c, Md5)) && Agree(Known(b, Md5), Known(c, Md5))
    ensures var n := Stored(Combine(a, b), 1); Placed(n) && !Agree(Value(n, Md5), Known(c, Md5))
  {
    CombineCanonical(a, b);
    MergeIsUnion(a.hashes, b.hashes, 0);
    StoredValues(Combine(a, b), 1);
  }

  // ----- checksums_combine

  /** The rest of a record, from a position in its text on. */
  ghost predicate Left(s: seq<Code>, i: nat, hs: seq<Hash>, tail: seq<Code>) {
    i <= |s| && s[i..] == HashesText(hs) + tail && PlainHashes(hs) && tail != [] && tail[0] != COLON
  }

  /** A hash at position i of a text, as characters. */
  ghost predicate HashAt(s: CString, i: nat, h: Hash) {
    var n := |h.value|;
    && i + 4 + n <= |s| && s[i] == COLON && s[i + 1] == h.kind && s[i + 2] == COLON
    && s[i + 3..i + 3 + n] == h.value && s[i + 3 + n] == SPACE
  }

  lemma HashTextAt(s: CString, i: nat, h: Hash, rest: seq<Code>)
    requires i <= |s| && s[i..] == HashText(h) + rest
    ensures HashAt(s, i, h) && s[i + 4 + |h.value|..] == rest
  {
    var text, n := s[i..], |h.value|;
    assert text[0] == COLON && text[1] == h.kind && text[2] == COLON && text[3 + n] == SPACE;
    assert s[i + 3..i + 3 + n] == text[3..3 + n] == h.value;
    assert s[i + 4 + n..] == text[4 + n..] == rest;
  }

  lemma LeftHash(s: CString, i: nat, hs: seq<Hash>, tail: seq<Code>)
    requires Left(s, i, hs, tail)
    ensures At(s, i) == COLON <==> hs != []
    ensures hs != [] ==> HashAt(s, i, hs[0]) && Plain(hs[0]) && Left(s, i + 4 + |hs[0].value|, hs[1..], tail)
  {
    if hs == [] {
      assert s[i..][0] == tail[0];
    } else {
      assert hs[0] in hs;
      HashesSplit(hs, tail);
      hide HashText, HashesText, Plain;
      HashTextAt(s, i, hs[0], HashesText(hs[1..]) + tail);
    }
  }

  lemma LeftStart(r: Record)
    requires Canonical(r)
    ensures 0 !in Render(r) && Left(Render(r), 0, r.hashes, Tail(r))
    ensures Tail(r)[0] == DASH <==> r.md5 == [DASH]
  {
    CanonicalParsed(r);
    assert Render(r)[0..] == Render(r);
    assert r.md5 != [] ==> r.md5[0] in r.md5;
  }

  /** The characters of a value are neither spaces nor the end. */
  lemma ValueLetters(s: CString, i: nat, v: seq<Code>)
    requires i + |v| <= |s| && s[i..i + |v|] == v && SPACE !in v
    ensures forall k :: i <= k < i + |v| ==> s[k] != SPACE && s[k] != 0
  {
    forall k | i <= k < i + |v| ensures s[k] != SPACE && s[k] != 0 {
      assert s[k] == s[i..i + |v|][k - i] && s[k] in v && s[k] in s;
    }
  }

  /** Copies up to a space. */
  method CopyToSpace(s: CString, i: nat, d: seq<Code>, ghost n: nat) returns (p: nat, d': seq<Code>)
    requires i <= n < |s| && s[n] == SPACE && forall k :: i <= k < n ==> s[k] != SPACE && s[k] != 0
    ensures p == n && d' == d + s[i..n]
  {
    p, d' := i, d;
    while At(s, p) != SPACE && At(s, p) != 0
      invariant i <= p <= n && d' == d + s[i..p]
      decreases n - p
    {
      d' := d' + [s[p]];
      p := p + 1;
    }
  }

  lemma TakeIs(s: CString, i: nat, h: Hash)
    requires HashAt(s, i, h) && Plain(h)
    ensures var n := |h.value|;
      && i + 4 + n <= |s| && s[i] == COLON && s[i + 1] == h.kind && s[i + 2] == COLON
      && s[i + 3..i + 3 + n] == h.value && s[i + 3 + n] == SPACE
      && forall k :: i + 3 <= k < i + 3 + n ==> s[k] != SPACE && s[k] != 0
  {
    ValueLetters(s, i + 3, h.value);
  }

  /** Copies one hash with its colons and its space. */
  method Take(s: CString, i: nat, d: seq<Code>, ghost hs: seq<Hash>, ghost tail: seq<Code>)
    returns (p: nat, d': seq<Code>, start: nat, len: nat)
    requires Left(s, i, hs, tail) && hs != []
    ensures i < p && Left(s, p, hs[1..], tail) && d' == d + HashText(hs[0]) && start == |d| + 3 && len == |hs[0].value|
  {
    LeftHash(s, i, hs, tail);
    ghost var v := hs[0].value;
    TakeIs(s, i, hs[0]);
    hide *;
    d' := d + [s[i], s[i + 1], s[i + 2]];
    start := |d'|;
    p, d' := CopyToSpace(s, i + 3, d', i + 3 + |v|);
    len := |d'| - start;
    HashParts(d, hs[0]);
    d' := d' + [s[p]];
    p := p + 1;
  }

  /** Passes over one hash. */
  method Skip(s: CString, i: nat, ghost hs: seq<Hash>, ghost tail: seq<Code>) returns (p: nat)
    requires Left(s, i, hs, tail) && hs != []
    requires hs[0].kind != SPACE
    ensures i < p && Left(s, p, hs[1..], tail)
  {
    LeftHash(s, i, hs, tail);
    ghost var v := hs[0].value;
    TakeIs(s, i, hs[0]);
    hide *;
    p := SkipToSpace(s, i, i + 3 + |v|);
    p := p + 1;
  }

  predicate NoSpaceKind(hs: seq<Hash>) { forall h :: h in hs ==> h.kind != SPACE }

  method SkipToSpace(s: CString, i: nat, ghost n: nat) returns (p: nat)
    requires i <= n < |s| && s[n] == SPACE && forall k :: i <= k < n ==> s[k] != SPACE && s[k] != 0
    ensures p == n
  {
    p := i;
    while At(s, p) != SPACE && At(s, p) != 0
      invariant i <= p <= n
      decreases n - p
    {
      p := p + 1;
    }
  }

  /** Whether the first one's hash is next. */
  predicate FirstNext(a: seq<Hash>, b: seq<Hash>) { b == [] || (a != [] && a[0].kind <= b[0].kind) }

  /** The next hash, and what is left of both after it. */
  function Pick(a: seq<Hash>, b: seq<Hash>): Hash
    requires a != [] || b != []
  {
    if FirstNext(a, b) then a[0] else b[0]
  }

  function RestA(a: seq<Hash>, b: seq<Hash>): seq<Hash>
    requires a != [] || b != []
  {
    if FirstNext(a, b) then a[1..] else a
  }

  function RestB(a: seq<Hash>, b: seq<Hash>): seq<Hash>
    requires a != [] || b != []
  {
    if !FirstNext(a, b) || (b != [] && b[0].kind == a[0].kind) then b[1..] else b
  }

  /** What has been made so far of the hashes of both, of which a and b are left. */
  ghost predicate Merging(ra: seq<Hash>, rb: seq<Hash>, a: seq<Hash>, b: seq<Hash>, done: seq<Hash>,
                          more1: bool, more256: bool) {
    && Merge(ra, rb) == done + Merge(a, b)
    && Brings(ra, rb, SHA1) == (more1 || Brings(a, b, SHA1))
    && Brings(ra, rb, SHA256) == (more256 || Brings(a, b, SHA256))
  }

  lemma MergingMore(ra: seq<Hash>, rb: seq<Hash>, a: seq<Hash>, b: seq<Hash>, done: seq<Hash>, more1: bool,
                    more256: bool)
    requires Merging(ra, rb, a, b, done, more1, more256) && (a != [] || b != [])
    ensures Merging(ra, rb, RestA(a, b), RestB(a, b), done + [Pick(a, b)],
                    more1 || (!FirstNext(a, b) && Pick(a, b).kind == SHA1),
                    more256 || (!FirstNext(a, b) && Pick(a, b).kind == SHA256))
  {
    assert Merge(a, b) == [Pick(a, b)] + Merge(RestA(a, b), RestB(a, b));
  }

  /** One turn: copies the next hash, and passes over the same kind in the second one. */
  method CombineTurn(o: CString, b: CString, i: nat, j: nat, d: seq<Code>, ghost ha: seq<Hash>, ghost hb: seq<Hash>,
                     ghost ta: seq<Code>, ghost tb: seq<Code>)
    returns (i': nat, j': nat, d': seq<Code>, kind: Code, second: bool, start: nat, len: nat)
    requires Left(o, i, ha, ta) && Left(b, j, hb, tb) && (ha != [] || hb != []) && NoSpaceKind(hb)
    ensures Left(o, i', RestA(ha, hb), ta) && Left(b, j', RestB(ha, hb), tb)
    ensures d' == d + HashText(Pick(ha, hb)) && kind == Pick(ha, hb).kind && second == !FirstNext(ha, hb)
    ensures start == |d| + 3 && len == |Pick(ha, hb).value|
  {
    LeftHash(o, i, ha, ta);
    LeftHash(b, j, hb, tb);
    hide Left, HashText;
    i', j' := i, j;
    if At(b, j) != COLON || (At(o, i) == COLON && o[i + 1] <= b[j + 1]) {
      second, kind := false, o[i + 1];
      i', d', start, len := Take(o, i, d, ha, ta);
      if At(b, j) == COLON && kind == b[j + 1] {
        j' := Skip(b, j, hb, tb);
      }
    } else {
      second, kind := true, b[j + 1];
      j', d', start, len := Take(b, j, d, hb, tb);
    }
  }

  lemma CombineStart(ra: Record, rb: Record)
    requires Canonical(ra) && Canonical(rb)
    ensures Left(Render(ra), 0, ra.hashes, Tail(ra)) && Left(Render(rb), 0, rb.hashes, Tail(rb))
    ensures Copied([], [], Part(0, 0), Part(0, 0)) && SHA1 != SHA256
    ensures Merging(ra.hashes, rb.hashes, ra.hashes, rb.hashes, [], false, false)
  {
    LeftStart(ra);
    LeftStart(rb);
    assert [] + Merge(ra.hashes, rb.hashes) == Merge(ra.hashes, rb.hashes);
    hide Left, Render, Canonical, Tail, Merge;
  }

  lemma RestSmaller(ha: seq<Hash>, hb: seq<Hash>)
    requires ha != [] || hb != []
    ensures |RestA(ha, hb)| + |RestB(ha, hb)| < |ha| + |hb|
    ensures NoSpaceKind(hb) ==> NoSpaceKind(RestB(ha, hb))
  {
  }

  /** The loop over the hashes of both. */
  method CombineHashes(o: CString, b: CString, ghost ra: Record, ghost rb: Record)
    returns (i: nat, j: nat, d: seq<Code>, sha1: Part, sha256: Part, more1: bool, more256: bool)
    requires o == Render(ra) && b == Render(rb) && Canonical(ra) && Canonical(rb)
    requires NoSpaceKind(rb.hashes)
    ensures Left(o, i, [], Tail(ra)) && Left(b, j, [], Tail(rb)) && Copied(Merge(ra.hashes, rb.hashes), d, sha1, sha256)
    ensures more1 == Brings(ra.hashes, rb.hashes, SHA1) && more256 == Brings(ra.hashes, rb.hashes, SHA256)
  {
    hide *;
    i, j, d, sha1, sha256, more1, more256 := 0, 0, [], Part(0, 0), Part(0, 0), false, false;
    ghost var ha, hb, done, ta, tb := ra.hashes, rb.hashes, [], Tail(ra), Tail(rb);
    CombineStart(ra, rb);
    LeftColon(o, i, ha, ta);
    LeftColon(b, j, hb, tb);
    while At(o, i) == COLON || At(b, j) == COLON
      invariant Left(o, i, ha, ta) && Left(b, j, hb, tb) && i <= |o| && j <= |b|
      invariant (At(o, i) == COLON <==> ha != []) && (At(b, j) == COLON <==> hb != [])
      invariant Copied(done, d, sha1, sha256) && Merging(ra.hashes, rb.hashes, ha, hb, done, more1, more256)
      invariant NoSpaceKind(hb)
      decreases |ha| + |hb|
    {
      ghost var h := Pick(ha, hb);
      CopiedMore(done, d, sha1, sha256, h);
      MergingMore(ra.hashes, rb.hashes, ha, hb, done, more1, more256);
      RestSmaller(ha, hb);
      var start, len, kind, second;
      i, j, d, kind, second, start, len := CombineTurn(o, b, i, j, d, ha, hb, ta, tb);
      if kind == SHA1 {
        more1 := more1 || second;
        sha1 := Short(start, len);
      } else if kind == SHA256 {
        more256 := more256 || second;
        sha256 := Short(start, len);
      }
      ha, hb, done := RestA(ha, hb), RestB(ha, hb), done + [h];
      LeftColon(o, i, ha, ta);
      LeftColon(b, j, hb, tb);
    }
    MergingEnd(ra.hashes, rb.hashes, done, more1, more256);
  }

  lemma LeftColon(s: CString, i: nat, hs: seq<Hash>, tail: seq<Code>)
    requires Left(s, i, hs, tail)
    ensures i <= |s| && (At(s, i) == COLON <==> hs != [])
  {
    LeftHash(s, i, hs, tail);
  }

  lemma MergingEnd(ra: seq<Hash>, rb: seq<Hash>, done: seq<Hash>, more1: bool, more256: bool)
    requires Merging(ra, rb, [], [], done, more1, more256)
    ensures done == Merge(ra, rb) && more1 == Brings(ra, rb, SHA1) && more256 == Brings(ra, rb, SHA256)
  {
    assert done + [] == done;
  }

  /** Copies an md5sum and the size, and says how long the md5sum is. */
  method TakeTail(s: CString, i: nat, d: seq<Code>, ghost r: Record) returns (d': seq<Code>, len: nat)
    requires Left(s, i, [], Tail(r)) && Canonical(r)
    ensures d' == d + Tail(r) && len == |r.md5| && |d'| == |d| + len + 1 + |r.size|
  {
    LeftFirst(s, i, Tail(r));
    TailWord(r);
    hide Word, Left, Tail, Canonical;
    var p;
    p, d' := CopyWord(s, i, d);
    len := |d'| - |d|;
    Rejoin(s, i, p, d);
    d' := d' + [s[p]] + s[p + 1..];
  }

  lemma Rejoin(s: seq<Code>, i: nat, p: nat, d: seq<Code>)
    requires i <= p < |s|
    ensures d + s[i..p] + [s[p]] + s[p + 1..] == d + s[i..]
  {
  }

  lemma TailIsText(r: Record)
    ensures Tail(r) == r.md5 + ([SPACE] + r.size) && |Tail(r)| == |r.md5| + 1 + |r.size| && Tail(r)[|r.md5|] == SPACE
    ensures ([SPACE] + r.size)[0] == SPACE
  {
  }

  lemma TailWord(r: Record)
    requires Canonical(r)
    ensures 0 !in Tail(r) && Word(Tail(r)) == |r.md5| && |Tail(r)| == |r.md5| + 1 + |r.size|
    ensures Tail(r)[|r.md5|] == SPACE
  {
    assert forall c :: c in r.md5 ==> c != SPACE;
    hide *;
    TailC(r);
    TailIsText(r);
    WordBefore(r.md5, [SPACE] + r.size);
    Sequences.Joined(r.md5, [SPACE] + r.size);
  }

  /** checksums_combine; a dash that is taken over is counted as an md5sum of one character. */
  method CombineTexts(o: CString, b: CString, ghost ra: Record, ghost rb: Record)
    returns (n: Checksums, more1: bool, more256: bool)
    requires o == Render(ra) && b == Render(rb) && Canonical(ra) && Canonical(rb)
    requires NoSpaceKind(rb.hashes)
    ensures n == Stored(Combine(ra, rb), 1)
    ensures more1 == Brings(ra.hashes, rb.hashes, SHA1) && more256 == Brings(ra.hashes, rb.hashes, SHA256)
  {
    hide *;
    var i, j, d, sha1, sha256;
    i, j, d, sha1, sha256, more1, more256 := CombineHashes(o, b, ra, rb);
    CombinedStored(ra, rb, d, sha1, sha256);
    var ofs, len := |d|, 0;
    d, len := TakeLast(o, i, b, j, d, ra, rb);
    n := Checksums(d, Short(ofs, len), sha1, sha256, Short(ofs + len + 1, |d| - ofs - len - 1));
  }

  /** The record of which the md5sum and the size are taken. */
  ghost function LastOf(ra: Record, rb: Record): Record {
    if Tail(ra)[0] == DASH && Tail(rb)[0] != DASH then rb else ra
  }

  /** The md5sum and the size: of the second only if the first has no md5sum. */
  method TakeLast(o: CString, i: nat, b: CString, j: nat, d: seq<Code>, ghost ra: Record, ghost rb: Record)
    returns (d': seq<Code>, len: nat)
    requires Left(o, i, [], Tail(ra)) && Left(b, j, [], Tail(rb)) && Canonical(ra) && Canonical(rb)
    ensures var r := LastOf(ra, rb);
      d' == d + Tail(r) && len == |r.md5| && |d'| == |d| + len + 1 + |r.size|
  {
    LeftFirst(o, i, Tail(ra));
    LeftFirst(b, j, Tail(rb));
    hide Left, Canonical, Tail;
    if At(o, i) == DASH && At(b, j) != DASH {
      d', len := TakeTail(b, j, d, rb);
    } else {
      d', len := TakeTail(o, i, d, ra);
    }
  }

  /** What the parts are once the md5sum and the size have been copied. */
  lemma CombinedStored(ra: Record, rb: Record, d: seq<Code>, sha1: Part, sha256: Part)
    requires Canonical(ra) && Canonical(rb) && Copied(Merge(ra.hashes, rb.hashes), d, sha1, sha256)
    ensures var r := LastOf(ra, rb);
      && |Tail(r)| == |r.md5| + 1 + |r.size|
      && Stored(Combine(ra, rb), 1)
         == Checksums(d + Tail(r), Short(|d|, |r.md5|), sha1, sha256, Short(|d| + |r.md5| + 1, |r.size|))
  {
    LeftStart(ra);
    LeftStart(rb);
    hide Merge, HashesText, KindPart, Left, Canonical;
  }

  lemma LeftFirst(s: CString, i: nat, tail: seq<Code>)
    requires Left(s, i, [], tail)
    ensures i < |s| && s[i] == tail[0] && s[i..] == tail
  {
    assert [] + tail == tail;
    assert s[i..][0] == tail[0];
  }
}
