/** Replacing fields of a control chunk: chunks.c. */
module ChunkEdit {
  import opened CText
  import Sequences
  import opened Options
  import opened Chunks

  /** A field to be written, or only to be removed. */
  datatype Entry = Entry(field: CString, data: Option<CString>)

  datatype Edit = Done(text: seq<Code>) | NothingToAdd | Misplaced

  // ----- the specification

  predicate HasAny(f: seq<Code>, names: seq<seq<Code>>) { exists n :: n in names && Matches(f, n) }

  /** The fields without those of some names. */
  function Kept(fs: seq<seq<Code>>, names: seq<seq<Code>>): seq<seq<Code>> {
    if fs == [] then [] else (if HasAny(fs[0], names) then [] else [fs[0]]) + Kept(fs[1..], names)
  }

  function AddText(name: seq<Code>, data: seq<Code>): seq<Code> { name + [COLON, SPACE] + data + [NL] }

  function Added(toadd: seq<Entry>): seq<seq<Code>> {
    if toadd == [] then []
    else (if toadd[0].data == None then [] else [AddText(toadd[0].field, toadd[0].data.value)]) + Added(toadd[1..])
  }

  function Names(toadd: seq<Entry>): (r: seq<seq<Code>>)
    ensures |r| == |toadd| && forall i :: 0 <= i < |toadd| ==> r[i] == toadd[i].field
  {
    if toadd == [] then [] else [toadd[0].field] + Names(toadd[1..])
  }

  /** Where the first field of this name is; after all of them if there is none. */
  function First(fs: seq<seq<Code>>, name: seq<Code>): (i: nat)
    ensures i <= |fs| && (i < |fs| ==> Matches(fs[i], name)) && forall j :: 0 <= j < i ==> !Matches(fs[j], name)
  {
    if fs == [] || Matches(fs[0], name) then 0 else 1 + First(fs[1..], name)
  }

  predicate Has(fs: seq<seq<Code>>, name: seq<Code>) { First(fs, name) < |fs| }

  /** The new fields before the first one of this name, and none of the old fields that are replaced. */
  function Placed(fs: seq<seq<Code>>, toadd: seq<Entry>, before: seq<Code>): seq<seq<Code>> {
    var i := First(fs, before);
    Kept(fs[..i], Names(toadd)) + Added(toadd) + Kept(fs[i..], Names(toadd))
  }

  /** The same, field by field; the new fields are missing if there is no place for them. */
  function Edited(fs: seq<seq<Code>>, toadd: seq<Entry>, before: seq<Code>): seq<seq<Code>> {
    if fs == [] then []
    else if Matches(fs[0], before) then Added(toadd) + Kept(fs, Names(toadd))
    else Kept(fs[..1], Names(toadd)) + Edited(fs[1..], toadd, before)
  }

  function ReplaceFields(chunk: seq<Code>, toadd: seq<Entry>, before: seq<Code>, maybemissing: bool): Edit {
    var fs := Fields(chunk);
    if toadd == [] then NothingToAdd
    else if Has(fs, before) then Done(Terminate(Flatten(Edited(fs, toadd, before))))
    else if maybemissing then Done(Terminate(Flatten(Edited(fs, toadd, before))) + Flatten(Added(toadd)))
    else Misplaced
  }

  function Normalize(chunk: seq<Code>, name: seq<Code>, data: seq<Code>): seq<Code> {
    Terminate(AddText(name, data) + Flatten(Kept(Fields(chunk), [name])))
  }

  // ----- lists of fields

  lemma {:induction false} KeptConcat(a: seq<seq<Code>>, b: seq<seq<Code>>, names: seq<seq<Code>>)
    ensures Kept(a + b, names) == Kept(a, names) + Kept(b, names)
  {
    if a == [] {
      assert a + b == b;
    } else {
      assert (a + b)[0] == a[0] && (a + b)[1..] == a[1..] + b;
      KeptConcat(a[1..], b, names);
    }
  }

  lemma {:induction false} FlattenConcat(a: seq<seq<Code>>, b: seq<seq<Code>>)
    ensures Flatten(a + b) == Flatten(a) + Flatten(b)
  {
    if a == [] {
      assert a + b == b;
    } else {
      assert (a + b)[0] == a[0] && (a + b)[1..] == a[1..] + b;
      FlattenConcat(a[1..], b);
      assert a[0] + (Flatten(a[1..]) + Flatten(b)) == a[0] + Flatten(a[1..]) + Flatten(b);
    }
  }

  lemma {:induction false} GetConcat(a: seq<seq<Code>>, b: seq<seq<Code>>, name: seq<Code>)
    ensures GetIn(a + b, name) == if GetIn(a, name).Some? then GetIn(a, name) else GetIn(b, name)
  {
    if a == [] {
      assert a + b == b;
    } else {
      assert (a + b)[0] == a[0] && (a + b)[1..] == a[1..] + b;
      GetConcat(a[1..], b, name);
    }
  }

  lemma {:induction false} KeptProper(fs: seq<seq<Code>>, names: seq<seq<Code>>)
    requires AllProper(fs)
    ensures AllProper(Kept(fs, names))
  {
    if fs != [] {
      assert fs[0] in fs && AllProper(fs[1..]);
      KeptProper(fs[1..], names);
    }
  }

  /** A name cannot go on where another one has its colon. */
  lemma NotLonger(f: seq<Code>, a: seq<Code>, b: seq<Code>)
    requires NameOk(b) && Matches(f, a) && |a| < |b|
    ensures !Matches(f, b)
  {
    if |b| < |f| {
      assert f[..|b|][|a|] == COLON && b[|a|] in b && Fold(b[|a|]) != COLON;
    }
  }

  /** A field has only one name. */
  lemma OneName(f: seq<Code>, a: seq<Code>, b: seq<Code>)
    requires NameOk(a) && NameOk(b) && Matches(f, a)
    ensures Matches(f, b) <==> SameName(b, a)
  {
    if |a| < |b| {
      NotLonger(f, a, b);
    } else if |b| < |a| {
      if Matches(f, b) {
        NotLonger(f, b, a);
      }
    } else {
      assert f[..|a|] == f[..|b|];
    }
  }

  lemma {:induction false} KeptGet(fs: seq<seq<Code>>, names: seq<seq<Code>>, name: seq<Code>)
    requires NameOk(name) && forall n :: n in names ==> NameOk(n)
    ensures GetIn(Kept(fs, names), name)
            == if exists n :: n in names && SameName(n, name) then None else GetIn(fs, name)
  {
    if fs != [] {
      KeptGet(fs[1..], names, name);
      KeptGetOne(fs[0], names, name);
      if HasAny(fs[0], names) {
        assert [] + Kept(fs[1..], names) == Kept(fs[1..], names);
      } else {
        assert Kept(fs, names)[1..] == Kept(fs[1..], names);
      }
    }
  }

  lemma KeptGetOne(f: seq<Code>, names: seq<seq<Code>>, name: seq<Code>)
    requires NameOk(name) && forall n :: n in names ==> NameOk(n)
    ensures Matches(f, name) ==> (HasAny(f, names) <==> exists n :: n in names && SameName(n, name))
  {
    if Matches(f, name) {
      forall n | n in names && (SameName(n, name) || Matches(f, n)) ensures Matches(f, n) && SameName(n, name) {
        OneName(f, name, n);
      }
    }
  }

  // ----- terminating the last line

  lemma TerminateAfter(a: seq<Code>, b: seq<Code>)
    requires a != [] ==> a[|a| - 1] == NL
    ensures Terminate(a + b) == a + Terminate(b)
  {
    if b != [] {
      assert a + b + [NL] == a + (b + [NL]);
    } else {
      assert a + b == a;
    }
  }

  lemma {:induction false} AddedEnds(toadd: seq<Entry>)
    ensures var t := Flatten(Added(toadd)); t != [] ==> t[|t| - 1] == NL
  {
    if toadd != [] {
      AddedEnds(toadd[1..]);
      if toadd[0].data == None {
        assert Added(toadd) == Added(toadd[1..]);
      } else {
        assert Added(toadd)[1..] == Added(toadd[1..]);
      }
    }
  }

  lemma MatchesTerminated(f: seq<Code>, name: seq<Code>)
    ensures Matches(Terminate(f), name) <==> Matches(f, name)
  {
    if |name| < |f| {
      assert Terminate(f)[..|name|] == f[..|name|];
    }
  }

  lemma HasAnyTerminated(f: seq<Code>, names: seq<seq<Code>>)
    ensures HasAny(Terminate(f), names) <==> HasAny(f, names)
  {
    forall n | n in names ensures Matches(Terminate(f), n) <==> Matches(f, n) {
      MatchesTerminated(f, n);
    }
  }

  lemma {:induction false} TerminateKept(fs: seq<seq<Code>>, names: seq<seq<Code>>)
    requires Unfinished(fs)
    ensures Terminate(Flatten(Kept(fs, names))) == Flatten(Kept(TerminateAll(fs), names))
  {
    if fs != [] {
      var k := Kept(fs[1..], names);
      var more := Flatten(k);
      HasAnyTerminated(fs[0], names);
      TerminateKept(fs[1..], names);
      assert TerminateAll(fs)[1..] == TerminateAll(fs[1..]);
      if HasAny(fs[0], names) {
        assert [] + k == k && [] + Kept(TerminateAll(fs[1..]), names) == Kept(TerminateAll(fs[1..]), names);
      } else {
        assert ([fs[0]] + k)[1..] == k;
        if |fs| == 1 {
          assert fs[0] + more == fs[0] && Terminate(fs[0]) + [] == Terminate(fs[0]);
        } else {
          TerminateAfter(fs[0], more);
        }
      }
    }
  }

  lemma {:induction false} TerminateEdited(fs: seq<seq<Code>>, toadd: seq<Entry>, before: seq<Code>)
    requires Unfinished(fs)
    ensures Terminate(Flatten(Edited(fs, toadd, before))) == Flatten(Edited(TerminateAll(fs), toadd, before))
  {
    if fs != [] {
      MatchesTerminated(fs[0], before);
      if Matches(fs[0], before) {
        TerminatePlaced(fs, toadd, before);
      } else {
        TerminateEdited(fs[1..], toadd, before);
        TerminateNext(fs, toadd, before);
      }
    }
  }

  lemma TerminatePlaced(fs: seq<seq<Code>>, toadd: seq<Entry>, before: seq<Code>)
    requires Unfinished(fs) && fs != [] && Matches(fs[0], before)
    ensures Terminate(Flatten(Edited(fs, toadd, before))) == Flatten(Edited(TerminateAll(fs), toadd, before))
  {
    var names, ts := Names(toadd), TerminateAll(fs);
    MatchesTerminated(fs[0], before);
    FlattenConcat(Added(toadd), Kept(fs, names));
    FlattenConcat(Added(toadd), Kept(ts, names));
    AddedEnds(toadd);
    TerminateKept(fs, names);
    TerminateAfter(Flatten(Added(toadd)), Flatten(Kept(fs, names)));
    assert Edited(fs, toadd, before) == Added(toadd) + Kept(fs, names);
    assert Edited(ts, toadd, before) == Added(toadd) + Kept(ts, names);
  }

  /** A field that stays where it is, or goes, comes before what becomes of the others. */
  lemma EditedNext(fs: seq<seq<Code>>, toadd: seq<Entry>, before: seq<Code>)
    requires fs != [] && !Matches(fs[0], before)
    ensures Flatten(Edited(fs, toadd, before))
      == (if HasAny(fs[0], Names(toadd)) then [] else fs[0]) + Flatten(Edited(fs[1..], toadd, before))
  {
    assert fs[..1] == [fs[0]];
    assert Edited(fs, toadd, before) == Kept([fs[0]], Names(toadd)) + Edited(fs[1..], toadd, before);
    hide *;
    FlattenConcat(Kept([fs[0]], Names(toadd)), Edited(fs[1..], toadd, before));
    OneKept(fs[0], Names(toadd));
  }

  lemma EditedNone(fs: seq<seq<Code>>, toadd: seq<Entry>, before: seq<Code>)
    requires fs == []
    ensures Flatten(Edited(fs, toadd, before)) == [] && Flatten(Edited(TerminateAll(fs), toadd, before)) == []
    ensures Terminate([]) == []
  {
  }

  lemma TerminateFirst(fs: seq<seq<Code>>)
    requires fs != []
    ensures var ts := TerminateAll(fs); ts != [] && ts[0] == Terminate(fs[0]) && ts[1..] == TerminateAll(fs[1..])
  {
  }

  lemma UnfinishedFirst(fs: seq<seq<Code>>)
    requires Unfinished(fs) && fs != []
    ensures |fs| > 1 ==> fs[0] != [] && fs[0][|fs[0]| - 1] == NL && Terminate(fs[0]) == fs[0] && Terminate([]) == []
    ensures |fs| == 1 ==> fs[1..] == []
  {
  }

  lemma TerminateNext(fs: seq<seq<Code>>, toadd: seq<Entry>, before: seq<Code>)
    requires Unfinished(fs) && fs != [] && !Matches(fs[0], before)
    requires Terminate(Flatten(Edited(fs[1..], toadd, before))) == Flatten(Edited(TerminateAll(fs[1..]), toadd, before))
    ensures Terminate(Flatten(Edited(fs, toadd, before))) == Flatten(Edited(TerminateAll(fs), toadd, before))
  {
    hide *;
    var f, ts := fs[0], TerminateAll(fs);
    TerminateFirst(fs);
    MatchesTerminated(f, before);
    HasAnyTerminated(f, Names(toadd));
    EditedNext(fs, toadd, before);
    EditedNext(ts, toadd, before);
    UnfinishedFirst(fs);
    if |fs| > 1 {
      TerminateAfter(if HasAny(f, Names(toadd)) then [] else f, Flatten(Edited(fs[1..], toadd, before)));
    } else {
      EditedNone(fs[1..], toadd, before);
      Sequences.Nothing(f);
      Sequences.Nothing(Terminate(f));
    }
  }

  lemma OneKept(f: seq<Code>, names: seq<seq<Code>>)
    ensures Kept([f], names) == if HasAny(f, names) then [] else [f]
    ensures Flatten(Kept([f], names)) == if HasAny(f, names) then [] else f
  {
    assert Kept([f][1..], names) == [];
  }

  lemma {:induction false} EditedPlaced(fs: seq<seq<Code>>, toadd: seq<Entry>, before: seq<Code>)
    ensures Has(fs, before) ==> Edited(fs, toadd, before) == Placed(fs, toadd, before)
    ensures !Has(fs, before) ==> Edited(fs, toadd, before) + Added(toadd) == Placed(fs, toadd, before)
    ensures !Has(fs, before) ==> Edited(fs, toadd, before) == Kept(fs, Names(toadd))
  {
    if fs != [] {
      var names := Names(toadd);
      if Matches(fs[0], before) {
        assert fs[..0] == [] && fs[0..] == fs;
        assert Kept([], names) + Added(toadd) == Added(toadd);
      } else {
        EditedPlaced(fs[1..], toadd, before);
        PlacedNext(fs, toadd, before);
        KeptConcat(fs[..1], fs[1..], names);
        assert fs[..1] + fs[1..] == fs;
        assert Edited(fs, toadd, before) == Kept(fs[..1], names) + Edited(fs[1..], toadd, before);
        assert Has(fs, before) <==> Has(fs[1..], before);
        hide *;
        Regroup3(Kept(fs[..1], names), Edited(fs[1..], toadd, before), Added(toadd));
      }
    }
  }

  lemma Regroup3(a: seq<seq<Code>>, b: seq<seq<Code>>, c: seq<seq<Code>>)
    ensures a + (b + c) == a + b + c
  {
  }

  lemma PlacedNext(fs: seq<seq<Code>>, toadd: seq<Entry>, before: seq<Code>)
    requires fs != [] && !Matches(fs[0], before)
    ensures Placed(fs, toadd, before) == Kept(fs[..1], Names(toadd)) + Placed(fs[1..], toadd, before)
  {
    var names, i := Names(toadd), First(fs, before);
    hide Kept, Added, Names, Matches;
    KeptConcat(fs[..1], fs[1..][..i - 1], names);
    assert fs[..1] + fs[1..][..i - 1] == fs[..i] && fs[1..][i - 1..] == fs[i..];
  }

  // ----- what is added is a field

  /** A value whose lines after the first one begin with a blank. */
  predicate ValueOk(data: seq<Code>) {
    forall i :: 0 <= i < |data| && data[i] == NL ==> i + 1 < |data| && IsBlank(data[i + 1])
  }

  predicate EntryOk(e: Entry) { NameOk(e.field) && (e.data != None ==> ValueOk(e.data.value)) }
  predicate EntriesOk(toadd: seq<Entry>) { forall e :: e in toadd ==> EntryOk(e) }

  /** Every line but the last one is followed by one that begins with a blank. */
  predicate Continued(t: seq<Code>) { forall i :: 0 <= i < |t| - 1 && t[i] == NL ==> IsBlank(t[i + 1]) }

  lemma LineEndFirst(t: seq<Code>, i: nat)
    requires i < |t|
    ensures i < LineEnd(t) ==> t[i] != NL
  {
    if i < LineEnd(t) {
      assert t[i] == t[..LineEnd(t)][i];
    }
  }

  lemma LineEndsIn(t: seq<Code>)
    requires t != [] && t[|t| - 1] == NL
    ensures LineEnd(t) < |t|
  {
    LineEndFirst(t, |t| - 1);
  }

  lemma ContinuedNext(t: seq<Code>, n: nat)
    requires n == LineEnd(t) < |t|
    ensures Continued(t) <==> n + 1 == |t| || (IsBlank(t[n + 1]) && Continued(t[n + 1..]))
  {
    hide LineEnd;
    assert t[n] == NL;
    if n + 1 < |t| && IsBlank(t[n + 1]) && Continued(t[n + 1..]) {
      forall i | 0 <= i < |t| - 1 ensures t[i] == NL ==> IsBlank(t[i + 1]) {
        if i < n {
          LineEndFirst(t, i);
        } else if i > n {
          assert t[n + 1..][i - n - 1] == t[i] && t[n + 1..][i - n] == t[i + 1];
        }
      }
    }
    if n + 1 == |t| {
      forall i | 0 <= i < |t| - 1 ensures t[i] != NL {
        LineEndFirst(t, i);
      }
    }
    if n + 1 < |t| && Continued(t) {
      var u := t[n + 1..];
      assert forall i :: 0 <= i < |u| ==> u[i] == t[n + 1 + i];
    }
  }

  lemma {:induction false} WholeContinued(t: seq<Code>)
    requires t != [] && t[|t| - 1] == NL
    ensures Continued(t) <==> FieldEnd(t) == |t|
    decreases |t|
  {
    hide *;
    var n := LineEnd(t);
    LineEndsIn(t);
    FieldEndNext(t, n);
    ContinuedNext(t, n);
    if n + 1 < |t| {
      Tail(t, n + 1);
      WholeContinued(t[n + 1..]);
    }
  }

  lemma AddTextProper(name: seq<Code>, data: seq<Code>)
    requires NameOk(name) && ValueOk(data)
    ensures Proper(AddText(name, data)) && Matches(AddText(name, data), name)
    ensures AddText(name, data)[|name| + 1..] == [SPACE] + (data + [NL])
  {
    var pre, rest := name + [COLON, SPACE], data + [NL];
    assert AddText(name, data) == pre + rest && name[0] in name;
    ValueContinued(data);
    ContinuedAfter(pre, rest);
    WholeContinued(pre + rest);
    NamePart(name, rest);
  }

  lemma NamePart(name: seq<Code>, rest: seq<Code>)
    ensures var t := name + [COLON, SPACE] + rest;
      Matches(t, name) && t[|name| + 1..] == [SPACE] + rest
  {
    assert (name + [COLON, SPACE] + rest)[..|name|] == name;
  }

  lemma ValueContinued(data: seq<Code>)
    requires ValueOk(data)
    ensures Continued(data + [NL])
  {
  }

  lemma ContinuedAfter(a: seq<Code>, b: seq<Code>)
    requires Continued(b) && NL !in a
    ensures Continued(a + b)
  {
    var t := a + b;
    forall i | 0 <= i < |t| - 1 ensures t[i] == NL ==> IsBlank(t[i + 1]) {
      if i < |a| {
        assert t[i] == a[i];
      } else {
        assert t[i] == b[i - |a|] && t[i + 1] == b[i - |a| + 1];
      }
    }
  }

  lemma {:induction false} AddedProper(toadd: seq<Entry>)
    requires EntriesOk(toadd)
    ensures AllProper(Added(toadd))
  {
    if toadd != [] {
      assert toadd[0] in toadd && EntryOk(toadd[0]) && EntriesOk(toadd[1..]);
      AddedProper(toadd[1..]);
      if toadd[0].data != None {
        AddTextProper(toadd[0].field, toadd[0].data.value);
      }
    }
  }

  lemma NamesOk(toadd: seq<Entry>)
    requires EntriesOk(toadd)
    ensures forall n :: n in Names(toadd) ==> NameOk(n)
  {
    forall n | n in Names(toadd) ensures NameOk(n) {
      var i :| 0 <= i < |toadd| && Names(toadd)[i] == n;
      assert toadd[i] in toadd && EntryOk(toadd[i]);
    }
  }

  lemma PlacedProper(fs: seq<seq<Code>>, toadd: seq<Entry>, before: seq<Code>)
    requires AllProper(fs) && EntriesOk(toadd)
    ensures AllProper(Placed(fs, toadd, before))
  {
    var i := First(fs, before);
    assert AllProper(fs[..i]) && AllProper(fs[i..]);
    KeptProper(fs[..i], Names(toadd));
    KeptProper(fs[i..], Names(toadd));
    AddedProper(toadd);
  }

  /** A first line that begins with a blank has no name: it stays where it is. */
  lemma PlacedGood(fs: seq<seq<Code>>, toadd: seq<Entry>, before: seq<Code>)
    requires Good(fs) && EntriesOk(toadd) && NameOk(before)
    ensures Good(Placed(fs, toadd, before))
  {
    if fs == [] || !IsBlank(fs[0][0]) {
      assert forall f :: f in fs ==> fs != [] && (f == fs[0] || f in fs[1..]);
      PlacedProper(fs, toadd, before);
      ProperGood(Placed(fs, toadd, before));
    } else {
      NamesOk(toadd);
      forall n | n in Names(toadd) || n == before ensures !Matches(fs[0], n) {
        BlankNoMatch(fs[0], n);
      }
      PlacedNext(fs, toadd, before);
      OneKept(fs[0], Names(toadd));
      assert fs[..1] == [fs[0]];
      PlacedProper(fs[1..], toadd, before);
      assert Placed(fs, toadd, before)[1..] == Placed(fs[1..], toadd, before);
    }
  }

  /** Fields one after the other leave no blank line. */
  lemma {:induction false} GoodNoBlankLine(fs: seq<seq<Code>>)
    requires Good(fs)
    ensures NoBlankLine(Flatten(fs))
  {
    if fs != [] {
      var f, rest := fs[0], Flatten(fs[1..]);
      var s := f + rest;
      ProperGood(fs[1..]);
      GoodNoBlankLine(fs[1..]);
      WholeContinued(f);
      FlattenHead(fs[1..]);
      forall i | 0 < i < |s| ensures s[i - 1] != NL || s[i] != NL {
        if i > |f| {
          assert s[i - 1] == rest[i - 1 - |f|] && s[i] == rest[i - |f|];
        } else if i < |f| {
          assert f[i - 1] == NL ==> IsBlank(f[i - 1 + 1]);
        }
      }
    }
  }

  // ----- replacing fields

  lemma {:induction false} HasTerminated(fs: seq<seq<Code>>, name: seq<Code>)
    ensures Has(TerminateAll(fs), name) <==> Has(fs, name)
  {
    if fs != [] {
      MatchesTerminated(fs[0], name);
      HasTerminated(fs[1..], name);
    }
  }

  lemma {:induction false} HasGet(fs: seq<seq<Code>>, name: seq<Code>)
    ensures Has(fs, name) <==> GetIn(fs, name) != None
  {
    if fs != [] {
      HasGet(fs[1..], name);
    }
  }

  /** The fields of a chunk with its last line terminated, and that they read as the chunk does. */
  lemma ReadAsFields(chunk: seq<Code>, name: seq<Code>)
    requires NoBlankLine(chunk) && NameOk(name)
    ensures GetIn(TerminateAll(Fields(chunk)), name) == Trimmed(GetValue(chunk, name))
  {
    var ts := TerminateAll(Fields(chunk));
    FieldsGood(chunk);
    GoodWhole(ts);
    GetFlatten(ts, name);
    FieldsWhole(chunk);
    TerminateKept(Fields(chunk), []);
    KeptAll(Fields(chunk));
    KeptAll(ts);
    GetTerminated(chunk, name);
  }

  lemma {:induction false} KeptAll(fs: seq<seq<Code>>)
    ensures Kept(fs, []) == fs
  {
    if fs != [] {
      KeptAll(fs[1..]);
    }
  }

  /** The new chunk is exactly the fields that are kept, with the new ones in their place. */
  lemma ReplacedFields(chunk: seq<Code>, toadd: seq<Entry>, before: seq<Code>, maybemissing: bool)
    requires NoBlankLine(chunk) && EntriesOk(toadd) && NameOk(before)
    ensures var r := ReplaceFields(chunk, toadd, before, maybemissing);
      && (r == Misplaced <==> toadd != [] && !maybemissing && GetValue(chunk, before) == None)
      && (r.Done? ==>
            && Fields(r.text) == Placed(TerminateAll(Fields(chunk)), toadd, before)
            && Flatten(Fields(r.text)) == r.text && NoBlankLine(r.text) && Good(Fields(r.text)))
  {
    var fs, ts, r := Fields(chunk), TerminateAll(Fields(chunk)), ReplaceFields(chunk, toadd, before, maybemissing);
    HasTerminated(fs, before);
    HasGet(ts, before);
    ReadAsFields(chunk, before);
    if r.Done? {
      var p := Placed(ts, toadd, before);
      TerminateEdited(fs, toadd, before) by { FieldsGood(chunk); }
      EditedPlaced(ts, toadd, before);
      FlattenConcat(Edited(ts, toadd, before), Added(toadd));
      assert r.text == Flatten(p);
      FieldsGood(chunk);
      PlacedGood(ts, toadd, before);
      FieldsFlatten(p);
      GoodNoBlankLine(p);
    }
  }

  predicate IsReplaced(toadd: seq<Entry>, name: seq<Code>) { exists n :: n in Names(toadd) && SameName(n, name) }

  /** The first line of a value, without space around it. */
  function FirstLine(data: seq<Code>): seq<Code> {
    var u := SkipBlanks(data);
    TrimEnd(u[..LineEnd(u)])
  }

  /** The first new value for this name. */
  function NewValue(toadd: seq<Entry>, name: seq<Code>): Option<seq<Code>> {
    if toadd == [] then None
    else if toadd[0].data != None && SameName(toadd[0].field, name) then Some(FirstLine(toadd[0].data.value))
    else NewValue(toadd[1..], name)
  }

  lemma AddTextValue(data: seq<Code>)
    ensures ValueOf([SPACE] + (data + [NL])) == FirstLine(data)
  {
    var u := SkipBlanks(data);
    assert ([SPACE] + (data + [NL]))[1..] == data + [NL];
    SkipBlanksEnd(data);
    LineEndBefore(u, [NL]);
    assert (u + [NL])[..LineEnd(u)] == u[..LineEnd(u)];
  }

  lemma FirstEntry(toadd: seq<Entry>)
    requires toadd != [] && EntriesOk(toadd)
    ensures EntriesOk(toadd[1..]) && NameOk(toadd[0].field) && (toadd[0].data != None ==> ValueOk(toadd[0].data.value))
    ensures Added(toadd) == (if toadd[0].data == None then []
                             else [AddText(toadd[0].field, toadd[0].data.value)]) + Added(toadd[1..])
  {
    assert toadd[0] in toadd && EntryOk(toadd[0]);
  }

  /** What is read from a field that has just been written. */
  lemma AddedField(field: seq<Code>, data: seq<Code>, name: seq<Code>)
    requires NameOk(field) && NameOk(name) && ValueOk(data)
    ensures Matches(AddText(field, data), name) <==> SameName(field, name)
    ensures Matches(AddText(field, data), name) ==>
      |name| < |AddText(field, data)| && ValueOf(AddText(field, data)[|name| + 1..]) == FirstLine(data)
  {
    AddTextProper(field, data);
    AddTextValue(data);
    OneName(AddText(field, data), field, name);
    assert Matches(AddText(field, data), name) ==> |name| == |field|;
    hide *;
    SameNameSwap(field, name);
  }

  lemma SameNameSwap(a: seq<Code>, b: seq<Code>)
    ensures SameName(a, b) <==> SameName(b, a)
  {
  }

  lemma GetFirst(f: seq<Code>, fs: seq<seq<Code>>, name: seq<Code>)
    ensures ([f] + fs)[0] == f && ([f] + fs)[1..] == fs
    ensures Matches(f, name) ==> |name| < |f|
    ensures GetIn([f] + fs, name) == if Matches(f, name) then Some(ValueOf(f[|name| + 1..])) else GetIn(fs, name)
  {
  }

  lemma NewValueNext(toadd: seq<Entry>, name: seq<Code>)
    requires toadd != []
    ensures NewValue(toadd, name)
      == if toadd[0].data != None && SameName(toadd[0].field, name) then Some(FirstLine(toadd[0].data.value))
         else NewValue(toadd[1..], name)
  {
  }

  lemma NothingGot(name: seq<Code>)
    ensures GetIn(Added([]), name) == NewValue([], name) == None
  {
  }

  lemma {:induction false} AddedGet(toadd: seq<Entry>, name: seq<Code>)
    requires EntriesOk(toadd) && NameOk(name)
    ensures GetIn(Added(toadd), name) == NewValue(toadd, name)
    ensures !IsReplaced(toadd, name) ==> NewValue(toadd, name) == None
  {
    if toadd != [] {
      AddedGet(toadd[1..], name);
      ReplacedNext(toadd, name);
      FirstEntry(toadd);
      hide *;
      if toadd[0].data == None {
        Sequences.Nothing(Added(toadd[1..]));
      } else {
        AddedField(toadd[0].field, toadd[0].data.value, name);
        GetFirst(AddText(toadd[0].field, toadd[0].data.value), Added(toadd[1..]), name);
      }
      NewValueNext(toadd, name);
    } else {
      NothingGot(name);
    }
  }

  lemma ReplacedNext(toadd: seq<Entry>, name: seq<Code>)
    requires toadd != []
    ensures IsReplaced(toadd, name) <==> SameName(toadd[0].field, name) || IsReplaced(toadd[1..], name)
  {
    assert Names(toadd)[0] in Names(toadd);
    assert forall n :: n in Names(toadd) <==> n == toadd[0].field || n in Names(toadd[1..]);
  }

  lemma PlacedGet(fs: seq<seq<Code>>, toadd: seq<Entry>, before: seq<Code>, name: seq<Code>)
    requires EntriesOk(toadd) && NameOk(name)
    ensures GetIn(Placed(fs, toadd, before), name)
            == if IsReplaced(toadd, name) then NewValue(toadd, name) else GetIn(fs, name)
  {
    var names, i := Names(toadd), First(fs, before);
    var a, b, c := Kept(fs[..i], names), Added(toadd), Kept(fs[i..], names);
    assert Placed(fs, toadd, before) == a + b + c && fs[..i] + fs[i..] == fs;
    assert IsReplaced(toadd, name) <==> exists n :: n in names && SameName(n, name);
    NamesOk(toadd);
    hide *;
    KeptGet(fs[..i], names, name);
    KeptGet(fs[i..], names, name);
    AddedGet(toadd, name);
    GetConcat(a, b, name);
    GetConcat(a + b, c, name);
    GetConcat(fs[..i], fs[i..], name);
  }

  /**
    * A field that is replaced reads as its new value, a field that is removed is not there any more,
    * and every other field reads as before, but for space at the end of an unterminated last line.
    */
  lemma ReadReplaced(chunk: seq<Code>, toadd: seq<Entry>, before: seq<Code>, maybemissing: bool, name: seq<Code>)
    requires NoBlankLine(chunk) && EntriesOk(toadd) && NameOk(before) && NameOk(name)
    ensures var r := ReplaceFields(chunk, toadd, before, maybemissing);
      r.Done? ==> GetValue(r.text, name)
                  == if IsReplaced(toadd, name) then NewValue(toadd, name) else Trimmed(GetValue(chunk, name))
  {
    var r, ts := ReplaceFields(chunk, toadd, before, maybemissing), TerminateAll(Fields(chunk));
    if r.Done? {
      ReplacedFields(chunk, toadd, before, maybemissing);
      GoodWhole(Fields(r.text));
      GetFlatten(Fields(r.text), name);
      PlacedGet(ts, toadd, before, name);
      ReadAsFields(chunk, name);
    }
  }

  /** Exactly the values of one line without space around them are read back as they were given. */
  lemma FirstLineSame(data: seq<Code>)
    ensures FirstLine(data) == data <==>
            NL !in data && (data != [] ==> !IsBlank(data[0]) && !IsSpace(data[|data| - 1]))
  {
    var u := SkipBlanks(data);
    SkipBlanksShorter(data);
    var t := u[..LineEnd(u)];
    TrimEndShorter(t);
    if NL in data {
      LineEndWithin(data);
    } else {
      LineEndAll(data);
    }
  }

  lemma {:induction false} LineEndAll(s: seq<Code>)
    requires NL !in s
    ensures LineEnd(s) == |s|
  {
    if s != [] {
      LineEndAll(s[1..]);
    }
  }

  lemma {:induction false} SkipBlanksShorter(s: seq<Code>)
    ensures |SkipBlanks(s)| <= |s| && (SkipBlanks(s) == s <==> (s == [] || !IsBlank(s[0])))
    ensures |SkipBlanks(s)| == |s| ==> SkipBlanks(s) == s
  {
    if s != [] && IsBlank(s[0]) {
      SkipBlanksShorter(s[1..]);
    }
  }

  lemma {:induction false} TrimEndShorter(s: seq<Code>)
    ensures |TrimEnd(s)| <= |s| && (TrimEnd(s) == s <==> (s == [] || !IsSpace(s[|s| - 1])))
    ensures |TrimEnd(s)| == |s| ==> TrimEnd(s) == s
  {
    if s != [] && IsSpace(s[|s| - 1]) {
      TrimEndShorter(s[..|s| - 1]);
    }
  }

  /** A replaced field reads back what was written exactly if that is one line without space around it. */
  lemma ReadReplacedField(chunk: seq<Code>, name: CString, data: CString)
    requires NoBlankLine(chunk) && NameOk(name) && ValueOk(data)
    ensures var r := ReplaceFields(chunk, [Entry(name, Some(data))], name, true);
      && r.Done? && GetValue(r.text, name) != None
      && (GetValue(r.text, name).value == data <==>
          NL !in data && (data != [] ==> !IsBlank(data[0]) && !IsSpace(data[|data| - 1])))
  {
    var toadd := [Entry(name, Some(data))];
    assert ReplaceFields(chunk, toadd, name, true).Done?;
    ReadReplaced(chunk, toadd, name, true, name);
    assert Names(toadd)[0] == name && SameName(name, name);
    FirstLineSame(data);
    assert NewValue(toadd, name) == Some(FirstLine(data));
    hide GetValue, ReplaceFields, NewValue, FirstLine, NameOk, ValueOk, NoBlankLine, SameName;
  }

  // ----- normalising

  lemma NormalizedFields(chunk: seq<Code>, name: seq<Code>, data: seq<Code>)
    requires WellBegun(chunk) && NameOk(name) && ValueOk(data)
    ensures var n := Normalize(chunk, name, data);
      && Fields(n) == [AddText(name, data)] + Kept(TerminateAll(Fields(chunk)), [name])
      && AllProper(Fields(n)) && Flatten(Fields(n)) == n && NoBlankLine(n)
  {
    var a, fs, ts := AddText(name, data), Fields(chunk), TerminateAll(Fields(chunk));
    var p := [a] + Kept(ts, [name]);
    FieldsGood(chunk);
    AddTextProper(name, data);
    KeptProper(ts, [name]);
    TerminateKept(fs, [name]);
    TerminateAfter(a, Flatten(Kept(fs, [name])));
    assert p[1..] == Kept(ts, [name]);
    ProperGood(p);
    FieldsFlatten(p);
    GoodNoBlankLine(p);
  }

  /** The normalised chunk reads as the old one, but for the field that is now first. */
  lemma ReadNormalized(chunk: seq<Code>, first: CString, data: CString, name: seq<Code>)
    requires NoBlankLine(chunk) && WellBegun(chunk) && NameOk(first) && ValueOk(data) && NameOk(name)
    ensures GetValue(Normalize(chunk, first, data), name)
            == if SameName(first, name) then Some(FirstLine(data)) else Trimmed(GetValue(chunk, name))
  {
    var a, ts, n := AddText(first, data), TerminateAll(Fields(chunk)), Normalize(chunk, first, data);
    hide *;
    NormalizedFields(chunk, first, data);
    ProperGood(Fields(n));
    GoodWhole(Fields(n));
    GetFlatten(Fields(n), name);
    GetAdded(first, data, Kept(ts, [first]), name);
    KeptGet(ts, [first], name);
    ReadAsFields(chunk, name);
    assert first in [first];
  }

  /** A field that was added, before others. */
  lemma GetAdded(first: seq<Code>, data: seq<Code>, fs: seq<seq<Code>>, name: seq<Code>)
    requires NameOk(first) && ValueOk(data) && NameOk(name)
    ensures GetIn([AddText(first, data)] + fs, name)
            == if SameName(first, name) then Some(FirstLine(data)) else GetIn(fs, name)
  {
    var a := AddText(first, data);
    AddTextProper(first, data);
    AddTextValue(data);
    OneName(a, first, name);
    assert SameName(first, name) ==> |first| == |name|;
    hide AddText, FirstLine, ValueOf, ValueOk, NameOk, SameName;
    assert ([a] + fs)[1..] == fs;
  }

  lemma {:induction false} KeptTwice(fs: seq<seq<Code>>, names: seq<seq<Code>>)
    ensures Kept(Kept(fs, names), names) == Kept(fs, names)
  {
    if fs != [] {
      KeptTwice(fs[1..], names);
      var k := Kept(fs[1..], names);
      if HasAny(fs[0], names) {
        assert [] + k == k;
      } else {
        assert ([fs[0]] + k)[1..] == k;
      }
    }
  }

  /** Normalising twice is normalising once, exactly if the chunk does not begin with a blank or an empty line. */
  lemma NormalizeTwice(chunk: seq<Code>, name: seq<Code>, data: seq<Code>)
    requires NameOk(name) && ValueOk(data)
    ensures var n := Normalize(chunk, name, data);
      Normalize(n, name, data) == n <==> WellBegun(chunk)
  {
    if WellBegun(chunk) {
      NormalizedTwice(chunk, name, data);
    } else {
      NormalizedLess(chunk, name, data);
    }
  }

  lemma NormalizedTwice(chunk: seq<Code>, name: seq<Code>, data: seq<Code>)
    requires NameOk(name) && ValueOk(data) && WellBegun(chunk)
    ensures Normalize(Normalize(chunk, name, data), name, data) == Normalize(chunk, name, data)
  {
    var a, n := AddText(name, data), Normalize(chunk, name, data);
    var k := Kept(TerminateAll(Fields(chunk)), [name]);
    NormalizedFields(chunk, name, data);
    AddTextProper(name, data);
    assert Fields(n)[0] == a && Fields(n)[1..] == k;
    KeptTwice(TerminateAll(Fields(chunk)), [name]);
    assert name in [name] && HasAny(a, [name]);
    assert Kept(Fields(n), [name]) == [] + Kept(k, [name]) == k;
    assert n == a + Flatten(k);
    ProperGood(Fields(n));
    FlattenHead(Fields(n));
  }

  /** What does not go on with a field begins a new one; a blank goes on with it. */
  lemma {:induction false} FieldContinues(f: seq<Code>, g: seq<Code>)
    requires Whole(f) && g != [] && IsBlank(g[0])
    ensures FieldEnd(f + g) == |f| + FieldEnd(g)
    decreases |f|
  {
    hide *;
    var n := LineEnd(f);
    WholeIs(f);
    WholeLine(f);
    LineEndBefore(f, g);
    FieldEndNext(f + g, n);
    From(f, g, n + 1);
    if n + 1 < |f| {
      WholeIs(f[n + 1..]);
      FieldContinues(f[n + 1..], g);
    } else {
      Nothing(f[n + 1..], g);
    }
  }

  lemma WholeIs(f: seq<Code>)
    ensures Whole(f) <==> f != [] && FieldEnd(f) == |f| && f[|f| - 1] == NL
  {
  }

  lemma Nothing(e: seq<Code>, g: seq<Code>)
    requires e == []
    ensures e + g == g
  {
  }

  lemma {:induction false} KeptShorter(fs: seq<seq<Code>>, names: seq<seq<Code>>)
    ensures |Flatten(Kept(fs, names))| <= |Flatten(fs)|
  {
    if fs != [] {
      KeptShorter(fs[1..], names);
      if HasAny(fs[0], names) {
        assert [] + Kept(fs[1..], names) == Kept(fs[1..], names);
      } else {
        assert Kept(fs, names)[1..] == Kept(fs[1..], names);
      }
    }
  }

  lemma {:induction false} FieldsShorter(s: seq<Code>)
    ensures |Flatten(Fields(s))| <= |s|
    decreases |s|
  {
    if s != [] {
      var rest := s[FieldEnd(s)..];
      if rest != [] && rest[0] != NL {
        FieldsShorter(rest);
        assert Fields(s)[1..] == Fields(rest);
      } else {
        assert Fields(s)[1..] == [];
      }
    }
  }

  lemma NormalizedLess(chunk: seq<Code>, name: seq<Code>, data: seq<Code>)
    requires NameOk(name) && ValueOk(data) && !WellBegun(chunk)
    ensures |Normalize(Normalize(chunk, name, data), name, data)| < |Normalize(chunk, name, data)|
  {
    var a, n := AddText(name, data), Normalize(chunk, name, data);
    var g := Terminate(Flatten(Kept(Fields(chunk), [name])));
    AddTextProper(name, data);
    TerminateAfter(a, Flatten(Kept(Fields(chunk), [name])));
    assert n == a + g;
    var f := Fields(chunk)[0];
    assert f[0] == chunk[0];
    BlankNoMatch(f, name);
    assert forall x :: x in [name] ==> x == name;
    assert Kept(Fields(chunk), [name])[0] == f;
    assert g != [] && g[0] == chunk[0] && g[|g| - 1] == NL;
    LessAgain(n, a, g, name);
  }

  lemma LessAgain(n: seq<Code>, a: seq<Code>, g: seq<Code>, name: seq<Code>)
    requires NameOk(name) && Proper(a) && Matches(a, name) && n == a + g && !WellBegun(g) && g[|g| - 1] == NL
    ensures |Terminate(a + Flatten(Kept(Fields(n), [name])))| < |n|
  {
    var k := FieldEnd(n);
    LessFirst(n, a, g, name);
    FieldsNext(n, k);
    var more := if k == |n| || n[k] == NL then [] else Fields(n[k..]);
    assert Kept([], [name]) == [] && Flatten([]) == [];
    KeptConcat([n[..k]], more, [name]);
    OneKept(n[..k], [name]);
    KeptShorter(more, [name]);
    FieldsShorter(n[k..]);
    TerminateShorter(a, Flatten(Kept(more, [name])));
    hide *;
    assert [] + Kept(more, [name]) == Kept(more, [name]);
  }

  lemma TerminateShorter(a: seq<Code>, b: seq<Code>)
    requires a != [] && a[|a| - 1] == NL
    ensures |Terminate(a + b)| <= |a| + |b| + 1 && (b == [] ==> Terminate(a + b) == a)
  {
    assert a + [] == a;
  }

  lemma LessFirst(n: seq<Code>, a: seq<Code>, g: seq<Code>, name: seq<Code>)
    requires NameOk(name) && Proper(a) && Matches(a, name) && n == a + g && !WellBegun(g) && g[|g| - 1] == NL
    ensures var k := FieldEnd(n);
      HasAny(n[..k], [name]) && (k >= |a| + 2 || (k == |a| < |n| && n[k] == NL))
  {
    var k := FieldEnd(n);
    if g[0] == NL {
      FieldEndBefore(a, g);
      assert a + g[..0] == a;
    } else {
      FieldContinues(a, g);
      LineEndWithin(g);
      FieldEndNext(g, LineEnd(g));
      assert LineEnd(g) >= 1;
    }
    hide *;
    Part(a, g, k);
    if k > |a| {
      MatchesBefore(a, g[..k - |a|], name);
    }
    FirstOf(n[..k], name);
  }

  lemma Part(a: seq<Code>, g: seq<Code>, k: nat)
    requires |a| <= k <= |a + g|
    ensures (a + g)[..k] == a + g[..k - |a|] && (k == |a| ==> (a + g)[..k] == a)
             && (k < |a + g| ==> (a + g)[k] == g[k - |a|])
  {
  }

  lemma FirstOf(f: seq<Code>, name: seq<Code>)
    requires Matches(f, name)
    ensures HasAny(f, [name])
  {
    assert name in [name];
  }

  // ----- the code that writes

  /** Copies a text into the buffer from position n on; m is the position after it. */
  method Put(buffer: array<Code>, n: nat, s: seq<Code>) returns (m: nat)
    requires n + |s| <= buffer.Length
    modifies buffer
    ensures m == n + |s| && buffer[..m] == old(buffer[..n]) + s
  {
    forall i | 0 <= i < |s| {
      buffer[n + i] := s[i];
    }
    m := n + |s|;
  }

  method PutEntry(buffer: array<Code>, n: nat, field: seq<Code>, data: seq<Code>) returns (m: nat)
    requires n + |AddText(field, data)| <= buffer.Length
    modifies buffer
    ensures m == n + |AddText(field, data)| && buffer[..m] == old(buffer[..n]) + AddText(field, data)
  {
    ghost var base := buffer[..n];
    m := Put(buffer, n, field);
    buffer[m] := COLON;
    m := m + 1;
    buffer[m] := SPACE;
    m := m + 1;
    assert buffer[..m] == base + (field + [COLON, SPACE]);
    m := Put(buffer, m, data);
    buffer[m] := NL;
    m := m + 1;
    assert buffer[..m] == base + (field + [COLON, SPACE]) + data + [NL];
  }

  /** All the new fields. */
  method PutAll(buffer: array<Code>, n: nat, toadd: seq<Entry>) returns (m: nat)
    requires n + |Flatten(Added(toadd))| <= buffer.Length
    modifies buffer
    ensures m == n + |Flatten(Added(toadd))| && buffer[..m] == old(buffer[..n]) + Flatten(Added(toadd))
  {
    m := n;
    ghost var base := buffer[..n];
    var i := 0;
    AddedAll(toadd);
    hide *;
    while i < |toadd|
      invariant i <= |toadd| && m + |ToAdd(toadd, i)| == n + |ToAdd(toadd, 0)|
      invariant buffer[..m] + ToAdd(toadd, i) == base + ToAdd(toadd, 0)
    {
      AddedNext(toadd, i);
      ghost var was := buffer[..m];
      if toadd[i].data != None {
        m := PutEntry(buffer, m, toadd[i].field, toadd[i].data.value);
        Regroup(was, AddText(toadd[i].field, toadd[i].data.value), ToAdd(toadd, i + 1));
      } else {
        Regroup(was, [], ToAdd(toadd, i + 1));
      }
      i := i + 1;
    }
  }

  /** The text of the new fields from here on. */
  ghost function ToAdd(toadd: seq<Entry>, i: nat): seq<Code>
    requires i <= |toadd|
  {
    Flatten(Added(toadd[i..]))
  }

  lemma AddedAll(toadd: seq<Entry>)
    ensures ToAdd(toadd, 0) == Flatten(Added(toadd)) && ToAdd(toadd, |toadd|) == []
  {
    assert toadd[0..] == toadd;
  }

  lemma AddedNext(toadd: seq<Entry>, i: nat)
    requires i < |toadd|
    ensures ToAdd(toadd, i)
            == (if toadd[i].data == None then [] else AddText(toadd[i].field, toadd[i].data.value))
              + ToAdd(toadd, i + 1)
  {
    assert toadd[i..][1..] == toadd[i + 1..];
    if toadd[i].data == None {
      assert [] + Added(toadd[i + 1..]) == Added(toadd[i + 1..]);
    } else {
      assert Added(toadd[i..])[1..] == Added(toadd[i + 1..]);
    }
  }

  /** Where the field that begins here ends. */
  method FieldStop(chunk: CString, c: nat) returns (ce: nat)
    requires c <= |chunk|
    ensures ce == c + FieldEnd(chunk[c..])
  {
    ce := c;
    hide FieldEnd, LineEnd;
    while true
      invariant c <= ce <= |chunk| && ce + FieldEnd(chunk[ce..]) == c + FieldEnd(chunk[c..])
      decreases |chunk| - ce
    {
      ghost var s, n := chunk[ce..], LineEnd(chunk[ce..]);
      ce := ToLineEnd(chunk, ce);
      if At(chunk, ce) == 0 {
        FieldEndAll(s);
        return;
      }
      FieldEndNext(s, n);
      ce := ce + 1;
      assert s[n + 1..] == chunk[ce..];
      if !IsBlank(At(chunk, ce)) {
        return;
      }
    }
  }

  lemma FieldEndAll(s: seq<Code>)
    requires LineEnd(s) == |s|
    ensures FieldEnd(s) == |s|
  {
  }

  /** Is this one of the fields that are replaced? */
  method IsOneOf(chunk: CString, c: nat, toadd: seq<Entry>) returns (r: bool)
    requires c <= |chunk|
    ensures r <==> HasAny(chunk[c..], Names(toadd))
  {
    var i := 0;
    while i < |toadd|
      invariant i <= |toadd| && forall j :: 0 <= j < i ==> !Matches(chunk[c..], toadd[j].field)
    {
      var same := IsField(chunk, c, toadd[i].field);
      if same {
        assert Names(toadd)[i] in Names(toadd);
        return true;
      }
      i := i + 1;
    }
    r := false;
  }

  /** What is still to be written. */
  ghost function ToWrite(fs: seq<seq<Code>>, toadd: seq<Entry>, before: seq<Code>, placed: bool): seq<seq<Code>> {
    if placed then Kept(fs, Names(toadd)) else Edited(fs, toadd, before)
  }

  /** The fields from here on, unless the loop over them has ended. */
  ghost function Remaining(chunk: seq<Code>, c: nat, more: bool): seq<seq<Code>>
    requires c <= |chunk|
  {
    if more then Fields(chunk[c..]) else []
  }

  lemma FieldFirst(chunk: seq<Code>, c: nat, ce: nat)
    requires c <= |chunk| && ce == c + FieldEnd(chunk[c..])
    ensures Fields(chunk[c..]) == (if c == ce then [] else [chunk[c..ce]])
                                  + Remaining(chunk, ce, ce < |chunk| && chunk[ce] != NL)
    ensures c == ce ==> c == |chunk|
  {
    var s := chunk[c..];
    if s != [] {
      FieldsNext(s, FieldEnd(s));
      assert s[..FieldEnd(s)] == chunk[c..ce] && s[FieldEnd(s)..] == chunk[ce..];
      hide Fields, FieldEnd;
    }
  }

  lemma FieldMatches(chunk: seq<Code>, c: nat, ce: nat, name: seq<Code>)
    requires c <= |chunk| && ce == c + FieldEnd(chunk[c..]) && NL !in name
    ensures Matches(chunk[c..], name) <==> c < ce && Matches(chunk[c..ce], name)
  {
    var s, k := chunk[c..], ce - c;
    FirstMatches(s, name);
    hide *;
    assert s[..k] == chunk[c..ce];
  }

  lemma FirstMatches(s: seq<Code>, name: seq<Code>)
    requires NL !in name
    ensures Matches(s, name) <==> s != [] && Matches(s[..FieldEnd(s)], name)
  {
    if s != [] {
      var k := FieldEnd(s);
      assert k < |s| ==> s[k - 1] == NL;
      hide FieldEnd, LineEnd;
      Halves(s, k);
      if k < |s| {
        MatchesBefore(s[..k], s[k..], name);
      } else {
        assert s[..k] == s;
      }
    }
  }

  lemma FieldHere(chunk: seq<Code>, c: nat, ce: nat, before: seq<Code>, names: seq<seq<Code>>)
    requires c <= |chunk| && ce == c + FieldEnd(chunk[c..])
    requires NL !in before && forall n :: n in names ==> NL !in n
    ensures c <= ce <= |chunk|
    ensures Matches(chunk[c..], before) <==> c < ce && Matches(chunk[c..ce], before)
    ensures HasAny(chunk[c..], names) <==> c < ce && HasAny(chunk[c..ce], names)
  {
    FieldMatches(chunk, c, ce, before);
    forall n | n in names ensures Matches(chunk[c..], n) <==> c < ce && Matches(chunk[c..ce], n) {
      FieldMatches(chunk, c, ce, n);
    }
  }

  /** What is written for one field. */
  ghost function Piece(f: seq<Code>, toadd: seq<Entry>, before: seq<Code>, placed: bool): seq<Code> {
    (if !placed && Matches(f, before) then Flatten(Added(toadd)) else []) + if HasAny(f, Names(toadd)) then [] else f
  }

  lemma WriteNext(fs: seq<seq<Code>>, toadd: seq<Entry>, before: seq<Code>, placed: bool)
    requires fs != []
    ensures Has(fs, before) <==> Matches(fs[0], before) || Has(fs[1..], before)
    ensures Flatten(ToWrite(fs, toadd, before, placed))
            == Piece(fs[0], toadd, before, placed)
               + Flatten(ToWrite(fs[1..], toadd, before, placed || Matches(fs[0], before)))
  {
    var names, here := Names(toadd), Matches(fs[0], before);
    var f, rest := fs[0], ToWrite(fs[1..], toadd, before, placed || here);
    KeptConcat(fs[..1], fs[1..], names);
    assert fs[..1] + fs[1..] == fs && fs[..1] == [f];
    OneKept(f, names);
    FlattenConcat(Kept([f], names), rest);
    FlattenConcat(Added(toadd), Kept(fs, names));
    if !placed && here {
      assert ToWrite(fs, toadd, before, placed) == Added(toadd) + Kept(fs, names);
      assert Kept(fs, names) == Kept([f], names) + rest;
    } else {
      assert ToWrite(fs, toadd, before, placed) == Kept([f], names) + rest;
    }
    var a, k := Flatten(Added(toadd)), if HasAny(f, names) then [] else f;
    assert Piece(f, toadd, before, placed) == (if !placed && here then a else []) + k;
    hide *;
    Regroup(a, k, Flatten(rest));
  }

  lemma Regroup(base: seq<Code>, piece: seq<Code>, rest: seq<Code>)
    ensures base + (piece + rest) == base + piece + rest && [] + piece == piece && base + [] == base
  {
  }

  predicate OneLineNames(toadd: seq<Entry>) { forall e :: e in toadd ==> NL !in e.field }

  lemma NamesOneLine(toadd: seq<Entry>)
    requires OneLineNames(toadd)
    ensures forall n :: n in Names(toadd) ==> NL !in n
  {
    forall n | n in Names(toadd) ensures NL !in n {
      var i :| 0 <= i < |toadd| && Names(toadd)[i] == n;
      assert toadd[i] in toadd;
    }
  }

  /** One round of the loop over the fields. */
  method PutPiece(buffer: array<Code>, n: nat, chunk: CString, c: nat, toadd: seq<Entry>, before: CString, placed: bool)
    returns (m: nat, ce: nat, now: bool)
    requires c <= |chunk| && n + |chunk| - c + (if placed then 0 else |Flatten(Added(toadd))|) <= buffer.Length
    requires NL !in before && OneLineNames(toadd)
    modifies buffer
    ensures ce == c + FieldEnd(chunk[c..]) && now == (placed || (c < ce && Matches(chunk[c..ce], before)))
    ensures m <= n + ce - c + if now && !placed then |Flatten(Added(toadd))| else 0
    ensures m <= buffer.Length
    ensures buffer[..m] == old(buffer[..n]) + if c == ce then [] else Piece(chunk[c..ce], toadd, before, placed)
  {
    m, now := n, placed;
    NamesOneLine(toadd);
    ce := FieldStop(chunk, c);
    FieldHere(chunk, c, ce, before, Names(toadd));
    ghost var f := chunk[c..ce];
    hide *;
    var here := IsField(chunk, c, before);
    if !placed && here {
      m := PutAll(buffer, m, toadd);
      now := true;
    }
    ghost var was, part := buffer[..m], if now && !placed then Flatten(Added(toadd)) else [];
    assert was == old(buffer[..n]) + part;
    var gone := IsOneOf(chunk, c, toadd);
    PieceIs(f, toadd, before, placed);
    if !gone && ce > c {
      m := Put(buffer, m, chunk[c..ce]);
      Regroup(old(buffer[..n]), part, f);
    } else {
      Regroup(was, part, []);
    }
  }

  lemma PieceIs(f: seq<Code>, toadd: seq<Entry>, before: seq<Code>, placed: bool)
    ensures Piece(f, toadd, before, placed)
            == (if !placed && Matches(f, before) then Flatten(Added(toadd)) else [])
               + if HasAny(f, Names(toadd)) then [] else f
  {
  }

  /** `chunk_replacefields`; the output stays within the size computed first. */
  method ChunkReplaceFields(chunk: CString, toadd: seq<Entry>, before: CString, maybemissing: bool) returns (r: Edit)
    requires NL !in before && OneLineNames(toadd)
    ensures r == ReplaceFields(chunk, toadd, before, maybemissing)
  {
    if toadd == [] {
      return NothingToAdd;
    }
    var room := RoomFor(toadd);
    var size := 2 + |chunk| + room;
    var buffer := new Code[size];
    ghost var all := Flatten(Edited(Fields(chunk), toadd, before));
    assert ReplaceFields(chunk, toadd, before, maybemissing)
        == if Has(Fields(chunk), before) then Done(Terminate(all))
           else if maybemissing then Done(Terminate(all) + Flatten(Added(toadd))) else Misplaced;
    hide *;
    var n, placed := PutFields(buffer, chunk, toadd, before);
    n := EndLine(buffer, n);
    if maybemissing && !placed {
      n := PutAll(buffer, n, toadd);
      r := Done(buffer[..n]);
    } else {
      r := if placed then Done(buffer[..n]) else Misplaced;
    }
    buffer[n] := 0;
  }

  /** What is still to be written from here on. */
  ghost function Left(chunk: seq<Code>, c: nat, more: bool, toadd: seq<Entry>, before: seq<Code>,
                      placed: bool): seq<Code>
    requires c <= |chunk|
  {
    Flatten(ToWrite(Remaining(chunk, c, more), toadd, before, placed))
  }

  ghost predicate HasLeft(chunk: seq<Code>, c: nat, more: bool, before: seq<Code>)
    requires c <= |chunk|
  {
    Has(Remaining(chunk, c, more), before)
  }

  lemma LeftNext(chunk: seq<Code>, c: nat, ce: nat, more: bool, toadd: seq<Entry>, before: seq<Code>, placed: bool)
    requires c <= |chunk| && ce == c + FieldEnd(chunk[c..]) && more == (ce < |chunk| && chunk[ce] != NL)
    ensures var here := c < ce && Matches(chunk[c..ce], before);
      && (HasLeft(chunk, c, true, before) <==> here || HasLeft(chunk, ce, more, before))
      && Left(chunk, c, true, toadd, before, placed)
         == (if c == ce then [] else Piece(chunk[c..ce], toadd, before, placed))
            + Left(chunk, ce, more, toadd, before, placed || here)
    ensures c == ce ==> c == |chunk|
  {
    FieldFirst(chunk, c, ce);
    var fs := Fields(chunk[c..]);
    if c < ce {
      WriteNext(fs, toadd, before, placed);
      assert fs[0] == chunk[c..ce] && fs[1..] == Remaining(chunk, ce, more);
    }
  }

  method PutNext(buffer: array<Code>, n: nat, chunk: CString, c: nat, toadd: seq<Entry>, before: CString, placed: bool)
    returns (m: nat, ce: nat, now: bool, more: bool)
    requires c <= |chunk| && n + |chunk| - c + (if placed then 0 else |Flatten(Added(toadd))|) <= buffer.Length
    requires NL !in before && OneLineNames(toadd)
    modifies buffer
    ensures c <= ce <= |chunk| && (more ==> c < ce) && (placed ==> now)
    ensures m <= n + ce - c + (if now && !placed then |Flatten(Added(toadd))| else 0) && m <= buffer.Length
    ensures placed || HasLeft(chunk, c, true, before) <==> now || HasLeft(chunk, ce, more, before)
    ensures buffer[..m] + Left(chunk, ce, more, toadd, before, now)
         == old(buffer[..n]) + Left(chunk, c, true, toadd, before, placed)
  {
    hide *;
    m, ce, now := PutPiece(buffer, n, chunk, c, toadd, before, placed);
    more := ce < |chunk| && chunk[ce] != NL;
    LeftNext(chunk, c, ce, more, toadd, before, placed);
    Regroup(old(buffer[..n]), if c == ce then [] else Piece(chunk[c..ce], toadd, before, placed),
            Left(chunk, ce, more, toadd, before, now));
  }

  /** Ends the last line of what is in the buffer, if there is anything and it is not ended. */
  method EndLine(buffer: array<Code>, n: nat) returns (m: nat)
    requires n < buffer.Length
    modifies buffer
    ensures n <= m <= n + 1 && buffer[..m] == Terminate(old(buffer[..n]))
  {
    m := n;
    if n > 0 && buffer[n - 1] != NL {
      buffer[n] := NL;
      m := n + 1;
    }
  }

  /** The loop over the fields. */
  method PutFields(buffer: array<Code>, chunk: CString, toadd: seq<Entry>, before: CString)
    returns (n: nat, placed: bool)
    requires |chunk| + |Flatten(Added(toadd))| <= buffer.Length
    requires NL !in before && OneLineNames(toadd)
    modifies buffer
    ensures placed <==> Has(Fields(chunk), before)
    ensures n <= |chunk| + if placed then |Flatten(Added(toadd))| else 0
    ensures n <= buffer.Length && buffer[..n] == Flatten(Edited(Fields(chunk), toadd, before))
  {
    n, placed := 0, false;
    var c, more := 0, true;
    ghost var all, room := Flatten(Edited(Fields(chunk), toadd, before)), |Flatten(Added(toadd))|;
    assert chunk[0..] == chunk && Left(chunk, 0, true, toadd, before, false) == all;
    assert HasLeft(chunk, 0, true, before) <==> Has(Fields(chunk), before);
    hide *;
    while more
      invariant c <= |chunk| && n <= c + (if placed then room else 0)
      invariant Has(Fields(chunk), before) <==> placed || HasLeft(chunk, c, more, before)
      invariant buffer[..n] + Left(chunk, c, more, toadd, before, placed) == all
      decreases |chunk| - c, more
    {
      n, c, placed, more := PutNext(buffer, n, chunk, c, toadd, before, placed);
    }
    NothingLeft(chunk, c, toadd, before, placed);
  }

  lemma NothingLeft(chunk: seq<Code>, c: nat, toadd: seq<Entry>, before: seq<Code>, placed: bool)
    requires c <= |chunk|
    ensures Left(chunk, c, false, toadd, before, placed) == [] && !HasLeft(chunk, c, false, before)
  {
  }

  lemma AddedLength(toadd: seq<Entry>, i: nat)
    requires i < |toadd|
    ensures |ToAdd(toadd, i)| == |ToAdd(toadd, i + 1)|
      + if toadd[i].data == None then 0 else 3 + |toadd[i].field| + |toadd[i].data.value|
  {
    AddedNext(toadd, i);
    hide ToAdd;
  }

  /** The room that the new fields need. */
  method RoomFor(toadd: seq<Entry>) returns (room: nat)
    ensures room == |Flatten(Added(toadd))|
  {
    hide *;
    room := 0;
    var i := 0;
    AddedAll(toadd);
    while i < |toadd|
      invariant i <= |toadd| && room + |ToAdd(toadd, i)| == |ToAdd(toadd, 0)|
    {
      AddedLength(toadd, i);
      if toadd[i].data != None {
        room := room + 3 + |toadd[i].field| + |toadd[i].data.value|;
      }
      i := i + 1;
    }
  }

  /** `chunk_replacefield` */
  method ChunkReplaceField(chunk: CString, name: CString, data: CString, maybemissing: bool) returns (r: Edit)
    requires NL !in name
    ensures r == ReplaceFields(chunk, [Entry(name, Some(data))], name, maybemissing)
  {
    r := ChunkReplaceFields(chunk, [Entry(name, Some(data))], name, maybemissing);
  }

  lemma NormalizeStart(chunk: seq<Code>, name: CString, data: seq<Code>, gone: seq<Entry>)
    requires NL !in name && gone == [Entry(name, None)]
    ensures OneLineNames(gone) && |AddText(name, data)| == |name| + |data| + 3
    ensures Normalize(chunk, name, data) == Terminate(AddText(name, data) + Left(chunk, 0, true, gone, name, true))
  {
    assert chunk[0..] == chunk && Names(gone) == [name];
  }

  /** What is in the buffer, which is terminated. */
  method Taken(buffer: array<Code>, n: nat) returns (r: seq<Code>)
    requires n < buffer.Length
    modifies buffer
    ensures r == old(buffer[..n])
  {
    buffer[n] := 0;
    r := buffer[..n];
  }

  /** `chunk_normalize`, whose loop is the one above with nothing left to be placed. */
  method ChunkNormalize(chunk: CString, name: CString, data: CString) returns (r: seq<Code>)
    requires NL !in name
    ensures r == Normalize(chunk, name, data)
  {
    hide *;
    var size := 2 + |chunk| + 3 + |data| + |name|;
    var buffer := new Code[size];
    var gone := [Entry(name, None)];
    NormalizeStart(chunk, name, data, gone);
    assert buffer[..0] == [];
    Sequences.Nothing(AddText(name, data));
    var n: nat := PutEntry(buffer, 0, name, data);
    n := PutOthers(buffer, n, chunk, gone, name);
    n := EndLine(buffer, n);
    r := Taken(buffer, n);
  }

  /** The loop over the fields, which leaves out those of one name. */
  method PutOthers(buffer: array<Code>, n0: nat, chunk: CString, gone: seq<Entry>, name: CString) returns (n: nat)
    requires n0 + |chunk| <= buffer.Length && NL !in name && OneLineNames(gone)
    modifies buffer
    ensures n <= n0 + |chunk| && buffer[..n] == old(buffer[..n0]) + Left(chunk, 0, true, gone, name, true)
  {
    hide *;
    n := n0;
    ghost var all := buffer[..n] + Left(chunk, 0, true, gone, name, true);
    var c: nat, more := 0, true;
    while more
      invariant c <= |chunk| && n <= c + n0
      invariant buffer[..n] + Left(chunk, c, more, gone, name, true) == all
      decreases |chunk| - c, more
    {
      var placed;
      n, c, placed, more := PutNext(buffer, n, chunk, c, gone, name, true);
    }
    NothingLeft(chunk, c, gone, name, true);
  }
}
