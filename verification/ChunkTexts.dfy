/** What reading and cutting chunks means for the characters of a text: chunks.c. */
module ChunkTexts {
  import opened CText
  import opened Options
  import opened Chunks
  import opened ChunkEdit
  import opened ChunkExtract
  import Sequences

  // ----- reading fields

  predicate SameLetter(a: Code, b: Code) {
    || a == b
    || ('A' as int <= a <= 'Z' as int && b == a - 'A' as int + 'a' as int)
    || ('A' as int <= b <= 'Z' as int && a == b - 'A' as int + 'a' as int)
  }

  /** Names are compared without their case, which is one of the 26 letters. */
  lemma FoldIs(a: Code, b: Code)
    ensures Fold(a) == Fold(b) <==> SameLetter(a, b)
  {
  }

  /** The line begins with the name and a colon. */
  predicate Named(l: seq<Code>, name: seq<Code>) {
    |name| < |l| && l[|name|] == ':' as int && forall i :: 0 <= i < |name| ==> SameLetter(l[i], name[i])
  }

  predicate OneLine(l: seq<Code>) { '\n' as int !in l }

  predicate AllLines(ls: seq<seq<Code>>) { forall l :: l in ls ==> OneLine(l) }

  function LinesText(ls: seq<seq<Code>>): seq<Code> {
    if ls == [] then [] else ls[0] + (['\n' as int] + LinesText(ls[1..]))
  }

  predicate Blanks(s: seq<Code>) { forall c :: c in s ==> c == ' ' as int || c == '\t' as int }

  predicate White(c: Code) { c in [' ' as int, '\t' as int, '\n' as int, 11, 12, '\r' as int] }

  /** The line is a name, a colon and a value with blanks around it. */
  predicate FieldLine(l: seq<Code>, name: seq<Code>, front: seq<Code>, value: seq<Code>, back: seq<Code>) {
    && Named(l, name) && l[|name| + 1..] == front + (value + back)
    && Blanks(front) && (forall c :: c in back ==> White(c))
    && (value != [] ==> value[0] != ' ' as int && value[0] != '\t' as int && !White(value[|value| - 1]))
    && (value == [] && back != [] ==> back[0] != ' ' as int && back[0] != '\t' as int)
  }

  lemma NamedIs(l: seq<Code>, rest: seq<Code>, name: seq<Code>)
    requires OneLine(l) && OneLine(name)
    ensures Matches(l + (['\n' as int] + rest), name) <==> Named(l, name)
  {
    var s := l + (['\n' as int] + rest);
    assert forall a, b :: Fold(a) == Fold(b) <==> SameLetter(a, b);
    assert s[|l|] == NL;
    if |name| > |l| {
      assert name[|l|] in name && |name| < |s| ==> s[..|name|][|l|] == NL;
    } else {
      assert forall i :: 0 <= i < |name| ==> s[..|name|][i] == s[i] == l[i];
    }
  }

  lemma LineIs(l: seq<Code>, rest: seq<Code>)
    requires OneLine(l)
    ensures var s := l + (['\n' as int] + rest); LineEnd(s) == |l| < |s| && s[|l| + 1..] == rest
  {
    assert (l + [NL])[..|l|] == l;
    LineEndOwn(l + [NL]);
    LineEndBefore(l + [NL], rest);
    Sequences.Regroup(l, [NL], rest);
  }

  lemma {:induction false} SkipBlanksOver(a: seq<Code>, b: seq<Code>)
    requires Blanks(a) && (b != [] ==> !IsBlank(b[0]))
    ensures SkipBlanks(a + b) == b
  {
    if a == [] {
      Sequences.Nothing(b);
    } else {
      assert a[0] in a && (forall c :: c in a[1..] ==> c in a) && (a + b)[1..] == a[1..] + b;
      SkipBlanksOver(a[1..], b);
    }
  }

  lemma {:induction false} TrimOver(a: seq<Code>, b: seq<Code>)
    requires (forall c :: c in b ==> White(c)) && (a != [] ==> !White(a[|a| - 1]))
    ensures TrimEnd(a + b) == a
  {
    var n := |b| - 1;
    if b == [] {
      Sequences.Nothing(a);
    } else {
      assert b[n] in b && (forall c :: c in b[..n] ==> c in b);
      assert (a + b)[..|a + b| - 1] == a + b[..n];
      TrimOver(a, b[..n]);
    }
  }

  lemma ValueIs(front: seq<Code>, value: seq<Code>, back: seq<Code>, rest: seq<Code>)
    requires OneLine(value + back) && Blanks(front) && (forall c :: c in back ==> White(c))
    requires value != [] ==> !IsBlank(value[0]) && !White(value[|value| - 1])
    requires value == [] && back != [] ==> !IsBlank(back[0])
    ensures ValueOf(front + ((value + back) + (['\n' as int] + rest))) == value
  {
    var u := (value + back) + ([NL] + rest);
    assert u[0] == if value != [] then value[0] else if back != [] then back[0] else NL;
    SkipBlanksOver(front, u);
    LineIs(value + back, rest);
    Sequences.Joined(value + back, [NL] + rest);
    TrimOver(value, back);
  }

  /** The value of the first line of the name, with the blanks around it removed. */
  lemma {:induction false} FirstNamed(ls: seq<seq<Code>>, k: nat, name: seq<Code>, front: seq<Code>, value: seq<Code>,
                                      back: seq<Code>)
    requires AllLines(ls) && OneLine(name) && k < |ls| && forall i :: 0 <= i < k ==> !Named(ls[i], name)
    requires FieldLine(ls[k], name, front, value, back)
    ensures GetValue(LinesText(ls), name) == Some(value)
  {
    hide *;
    var l, more := ls[0], LinesText(ls[1..]);
    LinesNext(ls);
    NamedIs(l, more, name);
    if k == 0 {
      NamedValue(l, more, name, front, value, back);
    } else {
      LineIs(l, more);
      ValueNext(l + ([NL] + more), name);
      assert ls[1..][k - 1] == ls[k];
      FirstNamed(ls[1..], k - 1, name, front, value, back);
    }
  }

  lemma LinesNext(ls: seq<seq<Code>>)
    requires AllLines(ls) && ls != []
    ensures OneLine(ls[0]) && AllLines(ls[1..]) && LinesText(ls) == ls[0] + (['\n' as int] + LinesText(ls[1..]))
    ensures NL == '\n' as int
  {
    hide OneLine;
  }

  lemma ValueNext(s: seq<Code>, name: seq<Code>)
    requires !Matches(s, name) && LineEnd(s) < |s|
    ensures GetValue(s, name) == GetValue(s[LineEnd(s) + 1..], name)
  {
    hide Matches, LineEnd;
  }

  lemma NamedValue(l: seq<Code>, more: seq<Code>, name: seq<Code>, front: seq<Code>, value: seq<Code>, back: seq<Code>)
    requires OneLine(l) && OneLine(name) && FieldLine(l, name, front, value, back)
    ensures GetValue(l + (['\n' as int] + more), name) == Some(value)
  {
    NamedIs(l, more, name);
    var s := l + ([NL] + more);
    assert OneLine(value + back) by {
      forall c | c in value + back ensures c != NL {
        assert c in l[|name| + 1..];
      }
    }
    ValueIs(front, value, back, more);
    From(l, [NL] + more, |name| + 1);
    Sequences.Regroup(front, value + back, [NL] + more);
    hide ValueOf, Matches, Named;
  }

  /** No line of the name, no value. */
  lemma {:induction false} NoneNamed(ls: seq<seq<Code>>, name: seq<Code>)
    requires AllLines(ls) && OneLine(name) && forall l :: l in ls ==> !Named(l, name)
    ensures GetValue(LinesText(ls), name) == None
  {
    if ls != [] {
      var l, more := ls[0], LinesText(ls[1..]);
      hide *;
      LinesNext(ls);
      NamedIs(l, more, name);
      LineIs(l, more);
      ValueNext(l + ([NL] + more), name);
      NoneNamed(ls[1..], name);
    }
  }

  // ----- the fields of a chunk

  /** A field is a line that does not begin with a blank, and lines that do. */
  predicate WellField(f: seq<seq<Code>>) {
    && f != [] && AllLines(f) && (forall l :: l in f ==> l != [])
    && !Indented(f[0]) && forall i :: 0 < i < |f| ==> Indented(f[i])
  }

  predicate Indented(l: seq<Code>) { l != [] && (l[0] == ' ' as int || l[0] == '\t' as int) }

  function FieldsText(fs: seq<seq<seq<Code>>>, end: seq<Code>): seq<Code> {
    if fs == [] then end else LinesText(fs[0]) + FieldsText(fs[1..], end)
  }

  function FieldTexts(fs: seq<seq<seq<Code>>>): seq<seq<Code>> {
    seq(|fs|, i requires 0 <= i < |fs| => LinesText(fs[i]))
  }

  lemma {:induction false} LinesWhole(ls: seq<seq<Code>>)
    requires ls != [] && AllLines(ls) && forall i :: 0 < i < |ls| ==> Indented(ls[i])
    ensures Whole(LinesText(ls))
    ensures LinesText(ls)[0] == if ls[0] == [] then '\n' as int else ls[0][0]
  {
    var l, more := ls[0] + [NL], LinesText(ls[1..]);
    assert ls[0] in ls && forall x :: x in ls[1..] ==> x in ls;
    assert l[..|l| - 1] == ls[0];
    LineEndOwn(l);
    Sequences.Regroup(ls[0], [NL], more);
    if |ls| == 1 {
      Sequences.Nothing(l);
      LineWhole(l);
    } else {
      assert Indented(ls[1]) && ls[1..][0] == ls[1];
      LinesWhole(ls[1..]);
      LineMore(l, more);
    }
  }

  lemma FieldsStart(fs: seq<seq<seq<Code>>>, end: seq<Code>)
    requires (forall f :: f in fs ==> WellField(f)) && (end == [] || end[0] == '\n' as int)
    ensures var s := FieldsText(fs, end);
      (fs == [] ==> s == end) && (fs != [] ==> s != [] && s[0] != NL && !IsBlank(s[0])) && (s == [] || !IsBlank(s[0]))
  {
    if fs != [] {
      var f := fs[0];
      assert f in fs && f[0] in f && f[0][0] in f[0] && OneLine(f[0]);
      LinesWhole(f);
    }
  }

  lemma FieldFirst(f: seq<Code>, rest: seq<Code>)
    requires Whole(f) && (rest == [] || !IsBlank(rest[0]))
    ensures Fields(f + rest) == [f] + if rest == [] || rest[0] == NL then [] else Fields(rest)
  {
    FieldEndBefore(f, rest);
    FieldsNext(f + rest, |f|);
    From(f, rest, |f|);
    assert (f + rest)[..|f|] == f && f[|f|..] + rest == rest;
  }

  /** Lines that begin with a blank belong to the field before them, and an empty line ends the chunk. */
  lemma {:induction false} FieldsAre(fs: seq<seq<seq<Code>>>, end: seq<Code>)
    requires fs != [] && (forall f :: f in fs ==> WellField(f)) && (end == [] || end[0] == '\n' as int)
    ensures Fields(FieldsText(fs, end)) == FieldTexts(fs)
  {
    var f, more := fs[0], fs[1..];
    assert f in fs && forall g :: g in more ==> g in fs;
    assert FieldTexts(fs) == [LinesText(f)] + FieldTexts(more);
    LinesWhole(f);
    FieldsStart(more, end);
    FieldFirst(LinesText(f), FieldsText(more, end));
    if more != [] {
      FieldsAre(more, end);
    }
  }

  // ----- editing fields

  /** Each new field is a line. */
  function Written(toadd: seq<Entry>): seq<Code> {
    if toadd == [] then []
    else
      (match toadd[0].data
       case None => []
       case Some(data) => toadd[0].field + [':' as int, ' ' as int] + data + ['\n' as int])
      + Written(toadd[1..])
  }

  lemma {:induction false} WrittenIs(toadd: seq<Entry>)
    ensures Flatten(Added(toadd)) == Written(toadd)
  {
    if toadd != [] {
      WrittenIs(toadd[1..]);
      var e, more := toadd[0], Added(toadd[1..]);
      if e.data == None {
        Sequences.Nothing(more);
      } else {
        assert Added(toadd) == [AddText(e.field, e.data.value)] + more;
        FlattenNext(AddText(e.field, e.data.value), more);
      }
    }
  }

  /** No field has the name of a new one. */
  predicate Untouched(fs: seq<seq<Code>>, toadd: seq<Entry>) {
    forall f, e :: f in fs && e in toadd ==> !Matches(f, e.field)
  }

  lemma {:induction false} KeptUntouched(fs: seq<seq<Code>>, names: seq<seq<Code>>)
    requires forall f :: f in fs ==> !HasAny(f, names)
    ensures Kept(fs, names) == fs
  {
    if fs != [] {
      assert fs[0] in fs && (forall f :: f in fs[1..] ==> f in fs) && fs == [fs[0]] + fs[1..];
      KeptUntouched(fs[1..], names);
    }
  }

  lemma UntouchedNone(fs: seq<seq<Code>>, toadd: seq<Entry>)
    requires Untouched(fs, toadd)
    ensures forall f :: f in fs ==> !HasAny(f, Names(toadd))
  {
    forall f | f in fs ensures !HasAny(f, Names(toadd)) {
      forall n | n in Names(toadd) ensures !Matches(f, n) {
        var i :| 0 <= i < |toadd| && Names(toadd)[i] == n;
        assert toadd[i] in toadd;
      }
    }
  }

  lemma {:induction false} TerminatedAlready(fs: seq<seq<Code>>)
    requires AllWhole(fs)
    ensures TerminateAll(fs) == fs
  {
    if fs != [] {
      assert fs[0] in fs && Whole(fs[0]) && (forall f :: f in fs[1..] ==> f in fs) && fs == [fs[0]] + fs[1..];
      TerminatedAlready(fs[1..]);
    }
  }

  lemma PlacedIs(a: seq<seq<Code>>, rest: seq<seq<Code>>, toadd: seq<Entry>, before: seq<Code>)
    requires Untouched(a + rest, toadd) && (forall f :: f in a ==> !Matches(f, before))
    requires rest != [] ==> Matches(rest[0], before)
    ensures Placed(a + rest, toadd, before) == a + Added(toadd) + rest
    ensures rest != [] ==> Has(a + rest, before)
  {
    var fs := a + rest;
    UntouchedNone(fs, toadd);
    assert (forall f :: f in a ==> f in fs) && forall f :: f in rest ==> f in fs;
    KeptUntouched(a, Names(toadd));
    KeptUntouched(rest, Names(toadd));
    var i := First(fs, before);
    assert (forall j :: 0 <= j < |a| ==> fs[j] == a[j]) && i >= |a|;
    assert rest != [] ==> fs[|a|] == rest[0];
    assert fs[..|a|] == a && fs[|a|..] == rest;
  }

  /**
    * New fields are put in front of the field that is named, or at the end if it may be missing, one line for each and
    * in order, and all other text stays as it is.
    */
  lemma AddedInPlace(a: seq<seq<Code>>, rest: seq<seq<Code>>, toadd: seq<Entry>, before: seq<Code>, maybemissing: bool)
    requires Good(a + rest) && EntriesOk(toadd) && NameOk(before) && toadd != [] && Untouched(a + rest, toadd)
    requires forall f :: f in a ==> !Matches(f, before)
    requires if rest == [] then maybemissing else Matches(rest[0], before)
    ensures ReplaceFields(Flatten(a + rest), toadd, before, maybemissing)
         == Done(Flatten(a) + (Written(toadd) + Flatten(rest)))
  {
    var fs := a + rest;
    var r := ReplaceFields(Flatten(fs), toadd, before, maybemissing);
    FieldsFlatten(fs);
    PlacedIs(a, rest, toadd, before);
    assert r.Done?;
    hide *;
    GoodNoBlankLine(fs);
    GoodWhole(fs);
    TerminatedAlready(fs);
    ReplacedFields(Flatten(fs), toadd, before, maybemissing);
    FlattenConcat(a + Added(toadd), rest);
    FlattenConcat(a, Added(toadd));
    WrittenIs(toadd);
    Sequences.Regroup(Flatten(a), Written(toadd), Flatten(rest));
  }

  /** Normalising takes the field out, if it is there, and puts the new line in front of all others. */
  lemma PutFirst(a: seq<seq<Code>>, f: seq<seq<Code>>, b: seq<seq<Code>>, name: seq<Code>, data: seq<Code>)
    requires AllProper(a + (f + b)) && NameOk(name) && ValueOk(data) && (forall g :: g in f ==> Matches(g, name))
    requires forall g :: g in a || g in b ==> !Matches(g, name)
    ensures Normalize(Flatten(a + (f + b)), name, data)
         == name + [':' as int, ' ' as int] + data + ['\n' as int] + (Flatten(a) + Flatten(b))
  {
    var fs := a + (f + b);
    var ns := [name];
    ProperGood(fs);
    FlattenHead(fs);
    assert forall g :: g in a || g in b ==> !HasAny(g, ns);
    assert forall g :: g in f ==> HasAny(g, ns) by { assert name in ns; }
    assert name + [':' as int, ' ' as int] + data + ['\n' as int] == AddText(name, data);
    assert WellBegun(Flatten(fs));
    hide *;
    FieldsFlatten(fs);
    GoodWhole(fs);
    TerminatedAlready(fs);
    NormalizedFields(Flatten(fs), name, data);
    KeptConcat(a, f + b, ns);
    KeptConcat(f, b, ns);
    KeptUntouched(a, ns);
    KeptUntouched(b, ns);
    KeptNone(f, ns);
    FlattenNext(AddText(name, data), a + b);
    FlattenConcat(a, b);
    Sequences.Nothing(b);
  }

  lemma {:induction false} KeptNone(fs: seq<seq<Code>>, names: seq<seq<Code>>)
    requires forall f :: f in fs ==> HasAny(f, names)
    ensures Kept(fs, names) == []
  {
    if fs != [] {
      assert fs[0] in fs && (forall f :: f in fs[1..] ==> f in fs);
      KeptNone(fs[1..], names);
    }
  }

  // ----- taking all chunks out of a text

  /** Extracting until nothing comes out. */
  ghost function AllChunks(s: seq<Code>, comments: bool): seq<seq<Code>>
    decreases |s|
  {
    var t := Extract(s, comments);
    NextShorter(s, comments);
    if t == [] then [] else [t] + AllChunks(Next(s, comments), comments)
  }

  lemma {:induction false} StopShorter(s: seq<Code>)
    ensures s != [] && s[0] != 0 ==> |Stop(s)| < |s|
  {
  }

  lemma NextShorter(s: seq<Code>, comments: bool)
    ensures Extract(s, comments) != [] ==> |Next(s, comments)| < |s|
  {
    StopShorter(Start(s, comments));
  }

  /** A line as it may be written, with carriage returns at its end. */
  datatype Row = Row(text: seq<Code>, ends: seq<Code>)

  /** A chunk as it may be written, with white space in front of it. */
  datatype Block = Block(front: seq<Code>, rows: seq<Row>, ends: seq<Code>)

  predicate Returns(s: seq<Code>) { forall c :: c in s ==> c == '\r' as int }

  predicate Spaces(s: seq<Code>) { forall c :: c in s ==> c in [' ' as int, '\t' as int, '\r' as int, '\n' as int] }

  predicate WellWritten(rows: seq<Row>) {
    forall r :: r in rows ==>
      r.text != [] && '\n' as int !in r.text && '\r' as int !in r.text && 0 !in r.text && Returns(r.ends)
  }

  predicate WellBlock(b: Block, comments: bool) {
    && Spaces(b.front) && Returns(b.ends) && b.rows != [] && WellWritten(b.rows)
    && (var c := b.rows[0].text[0]; c != ' ' as int && c != '\t' as int && (comments ==> c != '#' as int))
  }

  function RowText(r: Row): seq<Code> { r.text + (r.ends + ['\n' as int]) }

  function RowsText(rows: seq<Row>): seq<Code> { if rows == [] then [] else RowText(rows[0]) + RowsText(rows[1..]) }

  /** The rows without carriage returns. */
  function Plain(rows: seq<Row>): seq<Code> {
    if rows == [] then [] else rows[0].text + (['\n' as int] + Plain(rows[1..]))
  }

  /** Empty lines between them, and perhaps white space in front of each. */
  function BlocksText(bs: seq<Block>, end: seq<Code>): seq<Code> {
    if bs == [] then end
    else bs[0].front + (RowsText(bs[0].rows) + (bs[0].ends + (['\n' as int] + BlocksText(bs[1..], end))))
  }

  function PlainAll(bs: seq<Block>): seq<seq<Code>> { seq(|bs|, i requires 0 <= i < |bs| => Plain(bs[i].rows)) }

  lemma {:induction false} CopiedChars(a: seq<Code>, b: seq<Code>)
    requires NL !in a && CR !in a && 0 !in a
    ensures Copied(a + b) == a + Copied(b) && Stop(a + b) == Stop(b)
  {
    if a == [] {
      Sequences.Nothing(b);
      Sequences.Nothing(Copied(b));
    } else {
      assert a[0] in a && (forall c :: c in a[1..] ==> c in a) && (a + b)[1..] == a[1..] + b;
      CopiedChars(a[1..], b);
      CopiedNext(a + b);
      hide *;
      Sequences.Regroup([a[0]], a[1..], Copied(b));
      assert [a[0]] + a[1..] == a;
    }
  }

  lemma {:induction false} CopiedReturnsOver(a: seq<Code>, b: seq<Code>)
    requires Returns(a)
    ensures Copied(a + b) == Copied(b) && Stop(a + b) == Stop(b) && SkipReturns(a + b) == SkipReturns(b)
  {
    if a == [] {
      Sequences.Nothing(b);
    } else {
      assert a[0] in a && (forall c :: c in a[1..] ==> c in a) && (a + b)[1..] == a[1..] + b;
      CopiedReturnsOver(a[1..], b);
      CopiedNext(a + b);
      hide Copied, Stop;
    }
  }

  /** A line, and what comes after it. */
  lemma RowCopied(r: Row, b: seq<Code>)
    requires WellWritten([r])
    ensures var t := SkipReturns(b); var over := t != [] && t[0] == '\n' as int;
      && Copied(RowText(r) + b) == r.text + (['\n' as int] + if over then [] else Copied(t))
      && Stop(RowText(r) + b) == if over then t else Stop(t)
  {
    var s := [NL] + b;
    assert r in [r];
    RowThen(r, b);
    hide *;
    NewlineCopied(b);
    CopiedReturnsOver(r.ends, s);
    CopiedChars(r.text, r.ends + s);
  }

  lemma RowThen(r: Row, b: seq<Code>)
    ensures RowText(r) + b == r.text + (r.ends + ([NL] + b))
  {
  }

  lemma NewlineCopied(b: seq<Code>)
    ensures var t := SkipReturns(b); var over := t != [] && t[0] == NL;
      && Copied([NL] + b) == [NL] + (if over then [] else Copied(t))
      && Stop([NL] + b) == if over then t else Stop(t)
  {
    CopiedNext([NL] + b);
    assert ([NL] + b)[1..] == b;
    hide Copied, Stop, SkipReturns;
  }

  lemma RowFirst(r: Row, b: seq<Code>)
    requires WellWritten([r])
    ensures var s := RowText(r) + b;
      s != [] && s[0] == r.text[0] && s[0] != NL && s[0] != CR && SkipReturns(s) == s
  {
    assert r in [r] && r.text[0] in r.text;
  }

  lemma RowsNext(rows: seq<Row>, b: seq<Code>)
    requires rows != [] && WellWritten(rows)
    ensures WellWritten([rows[0]]) && WellWritten(rows[1..])
    ensures RowsText(rows) + b == RowText(rows[0]) + (RowsText(rows[1..]) + b)
    ensures |rows| > 1 ==> WellWritten([rows[1]]) && rows[1] == rows[1..][0]
  {
    hide RowText;
    Sequences.Regroup(RowText(rows[0]), RowsText(rows[1..]), b);
  }

  /** The lines of a chunk, and the empty line after it. */
  lemma {:induction false} RowsCopied(rows: seq<Row>, ends: seq<Code>, b: seq<Code>)
    requires rows != [] && WellWritten(rows) && Returns(ends)
    ensures var s := RowsText(rows) + (ends + (['\n' as int] + b));
      Copied(s) == Plain(rows) && Stop(s) == ['\n' as int] + b
  {
    var end := ends + ([NL] + b);
    RowsNext(rows, end);
    RowCopied(rows[0], RowsText(rows[1..]) + end);
    if |rows| == 1 {
      CopiedReturnsOver(ends, [NL] + b);
      assert RowsText(rows[1..]) + end == end && SkipReturns([NL] + b) == [NL] + b;
      assert Plain(rows) == rows[0].text + ([NL] + []);
    } else {
      RowsCopied(rows[1..], ends, b);
      RowsNext(rows[1..], end);
      hide *;
      RowFirst(rows[1], RowsText(rows[1..][1..]) + end);
      PlainNext(rows);
    }
  }

  lemma PlainNext(rows: seq<Row>)
    requires rows != []
    ensures Plain(rows) == rows[0].text + ([NL] + Plain(rows[1..]))
  {
  }

  lemma {:induction false} SkipWhiteOver(a: seq<Code>, b: seq<Code>)
    requires Spaces(a) && (b != [] ==> !IsWhite(b[0]))
    ensures SkipWhite(a + b) == b
  {
    if a == [] {
      Sequences.Nothing(b);
    } else {
      assert a[0] in a && (forall c :: c in a[1..] ==> c in a) && (a + b)[1..] == a[1..] + b;
      SkipWhiteOver(a[1..], b);
    }
  }

  lemma {:induction false} StartSame(s: seq<Code>, t: seq<Code>, comments: bool)
    requires SkipWhite(s) == SkipWhite(t)
    ensures Start(s, comments) == Start(t, comments)
  {
  }

  lemma {:induction false} SkipWhiteLines(s: seq<Code>)
    ensures SkipWhite(SkipLines(s)) == SkipWhite(s)
  {
    if s != [] && (s[0] == CR || s[0] == NL) {
      SkipWhiteLines(s[1..]);
    }
  }

  /** The empty lines before a text do not matter. */
  lemma AfterEmptyLines(s: seq<Code>, comments: bool)
    ensures Start(AfterGap(['\n' as int] + s), comments) == Start(s, comments)
  {
    assert ([NL] + s)[1..] == s;
    SkipWhiteLines(s);
    StartSame(SkipLines(s), s, comments);
  }

  lemma {:induction false} AllOfSameStart(s: seq<Code>, t: seq<Code>, comments: bool)
    requires Start(s, comments) == Start(t, comments)
    ensures AllChunks(s, comments) == AllChunks(t, comments)
  {
  }

  lemma ExtractBlock(b: Block, rest: seq<Code>, comments: bool)
    requires WellBlock(b, comments)
    ensures var s := b.front + (RowsText(b.rows) + (b.ends + (['\n' as int] + rest)));
      Extract(s, comments) == Plain(b.rows) != [] && Next(s, comments) == AfterGap(['\n' as int] + rest)
  {
    var end := b.ends + ([NL] + rest);
    var t := RowsText(b.rows) + end;
    RowsNext(b.rows, end);
    RowFirst(b.rows[0], RowsText(b.rows[1..]) + end);
    SkipWhiteOver(b.front, t);
    RowsCopied(b.rows, b.ends, rest);
    ExtractIs(b.front + t, comments);
    PlainNext(b.rows);
    hide Copied, Stop, Extract, Next, SkipWhite, RowsText, AfterGap, WellWritten, Spaces, Plain;
  }

  /** All the chunks of a text come out one after the other, as they are without carriage returns. */
  lemma {:induction false} AllChunksAre(bs: seq<Block>, end: seq<Code>, comments: bool)
    requires (forall b :: b in bs ==> WellBlock(b, comments)) && Spaces(end)
    ensures AllChunks(BlocksText(bs, end), comments) == PlainAll(bs)
  {
    if bs == [] {
      Sequences.Nothing(end);
      SkipWhiteOver(end, []);
    } else {
      hide *;
      var b, rest := bs[0], BlocksText(bs[1..], end);
      BlocksNext(bs, end, comments);
      ExtractBlock(b, rest, comments);
      AllChunksNext(BlocksText(bs, end), comments);
      AfterEmptyLines(rest, comments);
      AllOfSameStart(AfterGap(['\n' as int] + rest), rest, comments);
      AllChunksAre(bs[1..], end, comments);
    }
  }

  lemma BlocksNext(bs: seq<Block>, end: seq<Code>, comments: bool)
    requires bs != [] && forall b :: b in bs ==> WellBlock(b, comments)
    ensures WellBlock(bs[0], comments) && forall b :: b in bs[1..] ==> WellBlock(b, comments)
    ensures PlainAll(bs) == [Plain(bs[0].rows)] + PlainAll(bs[1..])
    ensures BlocksText(bs, end)
         == bs[0].front + (RowsText(bs[0].rows) + (bs[0].ends + (['\n' as int] + BlocksText(bs[1..], end))))
  {
    hide WellBlock, Plain, RowsText;
  }

  lemma AllChunksNext(s: seq<Code>, comments: bool)
    requires Extract(s, comments) != []
    ensures AllChunks(s, comments) == [Extract(s, comments)] + AllChunks(Next(s, comments), comments)
  {
    hide Extract, Next;
  }

  /** A comment at the start is dropped, where comments are allowed. */
  lemma CommentDropped(front: seq<Code>, comment: seq<Code>, s: seq<Code>)
    requires Spaces(front) && '\n' as int !in comment
    ensures var t := front + (['#' as int] + comment + (['\n' as int] + s));
      Extract(t, true) == Extract(s, true) && Next(t, true) == Next(s, true)
  {
    var l := [HASH] + comment;
    LineIs(l, s);
    var u := l + ([NL] + s);
    SkipWhiteOver(front, u);
    Sequences.Joined(l, [NL] + s);
    assert ([NL] + s)[1..] == s;
    StartSame([NL] + s, s, true);
  }
}
