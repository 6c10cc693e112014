/**
  * What comparing versions means for their texts: section 5.6.12 of the Debian Policy Manual. These laws decide every
  * comparison without mentioning weights or keys.
  */
module VersionLaws {
  import opened CText
  import opened Options
  import opened Versions
  import Sequences

  /** Two texts, compared as the upstream versions of versions that are otherwise alike. */
  function TextOrder(a: CString, b: CString): int { VersionOrder(Version(0, a, []), Version(0, b, [])) }

  lemma TextOrderIs(a: CString, b: CString)
    ensures TextOrder(a, b) == KeyOrder(Key(a), Key(b)) == KeyOrder(Whole(a), Whole(b))
  {
    KeyOrderReflexive(Key([]));
    WholeOrder(a, b);
    hide Key, KeyOrder, Whole;
  }

  // ----- epoch, upstream version, revision

  function FirstDecides(a: int, b: int): int { if a != 0 then a else b }

  /** The epochs decide, then the upstream versions, and only then the revisions. */
  lemma VersionIsThreefold(v: Version, w: Version)
    ensures VersionOrder(v, w)
      == if v.epoch < w.epoch then -1 else if v.epoch > w.epoch then 1
         else FirstDecides(TextOrder(v.version, w.version), TextOrder(v.revision, w.revision))
  {
    TextOrderIs(v.version, w.version);
    TextOrderIs(v.revision, w.revision);
    hide Key, KeyOrder, Whole;
  }

  // ----- texts

  predicate Decimal(c: Code) { '0' as int <= c <= '9' as int }

  /** A tilde comes first, then the end of the text or a digit, then letters, then all other characters. */
  function Class(c: Code): int {
    if c == '~' as int then 0
    else if c == 0 || Decimal(c) then 1
    else if 'a' as int <= c <= 'z' as int || 'A' as int <= c <= 'Z' as int then 2
    else 3
  }

  /** By class, and among letters or among the others by code. */
  predicate Sooner(c: Code, d: Code) { Class(c) < Class(d) || (Class(c) == Class(d) >= 2 && c < d) }

  lemma SoonerIs(c: Code, d: Code)
    ensures Sooner(c, d) <==> Order(c) < Order(d)
    ensures Decimal(c) <==> IsDigit(c)
    ensures c != d && !(Class(c) == Class(d) == 1) ==> Sooner(c, d) || Sooner(d, c)
    ensures Class(c) == 1 <==> c == 0 || Decimal(c)
  {
  }

  /** A character that is not a digit, in front of both, makes no difference. */
  lemma CommonStart(c: Code, a: CString, b: CString)
    requires c != 0 && !Decimal(c)
    ensures TextOrder([c] + a, [c] + b) == TextOrder(a, b)
  {
    var v, w := [c] + a, [c] + b;
    assert v[1..] == a && w[1..] == b;
    SoonerIs(c, c);
    TextOrderIs(v, w);
    TextOrderIs(a, b);
    hide Key, KeyOrder, Whole, VersionOrder, Order;
    TextStep(v, w);
  }

  /** The first characters decide if they differ and not both are a digit or the end. */
  lemma FirstDifference(a: CString, b: CString)
    requires At(a, 0) != At(b, 0) && !((a == [] || Decimal(a[0])) && (b == [] || Decimal(b[0])))
    ensures TextOrder(a, b) == if Sooner(At(a, 0), At(b, 0)) then -1 else 1
  {
    SoonerIs(At(a, 0), At(b, 0));
    SoonerIs(At(b, 0), At(a, 0));
    TextOrderIs(a, b);
    hide Key, KeyOrder, Whole, VersionOrder, Order, Sooner;
    TextStep(a, b);
  }

  /** The number that digits write. */
  function Value(d: seq<Code>): int {
    if d == [] then 0 else 10 * Value(d[..|d| - 1]) + (d[|d| - 1] - '0' as int)
  }

  predicate Decimals(d: seq<Code>) { forall c :: c in d ==> Decimal(c) }

  lemma {:induction false} NumberBefore(sofar: nat, d: CString, x: CString)
    requires Decimals(d) && (x == [] || !Decimal(x[0]))
    ensures Number(sofar, d + x) == Number(sofar, d) && AfterDigits(d + x) == x
    decreases |d|
  {
    if d == [] {
      Sequences.Nothing(x);
    } else {
      assert d[0] in d && (d + x)[0] == d[0] && (d + x)[1..] == d[1..] + x;
      NumberBefore(10 * sofar + Digit(d[0]), d[1..], x);
    }
  }

  lemma {:induction false} NumberMore(sofar: nat, d: CString, c: Code)
    requires Decimals(d) && Decimal(c)
    ensures Number(sofar, d + [c]) == 10 * Number(sofar, d) + (c - '0' as int)
    decreases |d|
  {
    if d == [] {
      Sequences.Nothing([c]);
      assert [c][1..] == [];
    } else {
      assert d[0] in d && (d + [c])[0] == d[0] && (d + [c])[1..] == d[1..] + [c];
      NumberMore(10 * sofar + Digit(d[0]), d[1..], c);
    }
  }

  lemma {:induction false} NumberValue(d: CString)
    requires Decimals(d)
    ensures Number(0, d) == Value(d)
  {
    if d != [] {
      var before, c := d[..|d| - 1], d[|d| - 1];
      assert c in d && d == before + [c];
      NumberValue(before);
      NumberMore(0, before, c);
    }
  }

  lemma StandAtNumbers(d: CString, x: CString)
    requires Decimals(d) && (x == [] || !Decimal(x[0])) && (d == [] ==> x == [])
    ensures Number(0, d + x) == Value(d) && AfterDigits(d + x) == x && (d + x == [] || IsDigit((d + x)[0]))
  {
    NumberBefore(0, d, x);
    NumberValue(d);
    assert d != [] ==> (d + x)[0] == d[0] && d[0] in d;
    hide Number, AfterDigits, Value;
  }

  lemma SignOf(n: int)
    ensures Sign(n) == if n < 0 then -1 else if n > 0 then 1 else 0
  {
  }

  /** Where both stand at a digit or the end, the numbers decide, and then what follows the digits. */
  lemma NumbersFirst(d: CString, x: CString, e: CString, y: CString)
    requires Decimals(d) && Decimals(e) && (x == [] || !Decimal(x[0])) && (y == [] || !Decimal(y[0]))
    requires (d == [] ==> x == []) && (e == [] ==> y == [])
    ensures TextOrder(d + x, e + y)
      == if Value(d) < Value(e) then -1 else if Value(d) > Value(e) then 1 else TextOrder(x, y)
  {
    hide *;
    StandAtNumbers(d, x);
    StandAtNumbers(e, y);
    TextOrderIs(d + x, e + y);
    TextOrderIs(x, y);
    NumberStep(d + x, e + y);
    SignOf(Value(d) - Value(e));
  }

  // ----- the texts that are compared

  /** A version as it is written: the epoch with its colon and the revision with its hyphen may be left out. */
  datatype Written = Written(epoch: Option<CString>, upstream: CString, revision: Option<CString>)

  function AfterEpoch(w: Written): CString {
    w.upstream + if w.revision == None then [] else ['-' as int] + w.revision.value
  }

  function WrittenText(w: Written): CString {
    (if w.epoch == None then [] else w.epoch.value + [':' as int]) + AfterEpoch(w)
  }

  /** The epoch is a number, parts that are left out leave no doubt, and there are no blanks inside. */
  ghost predicate WellWritten(w: Written) {
    && NoBlank(AfterEpoch(w)) && AfterEpoch(w) != []
    && (w.epoch == None ==> ':' as int !in AfterEpoch(w))
    && (w.epoch != None ==> w.epoch.value != [] && Decimals(w.epoch.value))
    && '-' as int !in (if w.revision == None then w.upstream else w.revision.value)
  }

  /** An epoch that is left out is 0, and there is none larger than 2^64 - 1; a revision that is left out is empty. */
  function WrittenMeaning(w: Written): Version
    requires w.epoch != None ==> Value(w.epoch.value) >= 0
  {
    Version(if w.epoch == None then 0
            else if Value(w.epoch.value) < 0x1_0000_0000_0000_0000 then Value(w.epoch.value)
            else 0xffff_ffff_ffff_ffff,
            w.upstream, if w.revision == None then [] else w.revision.value)
  }

  lemma SplitWritten(epoch: nat, w: Written)
    requires WellWritten(w)
    ensures Split(epoch, AfterEpoch(w))
      == Version(epoch, w.upstream, if w.revision == None then [] else w.revision.value)
  {
    if w.revision == None {
      Sequences.Nothing(w.upstream);
    } else {
      assert w.upstream + (['-' as int] + w.revision.value) == w.upstream + [HYPHEN] + w.revision.value;
      SplitRendered(epoch, w.upstream, w.revision.value);
    }
  }

  lemma ParseWordIs(t: CString, n: nat)
    requires n <= |t|
    ensures ':' as int !in t[..n] ==> ParseWord(t, n) == Ok(Split(0, t[..n]))
    ensures ':' as int in t[..n] && Find(t[..n], ':' as int) == Strtoul(t).1 && Strtoul(t).1 + 1 < n ==>
              ParseWord(t, n) == Ok(Split(Strtoul(t).0, t[Strtoul(t).1 + 1..n]))
  {
    hide Strtoul, Split, Find;
  }

  lemma WordPlain(w: Written, b: CString)
    requires WellWritten(w) && w.epoch == None
    ensures ParseWord(WrittenText(w) + b, |WrittenText(w)|) == Ok(WrittenMeaning(w))
  {
    var x, t: CString := AfterEpoch(w), WrittenText(w) + b;
    Sequences.Nothing(x);
    assert WrittenText(w) == x && ':' as int !in x;
    SplitWritten(0, w);
    assert WrittenMeaning(w) == Version(0, w.upstream, if w.revision == None then [] else w.revision.value);
    hide *;
    Sequences.Joined(x, b);
    ParseWordIs(t, |x|);
  }

  lemma MeaningEpoch(w: Written)
    requires WellWritten(w) && w.epoch != None
    ensures Value(w.epoch.value) == Number(0, w.epoch.value)
    ensures var n := Number(0, w.epoch.value);
      WrittenMeaning(w) == Split(if n > ULONG_MAX then ULONG_MAX else n, AfterEpoch(w))
  {
    NumberValue(w.epoch.value);
    hide Value, Number, Split, AfterEpoch, Decimals;
    SplitWritten(WrittenMeaning(w).epoch, w);
  }

  lemma WordEpoch(w: Written, b: CString)
    requires WellWritten(w) && w.epoch != None
    ensures Value(w.epoch.value) >= 0
    ensures ParseWord(WrittenText(w) + b, |WrittenText(w)|) == Ok(WrittenMeaning(w))
  {
    hide *;
    WordEpochPieces(w, b);
    MeaningEpoch(w);
    var t: CString := WrittenText(w) + b;
    ParseWordIs(t, |WrittenText(w)|);
  }

  /** Where the epoch ends, and what it is. */
  lemma WordEpochPieces(w: Written, b: CString)
    requires WellWritten(w) && w.epoch != None
    ensures Value(w.epoch.value) >= 0
    ensures var d, s, x := w.epoch.value, WrittenText(w), AfterEpoch(w);
      && ':' as int in (s + b)[..|s|] && Find((s + b)[..|s|], ':' as int) == |d| && |d| + 1 < |s|
      && (s + b)[|d| + 1..|s|] == x
      && Strtoul(s + b) == (if Number(0, d) > ULONG_MAX then ULONG_MAX else Number(0, d), |d|)
  {
    var d, x := w.epoch.value, AfterEpoch(w);
    NumberValue(d);
    assert d != [] && AllDigits(d) && x != [];
    assert WrittenText(w) == d + ([':' as int] + x) && COLON == ':' as int;
    hide *;
    EpochPieces(d, x, b);
  }

  lemma EpochPieces(d: CString, x: CString, b: CString)
    requires d != [] && AllDigits(d) && x != []
    ensures var s := d + ([COLON] + x);
      && COLON in (s + b)[..|s|] && Find((s + b)[..|s|], COLON) == |d| && |d| + 1 < |s| && (s + b)[|d| + 1..|s|] == x
      && Strtoul(s + b) == (if Number(0, d) > ULONG_MAX then ULONG_MAX else Number(0, d), |d|)
  {
    Pieces(d, x, b);
    EpochRead(d, [COLON] + x + b);
    DigitsBefore(d, 0, [COLON] + x);
    hide Strtoul, Number, AllDigits, Digits, Find;
  }

  lemma WordWritten(w: Written, b: CString)
    requires WellWritten(w)
    ensures w.epoch != None ==> Value(w.epoch.value) >= 0
    ensures ParseWord(WrittenText(w) + b, |WrittenText(w)|) == Ok(WrittenMeaning(w))
  {
    hide *;
    if w.epoch == None {
      WordPlain(w, b);
    } else {
      WordEpoch(w, b);
    }
  }

  lemma ParseIs(s: CString, start: nat, n: nat)
    requires s != [] && start == Blanks(s) && n == Word(s[start..])
    ensures Blanks(s[start..][n..]) >= |s| - start - n ==> Parse(s) == ParseWord(s[start..], n)
  {
    hide Blanks, Word, ParseWord;
  }

  /** A word between blanks. */
  lemma ParseBetween(a: CString, s: CString, b: CString, t: CString)
    requires AllBlank(a) && NoBlank(s) && s != [] && AllBlank(b) && t == s + b
    ensures Parse(a + t) == ParseWord(t, |s|)
  {
    var all: CString := a + t;
    assert t[0] == s[0] && s[0] in s;
    BlanksBefore(a, t);
    WordBefore(s, b);
    BlanksBefore(b, []);
    assert b + [] == b && all[|a|..] == t && t[|s|..] == b;
    hide *;
    ParseIs(all, |a|, |s|);
  }

  /** A version between blanks is read as it is written. */
  lemma ParseWritten(a: CString, w: Written, b: CString)
    requires WellWritten(w) && AllBlank(a) && AllBlank(b)
    ensures w.epoch != None ==> Value(w.epoch.value) >= 0
    ensures Parse(a + (WrittenText(w) + b)) == Ok(WrittenMeaning(w))
  {
    var s := WrittenText(w);
    var t: CString := s + b;
    NoBlankWritten(w);
    hide *;
    WordWritten(w, b);
    ParseBetween(a, s, b, t);
  }

  lemma NoBlankWritten(w: Written)
    requires WellWritten(w)
    ensures NoBlank(WrittenText(w)) && WrittenText(w) != []
  {
  }

  /** What is compared in the end, for any two versions that are written between blanks. */
  lemma WrittenOrder(a: CString, v: Written, b: CString, c: CString, w: Written, d: CString)
    requires WellWritten(v) && WellWritten(w) && AllBlank(a) && AllBlank(b) && AllBlank(c) && AllBlank(d)
    ensures (v.epoch != None ==> Value(v.epoch.value) >= 0) && (w.epoch != None ==> Value(w.epoch.value) >= 0)
    ensures var p, q := Parse(a + (WrittenText(v) + b)), Parse(c + (WrittenText(w) + d));
      var m, n := WrittenMeaning(v), WrittenMeaning(w);
      && p.Ok? && q.Ok?
      && VersionOrder(p.value, q.value)
        == if m.epoch < n.epoch then -1 else if m.epoch > n.epoch then 1
           else FirstDecides(TextOrder(m.version, n.version), TextOrder(m.revision, n.revision))
  {
    ParseWritten(a, v, b);
    ParseWritten(c, w, d);
    hide Parse, VersionOrder, WrittenText, TextOrder;
    VersionIsThreefold(WrittenMeaning(v), WrittenMeaning(w));
  }

  // ----- texts that are refused

  /** Anything after blanks after the version is an error. */
  lemma EmbeddedBlanks(a: CString, w: CString, b: CString, x: CString)
    requires AllBlank(a) && NoBlank(w) && w != [] && AllBlank(b) && b != [] && x != [] && !IsBlank(x[0])
    ensures Parse(a + (w + (b + x))) == EmbeddedSpaces
  {
    var t := w + (b + x);
    assert t[0] == w[0] && w[0] in w && (b + x)[0] == b[0] && b[0] in b;
    BlanksBefore(a, t);
    WordThen(w, b + x);
    BlanksBefore(b, x);
    assert (a + t)[|a|..] == t && t[|w|..] == b + x;
    hide Blanks, Word;
  }

  lemma {:induction false} WordThen(w: CString, t: CString)
    requires NoBlank(w) && (t == [] || IsBlank(t[0]))
    ensures Word(w + t) == |w|
  {
    if w == [] {
      Sequences.Nothing(t);
    } else {
      assert w[0] in w && (w + t)[0] == w[0] && (w + t)[1..] == w[1..] + t;
      WordThen(w[1..], t);
    }
  }
}
