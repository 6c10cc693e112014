/** Reading and editing the fields of a control chunk: chunks.c. */
module Chunks {
  import opened CText
  import opened Options

  /** Lower case, for comparing names. */
  function Fold(c: Code): Code { if 65 <= c <= 90 then c + 32 else c }

  predicate SameName(a: seq<Code>, b: seq<Code>) {
    |a| == |b| && forall i :: 0 <= i < |a| ==> Fold(a[i]) == Fold(b[i])
  }

  /** The text begins with the name, in whatever case, and a colon. */
  predicate Matches(s: seq<Code>, name: seq<Code>) {
    |name| < |s| && SameName(s[..|name|], name) && s[|name|] == COLON
  }

  /** The length of the first line without its newline. */
  function LineEnd(s: seq<Code>): (n: nat)
    ensures n <= |s| && (forall i :: 0 <= i < n ==> s[i] != NL) && (n < |s| ==> s[n] == NL)
  {
    if s == [] || s[0] == NL then 0 else 1 + LineEnd(s[1..])
  }

  /** The length of the first field: lines that go on with a blank belong to it. */
  function FieldEnd(s: seq<Code>): (n: nat)
    ensures n <= |s| && (s != [] ==> n > 0) && (n < |s| ==> s[n - 1] == NL && !IsBlank(s[n]))
  {
    var n := LineEnd(s);
    if n == |s| then n
    else if n + 1 < |s| && IsBlank(s[n + 1]) then n + 1 + FieldEnd(s[n + 1..])
    else n + 1
  }

  // ----- reading

  /** What comes after the colon of the first line that begins with this name. */
  function GetField(s: seq<Code>, name: seq<Code>): Option<seq<Code>>
    decreases |s|
  {
    if Matches(s, name) then Some(s[|name| + 1..])
    else if LineEnd(s) == |s| then None
    else GetField(s[LineEnd(s) + 1..], name)
  }

  function SkipBlanks(s: seq<Code>): seq<Code> { if s != [] && IsBlank(s[0]) then SkipBlanks(s[1..]) else s }

  function TrimEnd(s: seq<Code>): seq<Code> {
    if s != [] && IsSpace(s[|s| - 1]) then TrimEnd(s[..|s| - 1]) else s
  }

  /** The rest of the line without blanks around it; spaces at the end stay if the line is not terminated. */
  function ValueOf(t: seq<Code>): seq<Code> {
    var u := SkipBlanks(t);
    if LineEnd(u) < |u| then TrimEnd(u[..LineEnd(u)]) else u
  }

  function GetValue(s: seq<Code>, name: seq<Code>): Option<seq<Code>> {
    match GetField(s, name)
    case None => None
    case Some(t) => Some(ValueOf(t))
  }

  // ----- chunks as lists of fields

  /** The fields up to the first blank line; the first one is taken whatever it begins with. */
  function Fields(s: seq<Code>): (fs: seq<seq<Code>>)
    decreases |s|
  {
    if s == [] then []
    else
      var rest := s[FieldEnd(s)..];
      [s[..FieldEnd(s)]] + if rest == [] || rest[0] == NL then [] else Fields(rest)
  }

  function Flatten(fs: seq<seq<Code>>): seq<Code> { if fs == [] then [] else fs[0] + Flatten(fs[1..]) }

  /** Just one field, and its last line is terminated. */
  ghost predicate Whole(f: seq<Code>) { f != [] && FieldEnd(f) == |f| && f[|f| - 1] == NL }

  /** A field that can stand anywhere: it also begins like one. */
  ghost predicate Proper(f: seq<Code>) { Whole(f) && f[0] != NL && !IsBlank(f[0]) }

  ghost predicate AllProper(fs: seq<seq<Code>>) { forall f :: f in fs ==> Proper(f) }
  ghost predicate AllWhole(fs: seq<seq<Code>>) { forall f :: f in fs ==> Whole(f) }

  /** The fields of a chunk; only the first one may begin with a blank. */
  ghost predicate Good(fs: seq<seq<Code>>) {
    fs != [] ==> Whole(fs[0]) && fs[0][0] != NL && AllProper(fs[1..])
  }

  /** The first field of this name. */
  function GetIn(fs: seq<seq<Code>>, name: seq<Code>): Option<seq<Code>> {
    if fs == [] then None
    else if Matches(fs[0], name) then Some(ValueOf(fs[0][|name| + 1..]))
    else GetIn(fs[1..], name)
  }

  /** A name as field names are. */
  predicate NameOk(name: seq<Code>) {
    name != [] && forall c :: c in name ==> c != NL && c != COLON && !IsBlank(c) && c != 0
  }

  // ----- reading a chunk is reading its list of fields

  lemma {:induction false} LineEndBefore(a: seq<Code>, b: seq<Code>)
    ensures LineEnd(a) < |a| ==> LineEnd(a + b) == LineEnd(a)
    ensures LineEnd(a) == |a| ==> LineEnd(a + b) == |a| + LineEnd(b)
  {
    if a == [] {
      assert a + b == b;
    } else if a[0] != NL {
      assert (a + b)[1..] == a[1..] + b;
      LineEndBefore(a[1..], b);
    }
  }

  lemma {:induction false} LineEndWithin(s: seq<Code>)
    requires NL in s
    ensures LineEnd(s) < |s|
  {
    if s[0] != NL {
      LineEndWithin(s[1..]);
    }
  }

  lemma FieldEndNext(s: seq<Code>, n: nat)
    requires n == LineEnd(s) < |s|
    ensures FieldEnd(s) == n + 1 + if n + 1 < |s| && IsBlank(s[n + 1]) then FieldEnd(s[n + 1..]) else 0
  {
  }

  /** A field followed by something that does not go on with it is still that field. */
  lemma {:induction false} FieldEndBefore(f: seq<Code>, rest: seq<Code>)
    requires f != [] && FieldEnd(f) == |f| && f[|f| - 1] == NL && (rest == [] || !IsBlank(rest[0]))
    ensures FieldEnd(f + rest) == |f|
    decreases |f|
  {
    var n := LineEnd(f);
    LineEndWithin(f);
    LineEndBefore(f, rest);
    FieldEndNext(f, n);
    FieldEndNext(f + rest, n);
    if n + 1 < |f| {
      From(f, rest, n + 1);
      FieldEndBefore(f[n + 1..], rest);
    }
  }

  lemma From(a: seq<Code>, b: seq<Code>, k: nat)
    requires k <= |a|
    ensures (a + b)[k..] == a[k..] + b && (k < |a| ==> (a + b)[k] == a[k] == a[k..][0])
  {
  }

  lemma MatchesBefore(f: seq<Code>, rest: seq<Code>, name: seq<Code>)
    requires f != [] && f[|f| - 1] == NL && NL !in name
    ensures Matches(f + rest, name) <==> Matches(f, name)
  {
    var s := f + rest;
    if |name| < |f| {
      assert s[..|name|] == f[..|name|];
    } else if |name| < |s| {
      var k := |f| - 1;
      assert s[..|name|][k] == NL && name[k] in name && Fold(s[..|name|][k]) != Fold(name[k]);
    }
  }

  /** A line that begins with a blank has no name. */
  lemma BlankNoMatch(s: seq<Code>, name: seq<Code>)
    requires NameOk(name) && s != [] && (IsBlank(s[0]) || s[0] == NL)
    ensures !Matches(s, name)
  {
    if |name| < |s| {
      assert s[..|name|][0] == s[0] && name[0] in name && Fold(s[0]) != Fold(name[0]);
    }
  }

  /** The first line of a field, and what follows of it. */
  lemma WholeLine(f: seq<Code>)
    requires f != [] && FieldEnd(f) == |f| && f[|f| - 1] == NL
    ensures LineEnd(f) < |f|
    ensures var n := LineEnd(f) + 1; n < |f| ==>
      var t := f[n..];
      t != [] && |t| < |f| && FieldEnd(t) == |t| && t[|t| - 1] == NL && IsBlank(t[0])
  {
    hide *;
    assert f[|f| - 1] in f;
    LineEndWithin(f);
    FieldEndNext(f, LineEnd(f));
    Tail(f, LineEnd(f) + 1);
  }

  lemma Tail(f: seq<Code>, n: nat)
    requires 0 < n
    ensures n < |f| ==>
      f[n..] != [] && |f[n..]| == |f| - n && |f[n..]| < |f| && f[n..][0] == f[n] && f[n..][|f| - n - 1] == f[|f| - 1]
  {
  }

  lemma NoNewline(name: seq<Code>)
    requires NameOk(name)
    ensures NL !in name
  {
  }

  lemma Longer(f: seq<Code>, rest: seq<Code>)
    ensures |f + rest| == |f| + |rest|
  {
  }

  lemma Past(f: seq<Code>, rest: seq<Code>)
    ensures f[|f|..] + rest == rest
  {
  }

  /** Looking past a field that does not have the name. */
  lemma {:induction false} GetPast(f: seq<Code>, rest: seq<Code>, name: seq<Code>)
    requires NameOk(name) && f != [] && FieldEnd(f) == |f| && f[|f| - 1] == NL && !Matches(f, name)
    ensures GetField(f + rest, name) == GetField(rest, name)
    decreases |f|
  {
    hide *;
    var n := LineEnd(f);
    WholeLine(f);
    NoNewline(name);
    MatchesBefore(f, rest, name);
    LineEndBefore(f, rest);
    From(f, rest, n + 1);
    Longer(f, rest);
    GetNext(f + rest, name);
    if n + 1 < |f| {
      BlankNoMatch(f[n + 1..], name);
      GetPast(f[n + 1..], rest, name);
    } else {
      Past(f, rest);
    }
  }

  lemma GetNext(s: seq<Code>, name: seq<Code>)
    requires !Matches(s, name) && LineEnd(s) < |s|
    ensures GetField(s, name) == GetField(s[LineEnd(s) + 1..], name)
  {
    hide Matches, LineEnd;
  }

  lemma {:induction false} SkipBlanksBefore(t: seq<Code>, rest: seq<Code>)
    requires LineEnd(t) < |t|
    ensures SkipBlanks(t + rest) == SkipBlanks(t) + rest && LineEnd(SkipBlanks(t)) < |SkipBlanks(t)|
  {
    if IsBlank(t[0]) {
      assert (t + rest)[1..] == t[1..] + rest;
      SkipBlanksBefore(t[1..], rest);
    }
  }

  lemma ValueBefore(t: seq<Code>, rest: seq<Code>)
    requires LineEnd(t) < |t|
    ensures ValueOf(t + rest) == ValueOf(t)
  {
    SkipBlanksBefore(t, rest);
    var u := SkipBlanks(t);
    LineEndBefore(u, rest);
    assert (u + rest)[..LineEnd(u)] == u[..LineEnd(u)];
  }

  lemma GetOne(f: seq<Code>, rest: seq<Code>, name: seq<Code>)
    requires NameOk(name) && Whole(f)
    ensures GetValue(f + rest, name)
            == if Matches(f, name) then Some(ValueOf(f[|name| + 1..])) else GetValue(rest, name)
  {
    MatchesBefore(f, rest, name);
    if Matches(f, name) {
      var t := f[|name| + 1..];
      assert (f + rest)[|name| + 1..] == t + rest && t[|t| - 1] == NL;
      LineEndWithin(t);
      ValueBefore(t, rest);
    } else {
      GetPast(f, rest, name);
    }
  }

  /** Reading from the text is reading from the list of fields. */
  lemma {:induction false} GetFlatten(fs: seq<seq<Code>>, name: seq<Code>)
    requires NameOk(name) && AllWhole(fs)
    ensures GetValue(Flatten(fs), name) == GetIn(fs, name)
  {
    if fs != [] {
      assert fs[0] in fs && AllWhole(fs[1..]);
      GetOne(fs[0], Flatten(fs[1..]), name);
      GetFlatten(fs[1..], name);
    }
  }

  lemma {:induction false} FlattenHead(fs: seq<seq<Code>>)
    requires AllProper(fs)
    ensures fs == [] ==> Flatten(fs) == []
    ensures fs != [] ==> Flatten(fs) != [] && Flatten(fs)[|Flatten(fs)| - 1] == NL
    ensures fs != [] ==> Flatten(fs)[0] != NL && !IsBlank(Flatten(fs)[0])
  {
    if fs != [] {
      assert fs[0] in fs && Proper(fs[0]) && AllProper(fs[1..]);
      FlattenHead(fs[1..]);
      if fs[1..] == [] {
        assert Flatten(fs) == fs[0];
      }
    }
  }

  /** Fields that are written one after the other are the fields of the text. */
  lemma {:induction false} FieldsFlatten(fs: seq<seq<Code>>)
    requires Good(fs)
    ensures Fields(Flatten(fs)) == fs
  {
    if fs != [] {
      var f, more := fs[0], fs[1..];
      FlattenHead(more);
      ProperGood(more);
      assert Whole(f);
      hide *;
      assert [f] + more == fs;
      FlattenNext(f, more);
      FieldsOne(f, Flatten(more));
      FieldsFlatten(more);
    }
    NothingThere();
  }

  lemma FieldsOne(f: seq<Code>, rest: seq<Code>)
    requires Whole(f) && (rest != [] ==> rest[0] != NL && !IsBlank(rest[0]))
    ensures Fields(f + rest) == [f] + if rest == [] then [] else Fields(rest)
  {
    FieldEndBefore(f, rest);
    FieldsNext(f + rest, |f|);
    From(f, rest, |f|);
    assert (f + rest)[..|f|] == f && f[|f|..] + rest == rest;
  }

  lemma ProperGood(fs: seq<seq<Code>>)
    requires AllProper(fs)
    ensures Good(fs)
  {
    if fs != [] {
      assert fs[0] in fs && forall f :: f in fs[1..] ==> f in fs;
    }
  }

  lemma GoodWhole(fs: seq<seq<Code>>)
    requires Good(fs)
    ensures AllWhole(fs)
  {
    forall f | f in fs ensures Whole(f) {
      if f != fs[0] {
        assert f in fs[1..];
      }
    }
  }

  // ----- the fields of a text

  /** No blank line: neither at the start nor anywhere else. */
  predicate NoBlankLine(s: seq<Code>) {
    (s != [] ==> s[0] != NL) && forall i :: 0 < i < |s| ==> s[i - 1] != NL || s[i] != NL
  }

  /** The text begins with a field, not with a blank. */
  predicate WellBegun(s: seq<Code>) { s != [] ==> s[0] != NL && !IsBlank(s[0]) }

  function Terminate(f: seq<Code>): seq<Code> { if f != [] && f[|f| - 1] != NL then f + [NL] else f }

  function TerminateAll(fs: seq<seq<Code>>): seq<seq<Code>> {
    if fs == [] then [] else [Terminate(fs[0])] + TerminateAll(fs[1..])
  }

  /** Fields all of which are terminated except perhaps the last one. */
  predicate Unfinished(fs: seq<seq<Code>>) {
    fs != [] ==> fs[0] != [] && (fs[0][|fs[0]| - 1] == NL || |fs| == 1) && Unfinished(fs[1..])
  }

  /** A single terminated line. */
  predicate IsLine(l: seq<Code>) { l != [] && LineEnd(l) == |l| - 1 }

  lemma {:induction false} LineEndOwn(l: seq<Code>)
    requires l != [] && l[|l| - 1] == NL && NL !in l[..|l| - 1]
    ensures IsLine(l)
  {
    if |l| > 1 {
      assert l[0] == l[..|l| - 1][0] && l[1..][..|l| - 2] == l[..|l| - 1][1..];
      LineEndOwn(l[1..]);
    }
  }

  lemma LineMore(l: seq<Code>, g: seq<Code>)
    requires IsLine(l) && Whole(g) && IsBlank(g[0])
    ensures Whole(l + g)
  {
    LineEndBefore(l, g);
    assert (l + g)[|l|..] == g && (l + g)[|l|] == g[0];
  }

  lemma LineWhole(l: seq<Code>)
    requires IsLine(l)
    ensures Whole(l)
  {
  }

  /** The first field of a text, with its last line terminated, is a field by itself. */
  lemma {:induction false} FirstField(s: seq<Code>)
    requires s != []
    ensures var f := s[..FieldEnd(s)];
      Whole(Terminate(f)) && Terminate(f)[0] == s[0] && (FieldEnd(s) < |s| ==> f[|f| - 1] == NL)
    decreases |s|
  {
    var n := LineEnd(s);
    if n == |s| {
      assert s[..n] == s && s[|s| - 1] in s[..n];
      assert (s + [NL])[..|s + [NL]| - 1] == s;
      LineEndOwn(s + [NL]);
      LineWhole(s + [NL]);
    } else {
      var l := s[..n + 1];
      assert l[..|l| - 1] == s[..n];
      LineEndOwn(l);
      LineWhole(l);
      if n + 1 < |s| && IsBlank(s[n + 1]) {
        var t := s[n + 1..];
        FirstField(t);
        LineMore(l, Terminate(t[..FieldEnd(t)]));
        LineThenField(s, l, t);
      }
    }
  }

  lemma LineThenField(s: seq<Code>, l: seq<Code>, t: seq<Code>)
    requires LineEnd(s) < |s| && t != [] && l == s[..LineEnd(s) + 1] && t == s[LineEnd(s) + 1..] && IsBlank(t[0])
    ensures FieldEnd(s) == |l| + FieldEnd(t) && s[..FieldEnd(s)] == l + t[..FieldEnd(t)]
    ensures Terminate(s[..FieldEnd(s)]) == l + Terminate(t[..FieldEnd(t)])
  {
    FieldEndNext(s, LineEnd(s));
    hide FieldEnd, LineEnd, Terminate;
    Halves(s, LineEnd(s) + 1);
    Beginning(s, l, t, FieldEnd(t));
  }

  lemma Halves(s: seq<Code>, k: nat)
    requires k <= |s|
    ensures s == s[..k] + s[k..]
  {
  }

  lemma Beginning(s: seq<Code>, l: seq<Code>, t: seq<Code>, k: nat)
    requires s == l + t && 0 < k <= |t|
    ensures s[..|l| + k] == l + t[..k] && Terminate(s[..|l| + k]) == l + Terminate(t[..k])
  {
    var g := t[..k];
    assert s[..|l| + k] == l + g;
    assert (l + g)[|l + g| - 1] == g[|g| - 1] && l + (g + [NL]) == l + g + [NL];
  }

  /** Terminated, the fields of a text that does not begin with a blank line can be written one after the other. */
  lemma {:induction false} FieldsGood(s: seq<Code>)
    requires s != [] ==> s[0] != NL
    ensures Good(TerminateAll(Fields(s)))
    ensures WellBegun(s) ==> AllProper(TerminateAll(Fields(s)))
    ensures Unfinished(Fields(s))
    decreases |s|
  {
    if s != [] {
      FirstField(s);
      var rest := s[FieldEnd(s)..];
      var fs := Fields(s);
      assert fs[0] == s[..FieldEnd(s)];
      if rest != [] && rest[0] != NL {
        FieldsGood(rest);
        assert fs[1..] == Fields(rest);
      } else {
        assert fs[1..] == [];
      }
    }
  }

  lemma FieldsNext(s: seq<Code>, n: nat)
    requires s != [] && n == FieldEnd(s)
    ensures Fields(s) == [s[..n]] + if n == |s| || s[n] == NL then [] else Fields(s[n..])
  {
  }

  lemma FlattenNext(f: seq<Code>, fs: seq<seq<Code>>)
    ensures Flatten([f] + fs) == f + Flatten(fs)
  {
    assert ([f] + fs)[1..] == fs;
  }

  /** Without a blank line the fields are the whole text. */
  lemma {:induction false} FieldsWhole(s: seq<Code>)
    requires NoBlankLine(s)
    ensures Flatten(Fields(s)) == s
    decreases |s|
  {
    if s != [] {
      var n := FieldEnd(s);
      FieldsNext(s, n);
      NoBlankAfter(s, n);
      hide *;
      FieldsWhole(s[n..]);
      FlattenNext(s[..n], if n == |s| then [] else Fields(s[n..]));
      Halves(s, n);
      NothingThere();
    }
  }

  lemma NothingThere()
    ensures Fields([]) == [] && Flatten([]) == []
  {
  }

  lemma NoBlankAfter(s: seq<Code>, n: nat)
    requires NoBlankLine(s) && n == FieldEnd(s) && s != []
    ensures NoBlankLine(s[n..]) && (n < |s| ==> s[n] != NL) && 0 < n <= |s|
  {
    assert n < |s| ==> s[n - 1] == NL;
  }

  // ----- terminating the last line changes only trailing space

  lemma {:induction false} TrimTwice(s: seq<Code>)
    ensures TrimEnd(TrimEnd(s)) == TrimEnd(s)
    decreases |s|
  {
    if s != [] && IsSpace(s[|s| - 1]) {
      TrimTwice(s[..|s| - 1]);
    }
  }

  lemma {:induction false} SkipBlanksEnd(t: seq<Code>)
    ensures SkipBlanks(t + [NL]) == SkipBlanks(t) + [NL]
    ensures NL in t ==> NL in SkipBlanks(t)
  {
    if t != [] && IsBlank(t[0]) {
      assert (t + [NL])[1..] == t[1..] + [NL];
      SkipBlanksEnd(t[1..]);
    }
  }

  function Trimmed(v: Option<seq<Code>>): Option<seq<Code>> {
    match v
    case None => None
    case Some(t) => Some(TrimEnd(t))
  }

  lemma ValueTerminated(t: seq<Code>)
    ensures ValueOf(t + [NL]) == TrimEnd(ValueOf(t))
    ensures NL in t ==> TrimEnd(ValueOf(t)) == ValueOf(t)
  {
    var u := SkipBlanks(t);
    SkipBlanksEnd(t);
    LineEndBefore(u, [NL]);
    TrimTwice(u[..LineEnd(u)]);
    if NL in t {
      LineEndWithin(u);
    }
    assert (u + [NL])[..LineEnd(u)] == u[..LineEnd(u)];
  }

  lemma NothingRead(name: seq<Code>)
    ensures Terminate([]) == [] && GetValue([], name) == None && Trimmed(None) == None
  {
  }

  lemma ReadMatch(s: seq<Code>, name: seq<Code>)
    requires Matches(s, name)
    ensures |name| < |s| && GetValue(s, name) == Some(ValueOf(s[|name| + 1..]))
  {
    hide ValueOf;
  }

  lemma ReadNext(s: seq<Code>, name: seq<Code>)
    requires !Matches(s, name) && LineEnd(s) < |s|
    ensures GetValue(s, name) == GetValue(s[LineEnd(s) + 1..], name)
  {
    hide *;
    GetNext(s, name);
    GetValueIs(s, name);
    GetValueIs(s[LineEnd(s) + 1..], name);
  }

  lemma ReadNone(s: seq<Code>, name: seq<Code>)
    requires !Matches(s, name) && LineEnd(s) == |s|
    ensures GetValue(s, name) == None
  {
    hide Matches, LineEnd;
  }

  lemma ValueOfTerminated(s: seq<Code>, name: seq<Code>)
    requires |name| < |s| && |Terminate(s)| > |name| && (s[|s| - 1] == NL ==> NL in s[|name| + 1..])
    ensures Some(ValueOf(Terminate(s)[|name| + 1..])) == Trimmed(Some(ValueOf(s[|name| + 1..])))
  {
    var t := s[|name| + 1..];
    ValueTerminated(t);
    assert Terminate(s)[|name| + 1..] == if Terminate(s) == s then t else t + [NL];
    hide ValueOf;
  }

  /** The first line of a text whose last line is terminated. */
  lemma TerminatedLine(s: seq<Code>)
    requires s != []
    ensures var n, z := LineEnd(s), Terminate(s);
      && LineEnd(z) == n < |z| && n <= |s|
      && z[n + 1..] == if n < |s| then Terminate(s[n + 1..]) else []
  {
    var n := LineEnd(s);
    LineEndBefore(s, [NL]);
    if n < |s| {
      TerminatedRest(s, n);
    } else {
      assert s[..n] == s && s[|s| - 1] in s[..n];
    }
  }

  /** With its last line terminated a chunk reads the same, but for space at the end of the value of that line. */
  lemma {:induction false} GetTerminated(s: seq<Code>, name: seq<Code>)
    requires NameOk(name)
    ensures GetValue(Terminate(s), name) == Trimmed(GetValue(s, name))
    decreases |s|
  {
    hide *;
    if s == [] {
      NothingRead(name);
    } else if Matches(s, name) {
      TerminatedMatches(s, name);
      ReadMatch(s, name);
      ReadMatch(Terminate(s), name);
      ValueOfTerminated(s, name);
    } else {
      var n := LineEnd(s);
      TerminatedMatches(s, name);
      TerminatedLine(s);
      if n < |s| {
        GetTerminated(s[n + 1..], name);
        ReadNext(s, name);
        ReadNext(Terminate(s), name);
      } else {
        NothingRead(name);
        ReadNext(Terminate(s), name);
        ReadNone(s, name);
      }
    }
  }

  lemma TerminatedRest(s: seq<Code>, n: nat)
    requires n < |s| && s[n] == NL
    ensures Terminate(s)[n + 1..] == Terminate(s[n + 1..])
    ensures |Terminate(s)| > n
  {
  }

  lemma TerminatedMatches(s: seq<Code>, name: seq<Code>)
    requires s != [] && NameOk(name)
    ensures Matches(Terminate(s), name) <==> Matches(s, name)
    ensures Matches(s, name) && s[|s| - 1] == NL ==> NL in s[|name| + 1..]
  {
    if Matches(s, name) {
      assert Terminate(s)[..|name|] == s[..|name|];
      if s[|s| - 1] == NL {
        assert s[|name| + 1..][|s| - |name| - 2] == NL;
      }
    } else if |name| < |s| {
      assert Terminate(s)[..|name|] == s[..|name|];
    }
  }

  // ----- the code that reads

  /** `chunk_getfield`: the position after the colon. */
  method ChunkGetField(name: CString, chunk: CString) returns (found: bool, c: nat)
    ensures c <= |chunk|
    ensures GetField(chunk, name) == if found then Some(chunk[c..]) else None
  {
    c := 0;
    while At(chunk, c) != 0
      invariant c <= |chunk|
      invariant GetField(chunk, name) == GetField(chunk[c..], name)
      decreases |chunk| - c
    {
      ghost var s := chunk[c..];
      var l := |name|;
      var same := IsField(chunk, c, name);
      if same {
        assert s[l + 1..] == chunk[c + l + 1..];
        return true, c + l + 1;
      }
      c := ToLineEnd(chunk, c);
      if At(chunk, c) == 0 {
        assert GetField(s, name) == None;
        return false, c;
      }
      c := c + 1;
      assert chunk[c..] == s[LineEnd(s) + 1..];
      assert GetField(s, name) == GetField(chunk[c..], name);
    }
    found := false;
  }

  method ToLineEnd(chunk: CString, start: nat) returns (c: nat)
    requires start <= |chunk|
    ensures start <= c <= |chunk| && c == start + LineEnd(chunk[start..])
  {
    c := start;
    while At(chunk, c) != NL && At(chunk, c) != 0
      invariant start <= c <= |chunk| && start + LineEnd(chunk[start..]) == c + LineEnd(chunk[c..])
      decreases |chunk| - c
    {
      assert chunk[c..][1..] == chunk[c + 1..];
      c := c + 1;
    }
  }

  /** Whether a field of this name begins at c; reads no further than the terminator. */
  method IsField(chunk: CString, c: nat, name: CString) returns (r: bool)
    requires c <= |chunk|
    ensures r <==> Matches(chunk[c..], name)
  {
    var i := 0;
    var s := chunk[c..];
    while i < |name|
      invariant i <= |name| && i <= |s|
      invariant forall k :: 0 <= k < i ==> Fold(s[k]) == Fold(name[k])
      decreases |name| - i
    {
      if Fold(At(s, i)) != Fold(name[i]) {
        assert name[i] in name;
        assert i < |s| && |name| < |s| ==> s[..|name|][i] == s[i];
        return false;
      }
      assert i < |s| by { assert name[i] in name && Fold(name[i]) != 0; }
      i := i + 1;
    }
    assert s[..i] == chunk[c..c + i];
    return At(s, i) == COLON;
  }

  lemma GetValueIs(s: seq<Code>, name: seq<Code>)
    ensures GetValue(s, name) == match GetField(s, name) case None => None case Some(t) => Some(ValueOf(t))
  {
  }

  /** The value of a field whose text starts at b and whose line ends at e. */
  lemma ValueBetween(chunk: seq<Code>, field: nat, b: nat, e: nat)
    requires field <= b <= e <= |chunk| && SkipBlanks(chunk[field..]) == chunk[b..] && e == b + LineEnd(chunk[b..])
    ensures ValueOf(chunk[field..]) == if e < |chunk| then TrimEnd(chunk[b..e]) else chunk[b..e]
  {
    assert chunk[b..e] == chunk[b..][..LineEnd(chunk[b..])];
  }

  method PastBlanks(chunk: CString, field: nat) returns (b: nat)
    requires field <= |chunk|
    ensures field <= b <= |chunk| && SkipBlanks(chunk[field..]) == chunk[b..]
  {
    b := field;
    hide SkipBlanks;
    while b < |chunk| && IsBlank(At(chunk, b))
      invariant field <= b <= |chunk|
      invariant SkipBlanks(chunk[field..]) == SkipBlanks(chunk[b..])
    {
      SkipOne(chunk, b);
      b := b + 1;
    }
    SkipOne(chunk, b);
  }

  lemma SkipOne(s: seq<Code>, b: nat)
    requires b <= |s|
    ensures SkipBlanks(s[b..]) == if b < |s| && IsBlank(s[b]) then SkipBlanks(s[b + 1..]) else s[b..]
  {
    assert b < |s| ==> s[b..][1..] == s[b + 1..];
  }

  /** `chunk_getvalue` */
  method ChunkGetValue(chunk: CString, name: CString) returns (r: Option<seq<Code>>)
    ensures r == GetValue(chunk, name)
  {
    hide *;
    var found, field := ChunkGetField(name, chunk);
    if !found {
      GetValueIs(chunk, name);
      return None;
    }
    GetValueIs(chunk, name);
    var b := PastBlanks(chunk, field);
    var e := ToLineEnd(chunk, b);
    ValueBetween(chunk, field, b, e);
    var text := WithoutSpaces(chunk, b, e);
    r := Some(text);
  }

  /** The line from b to e as it is returned: without space at the end, unless the chunk ends there. */
  method WithoutSpaces(chunk: CString, b: nat, end: nat) returns (r: seq<Code>)
    requires b <= end <= |chunk| && (end < |chunk| ==> chunk[end] == NL)
    ensures r == if end < |chunk| then TrimEnd(chunk[b..end]) else chunk[b..end]
  {
    var e := end;
    while e > b && IsSpace(At(chunk, e))
      invariant b <= e <= end && (e < end ==> end < |chunk|)
      invariant end < |chunk| ==> TrimEnd(chunk[b..end]) == TrimEnd(chunk[b..if e == end then e else e + 1])
      invariant e == end < |chunk| ==> IsSpace(At(chunk, e))
    {
      if e < end {
        assert chunk[b..e + 1][..e - b] == chunk[b..e] && chunk[b..e + 1][e - b] == chunk[e];
      }
      e := e - 1;
    }
    if !IsSpace(At(chunk, e)) {
      r := chunk[b..if e < |chunk| then e + 1 else e];
    } else {
      assert chunk[b..e] == [];
      if e < end {
        assert chunk[b..e + 1][..0] == [] && chunk[b..e + 1][0] == chunk[e];
      }
      r := [];
    }
  }
}
