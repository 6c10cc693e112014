/** Which lines of a file list are accepted, by the characters that are written: checksums.c. */
module ListLines {
  import opened CText
  import opened Options
  import opened Checksums
  import opened ChecksumsList
  import C = ChecksumsCombine
  import Sequences

  /** A line in its parts, with everything that is dropped. */
  datatype Spelling = Spelling(front: seq<Code>, hash: seq<Code>, between: seq<Code>, zeros: seq<Code>,
    size: seq<Code>, after: seq<Code>, name: seq<Code>)

  predicate Blanks(s: seq<Code>) { forall c :: c in s ==> c == ' ' as int || c == '\t' as int }
  predicate Zeros(s: seq<Code>) { forall c :: c in s ==> c == '0' as int }
  predicate Hash(s: seq<Code>) { forall c :: c in s ==> '0' as int <= c <= '9' as int || 'a' as int <= c <= 'f' as int }
  predicate Number(s: seq<Code>) { forall c :: c in s ==> '0' as int <= c <= '9' as int }

  predicate Name(s: seq<Code>) {
    forall c :: c in s ==> c != ' ' as int && c != '\t' as int && c != '\r' as int && c != '\n' as int
  }

  /** Zeros are dropped, but not the last digit; a size without blanks behind it ends where no digit follows. */
  predicate Accepted(p: Spelling) {
    && Blanks(p.front) && Blanks(p.between) && Blanks(p.after) && p.between != []
    && p.hash != [] && Hash(p.hash) && Zeros(p.zeros) && p.size != [] && Number(p.size)
    && (|p.size| > 1 ==> p.size[0] != '0' as int) && p.name != [] && Name(p.name)
    && (p.after == [] ==> !('0' as int <= p.name[0] <= '9' as int))
  }

  function End(p: Spelling): seq<Code> { p.size + (p.after + p.name) }

  function Text(p: Spelling): seq<Code> { p.front + (p.hash + (p.between + (p.zeros + End(p)))) }

  // ----- what is spelled like this is accepted

  lemma SkipBlanksBefore(a: seq<Code>, b: seq<Code>)
    requires Blanks(a) && (b == [] || !IsBlank(b[0]))
    ensures SkipBlanks(a + b) == b
  {
    RunBefore(a, b, IsBlank);
  }

  lemma {:induction false} NoZerosBefore(a: seq<Code>, b: seq<Code>)
    requires Zeros(a) && b != [] && IsDigit(b[0]) && (b[0] == ZERO ==> |b| == 1 || !IsDigit(b[1]))
    ensures NoZeros(a + b) == b
  {
    if a == [] {
      Sequences.Nothing(b);
    } else {
      assert a[0] in a && (forall c :: c in a[1..] ==> c in a) && (a + b)[1..] == a[1..] + b;
      assert (a + b)[1] == if |a| > 1 then a[1] else b[0];
      assert |a| > 1 ==> a[1] in a;
      NoZerosBefore(a[1..], b);
    }
  }

  lemma FirstAfter(p: Spelling)
    requires Accepted(p)
    ensures p.after + p.name != [] && !IsDigit((p.after + p.name)[0]) && InName(p.name[0])
  {
    assert p.name[0] in p.name;
    if p.after != [] {
      assert p.after[0] in p.after && (p.after + p.name)[0] == p.after[0];
    } else {
      Sequences.Nothing(p.name);
    }
  }

  lemma EndRead(p: Spelling)
    requires Accepted(p)
    ensures ParseSizeName(p.hash, End(p)) == Some(Line(p.hash, p.size, p.name))
  {
    FirstAfter(p);
    RunBefore(p.size, p.after + p.name, IsDigit);
    SkipBlanksBefore(p.after, p.name);
    RunBefore(p.name, [], InName);
    Sequences.Nothing(p.name);
    hide Run, SkipBlanks;
  }

  lemma EndFirst(p: Spelling)
    requires Accepted(p)
    ensures NoZeros(p.zeros + End(p)) == End(p)
    ensures p.zeros + End(p) != [] && !IsBlank((p.zeros + End(p))[0])
  {
    FirstAfter(p);
    var e := End(p);
    assert p.size[0] in p.size && e[0] == p.size[0];
    assert e[1] == if |p.size| > 1 then p.size[1] else (p.after + p.name)[0];
    NoZerosBefore(p.zeros, e);
    if p.zeros != [] {
      assert p.zeros[0] in p.zeros && (p.zeros + e)[0] == p.zeros[0];
    } else {
      Sequences.Nothing(e);
    }
  }

  lemma HashRead(p: Spelling, v: seq<Code>)
    requires Accepted(p) && v != [] && !IsBlank(v[0])
    ensures ParseLine(p.front + (p.hash + (p.between + v))) == ParseSizeName(p.hash, NoZeros(v))
  {
    var t := p.hash + (p.between + v);
    assert p.hash[0] in p.hash && t[0] == p.hash[0];
    assert p.between[0] in p.between && (p.between + v)[0] == p.between[0];
    SkipBlanksBefore(p.front, t);
    RunBefore(p.hash, p.between + v, IsHex);
    SkipBlanksBefore(p.between, v);
    hide Run, SkipBlanks, NoZeros, ParseSizeName;
  }

  /** A line is read as its hash, its size and its name, whatever blanks and zeros are around them. */
  lemma SpelledRead(p: Spelling)
    requires Accepted(p)
    ensures ParseLine(Text(p)) == Some(Line(p.hash, p.size, p.name))
  {
    EndFirst(p);
    EndRead(p);
    hide ParseLine, NoZeros, ParseSizeName, Accepted;
    HashRead(p, p.zeros + End(p));
  }

  // ----- what is accepted is spelled like this

  /** The end of a run, and what comes after it. */
  lemma RunEnd(s: seq<Code>, p: Code -> bool)
    ensures var n := Run(s, p);
      && s == s[..n] + s[n..] && (forall c :: c in s[..n] ==> p(c))
      && (s[n..] != [] ==> !p(s[n..][0])) && (n == |s| ==> s[..n] == s)
  {
  }

  lemma Blanked(s: seq<Code>) returns (b: seq<Code>)
    ensures Blanks(b) && s == b + SkipBlanks(s) && (SkipBlanks(s) != [] ==> !IsBlank(SkipBlanks(s)[0]))
  {
    b := s[..Run(s, IsBlank)];
    RunEnd(s, IsBlank);
    hide Run;
  }

  lemma {:induction false} Zeroed(s: seq<Code>) returns (z: seq<Code>)
    ensures var t := NoZeros(s);
      Zeros(z) && s == z + t && (|t| > 1 && t[0] == '0' as int ==> !('0' as int <= t[1] <= '9' as int))
  {
    if |s| > 1 && s[0] == ZERO && IsDigit(s[1]) {
      var more := Zeroed(s[1..]);
      z := [s[0]] + more;
      assert s == [s[0]] + s[1..];
      Sequences.Regroup([s[0]], more, NoZeros(s));
    } else {
      z := [];
      Sequences.Nothing(s);
    }
  }

  lemma NumberRun(v: seq<Code>) returns (size: seq<Code>, w: seq<Code>)
    requires |v| > 1 && v[0] == '0' as int ==> !('0' as int <= v[1] <= '9' as int)
    ensures size == v[..Run(v, IsDigit)] && w == v[Run(v, IsDigit)..] && v == size + w && Number(size)
    ensures |size| > 1 ==> size[0] != '0' as int
    ensures w != [] ==> !('0' as int <= w[0] <= '9' as int)
  {
    var n := Run(v, IsDigit);
    size, w := v[..n], v[n..];
    RunEnd(v, IsDigit);
    assert n > 1 ==> IsDigit(v[1]) && v[0] == size[0];
  }

  lemma NameRun(s: seq<Code>)
    requires Run(s, InName) == |s|
    ensures Name(s)
  {
    RunEnd(s, InName);
    hide Run;
  }

  lemma EndSpelled(hash: seq<Code>, v: seq<Code>) returns (size: seq<Code>, after: seq<Code>, name: seq<Code>)
    requires ParseSizeName(hash, v).Some?
    requires |v| > 1 && v[0] == '0' as int ==> !('0' as int <= v[1] <= '9' as int)
    ensures v == size + (after + name) && ParseSizeName(hash, v) == Some(Line(hash, size, name)) && hash != []
    ensures size != [] && Number(size) && (|size| > 1 ==> size[0] != '0' as int) && Blanks(after)
    ensures name != [] && Name(name) && (after == [] ==> !('0' as int <= name[0] <= '9' as int))
  {
    hide Number, Blanks, Name, Run, SkipBlanks;
    var w;
    size, w := NumberRun(v);
    after := Blanked(w);
    name := SkipBlanks(w);
    Sequences.Nothing(name);
    NameRun(name);
  }

  lemma LineSplit(s: seq<Code>) returns (front: seq<Code>, hash: seq<Code>, between: seq<Code>, v: seq<Code>)
    ensures Blanks(front) && Hash(hash) && Blanks(between)
    ensures s == front + (hash + (between + v)) && ParseLine(s) == ParseSizeName(hash, NoZeros(v))
    ensures between == [] && v != [] ==> !('0' as int <= v[0] <= '9' as int)
  {
    hide Blanks, Run, SkipBlanks, NoZeros, ParseSizeName;
    front := Blanked(s);
    var t := SkipBlanks(s);
    var w;
    hash, w := HashRun(t);
    between := Blanked(w);
    v := SkipBlanks(w);
    Sequences.Nothing(v);
  }

  lemma HashRun(t: seq<Code>) returns (hash: seq<Code>, w: seq<Code>)
    ensures hash == t[..Run(t, IsHex)] && w == t[Run(t, IsHex)..] && t == hash + w && Hash(hash)
    ensures w != [] ==> !('0' as int <= w[0] <= '9' as int)
  {
    var n := Run(t, IsHex);
    hash, w := t[..n], t[n..];
    RunEnd(t, IsHex);
    hide Run;
  }

  lemma SizeBegins(hash: seq<Code>, v: seq<Code>)
    requires ParseSizeName(hash, NoZeros(v)).Some?
    ensures v != [] && '0' as int <= v[0] <= '9' as int
  {
    if v == [] || !IsDigit(v[0]) {
      assert NoZeros(v) == v && Run(v, IsDigit) == 0;
    }
  }

  /** Every accepted line is such a spelling of what it is read as. */
  lemma AcceptedSpelled(s: seq<Code>) returns (p: Spelling)
    requires ParseLine(s).Some?
    ensures Accepted(p) && Text(p) == s && ParseLine(s) == Some(Line(p.hash, p.size, p.name))
  {
    var front, hash, between, v := LineSplit(s);
    var zeros := Zeroed(v);
    var size, after, name := EndSpelled(hash, NoZeros(v));
    SizeBegins(hash, v);
    p := Spelling(front, hash, between, zeros, size, after, name);
    hide ParseLine, ParseSizeName, NoZeros, Blanks, Zeros, Hash, Number, Name;
  }

  // ----- a list is its lines

  /** A line: a space, the hash or a dash, the size and the name. */
  function LineOf(hash: seq<Code>, size: seq<Code>, name: seq<Code>): seq<Code> {
    [' ' as int] + (if hash == [] then ['-' as int] else hash) + [' ' as int] + size + [' ' as int] + name
  }

  /** The lines of the entries, with a newline in front of each. */
  function ListOf(es: seq<Entry>, t: C.Kind): seq<Code>
    requires AllPlaced(es)
  {
    if es == [] then []
    else
      var line := LineOf(PartText(es[0].checksums, t), PartText(es[0].checksums, C.Length), es[0].name);
      ['\n' as int] + (line + ListOf(es[1..], t))
  }

  lemma LineIs(e: Entry, t: C.Kind)
    requires C.Placed(e.checksums)
    ensures LineText(e, t) == LineOf(PartText(e.checksums, t), PartText(e.checksums, C.Length), e.name)
  {
    hide PartText, C.Placed;
  }

  lemma ListOfNext(e: Entry, more: seq<Entry>, t: C.Kind)
    requires AllPlaced([e] + more)
    ensures C.Placed(e.checksums) && AllPlaced(more)
    ensures ListOf([e] + more, t) == ['\n' as int] + (LineText(e, t) + ListOf(more, t))
  {
    var all := [e] + more;
    assert all[0] == e && all[1..] == more && (forall x :: x in more ==> x in all) && e in all;
    LineIs(e, t);
    hide PartText, C.Placed, LineOf, LineText;
  }

  /** A list in the order of its entries. */
  lemma {:induction false} ListIs(es: seq<Entry>, t: C.Kind)
    requires AllPlaced(es)
    ensures ListText(es, t) == ListOf(es, t)
  {
    ListConcat([], es, t);
    assert [] + es == es;
  }

  lemma {:induction false} ListConcat(a: seq<Entry>, b: seq<Entry>, t: C.Kind)
    requires AllPlaced(a + b)
    ensures AllPlaced(a) && AllPlaced(b) && ListText(a + b, t) == ListText(a, t) + ListOf(b, t)
    decreases |b|
  {
    assert forall x :: x in a ==> x in a + b;
    if b == [] {
      Sequences.Nothing(a);
      Sequences.Nothing(ListText(a, t));
    } else {
      var e, more := b[0], b[1..];
      assert b == [e] + more && a + b == (a + [e]) + more;
      ListConcat(a + [e], more, t);
      assert (a + [e])[..|a|] == a && forall x :: x in b ==> x in a + b;
      ListOfNext(e, more, t);
      hide LineText, ListOf, AllPlaced;
      Sequences.Regroup(ListText(a, t) + [NL], LineText(e, t), ListOf(more, t));
      Sequences.Regroup(ListText(a, t), [NL], LineText(e, t) + ListOf(more, t));
    }
  }
}
