/** Taking the chunks out of a file that was read, possibly in place: chunks.c. */
module ChunkExtract {
  import opened CText
  import opened Chunks

  const HASH: Code := 35

  predicate IsWhite(c: Code) { IsBlank(c) || c == CR || c == NL }

  // ----- the specification

  function SkipWhite(s: seq<Code>): (r: seq<Code>)
    ensures |r| <= |s| && (r != [] ==> !IsWhite(r[0]))
  {
    if s != [] && IsWhite(s[0]) then SkipWhite(s[1..]) else s
  }

  /** Without white space and comments, which may be whole paragraphs, at the start. */
  function Start(s: seq<Code>, comments: bool): (r: seq<Code>)
    ensures |r| <= |s|
    ensures r != [] ==> !IsWhite(r[0]) && (comments ==> r[0] != HASH)
    decreases |s|
  {
    var t := SkipWhite(s);
    if comments && t != [] && t[0] == HASH then Start(t[LineEnd(t)..], comments) else t
  }

  function UpToNul(s: seq<Code>): seq<Code> { if s == [] || s[0] == 0 then [] else [s[0]] + UpToNul(s[1..]) }

  function NoReturns(s: seq<Code>): seq<Code> {
    if s == [] then [] else (if s[0] == CR then [] else [s[0]]) + NoReturns(s[1..])
  }

  /** All lines before the first empty one. */
  function Paragraph(s: seq<Code>): (r: seq<Code>)
    ensures r <= s
  {
    if s == [] then []
    else if s[0] == NL && |s| > 1 && s[1] == NL then [NL]
    else [s[0]] + Paragraph(s[1..])
  }

  /** The first chunk. */
  function Extract(s: seq<Code>, comments: bool): seq<Code> { Paragraph(NoReturns(UpToNul(Start(s, comments)))) }

  /** Where the loop that copies stops: at the end, or at the empty line. */
  function Stop(s: seq<Code>): (r: seq<Code>)
    ensures |r| <= |s|
  {
    if s == [] || s[0] == 0 then s
    else if s[0] == NL && |SkipReturns(s[1..])| > 0 && SkipReturns(s[1..])[0] == NL then SkipReturns(s[1..])
    else Stop(s[1..])
  }

  function SkipReturns(s: seq<Code>): (r: seq<Code>)
    ensures |r| <= |s| && (r != [] ==> r[0] != CR)
  {
    if s != [] && s[0] == CR then SkipReturns(s[1..]) else s
  }

  function SkipLines(s: seq<Code>): (r: seq<Code>)
    ensures |r| <= |s| && (r != [] ==> r[0] != CR && r[0] != NL)
  {
    if s != [] && (s[0] == CR || s[0] == NL) then SkipLines(s[1..]) else s
  }

  /** What is left for the next chunk. */
  function Next(s: seq<Code>, comments: bool): (r: seq<Code>)
    ensures |r| <= |s|
  {
    AfterGap(Stop(Start(s, comments)))
  }

  /** After the empty lines. */
  function AfterGap(s: seq<Code>): (r: seq<Code>)
    ensures |r| <= |s|
  {
    if s != [] && s[0] == NL then SkipLines(s) else s
  }

  // ----- what the first chunk looks like

  function Copied(s: seq<Code>): seq<Code> { Paragraph(NoReturns(UpToNul(s))) }

  lemma ExtractIs(s: seq<Code>, comments: bool)
    ensures Extract(s, comments) == Copied(Start(s, comments))
    ensures Next(s, comments) == AfterGap(Stop(Start(s, comments)))
  {
  }

  /** The text that goes on after skipping carriage returns. */
  lemma {:induction false} CopiedReturns(s: seq<Code>)
    ensures NoReturns(UpToNul(SkipReturns(s))) == NoReturns(UpToNul(s))
  {
    if s != [] && s[0] == CR {
      CopiedReturns(s[1..]);
      assert UpToNul(s)[1..] == UpToNul(s[1..]);
      hide Paragraph;
    }
  }

  lemma CopiedNext(s: seq<Code>)
    requires s != [] && s[0] != 0
    ensures s[0] == CR ==> Copied(s) == Copied(s[1..]) && Stop(s) == Stop(s[1..])
    ensures s[0] != CR && s[0] != NL ==> Copied(s) == [s[0]] + Copied(s[1..]) && Stop(s) == Stop(s[1..])
    ensures s[0] == NL ==>
              var t := SkipReturns(s[1..]);
              if t != [] && t[0] == NL then Copied(s) == [NL] && Stop(s) == t
              else Copied(s) == [NL] + Copied(t) && Stop(s) == Stop(t)
  {
    var z := NoReturns(UpToNul(s[1..]));
    assert UpToNul(s)[1..] == UpToNul(s[1..]);
    if s[0] == NL {
      var t := SkipReturns(s[1..]);
      CopiedReturns(s[1..]);
      StopReturns(s[1..]);
      if t != [] && t[0] != 0 {
        assert UpToNul(t)[0] == t[0];
        assert z[0] == t[0];
      }
      assert ([NL] + z)[1..] == z;
      assert NoReturns(UpToNul(s)) == [NL] + z;
    } else if s[0] == CR {
      assert NoReturns(UpToNul(s)) == z;
    } else {
      assert ([s[0]] + z)[1..] == z;
      assert NoReturns(UpToNul(s)) == [s[0]] + z;
    }
  }

  lemma {:induction false} StopReturns(s: seq<Code>)
    ensures Stop(SkipReturns(s)) == Stop(s)
  {
    if s != [] && s[0] == CR {
      StopReturns(s[1..]);
    }
  }

  lemma {:induction false} NoReturnsNone(s: seq<Code>)
    ensures CR !in NoReturns(s) && (0 !in s ==> 0 !in NoReturns(s))
    ensures |NoReturns(s)| <= |s|
    ensures s != [] && s[0] != CR ==> NoReturns(s) != [] && NoReturns(s)[0] == s[0]
    ensures CR !in s ==> NoReturns(s) == s
  {
    if s != [] {
      NoReturnsNone(s[1..]);
    }
  }

  lemma {:induction false} UpToNulNone(s: seq<Code>)
    ensures 0 !in UpToNul(s) && UpToNul(s) <= s && (0 !in s ==> UpToNul(s) == s)
  {
    if s != [] && s[0] != 0 {
      UpToNulNone(s[1..]);
    }
  }

  lemma {:induction false} ParagraphNoBlank(s: seq<Code>)
    ensures forall i :: 0 < i < |Paragraph(s)| ==> Paragraph(s)[i - 1] != NL || Paragraph(s)[i] != NL
    ensures s != [] ==> Paragraph(s) != [] && Paragraph(s)[0] == s[0]
  {
    if s != [] {
      ParagraphNoBlank(s[1..]);
      var p := Paragraph(s[1..]);
      if !(s[0] == NL && |s| > 1 && s[1] == NL) {
        forall i | 0 < i < |p| + 1 ensures ([s[0]] + p)[i - 1] != NL || ([s[0]] + p)[i] != NL {
          if i > 1 {
            assert p[i - 2] != NL || p[i - 1] != NL;
          }
        }
      }
    }
  }

  lemma {:induction false} ParagraphWhole(s: seq<Code>)
    requires forall i :: 0 < i < |s| ==> s[i - 1] != NL || s[i] != NL
    ensures Paragraph(s) == s
  {
    if s != [] {
      forall i | 0 < i < |s[1..]| ensures s[1..][i - 1] != NL || s[1..][i] != NL {
        assert s[i] != NL || s[i + 1] != NL;
      }
      assert |s| > 1 ==> s[1 - 1] != NL || s[1] != NL;
      ParagraphWhole(s[1..]);
    }
  }

  /** A chunk has no empty line, does not begin with a blank, and has neither a carriage return nor a terminator. */
  lemma ExtractedWellFormed(s: seq<Code>, comments: bool)
    ensures var t := Extract(s, comments);
      NoBlankLine(t) && WellBegun(t) && CR !in t && 0 !in t && (comments && t != [] ==> t[0] != HASH)
  {
    var u := Start(s, comments);
    UpToNulNone(u);
    NoReturnsNone(UpToNul(u));
    var z := NoReturns(UpToNul(u));
    ParagraphNoBlank(z);
    assert Extract(s, comments) <= z;
    if UpToNul(u) != [] {
      assert UpToNul(u)[0] == u[0];
    }
  }

  /** A chunk that is taken out of what was written for it is the same again, and nothing is left. */
  lemma ExtractTwice(s: seq<Code>, comments: bool)
    ensures var t := Extract(s, comments);
      Extract(t, comments) == t && Next(t, comments) == []
  {
    var t := Extract(s, comments);
    ExtractedWellFormed(s, comments);
    assert t != [] ==> !IsWhite(t[0]) by {
      if t != [] {
        assert t[0] in t;
      }
    }
    assert Start(t, comments) == t;
    UpToNulNone(t);
    NoReturnsNone(t);
    ParagraphWhole(t);
    StopAtEnd(t);
  }

  lemma {:induction false} StopAtEnd(s: seq<Code>)
    requires CR !in s && 0 !in s && forall i :: 0 < i < |s| ==> s[i - 1] != NL || s[i] != NL
    ensures Stop(s) == []
  {
    if s != [] {
      forall i | 0 < i < |s[1..]| ensures s[1..][i - 1] != NL || s[1..][i] != NL {
        assert s[i] != NL || s[i + 1] != NL;
      }
      assert |s| > 1 ==> (s[1 - 1] != NL || s[1] != NL) && SkipReturns(s[1..]) == s[1..];
      StopAtEnd(s[1..]);
    }
  }

  // ----- the code

  /** The bytes from here on. */
  ghost function Rest(src: array<Code>, e: nat, l: nat): seq<Code>
    requires e <= l <= src.Length
    reads src
  {
    src[e..l]
  }

  lemma RestNext(src: array<Code>, e: nat, l: nat)
    requires e < l <= src.Length
    ensures Rest(src, e, l) != [] && Rest(src, e, l)[0] == src[e] && Rest(src, e, l)[1..] == Rest(src, e + 1, l)
  {
  }

  method PastWhite(src: array<Code>, start: nat, l: nat) returns (s: nat)
    requires start <= l <= src.Length
    ensures start <= s <= l && Rest(src, s, l) == SkipWhite(Rest(src, start, l))
    ensures s < l ==> !IsWhite(src[s])
  {
    s := start;
    while s < l && IsWhite(src[s])
      invariant start <= s <= l && SkipWhite(Rest(src, s, l)) == SkipWhite(Rest(src, start, l))
      decreases l - s
    {
      RestNext(src, s, l);
      s := s + 1;
    }
    if s < l {
      RestNext(src, s, l);
    }
  }

  method PastLine(src: array<Code>, start: nat, l: nat) returns (s: nat)
    requires start <= l <= src.Length
    ensures start <= s <= l && s == start + LineEnd(Rest(src, start, l))
  {
    s := start;
    while s < l && src[s] != NL
      invariant start <= s <= l && s + LineEnd(Rest(src, s, l)) == start + LineEnd(Rest(src, start, l))
      decreases l - s
    {
      RestNext(src, s, l);
      s := s + 1;
    }
    if s < l {
      RestNext(src, s, l);
    }
  }

  /** `chunk_getstart` */
  method ChunkGetStart(src: array<Code>, start: nat, len: nat, comments: bool) returns (s: nat)
    requires start + len <= src.Length
    ensures start <= s <= start + len && Rest(src, s, start + len) == Start(Rest(src, start, start + len), comments)
  {
    var l := start + len;
    s := PastWhite(src, start, l);
    ghost var t := Rest(src, start, l);
    while comments && s < l && src[s] == HASH
      invariant start <= s <= l && Rest(src, s, l) == SkipWhite(t)
      invariant Start(t, comments) == Start(Rest(src, start, l), comments)
      decreases l - s
    {
      var e := PastLine(src, s, l);
      LineOver(src, s, e, l);
      t := Rest(src, e, l);
      s := PastWhite(src, e, l);
    }
    if s < l {
      RestNext(src, s, l);
    }
  }

  lemma LineOver(src: array<Code>, s: nat, e: nat, l: nat)
    requires s < l <= src.Length && src[s] == HASH && e == s + LineEnd(Rest(src, s, l))
    ensures s < e && Rest(src, e, l) == Rest(src, s, l)[LineEnd(Rest(src, s, l))..]
  {
    RestNext(src, s, l);
  }

  method PastReturns(src: array<Code>, start: nat, l: nat) returns (s: nat)
    requires start <= l <= src.Length
    ensures start <= s <= l && Rest(src, s, l) == SkipReturns(Rest(src, start, l))
  {
    s := start;
    while s < l && src[s] == CR
      invariant start <= s <= l && SkipReturns(Rest(src, s, l)) == SkipReturns(Rest(src, start, l))
      decreases l - s
    {
      RestNext(src, s, l);
      s := s + 1;
    }
    if s < l {
      RestNext(src, s, l);
    }
  }

  method PastLines(src: array<Code>, start: nat, l: nat) returns (s: nat)
    requires start <= l <= src.Length
    ensures start <= s <= l && Rest(src, s, l) == SkipLines(Rest(src, start, l))
  {
    s := start;
    while s < l && (src[s] == CR || src[s] == NL)
      invariant start <= s <= l && SkipLines(Rest(src, s, l)) == SkipLines(Rest(src, start, l))
      decreases l - s
    {
      RestNext(src, s, l);
      s := s + 1;
    }
    if s < l {
      RestNext(src, s, l);
    }
  }

  /** Writes one byte of the chunk, in front of what is still to be read. */
  method PutBehind(dst: array<Code>, to: nat, p: nat, c: Code, src: array<Code>, e: nat, l: nat)
    requires to <= p < dst.Length && e <= l <= src.Length && (dst == src ==> p < e)
    modifies dst
    ensures Rest(dst, to, p + 1) == old(Rest(dst, to, p)) + [c] && Rest(src, e, l) == old(Rest(src, e, l))
    ensures forall j :: 0 <= j < dst.Length && j != p ==> dst[j] == old(dst[j])
  {
    dst[p] := c;
  }

  /** A line end with the carriage returns after it; over if an empty line follows. */
  method CopyLineEnd(dst: array<Code>, to: nat, p: nat, src: array<Code>, n: nat, l: nat) returns (m: nat, over: bool)
    requires n < l <= src.Length && src[n] == NL && to <= p < dst.Length && (dst == src ==> p <= n)
    modifies dst
    ensures n < m <= l && over == (m < l && src[m] == NL)
    ensures Rest(dst, to, p + 1) == old(Rest(dst, to, p)) + [NL]
    ensures Rest(src, m, l) == SkipReturns(old(Rest(src, n, l)[1..]))
    ensures over <==> Rest(src, m, l) != [] && Rest(src, m, l)[0] == NL
    ensures forall j :: 0 <= j < dst.Length && j != p ==> dst[j] == old(dst[j])
  {
    RestNext(src, n, l);
    PutBehind(dst, to, p, NL, src, n + 1, l);
    m := PastReturns(src, n + 1, l);
    over := m < l && src[m] == NL;
    if m < l {
      RestNext(src, m, l);
    }
  }

  lemma LineEndCopied(s: seq<Code>, done: seq<Code>, over: bool)
    requires s != [] && s[0] == NL
    requires var t := SkipReturns(s[1..]); over <==> t != [] && t[0] == NL
    ensures var t := SkipReturns(s[1..]);
      && done + [NL] + (if over then [] else Copied(t)) == done + Copied(s)
      && (if over then t else Stop(t)) == Stop(s)
  {
    CopiedNext(s);
    hide *;
    Regroup(done, [NL], Copied(SkipReturns(s[1..])));
  }

  /** One byte, or a line end with the carriage returns after it; over if an empty line follows. */
  method CopyOne(dst: array<Code>, to: nat, p: nat, src: array<Code>, n: nat, l: nat)
    returns (q: nat, m: nat, over: bool)
    requires n < l <= src.Length && src[n] != 0 && to <= p < dst.Length && (dst == src ==> p <= n)
    modifies dst
    ensures p <= q <= p + 1 && n < m <= l && (q > p ==> q - p <= m - n)
    ensures Rest(dst, to, q) + (if over then [] else Copied(Rest(src, m, l)))
             == old(Rest(dst, to, p) + Copied(Rest(src, n, l)))
    ensures over ==> m < l && src[m] == NL && Rest(src, m, l) == old(Stop(Rest(src, n, l)))
    ensures !over ==> Stop(Rest(src, m, l)) == old(Stop(Rest(src, n, l)))
    ensures forall j :: 0 <= j < dst.Length && !(p <= j < q) ==> dst[j] == old(dst[j])
  {
    hide *;
    ghost var s, done := Rest(src, n, l), Rest(dst, to, p);
    RestNext(src, n, l);
    CopiedNext(s);
    q, m, over := p, n + 1, false;
    if src[n] == NL {
      q := p + 1;
      m, over := CopyLineEnd(dst, to, p, src, n, l);
      LineEndCopied(s, done, over);
    } else if src[n] != CR {
      PutBehind(dst, to, p, src[n], src, m, l);
      q := p + 1;
      Regroup(done, [s[0]], Copied(s[1..]));
    }
  }

  lemma Regroup(a: seq<Code>, b: seq<Code>, c: seq<Code>)
    ensures a + (b + c) == a + b + c && b + [] == b
  {
  }

  /**
    * The loop that copies. The destination may be the same buffer as long as it is not behind the source;
    * nothing is overwritten that is still to be read.
    */
  method Copy(dst: array<Code>, to: nat, src: array<Code>, start: nat, l: nat) returns (p: nat, n: nat)
    requires start <= l <= src.Length && to + (l - start) < dst.Length && (dst == src ==> to <= start)
    modifies dst
    ensures to <= p < dst.Length && start <= n <= l && p - to <= n - start
    ensures Rest(dst, to, p) == old(Copied(Rest(src, start, l)))
    ensures Rest(src, n, l) == old(Stop(Rest(src, start, l))) && (n < l ==> src[n] == NL || src[n] == 0)
    ensures forall j :: 0 <= j < dst.Length && !(to <= j < p) ==> dst[j] == old(dst[j])
  {
    p, n := to, start;
    ghost var t := Rest(src, start, l);
    var over := false;
    assert [] + Copied(t) == Copied(t) && Rest(dst, to, p) == [];
    hide *;
    while !over && n < l && src[n] != 0
      invariant start <= n <= l && to <= p && p - to <= n - start
      invariant Rest(dst, to, p) + (if over then [] else Copied(Rest(src, n, l))) == Copied(t)
      invariant over ==> n < l && src[n] == NL && Rest(src, n, l) == Stop(t)
      invariant !over ==> Stop(Rest(src, n, l)) == Stop(t)
      invariant forall j :: 0 <= j < dst.Length && !(to <= j < p) ==> dst[j] == old(dst[j])
      decreases l - n
    {
      p, n, over := CopyOne(dst, to, p, src, n, l);
    }
    if !over {
      Stopped(src, n, l);
    }
  }

  lemma Stopped(src: array<Code>, n: nat, l: nat)
    requires n <= l <= src.Length && (n < l ==> src[n] == 0)
    ensures Copied(Rest(src, n, l)) == [] && Stop(Rest(src, n, l)) == Rest(src, n, l)
  {
    if n < l {
      RestNext(src, n, l);
    }
  }

  method CopyChunk(dst: array<Code>, to: nat, src: array<Code>, e: nat, l: nat) returns (p: nat, next: nat)
    requires e <= l <= src.Length && to + (l - e) < dst.Length && (dst == src ==> to <= e)
    modifies dst
    ensures e <= next <= l && to <= p < dst.Length && p - to <= next - e && dst[p] == 0
    ensures Rest(dst, to, p) == old(Copied(Rest(src, e, l)))
    ensures Rest(src, next, l) == old(AfterGap(Stop(Rest(src, e, l))))
    ensures forall j :: 0 <= j < dst.Length && !(to <= j <= p) ==> dst[j] == old(dst[j])
    ensures dst == src && p == next < l ==> old(src[p]) == 0
  {
    hide *;
    ghost var text := Copied(Rest(src, e, l));
    var n;
    p, n := Copy(dst, to, src, e, l);
    next := PastGap(src, n, l);
    EndAt(dst, to, p, src, next, l);
    assert Rest(dst, to, p) == text;
  }

  /**
    * `chunk_extract`: the first chunk, terminated, in the destination, which may begin at or before the start of
    * the same buffer; where the rest begins, which is untouched; never more bytes written than read.
    */
  method ChunkExtract(dst: array<Code>, to: nat, src: array<Code>, start: nat, len: nat, comments: bool)
    returns (size: nat, next: nat)
    requires start + len <= src.Length && to + len < dst.Length && (dst == src ==> to <= start)
    modifies dst
    ensures start <= next <= start + len && size <= next - start && to + size < dst.Length
    ensures Rest(dst, to, to + size) == old(Extract(Rest(src, start, start + len), comments)) && dst[to + size] == 0
    ensures Rest(src, next, start + len) == old(Next(Rest(src, start, start + len), comments))
    ensures dst == src ==> forall j :: next <= j < start + len ==> src[j] == old(src[j])
    ensures forall j :: 0 <= j < dst.Length && !(to <= j <= to + size) ==> dst[j] == old(dst[j])
  {
    hide *;
    var e := ChunkGetStart(src, start, len, comments);
    ExtractIs(Rest(src, start, start + len), comments);
    var p;
    p, next := CopyChunk(dst, to, src, e, start + len);
    size := p - to;
  }

  method PastGap(src: array<Code>, n: nat, l: nat) returns (next: nat)
    requires n <= l <= src.Length
    ensures n <= next <= l && Rest(src, next, l) == AfterGap(Rest(src, n, l))
    ensures next == n < l ==> src[n] != NL
  {
    if n < l {
      RestNext(src, n, l);
    }
    if n < l && src[n] == NL {
      next := PastLines(src, n + 1, l);
    } else {
      next := n;
    }
  }

  /** Terminates the chunk; what is left to read stays as it is. */
  method EndAt(dst: array<Code>, to: nat, p: nat, src: array<Code>, next: nat, l: nat)
    requires to <= p < dst.Length && next <= l <= src.Length
    requires dst == src && next < l ==> p < next || (p == next && src[next] == 0)
    modifies dst
    ensures dst[p] == 0 && forall j :: 0 <= j < dst.Length && j != p ==> dst[j] == old(dst[j])
    ensures Rest(src, next, l) == old(Rest(src, next, l)) && Rest(dst, to, p) == old(Rest(dst, to, p))
  {
    dst[p] := 0;
  }
}
