/** Which checksum records are accepted, by the characters that are written: checksums.c. */
module RecordTexts {
  import opened CText
  import opened Options
  import opened Checksums
  import C = ChecksumsCombine
  import L = ListLines
  import Sequences

  /** A hash as it is written, with the spaces after it. */
  datatype Piece = Piece(kind: Code, value: seq<Code>, spaces: seq<Code>)

  /** A record as it is written, with everything that is dropped. */
  datatype Spelling = Spelling(hashes: seq<Piece>, md5: seq<Code>, spaces: seq<Code>, zeros: seq<Code>, size: seq<Code>)

  predicate Gap(s: seq<Code>) { s != [] && forall c :: c in s ==> c == ' ' as int }

  predicate HexDigits(s: seq<Code>) {
    forall c :: c in s ==>
      '0' as int <= c <= '9' as int || 'a' as int <= c <= 'f' as int || 'A' as int <= c <= 'F' as int
  }

  predicate AcceptedPieces(ps: seq<Piece>) {
    forall p :: p in ps ==> (forall c :: c in p.value ==> c != ' ' as int) && Gap(p.spaces)
  }

  /** The hash of md5 is a dash or hexadecimal; it may be empty only if it comes first. */
  predicate AcceptedTail(p: Spelling) {
    && (p.md5 == ['-' as int] || HexDigits(p.md5)) && Gap(p.spaces) && L.Zeros(p.zeros)
    && p.size != [] && L.Number(p.size) && (|p.size| > 1 ==> p.size[0] != '0' as int)
  }

  predicate Accepted(p: Spelling) {
    AcceptedPieces(p.hashes) && AcceptedTail(p) && (p.hashes != [] ==> p.md5 != [])
  }

  function PieceText(p: Piece): seq<Code> { [':' as int, p.kind, ':' as int] + p.value + p.spaces }

  function PiecesText(ps: seq<Piece>): seq<Code> { if ps == [] then [] else PieceText(ps[0]) + PiecesText(ps[1..]) }

  function TailText(p: Spelling): seq<Code> { p.md5 + (p.spaces + (p.zeros + p.size)) }

  function Text(p: Spelling): seq<Code> { PiecesText(p.hashes) + TailText(p) }

  /** What the pieces are read as. */
  function Values(ps: seq<Piece>): seq<Hash> {
    seq(|ps|, i requires 0 <= i < |ps| => Hash(ps[i].kind, ps[i].value))
  }

  /** The second text is the first one in lower case. */
  predicate InLowerCase(s: seq<Code>, t: seq<Code>) {
    |t| == |s| && forall i :: 0 <= i < |s| ==>
      t[i] == if 'A' as int <= s[i] <= 'F' as int then s[i] - 'A' as int + 'a' as int else s[i]
  }

  // ----- what is spelled like this is accepted

  lemma {:induction false} SpacesBefore(a: seq<Code>, b: seq<Code>)
    requires (forall c :: c in a ==> c == ' ' as int) && (b == [] || b[0] != ' ' as int)
    ensures Spaces(a + b) == |a|
  {
    if a == [] {
      Sequences.Nothing(b);
    } else {
      assert a[0] in a && (forall c :: c in a[1..] ==> c in a) && (a + b)[1..] == a[1..] + b;
      SpacesBefore(a[1..], b);
    }
  }

  lemma {:induction false} Lowered(s: seq<Code>)
    ensures InLowerCase(s, LowerAll(s))
  {
    if s != [] {
      Lowered(s[1..]);
    }
  }

  lemma GapFirst(a: seq<Code>, b: seq<Code>)
    requires Gap(a)
    ensures (a + b)[0] == ' ' as int
  {
    assert a[0] in a;
  }

  lemma SizeRead(p: Spelling)
    requires AcceptedTail(p)
    ensures var v := p.zeros + p.size; v != [] && v[0] != ' ' as int && NoZeros(v) == p.size && !NotNumber(p.size)
  {
    assert p.size[0] in p.size && (|p.size| > 1 ==> p.size[1] in p.size);
    L.NoZerosBefore(p.zeros, p.size);
    if p.zeros != [] {
      assert p.zeros[0] in p.zeros;
    } else {
      Sequences.Nothing(p.size);
    }
  }

  lemma HexLower(s: seq<Code>)
    requires HexDigits(s)
    ensures !NotHex(s) && SPACE !in s && !(s != [] && s[0] == DASH)
  {
    assert s != [] ==> s[0] in s;
  }

  lemma Dashed(p: Spelling)
    requires AcceptedTail(p)
    ensures var s := TailText(p); |s| > 1 && (s[0] == DASH && s[1] == SPACE <==> p.md5 == ['-' as int])
  {
    var v := p.zeros + p.size;
    GapFirst(p.spaces, v);
    assert p.md5 != ['-' as int] && p.md5 != [] ==> p.md5[0] in p.md5;
    if p.md5 == [] {
      Sequences.Nothing(p.spaces + v);
    } else {
      assert TailText(p)[0] == p.md5[0];
    }
  }

  lemma TailRead(p: Spelling)
    requires AcceptedTail(p)
    ensures ReadTail(TailText(p)) == Some((LowerAll(p.md5), p.size))
  {
    var v := p.zeros + p.size;
    SizeRead(p);
    GapFirst(p.spaces, v);
    SpacesBefore(p.spaces, v);
    Dashed(p);
    Sequences.Joined(p.md5, p.spaces + v);
    Sequences.Joined(p.spaces, v);
    if p.md5 == ['-' as int] {
      assert LowerAll([DASH]) == [DASH];
    } else {
      HexLower(p.md5);
      WordBefore(p.md5, p.spaces + v);
    }
    hide Word, Spaces, NoZeros, LowerAll, NotHex, NotNumber;
  }

  lemma PieceRead(p: Piece, rest: seq<Code>)
    requires (forall c :: c in p.value ==> c != ' ' as int) && Gap(p.spaces) && (rest == [] || rest[0] != ' ' as int)
    ensures var s := PieceText(p) + rest;
      |s| > 3 && s[0] == COLON && s[2] == COLON && SplitHash(s) == (Hash(p.kind, p.value), rest)
  {
    var s := PieceText(p) + rest;
    PieceParts(p, rest);
    GapFirst(p.spaces, rest);
    WordBefore(p.value, p.spaces + rest);
    SpacesBefore(p.spaces, rest);
    SplitIs(s, |p.value|);
    hide *;
    Sequences.Joined(p.spaces, rest);
  }

  lemma PieceParts(p: Piece, rest: seq<Code>)
    requires p.spaces != []
    ensures var s := PieceText(p) + rest; var n := |p.value|;
      && |s| > 3 + n && s[0] == COLON && s[1] == p.kind && s[2] == COLON
      && s[3..] == p.value + (p.spaces + rest) && s[3..3 + n] == p.value && s[3 + n..] == p.spaces + rest
  {
  }

  lemma {:induction false} PiecesRead(ps: seq<Piece>, tail: seq<Code>)
    requires AcceptedPieces(ps) && (tail == [] || tail[0] != ':' as int)
    requires ps != [] ==> tail == [] || tail[0] != ' ' as int
    ensures ReadHashes(PiecesText(ps) + tail) == Some((Values(ps), tail))
  {
    if ps == [] {
      Sequences.Nothing(tail);
    } else {
      var p, more := ps[0], ps[1..];
      var rest := PiecesText(more) + tail;
      assert p in ps && forall q :: q in more ==> q in ps;
      assert Values(ps) == [Hash(p.kind, p.value)] + Values(more);
      PiecesRead(more, tail);
      PiecesFirst(more, tail);
      PieceRead(p, rest);
      hide *;
      PiecesNext(ps, tail);
      ReadOne(PieceText(p) + rest, Hash(p.kind, p.value), rest, Values(more), tail);
    }
  }

  lemma PiecesFirst(ps: seq<Piece>, tail: seq<Code>)
    requires tail == [] || tail[0] != ' ' as int
    ensures var s := PiecesText(ps) + tail; s == [] || s[0] != ' ' as int
  {
    if ps == [] {
      Sequences.Nothing(tail);
    }
  }

  lemma PiecesNext(ps: seq<Piece>, tail: seq<Code>)
    requires ps != []
    ensures PiecesText(ps) + tail == PieceText(ps[0]) + (PiecesText(ps[1..]) + tail)
  {
    hide PieceText;
  }

  lemma TailFirst(p: Spelling)
    requires AcceptedTail(p)
    ensures TailText(p) != [] && TailText(p)[0] != ':' as int && (p.md5 != [] ==> TailText(p)[0] != ' ' as int)
  {
    GapFirst(p.spaces, p.zeros + p.size);
    if p.md5 == [] {
      Sequences.Nothing(p.spaces + (p.zeros + p.size));
    } else {
      assert p.md5[0] in p.md5 && TailText(p)[0] == p.md5[0];
    }
  }

  /** A record is read as its hashes, its md5sum in lower case and its size, whatever spaces and zeros are between. */
  lemma SpelledRead(p: Spelling)
    requires Accepted(p)
    ensures ParseText(Text(p)).Some?
    ensures var r := ParseText(Text(p)).value;
      r.hashes == Values(p.hashes) && InLowerCase(p.md5, r.md5) && r.size == p.size
  {
    TailFirst(p);
    PiecesRead(p.hashes, TailText(p));
    TailRead(p);
    Lowered(p.md5);
    hide ReadHashes, ReadTail, PiecesText, TailText, LowerAll, Values, InLowerCase;
  }

  // ----- what is accepted is spelled like this

  lemma {:induction false} SpacesOnly(s: seq<Code>)
    ensures forall c :: c in s[..Spaces(s)] ==> c == ' ' as int
  {
    if s != [] && s[0] == SPACE {
      SpacesOnly(s[1..]);
      forall c | c in s[..Spaces(s)] ensures c == ' ' as int {
        assert c == s[0] || c in s[1..][..Spaces(s[1..])];
      }
    }
  }

  lemma GapEnd(s: seq<Code>) returns (gap: seq<Code>)
    ensures gap == s[..Spaces(s)] && s == gap + s[Spaces(s)..]
    ensures s != [] && s[0] == SPACE ==> Gap(gap)
    ensures s == [] || s[0] != SPACE ==> gap == []
  {
    gap := s[..Spaces(s)];
    SpacesOnly(s);
    Sequences.Halves(s, Spaces(s));
  }

  lemma WordOnly(s: seq<Code>)
    ensures var n := Word(s); s == s[..n] + s[n..] && (forall c :: c in s[..n] ==> c != ' ' as int)
    ensures var n := Word(s); s[n..] == [] || s[n..][0] == SPACE
  {
  }

  lemma PieceSpelled(s: seq<Code>) returns (p: Piece)
    requires |s| >= 3 && s[0] == COLON && s[2] == COLON
    ensures var (h, rest) := SplitHash(s);
      && s == PieceText(p) + rest && h == Hash(p.kind, p.value) && (forall c :: c in p.value ==> c != ' ' as int)
      && (rest != [] ==> Gap(p.spaces))
  {
    hide *;
    var n := Word(s[3..]);
    SplitIs(s, n);
    WordOnly(s[3..]);
    var gap := GapEnd(s[3 + n..]);
    p := Piece(s[1], s[3..3 + n], gap);
    PieceJoined(s, n, p, SplitHash(s).1);
    Sequences.Later(s, 3, n);
    assert s[3..][..n] == s[3..3 + n];
  }

  lemma PieceJoined(s: seq<Code>, n: nat, p: Piece, rest: seq<Code>)
    requires 3 + n <= |s| && s[0] == COLON && s[2] == COLON && s[3 + n..] == p.spaces + rest
    requires p.kind == s[1] && p.value == s[3..3 + n]
    ensures s == PieceText(p) + rest
  {
    Sequences.Halves(s, 3 + n);
    Sequences.Halves(s[..3 + n], 3);
    Sequences.Regroup([COLON, p.kind, COLON] + p.value, p.spaces, rest);
    assert s[..3 + n] == [COLON, p.kind, COLON] + p.value;
  }

  lemma {:induction false} PiecesSpelled(s: seq<Code>) returns (ps: seq<Piece>)
    requires ReadHashes(s).Some? && ReadHashes(s).value.1 != []
    ensures var (hs, left) := ReadHashes(s).value;
      AcceptedPieces(ps) && Values(ps) == hs && s == PiecesText(ps) + left && (ps != [] ==> left[0] != SPACE)
    decreases |s|
  {
    hide PieceText, SplitHash;
    if s[0] != COLON {
      ps := [];
      Sequences.Nothing(s);
    } else {
      var p := PieceSpelled(s);
      var (h, rest) := SplitHash(s);
      var more := PiecesSpelled(rest);
      var (hs, left) := ReadHashes(rest).value;
      ps := [p] + more;
      assert Values(ps) == [h] + Values(more);
      hide *;
      PiecesJoined(p, more);
      AcceptedMore(p, more);
      Sequences.Regroup(PieceText(p), PiecesText(more), left);
    }
  }

  lemma PiecesJoined(p: Piece, more: seq<Piece>)
    ensures PiecesText([p] + more) == PieceText(p) + PiecesText(more)
  {
    hide PieceText;
    assert ([p] + more)[1..] == more;
  }

  lemma AcceptedMore(p: Piece, more: seq<Piece>)
    requires (forall c :: c in p.value ==> c != ' ' as int) && Gap(p.spaces) && AcceptedPieces(more)
    ensures AcceptedPieces([p] + more)
  {
  }

  lemma Md5Spelled(md5: seq<Code>)
    requires !NotHex(md5)
    ensures HexDigits(md5)
  {
    forall c | c in md5 ensures
      '0' as int <= c <= '9' as int || 'a' as int <= c <= 'f' as int || 'A' as int <= c <= 'F' as int {
      assert IsHex(Lower(c));
    }
  }

  lemma SizeSpelled(v: seq<Code>) returns (zeros: seq<Code>)
    requires !NotNumber(NoZeros(v))
    ensures var size := NoZeros(v);
      && v == zeros + size && L.Zeros(zeros) && size != [] && L.Number(size)
      && (|size| > 1 ==> size[0] != '0' as int) && v != []
  {
    zeros := L.Zeroed(v);
    var size := NoZeros(v);
    assert |size| > 1 ==> size[1] in size && IsDigit(size[1]);
    hide NoZeros;
  }

  lemma TailSpelled(s: seq<Code>) returns (p: Spelling)
    requires ReadTail(s).Some?
    ensures p.hashes == [] && AcceptedTail(p) && s == TailText(p) && s != []
    ensures ReadTail(s).value == (LowerAll(p.md5), p.size)
  {
    var n := TailParts(s);
    var w := s[n..];
    Sequences.Halves(s, n);
    hide *;
    var gap := GapEnd(w);
    var zeros := SizeSpelled(w[Spaces(w)..]);
    p := Spelling([], s[..n], gap, zeros, NoZeros(w[Spaces(w)..]));
    TailJoined(p);
  }

  lemma TailJoined(p: Spelling)
    requires (p.md5 == ['-' as int] || HexDigits(p.md5)) && Gap(p.spaces) && L.Zeros(p.zeros)
    requires p.size != [] && L.Number(p.size) && (|p.size| > 1 ==> p.size[0] != '0' as int)
    ensures AcceptedTail(p) && TailText(p) == p.md5 + (p.spaces + (p.zeros + p.size)) && TailText(p) != []
  {
    hide HexDigits, Gap, L.Zeros, L.Number;
  }

  /** Where the md5sum ends. */
  lemma TailParts(s: seq<Code>) returns (n: nat)
    requires ReadTail(s).Some?
    ensures n <= |s| && (s[..n] == ['-' as int] || HexDigits(s[..n])) && s[n..] != [] && s[n..][0] == SPACE
    ensures !NotNumber(NoZeros(s[n..][Spaces(s[n..])..]))
    ensures ReadTail(s).value == (LowerAll(s[..n]), NoZeros(s[n..][Spaces(s[n..])..]))
  {
    var dash := |s| > 1 && s[0] == DASH && s[1] == SPACE;
    n := if dash then 1 else Word(s);
    if dash {
      DashAlone(s);
    } else {
      Md5Spelled(s[..n]);
      SizeThere(s[n..][Spaces(s[n..])..]);
      TailGap(s, n, s[n..][Spaces(s[n..])..]);
    }
    hide Word, Spaces, NoZeros, LowerAll, HexDigits, NotHex, NotNumber;
  }

  lemma SizeThere(v: seq<Code>)
    requires !NotNumber(NoZeros(v))
    ensures v != []
  {
  }

  lemma DashAlone(s: seq<Code>)
    requires |s| > 1 && s[0] == DASH
    ensures s[..1] == ['-' as int] && LowerAll(s[..1]) == [DASH] && s[1..] != [] && s[1..][0] == s[1]
  {
  }

  /** There is a size, so there are spaces in front of it. */
  lemma TailGap(s: seq<Code>, n: nat, v: seq<Code>)
    requires n == Word(s) && v == s[n..][Spaces(s[n..])..] && v != []
    ensures s[n..] != [] && s[n..][0] == SPACE
  {
  }

  /** Every accepted text is such a spelling of what it is read as. */
  lemma AcceptedSpelled(s: seq<Code>) returns (p: Spelling)
    requires ParseText(s).Some?
    ensures Accepted(p) && Text(p) == s
  {
    var (hs, left) := ReadHashes(s).value;
    var t := TailSpelled(left);
    var ps := PiecesSpelled(s);
    p := t.(hashes := ps);
    if ps != [] && p.md5 == [] {
      GapFirst(p.spaces, p.zeros + p.size);
      Sequences.Nothing(p.spaces + (p.zeros + p.size));
      assert false;
    }
    hide ReadHashes, ReadTail, PiecesText, HexDigits, Gap, L.Zeros, L.Number, AcceptedPieces;
  }

  /** The kinds are those of the digits 1 and 2, and a dash is no md5sum. */
  lemma KindsAre(p: Spelling, sha1: Piece, sha256: Piece)
    requires Accepted(p) && p.hashes == [sha1, sha256]
    requires sha1.kind == '1' as int && sha256.kind == '2' as int && sha1.value != [] && sha256.value != []
    ensures ParseText(Text(p)).Some?
    ensures var r := ParseText(Text(p)).value;
      && C.Known(r, C.Sha1) == Some(sha1.value) && C.Known(r, C.Sha256) == Some(sha256.value)
      && C.Known(r, C.Length) == Some(p.size) && (C.Known(r, C.Md5) == None <==> p.md5 == ['-' as int])
  {
    SpelledRead(p);
    var r := ParseText(Text(p)).value;
    assert p.md5 != [] && p.size != [];
    hide *;
    ValuesOfTwo(sha1, sha256);
    DashKept(p.md5, r.md5);
    KnownOfTwo(r);
  }

  lemma ValuesOfTwo(p: Piece, q: Piece)
    ensures Values([p, q]) == [Hash(p.kind, p.value), Hash(q.kind, q.value)]
  {
  }

  lemma DashKept(s: seq<Code>, t: seq<Code>)
    requires InLowerCase(s, t)
    ensures t == ['-' as int] <==> s == ['-' as int]
    ensures t == [] <==> s == []
  {
  }

  lemma KnownOfTwo(r: Record)
    requires |r.hashes| == 2 && r.hashes[0].kind == '1' as int && r.hashes[1].kind == '2' as int
    requires r.hashes[0].value != [] && r.hashes[1].value != [] && r.md5 != [] && r.size != []
    ensures C.Known(r, C.Sha1) == Some(r.hashes[0].value) && C.Known(r, C.Sha256) == Some(r.hashes[1].value)
    ensures C.Known(r, C.Length) == Some(r.size) && (C.Known(r, C.Md5) == None <==> r.md5 == ['-' as int])
  {
    var more := r.hashes[1..];
    assert more[0] == r.hashes[1] && C.Lookup(r.hashes, SHA256) == C.Lookup(more, SHA256) == Some(more[0].value);
    assert C.NonEmpty(Some(r.md5)) != None;
  }
}
