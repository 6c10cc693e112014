/** The textual checksum records of checksums.c, with the places of their known parts. */
module Checksums {
  import opened CText
  import opened Options
  import Sequences

  const SHA1: Code := 49
  const SHA256: Code := 50

  predicate IsHex(c: Code) { IsDigit(c) || 97 <= c <= 102 }
  predicate IsUpperHex(c: Code) { 65 <= c <= 70 }

  // ----- records and their text

  /** A hash of one kind; kinds that are not known are kept. */
  datatype Hash = Hash(kind: Code, value: seq<Code>)

  /** The md5sum is a dash if there is none. */
  datatype Record = Record(hashes: seq<Hash>, md5: seq<Code>, size: seq<Code>)

  function HashText(h: Hash): seq<Code> { [COLON, h.kind, COLON] + h.value + [SPACE] }

  function HashesText(hs: seq<Hash>): seq<Code> { if hs == [] then [] else HashText(hs[0]) + HashesText(hs[1..]) }

  function Tail(r: Record): seq<Code> { r.md5 + ([SPACE] + r.size) }

  function Render(r: Record): seq<Code> { HashesText(r.hashes) + Tail(r) }

  /** What a record looks like after parsing. */
  ghost predicate Canonical(r: Record) {
    && (forall h :: h in r.hashes ==> Plain(h))
    && (r.md5 == [DASH] || forall c :: c in r.md5 ==> IsHex(c))
    && (r.md5 == [] ==> r.hashes == [])
    && r.size != [] && (forall c :: c in r.size ==> IsDigit(c)) && (|r.size| > 1 ==> r.size[0] != ZERO)
  }

  // ----- what parsing makes of a text

  /** The length of the part before the next space or the end; of the spaces at the start. */
  function Word(s: seq<Code>): (n: nat)
    ensures n <= |s| && (forall k :: 0 <= k < n ==> s[k] != SPACE) && (n < |s| ==> s[n] == SPACE)
  {
    if s == [] || s[0] == SPACE then 0 else 1 + Word(s[1..])
  }

  function Spaces(s: seq<Code>): (n: nat)
    ensures n <= |s| && (n < |s| ==> s[n] != SPACE)
  {
    if s != [] && s[0] == SPACE then 1 + Spaces(s[1..]) else 0
  }

  ghost predicate Plain(h: Hash) { h.kind != 0 && SPACE !in h.value && 0 !in h.value }

  /** The hash at the start of a text, and what comes after it and its spaces. */
  function SplitHash(s: seq<Code>): (r: (Hash, seq<Code>))
    requires |s| >= 3
    ensures |r.1| < |s| && (r.1 == [] || r.1[0] != SPACE)
  {
    var n := Word(s[3..]);
    var rest := s[3 + n..];
    (Hash(s[1], s[3..3 + n]), rest[Spaces(rest)..])
  }

  function ReadHashes(s: seq<Code>): (r: Option<(seq<Hash>, seq<Code>)>)
    ensures r.Some? ==> |r.value.1| <= |s|
    decreases |s|
  {
    if s == [] || s[0] != COLON then Some(([], s))
    else if |s| < 3 || s[2] != COLON then None
    else
      var (h, rest) := SplitHash(s);
      match ReadHashes(rest)
      case None => None
      case Some((hs, left)) => Some(([h] + hs, left))
  }

  function Lower(c: Code): Code { if IsUpperHex(c) then c + 32 else c }

  function LowerAll(s: seq<Code>): (t: seq<Code>)
    ensures |t| == |s|
  {
    if s == [] then [] else [Lower(s[0])] + LowerAll(s[1..])
  }

  /** A number without its leading zeros. */
  function NoZeros(s: seq<Code>): seq<Code> {
    if |s| > 1 && s[0] == ZERO && IsDigit(s[1]) then NoZeros(s[1..]) else s
  }

  predicate NotHex(s: seq<Code>) { exists c :: c in s && !IsHex(Lower(c)) }
  predicate NotNumber(s: seq<Code>) { s == [] || exists c :: c in s && !IsDigit(c) }

  function ReadTail(s: seq<Code>): Option<(seq<Code>, seq<Code>)> {
    var dash := |s| > 1 && s[0] == DASH && s[1] == SPACE;
    var n := if dash then 1 else Word(s);
    var size := NoZeros(s[n..][Spaces(s[n..])..]);
    if (!dash && NotHex(s[..n])) || NotNumber(size) then None
    else Some((if dash then [DASH] else LowerAll(s[..n]), size))
  }

  function ParseText(s: seq<Code>): Option<Record> {
    match ReadHashes(s)
    case None => None
    case Some((hs, left)) =>
      match ReadTail(left)
      case None => None
      case Some((md5, size)) => Some(Record(hs, md5, size))
  }

  // ----- what is stored is no longer than what was read

  lemma {:induction false} NoZerosShorter(s: seq<Code>)
    ensures |NoZeros(s)| <= |s|
  {
    if |s| > 1 && s[0] == ZERO && IsDigit(s[1]) {
      NoZerosShorter(s[1..]);
    }
  }

  lemma {:induction false} HashesFit(s: seq<Code>)
    ensures ReadHashes(s).Some? && ReadHashes(s).value.1 != [] ==>
              |HashesText(ReadHashes(s).value.0)| + |ReadHashes(s).value.1| <= |s|
    decreases |s|
  {
    if s != [] && s[0] == COLON && |s| >= 3 && s[2] == COLON {
      var (h, rest) := SplitHash(s);
      HashesFit(rest);
      assert rest != [] ==> |HashText(h)| + |rest| <= |s|;
      assert ReadHashes(rest).Some? ==> |ReadHashes(rest).value.1| <= |rest|;
      hide SplitHash, HashText;
      if ReadHashes(rest).Some? {
        var hs := ReadHashes(rest).value.0;
        assert ([h] + hs)[1..] == hs;
      }
    }
  }

  lemma TailFits(s: seq<Code>)
    ensures ReadTail(s).Some? ==> |ReadTail(s).value.0| + 1 + |ReadTail(s).value.1| <= |s|
  {
    var dash := |s| > 1 && s[0] == DASH && s[1] == SPACE;
    var n := if dash then 1 else Word(s);
    NoZerosShorter(s[n..][Spaces(s[n..])..]);
    assert n < |s| ==> Spaces(s[n..]) >= 1;
  }

  /** The stored record of a text that is accepted fits the room that was allocated for it. */
  lemma AcceptedFits(s: seq<Code>)
    ensures ParseText(s).Some? ==> |Render(ParseText(s).value)| <= |s|
  {
    HashesFit(s);
    if ReadHashes(s).Some? {
      TailFits(ReadHashes(s).value.1);
    }
  }

  // ----- how much is written, also for a text that is refused in the end

  /** How many characters at the start are hexadecimal digits, of whatever case. */
  function Hexes(s: seq<Code>): (n: nat)
    ensures n <= |s| && (n == |s| <==> forall c :: c in s ==> IsHex(Lower(c)))
  {
    if s != [] && IsHex(Lower(s[0])) then 1 + Hexes(s[1..]) else 0
  }

  function Digits(s: seq<Code>): (n: nat)
    ensures n <= |s| && (n == |s| <==> forall c :: c in s ==> IsDigit(c))
  {
    if s != [] && IsDigit(s[0]) then 1 + Digits(s[1..]) else 0
  }

  /** The digits of the size up to something else, and a terminator if there is nothing else. */
  function SizeFilled(s: seq<Code>): nat { Digits(s) + if s != [] && Digits(s) == |s| then 1 else 0 }

  function TailFilled(s: seq<Code>): nat {
    var dash := |s| > 1 && s[0] == DASH && s[1] == SPACE;
    var n := if dash then 1 else Word(s);
    if !dash && Hexes(s[..n]) < n then Hexes(s[..n])
    else n + 1 + SizeFilled(NoZeros(s[n..][Spaces(s[n..])..]))
  }

  /** How many characters are put into the buffer before the text is accepted or refused. */
  function Filled(s: seq<Code>): nat
    decreases |s|
  {
    if s == [] || s[0] != COLON then TailFilled(s)
    else if |s| < 3 || s[2] != COLON then 0
    else
      var (h, rest) := SplitHash(s);
      |HashText(h)| + Filled(rest)
  }

  /** Only hashes, with one space after each but the last. */
  predicate OnlyHashes(s: seq<Code>) {
    match ReadHashes(s)
    case None => false
    case Some((hs, left)) => left == [] && HashesText(hs) == s + [SPACE]
  }

  lemma TailFilledFits(s: seq<Code>)
    ensures TailFilled(s) <= |s| + 1
  {
    var dash := |s| > 1 && s[0] == DASH && s[1] == SPACE;
    var n := if dash then 1 else Word(s);
    NoZerosShorter(s[n..][Spaces(s[n..])..]);
    assert n < |s| ==> Spaces(s[n..]) >= 1;
    hide Hexes, Digits, NoZeros;
  }

  lemma SplitIs(s: seq<Code>, n: nat)
    requires |s| >= 3 && n == Word(s[3..])
    ensures 3 + n <= |s| && Spaces(s[3 + n..]) <= |s| - 3 - n
    ensures SplitHash(s) == (Hash(s[1], s[3..3 + n]), s[3 + n..][Spaces(s[3 + n..])..])
    ensures Spaces(s[3 + n..]) == 0 ==> s[3 + n..] == []
    ensures Spaces(s[3 + n..]) == 1 ==> s[3 + n..][..1] == [SPACE]
  {
    assert 3 + n < |s| ==> s[3..][n] == s[3 + n];
  }

  lemma SplitSpaces(s: seq<Code>) returns (spaces: nat)
    requires |s| >= 3
    ensures var (h, rest) := SplitHash(s);
      && |s| == 3 + |h.value| + spaces + |rest| && h.kind == s[1]
      && (spaces == 0 ==> rest == [] && s == [s[0], s[1], s[2]] + h.value)
      && (spaces == 1 ==> s == [s[0], s[1], s[2]] + h.value + [SPACE] + rest)
  {
    var n := Word(s[3..]);
    spaces := Spaces(s[3 + n..]);
    SplitIs(s, n);
    hide *;
    Sequences.Halves(s, 3 + n);
    Sequences.Halves(s[..3 + n], 3);
    assert s[..3 + n][..3] == [s[0], s[1], s[2]] && s[..3 + n][3..] == s[3..3 + n];
    if spaces == 1 {
      Sequences.Halves(s[3 + n..], 1);
      Sequences.Regroup([s[0], s[1], s[2]] + s[3..3 + n], [SPACE], s[3 + n..][1..]);
    } else if spaces == 0 {
      Sequences.Nothing([s[0], s[1], s[2]] + s[3..3 + n]);
    }
  }

  /**
   The code writes past the room it has allocated, by one character, exactly if the text
   is nothing but hashes with single spaces between them and none at the end.
   */
  lemma {:induction false} OverrunIs(s: seq<Code>)
    ensures Filled(s) <= |s| + 2 && (Filled(s) > |s| + 1 <==> OnlyHashes(s))
    decreases |s|
  {
    if s == [] || s[0] != COLON {
      TailFilledFits(s);
    } else if |s| >= 3 && s[2] == COLON {
      var (h, rest) := SplitHash(s);
      var spaces := SplitSpaces(s);
      OverrunIs(rest);
      OnlyHashesFirst(s, h, rest, spaces);
    }
  }

  lemma OnlyHashesFirst(s: seq<Code>, h: Hash, rest: seq<Code>, spaces: nat)
    requires |s| >= 3 && s[0] == s[2] == COLON && SplitHash(s) == (h, rest) && |s| == 3 + |h.value| + spaces + |rest|
    requires h.kind == s[1] && (spaces == 0 ==> rest == [] && s == [COLON, s[1], COLON] + h.value)
    requires spaces == 1 ==> s == [COLON, s[1], COLON] + h.value + [SPACE] + rest
    ensures OnlyHashes(s) <==> spaces == 0 || (spaces == 1 && OnlyHashes(rest))
  {
    match ReadHashes(rest)
    case None =>
    case Some((hs, left)) =>
      HashesRoom(rest);
      assert ReadHashes(s) == Some(([h] + hs, left));
      assert ([h] + hs)[1..] == hs && HashesText([h] + hs) == HashText(h) + HashesText(hs);
      assert rest == [] ==> hs == [] && left == [] && HashesText(hs) == [];
      TextParts(s, h, rest, HashesText(hs), spaces);
  }

  lemma TextParts(s: seq<Code>, h: Hash, rest: seq<Code>, text: seq<Code>, spaces: nat)
    requires |s| == 3 + |h.value| + spaces + |rest| && |text| <= |rest| + 1
    requires spaces == 0 ==> text == [] && s == [COLON, h.kind, COLON] + h.value
    requires spaces == 1 ==> s == [COLON, h.kind, COLON] + h.value + [SPACE] + rest
    ensures HashText(h) + text == s + [SPACE] <==> spaces == 0 || (spaces == 1 && text == rest + [SPACE])
  {
    var head := [COLON, h.kind, COLON] + h.value + [SPACE];
    if spaces == 0 {
      assert head + [] == head;
    } else if spaces == 1 {
      assert s + [SPACE] == head + (rest + [SPACE]);
      assert (head + text)[|head|..] == text && (head + (rest + [SPACE]))[|head|..] == rest + [SPACE];
    }
  }

  lemma {:induction false} HashesRoom(s: seq<Code>)
    ensures ReadHashes(s).Some? ==> |HashesText(ReadHashes(s).value.0)| <= |s| + 1
    decreases |s|
  {
    HashesFit(s);
    if s != [] && s[0] == COLON && |s| >= 3 && s[2] == COLON {
      var (h, rest) := SplitHash(s);
      var spaces := SplitSpaces(s);
      HashesRoom(rest);
      if ReadHashes(rest).Some? {
        var hs := ReadHashes(rest).value.0;
        assert ([h] + hs)[1..] == hs;
        assert rest == [] ==> hs == [];
      }
    }
  }

  // ----- parsing is a projection

  lemma {:induction false} LowerAllHex(s: seq<Code>)
    requires forall c :: c in s ==> IsHex(Lower(c))
    ensures forall c :: c in LowerAll(s) ==> IsHex(c)
  {
    if s != [] {
      assert s[0] in s && forall c :: c in s[1..] ==> c in s;
      LowerAllHex(s[1..]);
    }
  }

  lemma {:induction false} LowerAllSame(s: seq<Code>)
    requires forall c :: c in s ==> IsHex(c)
    ensures LowerAll(s) == s
  {
    if s != [] {
      assert s[0] in s && forall c :: c in s[1..] ==> c in s;
      LowerAllSame(s[1..]);
      assert s == [s[0]] + s[1..];
    }
  }

  lemma {:induction false} NoZerosDigits(s: seq<Code>)
    ensures var t := NoZeros(s); |t| > 1 && IsDigit(t[1]) ==> t[0] != ZERO
  {
    if |s| > 1 && s[0] == ZERO && IsDigit(s[1]) { NoZerosDigits(s[1..]); }
  }

  ghost predicate PlainHashes(hs: seq<Hash>) { forall h :: h in hs ==> Plain(h) }

  /** The hashes are plain, and stop where no colon and, behind a hash, no space is left. */
  ghost predicate WellRead(hs: seq<Hash>, left: seq<Code>) {
    PlainHashes(hs) && (left != [] ==> left[0] != COLON && (hs != [] ==> left[0] != SPACE))
  }

  lemma SplitPlain(s: seq<Code>)
    requires |s| >= 3 && 0 !in s
    ensures Plain(SplitHash(s).0) && 0 !in SplitHash(s).1
  {
    var n := Word(s[3..]);
    assert forall k :: 0 <= k < n ==> s[3..3 + n][k] == s[3..][k];
  }

  lemma {:induction false} ReadHashesCanonical(s: CString)
    requires ReadHashes(s).Some?
    ensures WellRead(ReadHashes(s).value.0, ReadHashes(s).value.1)
    ensures ReadHashes(s).value.0 == [] ==> ReadHashes(s).value.1 == s
    decreases |s|
  {
    hide SplitHash, Plain;
    if s != [] && s[0] == COLON {
      SplitPlain(s);
      ReadHashesCanonical(SplitHash(s).1);
    }
  }

  /** What is parsed is canonical. */
  lemma ParsedCanonical(s: CString)
    requires ParseText(s).Some?
    ensures Canonical(ParseText(s).value)
  {
    ReadHashesCanonical(s);
    var (hs, left) := ReadHashes(s).value;
    var dash := |left| > 1 && left[0] == DASH && left[1] == SPACE;
    var n := if dash then 1 else Word(left);
    NoZerosDigits(left[n..][Spaces(left[n..])..]);
    if !dash {
      LowerAllHex(left[..n]);
    }
    var size := ParseText(s).value.size;
    assert |size| > 1 ==> size[1] in size;
  }

  lemma {:induction false} WordBefore(w: seq<Code>, rest: seq<Code>)
    requires SPACE !in w && (rest == [] || rest[0] == SPACE)
    ensures Word(w + rest) == |w|
  {
    if w == [] {
      assert w + rest == rest;
    } else {
      assert (w + rest)[1..] == w[1..] + rest && w[0] in w;
      WordBefore(w[1..], rest);
    }
  }

  /** The text of a record can be a C string. */
  lemma {:induction false} HashesTextC(hs: seq<Hash>)
    requires forall h :: h in hs ==> h.kind != 0 && 0 !in h.value
    ensures 0 !in HashesText(hs)
  {
    if hs != [] {
      assert hs[0] in hs;
      HashesTextC(hs[1..]);
    }
  }

  lemma OneSpace(rest: seq<Code>)
    requires rest == [] || rest[0] != SPACE
    ensures Spaces([SPACE] + rest) == 1 && ([SPACE] + rest)[1..] == rest
  {
    assert ([SPACE] + rest)[1..] == rest;
  }

  lemma HashPieces(h: Hash, rest: seq<Code>)
    requires Plain(h)
    ensures var s := HashText(h) + rest; var n := |h.value|;
      && |s| >= 4 && s[0] == COLON && s[1] == h.kind && s[2] == COLON
      && s[3..] == h.value + ([SPACE] + rest) && s[3..3 + n] == h.value && s[3 + n..] == [SPACE] + rest
  {
  }

  /** A hash with its space is split off as such, whatever follows. */
  lemma OneHashRead(h: Hash, rest: seq<Code>)
    requires Plain(h) && (rest == [] || rest[0] != SPACE)
    ensures |HashText(h) + rest| >= 4 && SplitHash(HashText(h) + rest) == (h, rest)
    ensures (HashText(h) + rest)[0] == COLON && (HashText(h) + rest)[2] == COLON
  {
    HashPieces(h, rest);
    WordBefore(h.value, [SPACE] + rest);
    OneSpace(rest);
    hide Word, Spaces, HashText;
  }

  lemma HashesSplit(hs: seq<Hash>, tail: seq<Code>)
    requires hs != []
    ensures HashesText(hs) + tail == HashText(hs[0]) + (HashesText(hs[1..]) + tail)
  {
    hide HashText;
    assert HashesText(hs) == HashText(hs[0]) + HashesText(hs[1..]);
  }

  lemma HashesHead(hs: seq<Hash>, tail: seq<Code>)
    requires hs != [] || tail == [] || tail[0] != SPACE
    ensures HashesText(hs) + tail == [] || (HashesText(hs) + tail)[0] != SPACE
  {
    if hs == [] {
      assert [] + tail == tail;
    } else {
      assert HashesText(hs)[0] == COLON;
    }
  }

  lemma ReadOne(s: seq<Code>, h: Hash, rest: seq<Code>, hs: seq<Hash>, left: seq<Code>)
    requires |s| >= 4 && s[0] == COLON && s[2] == COLON && SplitHash(s) == (h, rest)
    requires ReadHashes(rest) == Some((hs, left))
    ensures ReadHashes(s) == Some(([h] + hs, left))
  {
    hide SplitHash;
  }

  lemma {:induction false} HashesRead(hs: seq<Hash>, tail: seq<Code>)
    requires PlainHashes(hs) && (tail == [] || (tail[0] != COLON && (hs != [] ==> tail[0] != SPACE)))
    ensures ReadHashes(HashesText(hs) + tail) == Some((hs, tail))
  {
    hide HashText, SplitHash, Plain;
    if hs == [] {
      assert HashesText(hs) + tail == tail;
    } else {
      var h, more := hs[0], hs[1..];
      assert h in hs && Plain(h) && PlainHashes(more) && [h] + more == hs;
      hide ReadHashes, HashesText, PlainHashes;
      HashesRead(more, tail);
      var rest: seq<Code> := HashesText(more) + tail;
      HashesSplit(hs, tail);
      HashesHead(more, tail);
      OneHashRead(h, rest);
      ReadOne(HashText(h) + rest, h, rest, more, tail);
    }
  }

  lemma TailRead(md5: seq<Code>, size: seq<Code>)
    requires md5 == [DASH] || forall c :: c in md5 ==> IsHex(c)
    requires size != [] && (forall c :: c in size ==> IsDigit(c)) && (|size| > 1 ==> size[0] != ZERO)
    ensures ReadTail(md5 + ([SPACE] + size)) == Some((md5, size))
  {
    var s := md5 + ([SPACE] + size);
    var n := if md5 == [DASH] then 1 else Word(s);
    TailWord(md5, size);
    assert size[0] in size && NoZeros(size) == size;
    OneSpace(size);
    assert s[n..][Spaces(s[n..])..] == size && s[..n] == md5;
    if md5 != [DASH] {
      assert forall c :: c in md5 ==> Lower(c) == c;
      LowerAllSame(md5);
    }
    hide Word, Spaces, NoZeros, LowerAll, IsHex, IsDigit, Lower;
  }

  lemma TailWord(md5: seq<Code>, size: seq<Code>)
    requires md5 == [DASH] || forall c :: c in md5 ==> IsHex(c)
    ensures var s := md5 + ([SPACE] + size);
      && Word(s) == |md5| && s[|md5|..] == [SPACE] + size && s[..|md5|] == md5
      && (|s| > 1 && s[0] == DASH && s[1] == SPACE <==> md5 == [DASH])
  {
    WordBefore(md5, [SPACE] + size);
    assert md5 != [] ==> md5[0] in md5;
    hide Word;
  }

  lemma TailC(r: Record)
    requires Canonical(r)
    ensures 0 !in Tail(r)
  {
    assert forall c :: IsHex(c) || IsDigit(c) ==> c != 0;
  }

  /** Parsing leaves a canonical record as it is. */
  lemma CanonicalParsed(r: Record)
    requires Canonical(r)
    ensures 0 !in Render(r) && ParseText(Render(r)) == Some(r)
  {
    TailRead(r.md5, r.size);
    HashesTextC(r.hashes);
    TailC(r);
    assert r.md5 != [] ==> Tail(r)[0] == r.md5[0] && r.md5[0] in r.md5;
    assert r.size[0] in r.size;
    var t := Tail(r);
    assert ReadTail(t) == Some((r.md5, r.size));
    hide ReadTail, ReadHashes, HashesText, IsHex, IsDigit, Plain, Tail;
    HashesRead(r.hashes, t);
  }

  /** So what is parsed, written out and parsed again is the same. */
  lemma ParseTwice(s: CString)
    requires ParseText(s).Some?
    ensures 0 !in Render(ParseText(s).value) && ParseText(Render(ParseText(s).value)) == ParseText(s)
  {
    ParsedCanonical(s);
    CanonicalParsed(ParseText(s).value);
  }

  // ----- the structure that keeps a record and the places of its parts

  const SHORT := 0x1_0000

  /** `unsigned short` offset and length. */
  datatype Part = Part(ofs: nat, len: nat)

  function Short(ofs: nat, len: nat): Part { Part(ofs % SHORT, len % SHORT) }

  datatype Checksums = Checksums(representation: seq<Code>, md5: Part, sha1: Part, sha256: Part, length: Part)

  /** The place of the last hash of a kind, if the hashes are written from position ofs on. */
  function KindPart(hs: seq<Hash>, kind: Code, ofs: nat, none: Part): Part {
    if hs == [] then none
    else
      KindPart(hs[1..], kind, ofs + |HashText(hs[0])|,
               if hs[0].kind == kind then Short(ofs + 3, |hs[0].value|) else none)
  }

  /** A record, with a missing md5sum counted as so many characters. */
  function Stored(r: Record, dash: nat): Checksums {
    var n := |HashesText(r.hashes)|;
    Checksums(Render(r), Short(n, if r.md5 == [DASH] then dash else |r.md5|),
              KindPart(r.hashes, SHA1, 0, Part(0, 0)), KindPart(r.hashes, SHA256, 0, Part(0, 0)),
              Short(n + |r.md5| + 1, |r.size|))
  }

  lemma {:induction false} HashesTextConcat(a: seq<Hash>, b: seq<Hash>)
    ensures HashesText(a + b) == HashesText(a) + HashesText(b)
  {
    hide HashText;
    if a == [] {
      assert a + b == b;
    } else {
      assert (a + b)[0] == a[0] && (a + b)[1..] == a[1..] + b;
      HashesTextConcat(a[1..], b);
    }
  }

  lemma OneHashText(h: Hash)
    ensures HashesText([h]) == HashText(h)
  {
    hide HashText;
    assert [h][1..] == [];
  }

  lemma {:induction false} KindPartMore(hs: seq<Hash>, h: Hash, kind: Code, ofs: nat, none: Part)
    ensures KindPart(hs + [h], kind, ofs, none)
      == if h.kind == kind then Short(ofs + |HashesText(hs)| + 3, |h.value|) else KindPart(hs, kind, ofs, none)
  {
    if hs == [] {
      assert [] + [h] == [h] && [h][1..] == [];
    } else {
      assert (hs + [h])[0] == hs[0] && (hs + [h])[1..] == hs[1..] + [h];
      KindPartMore(hs[1..], h, kind, ofs + |HashText(hs[0])|,
                   if hs[0].kind == kind then Short(ofs + 3, |hs[0].value|) else none);
    }
  }

  /** What has been copied of the hashes, and where the known ones are. */
  ghost predicate Copied(hs: seq<Hash>, d: seq<Code>, sha1: Part, sha256: Part) {
    d == HashesText(hs) && sha1 == KindPart(hs, SHA1, 0, Part(0, 0)) && sha256 == KindPart(hs, SHA256, 0, Part(0, 0))
  }

  lemma CopiedMore(hs: seq<Hash>, d: seq<Code>, sha1: Part, sha256: Part, h: Hash)
    requires Copied(hs, d, sha1, sha256)
    ensures Copied(hs + [h], d + HashText(h),
                   if h.kind == SHA1 then Short(|d| + 3, |h.value|) else sha1,
                   if h.kind == SHA256 then Short(|d| + 3, |h.value|) else sha256)
  {
    HashesTextConcat(hs, [h]);
    OneHashText(h);
    KindPartMore(hs, h, SHA1, 0, Part(0, 0));
    KindPartMore(hs, h, SHA256, 0, Part(0, 0));
  }

  // ----- checksums_parse

  lemma AtIs(s: CString)
    ensures forall j | 0 <= j <= |s| :: At(s, j) == if j < |s| then s[j] else 0
    ensures SPACE != 0 && COLON != 0 && DASH != 0 && ZERO != 0
  {
  }

  lemma WordStart(s: seq<Code>, i: nat)
    requires i <= |s|
    ensures s[i..i] == []
  {
  }

  lemma WordStep(s: seq<Code>, p: nat)
    requires p < |s| && s[p] != SPACE
    ensures Word(s[p..]) == 1 + Word(s[p + 1..])
  {
    Sequences.Step(s, p);
  }

  lemma WordStop(s: seq<Code>, p: nat)
    requires p <= |s| && (p < |s| ==> s[p] == SPACE)
    ensures Word(s[p..]) == 0
  {
  }

  method CopyWord(s: CString, i: nat, d: seq<Code>) returns (p: nat, d': seq<Code>)
    requires i <= |s|
    ensures p == i + Word(s[i..]) && d' == d + s[i..p]
  {
    p, d' := i, d;
    WordStart(s, i);
    hide *;
    AtIs(s);
    while At(s, p) != SPACE && At(s, p) != 0
      invariant i <= p <= |s| && i + Word(s[i..]) == p + Word(s[p..]) && d' == d + s[i..p]
      decreases |s| - p
    {
      WordStep(s, p);
      Sequences.Passed(s, i, p);
      Sequences.Regroup(d, s[i..p], [s[p]]);
      d' := d' + [s[p]];
      p := p + 1;
    }
    WordStop(s, p);
  }

  lemma SpacesStep(s: seq<Code>, p: nat)
    requires p <= |s|
    ensures Spaces(s[p..]) == if p < |s| && s[p] == SPACE then 1 + Spaces(s[p + 1..]) else 0
  {
    if p < |s| {
      Sequences.Step(s, p);
    }
  }

  method SkipSpaces(s: CString, i: nat) returns (p: nat)
    requires i <= |s|
    ensures p == i + Spaces(s[i..])
  {
    p := i;
    hide *;
    AtIs(s);
    while At(s, p) == SPACE
      invariant i <= p <= |s| && i + Spaces(s[i..]) == p + Spaces(s[p..])
      decreases |s| - p
    {
      SpacesStep(s, p);
      p := p + 1;
    }
    SpacesStep(s, p);
  }

  /** One turn of the loop over the hashes, at a colon. */
  method CopyHash(s: CString, i: nat, d: seq<Code>) returns (p: nat, d': seq<Code>, ghost h: Hash, start: nat, len: nat)
    requires i + 3 <= |s| && s[i] == COLON && s[i + 2] == COLON
    ensures i < p <= |s| && SplitHash(s[i..]) == (h, s[p..]) && h.kind == s[i + 1]
    ensures d' == d + HashText(h) && start == |d| + 3 && len == |h.value|
  {
    hide SplitHash, Word, Spaces, HashText;
    d' := d + [COLON, s[i + 1], COLON];
    start := |d'|;
    p, d' := CopyWord(s, i + 3, d');
    len := |d'| - start;
    ghost var q := p;
    h := Hash(s[i + 1], s[i + 3..p]);
    HashParts(d, h);
    d' := d' + [SPACE];
    p := SkipSpaces(s, p);
    SplitAt(s, i, q, p);
  }

  lemma HashParts(d: seq<Code>, h: Hash)
    ensures d + [COLON, h.kind, COLON] + h.value + [SPACE] == d + HashText(h)
    ensures |d + [COLON, h.kind, COLON] + h.value| == |d| + 3 + |h.value|
  {
  }

  lemma SplitAt(s: seq<Code>, i: nat, q: nat, p: nat)
    requires i + 3 <= q <= p <= |s| && q == i + 3 + Word(s[i + 3..]) && p == q + Spaces(s[q..])
    ensures SplitHash(s[i..]) == (Hash(s[i + 1], s[i + 3..q]), s[p..])
  {
    hide Word, Spaces, Plain;
    Shift(s, i, 3);
    Shift(s, i, q - i);
    Shift(s, q, p - q);
    assert s[i..][1] == s[i + 1] && s[i..][3..q - i] == s[i + 3..q];
  }

  lemma Shift(s: seq<Code>, i: nat, k: nat)
    requires i + k <= |s|
    ensures s[i..][k..] == s[i + k..]
  {
  }

  datatype Outcome = Good(d: seq<Code>, sha1: Part, sha256: Part, p: nat) | Malformed(filled: nat)

  /** What reading the hashes from i on gives, after those in hs. */
  ghost predicate Resumes(s: seq<Code>, hs: seq<Hash>, i: nat)
    requires i <= |s|
  {
    ReadHashes(s) == match ReadHashes(s[i..]) case None => None case Some((more, left)) => Some((hs + more, left))
  }

  lemma ResumesMore(s: seq<Code>, hs: seq<Hash>, i: nat, h: Hash, p: nat)
    requires i <= p <= |s| && Resumes(s, hs, i) && |s| - i >= 3 && s[i] == COLON && s[i + 2] == COLON
    requires SplitHash(s[i..]) == (h, s[p..])
    ensures Resumes(s, hs + [h], p)
  {
    hide SplitHash;
    match ReadHashes(s[p..])
    case None =>
    case Some((more, left)) =>
      assert hs + ([h] + more) == hs + [h] + more;
  }

  method ParseHashes(s: CString) returns (o: Outcome, ghost hs: seq<Hash>)
    ensures o.Malformed? <==> ReadHashes(s).None?
    ensures o.Good? ==> o.p <= |s| && ReadHashes(s) == Some((hs, s[o.p..])) && Copied(hs, o.d, o.sha1, o.sha256)
    ensures Filled(s) == if o.Good? then |o.d| + TailFilled(s[o.p..]) else o.filled
  {
    var p: nat, d: seq<Code>, sha1, sha256 := 0, [], Part(0, 0), Part(0, 0);
    hs := [];
    ResumesStart(s);
    Sequences.Ends(s);
    hide *;
    AtIs(s);
    while At(s, p) == COLON
      invariant p <= |s| && Resumes(s, hs, p) && Copied(hs, d, sha1, sha256)
      invariant Filled(s) == |d| + Filled(s[p..])
      decreases |s| - p
    {
      if |s| < p + 2 || At(s, p + 2) != COLON {
        ResumesEnd(s, hs, p);
        FilledEnd(s, p);
        return Malformed(|d|), hs;
      }
      var p', d', start, len;
      ghost var h;
      p', d', h, start, len := CopyHash(s, p, d);
      ResumesMore(s, hs, p, h, p');
      FilledNext(s, p, h, p');
      CopiedMore(hs, d, sha1, sha256, h);
      if s[p + 1] == SHA1 {
        sha1 := Short(start, len);
      } else if s[p + 1] == SHA256 {
        sha256 := Short(start, len);
      }
      p, d, hs := p', d', hs + [h];
    }
    ResumesEnd(s, hs, p);
    FilledEnd(s, p);
    o := Good(d, sha1, sha256, p);
  }

  lemma FilledNext(s: seq<Code>, i: nat, h: Hash, p: nat)
    requires i <= p <= |s| && |s| - i >= 3 && s[i] == COLON && s[i + 2] == COLON && SplitHash(s[i..]) == (h, s[p..])
    ensures Filled(s[i..]) == |HashText(h)| + Filled(s[p..])
  {
    hide SplitHash, HashText, TailFilled;
  }

  lemma FilledEnd(s: seq<Code>, p: nat)
    requires p <= |s|
    ensures At(s, p) != COLON ==> Filled(s[p..]) == TailFilled(s[p..])
    ensures At(s, p) == COLON && (|s| < p + 2 || At(s, p + 2) != COLON) ==> Filled(s[p..]) == 0
  {
    hide SplitHash, HashText, TailFilled;
    assert p + 2 < |s| ==> s[p..][2] == s[p + 2];
  }

  lemma ResumesStart(s: seq<Code>)
    ensures Resumes(s, [], 0) && Copied([], [], Part(0, 0), Part(0, 0))
  {
    assert s[0..] == s;
    match ReadHashes(s)
    case None =>
    case Some((more, left)) => assert [] + more == more;
  }

  lemma ResumesEnd(s: seq<Code>, hs: seq<Hash>, p: nat)
    requires p <= |s| && Resumes(s, hs, p)
    ensures At(s, p) != COLON ==> ReadHashes(s) == Some((hs, s[p..]))
    ensures At(s, p) == COLON && (|s| < p + 2 || At(s, p + 2) != COLON) ==> ReadHashes(s) == None
  {
    var t: seq<Code> := s[p..];
    assert (p < |s| ==> t[0] == s[p]) && (p + 2 < |s| ==> t[2] == s[p + 2]);
    assert t == [] || t[0] != COLON ==> ReadHashes(t) == Some(([], t));
    assert t != [] && t[0] == COLON && (|t| < 3 || t[2] != COLON) ==> ReadHashes(t) == None;
    hide ReadHashes;
    assert hs + [] == hs;
  }

  /** A hexadecimal digit in lower case. */
  method LowerHex(c: Code) returns (hex: bool, d: Code)
    ensures hex <==> IsHex(Lower(c))
    ensures hex ==> d == Lower(c)
  {
    hex, d := true, c;
    if IsUpperHex(c) {
      d := c + (97 - 65);
    } else if !IsHex(c) {
      hex := false;
    }
  }

  /** The word that begins at a place. */
  function WordAt(s: seq<Code>, i: nat): seq<Code>
    requires i <= |s|
  {
    s[i..][..Word(s[i..])]
  }

  /** The md5sum, in lower case, up to something else. */
  method ParseMd5(s: CString, i: nat) returns (ok: bool, md5: seq<Code>, p: nat)
    requires i <= |s|
    ensures p <= |s| && (ok <==> Hexes(WordAt(s, i)) == |WordAt(s, i)|) && |md5| == Hexes(WordAt(s, i))
    ensures ok ==> p == i + |WordAt(s, i)| && md5 == LowerAll(WordAt(s, i))
  {
    p, md5 := i, [];
    hide *;
    ghost var word := WordAt(s, i);
    Md5Start(word);
    AtIs(s);
    while At(s, p) != SPACE && At(s, p) != 0
      invariant i <= p <= |s| && |word| == p - i + |WordAt(s, p)| && Md5Part(md5, word, p - i)
      decreases |s| - p
    {
      WordNext(s, i, p, word);
      var hex, c := LowerHex(s[p]);
      Md5Next(md5, word, p - i, Lower(s[p]));
      if !hex {
        return false, md5, p;
      }
      md5 := md5 + [c];
      p := p + 1;
    }
    WordNone(s, p);
    Md5Done(md5, word, p - i);
    ok := true;
  }

  lemma WordNext(s: seq<Code>, i: nat, p: nat, word: seq<Code>)
    requires i <= p < |s| && s[p] != SPACE && word == WordAt(s, i) && |word| == p - i + |WordAt(s, p)|
    ensures p - i < |word| && word[p - i] == s[p] && |word| == p + 1 - i + |WordAt(s, p + 1)|
  {
    WordStep(s, p);
    hide Word;
  }

  lemma WordAtIs(s: seq<Code>, i: nat)
    requires i <= |s|
    ensures WordAt(s, i) == s[i..][..Word(s[i..])] && |WordAt(s, i)| == Word(s[i..]) <= |s| - i
  {
  }

  lemma WordNone(s: seq<Code>, p: nat)
    requires p <= |s| && (p < |s| ==> s[p] == SPACE)
    ensures WordAt(s, p) == []
  {
  }

  /** The first k characters of the word have been stored. */
  ghost predicate Md5Part(md5: seq<Code>, word: seq<Code>, k: nat) {
    && k == |md5| <= |word| && md5 + LowerAll(word[k..]) == LowerAll(word) && Hexes(word) == k + Hexes(word[k..])
  }

  lemma Md5Start(word: seq<Code>)
    ensures Md5Part([], word, 0)
  {
    Sequences.Ends(word);
    Sequences.Nothing(LowerAll(word));
  }

  lemma Md5Next(md5: seq<Code>, word: seq<Code>, k: nat, c: Code)
    requires Md5Part(md5, word, k) && k < |word| && c == Lower(word[k])
    ensures |md5| == k
    ensures IsHex(c) ==> Md5Part(md5 + [c], word, k + 1)
    ensures !IsHex(c) ==> Hexes(word) == |md5|
  {
    Sequences.Step(word, k);
    hide Lower, IsHex;
    Sequences.Regroup(md5, [c], LowerAll(word[k + 1..]));
  }

  lemma Md5Done(md5: seq<Code>, word: seq<Code>, k: nat)
    requires Md5Part(md5, word, k) && k == |word|
    ensures md5 == LowerAll(word) && Hexes(word) == |md5|
  {
    Sequences.Ends(word);
    Sequences.Nothing(md5);
  }

  lemma HexesAll(word: seq<Code>)
    ensures Hexes(word) <= |word| && (Hexes(word) == |word| <==> !NotHex(word))
  {
  }

  lemma NoZerosStep(s: seq<Code>, p: nat)
    requires p <= |s|
    ensures NoZeros(s[p..]) == if p + 1 < |s| && s[p] == ZERO && IsDigit(s[p + 1]) then NoZeros(s[p + 1..]) else s[p..]
  {
    if p < |s| {
      Sequences.Step(s, p);
    }
  }

  lemma DigitsStep(s: seq<Code>, p: nat)
    requires p <= |s|
    ensures Digits(s[p..]) == if p < |s| && IsDigit(s[p]) then 1 + Digits(s[p + 1..]) else 0
  {
    if p < |s| {
      Sequences.Step(s, p);
    }
  }

  lemma DigitsAll(n: seq<Code>)
    ensures Digits(n) <= |n| && (n != [] && Digits(n) == |n| <==> !NotNumber(n))
    ensures SizeFilled(n) == Digits(n) + if n != [] && Digits(n) == |n| then 1 else 0
  {
  }

  /** The size, without leading zeros. */
  method ParseSize(s: CString, i: nat) returns (size: Option<seq<Code>>, filled: nat)
    requires i <= |s|
    ensures filled == SizeFilled(NoZeros(s[i..]))
    ensures var n := NoZeros(s[i..]);
      size == if NotNumber(n) then None else Some(n)
  {
    var p := i;
    hide *;
    AtIs(s);
    while At(s, p) == ZERO && p + 1 < |s| && IsDigit(s[p + 1])
      invariant i <= p <= |s| && NoZeros(s[i..]) == NoZeros(s[p..])
      decreases |s| - p
    {
      NoZerosStep(s, p);
      p := p + 1;
    }
    NoZerosStep(s, p);
    ghost var n := s[p..];
    var start := p;
    Sequences.Ends(n);
    DigitsAll(n);
    while At(s, p) != 0
      invariant start <= p <= |s| && Digits(n) == p - start + Digits(s[p..])
      decreases |s| - p
    {
      DigitsStep(s, p);
      if !IsDigit(s[p]) {
        return None, p - start;
      }
      p := p + 1;
    }
    DigitsStep(s, p);
    if p == start {
      return None, 0;
    }
    size, filled := Some(s[start..]), p - start + 1;
  }

  predicate Dashed(left: seq<Code>) { |left| > 1 && left[0] == DASH && left[1] == SPACE }

  /** What the specification makes of a tail, from its parts. */
  lemma TailIs(left: seq<Code>, word: seq<Code>, rest: seq<Code>, end: seq<Code>)
    requires if Dashed(left) then word == [DASH] && rest == left[1..]
             else word == left[..Word(left)] && rest == left[Word(left)..]
    requires end == rest[Spaces(rest)..]
    ensures !Dashed(left) && Hexes(word) < |word| ==> ReadTail(left) == None && TailFilled(left) == Hexes(word)
    ensures Dashed(left) || Hexes(word) == |word| ==>
              && TailFilled(left) == |word| + 1 + SizeFilled(NoZeros(end))
              && ReadTail(left) == if NotNumber(NoZeros(end)) then None
                                   else Some((if Dashed(left) then word else LowerAll(word), NoZeros(end)))
  {
    HexesAll(word);
    hide Hexes, NoZeros, Spaces, LowerAll, NotHex, NotNumber, SizeFilled, Word;
  }

  lemma DashAt(s: seq<Code>, i: nat)
    requires i <= |s|
    ensures Dashed(s[i..]) <==> i + 1 < |s| && s[i] == DASH && s[i + 1] == SPACE
  {
  }

  lemma TailBad(s: seq<Code>, i: nat)
    requires i <= |s| && !(i + 1 < |s| && s[i] == DASH && s[i + 1] == SPACE) && Hexes(WordAt(s, i)) != |WordAt(s, i)|
    ensures ReadTail(s[i..]) == None && TailFilled(s[i..]) == Hexes(WordAt(s, i))
  {
    var left := s[i..];
    var n := Word(left);
    DashAt(s, i);
    WordAtIs(s, i);
    hide *;
    TailIs(left, WordAt(s, i), left[n..], left[n..][Spaces(left[n..])..]);
    HexesAll(WordAt(s, i));
  }

  lemma TailGood(s: seq<Code>, i: nat, q: nat, p: nat, md5: seq<Code>)
    requires i <= q <= p <= |s| && p == q + Spaces(s[q..])
    requires if i + 1 < |s| && s[i] == DASH && s[i + 1] == SPACE then md5 == [DASH] && q == i + 1
             else q == i + |WordAt(s, i)| && Hexes(WordAt(s, i)) == |WordAt(s, i)| && md5 == LowerAll(WordAt(s, i))
    ensures var size := NoZeros(s[p..]);
      && TailFilled(s[i..]) == |md5| + 1 + SizeFilled(size)
      && ReadTail(s[i..]) == if NotNumber(size) then None else Some((md5, size))
  {
    hide *;
    DashAt(s, i);
    WordAtIs(s, i);
    var left, rest, end := s[i..], s[q..], s[p..];
    Sequences.Later(s, i, q - i);
    Sequences.Later(s, q, p - q);
    TailIs(left, if Dashed(left) then [DASH] else WordAt(s, i), rest, end);
  }

  /** The part of a record behind the hashes. */
  method ParseTail(s: CString, i: nat) returns (r: Option<(seq<Code>, seq<Code>)>, filled: nat)
    requires i <= |s|
    ensures r == ReadTail(s[i..]) && filled == TailFilled(s[i..])
  {
    hide *;
    var dash := i + 1 < |s| && s[i] == DASH && s[i + 1] == SPACE;
    var p, md5 := i + 1, [DASH];
    if !dash {
      var ok;
      ok, md5, p := ParseMd5(s, i);
      if !ok {
        TailBad(s, i);
        return None, |md5|;
      }
    }
    ghost var q := p;
    p := SkipSpaces(s, p);
    var size;
    size, filled := ParseSize(s, p);
    TailGood(s, i, q, p, md5);
    r := if size == None then None else Some((md5, size.value));
    filled := |md5| + 1 + filled;
  }

  /** checksums_parse; and how many characters it has put into the buffer when it is done. */
  method Parse(s: CString) returns (r: Option<Checksums>, filled: nat)
    ensures r.Some? <==> ParseText(s).Some?
    ensures r.Some? ==> r.value == Stored(ParseText(s).value, 0)
    ensures filled == Filled(s)
  {
    hide ReadHashes, ReadTail, HashesText, KindPart, Filled, TailFilled;
    var o;
    ghost var hs;
    o, hs := ParseHashes(s);
    if o.Malformed? {
      return None, o.filled;
    }
    var tail;
    tail, filled := ParseTail(s, o.p);
    filled := |o.d| + filled;
    if tail.None? {
      return None, filled;
    }
    var (md5, size) := tail.value;
    var d := o.d + md5 + [SPACE] + size;
    assert d == o.d + (md5 + ([SPACE] + size));
    r := Some(Checksums(d, Short(|o.d|, if md5 == [DASH] then 0 else |md5|), o.sha1, o.sha256,
                        Short(|o.d| + |md5| + 1, |size|)));
  }

  // ----- checksums_initialize

  /** The hashes that were computed of a file; the size is always there. */
  datatype Hashes = Hashes(md5: Option<CString>, sha1: Option<CString>, sha256: Option<CString>, length: CString)

  function HashOf(kind: Code, value: Option<CString>): seq<Hash> {
    if value == None then [] else [Hash(kind, value.value)]
  }

  function RecordOf(h: Hashes): Record {
    Record(HashOf(SHA1, h.sha1) + HashOf(SHA256, h.sha256), if h.md5 == None then [DASH] else h.md5.value, h.length)
  }

  /** Hashes as they are computed: hexadecimal digits in lower case, and a number. */
  ghost predicate Computed(h: Hashes) {
    && (forall v :: v in [h.md5, h.sha1, h.sha256] && v != None ==>
         v.value != [] && forall c :: c in v.value ==> IsHex(c))
    && h.length != [] && (forall c :: c in h.length ==> IsDigit(c)) && (|h.length| > 1 ==> h.length[0] != ZERO)
  }

  /** One of the known hashes, if it is there. */
  method PutHash(kind: Code, value: Option<CString>, d: seq<Code>, ghost hs: seq<Hash>, sha1: Part, sha256: Part)
    returns (d': seq<Code>, sha1': Part, sha256': Part)
    requires kind == SHA1 || kind == SHA256
    requires Copied(hs, d, sha1, sha256)
    ensures Copied(hs + HashOf(kind, value), d', sha1', sha256')
    ensures |d'| == |d| + if value == None then 0 else 4 + |value.value|
  {
    d', sha1', sha256' := d, sha1, sha256;
    if value == None {
      assert hs + [] == hs;
      return;
    }
    ghost var h := Hash(kind, value.value);
    CopiedMore(hs, d, sha1, sha256, h);
    HashParts(d, h);
    hide Copied, HashText;
    var part := Short(|d| + 3, |value.value|);
    d' := d + [COLON, kind, COLON] + value.value + [SPACE];
    if kind == SHA1 {
      sha1' := part;
    } else {
      sha256' := part;
    }
  }

  /** `checksums_initialize`; the text fills exactly the room computed before. */
  method Initialize(h: Hashes) returns (c: Checksums)
    ensures c == Stored(RecordOf(h), if h.md5 == None then 0 else 1)
  {
    var len := (if h.md5 == None then 1 else |h.md5.value|) + 1 + |h.length|;
    len := len + if h.sha1 == None then 0 else 4 + |h.sha1.value|;
    len := len + if h.sha256 == None then 0 else 4 + |h.sha256.value|;
    var d, sha1, sha256 := PutHashes(h);
    hide Copied, HashesText, HashOf;
    var ofs := |d|;
    var md5, length;
    d, md5, length := PutTail(h, d);
    assert |d| == len;
    InitializedStored(h, d, ofs, sha1, sha256);
    c := Checksums(d, md5, sha1, sha256, length);
  }

  /** The loop over the known hashes. */
  method PutHashes(h: Hashes) returns (d: seq<Code>, sha1: Part, sha256: Part)
    ensures Copied(RecordOf(h).hashes, d, sha1, sha256)
    ensures |d| == (if h.sha1 == None then 0 else 4 + |h.sha1.value|)
                 + if h.sha256 == None then 0 else 4 + |h.sha256.value|
  {
    d, sha1, sha256 := [], Part(0, 0), Part(0, 0);
    assert Copied([], d, sha1, sha256) && [] + HashOf(SHA1, h.sha1) == HashOf(SHA1, h.sha1);
    hide Copied, HashOf;
    d, sha1, sha256 := PutHash(SHA1, h.sha1, d, [], sha1, sha256);
    d, sha1, sha256 := PutHash(SHA256, h.sha256, d, HashOf(SHA1, h.sha1), sha1, sha256);
  }

  /** The md5sum, or a dash, and the size. */
  method PutTail(h: Hashes, d: seq<Code>) returns (d': seq<Code>, md5: Part, length: Part)
    ensures d' == d + Tail(RecordOf(h))
    ensures md5 == Short(|d|, if h.md5 == None then 0 else |h.md5.value|)
    ensures length == Short(|d| + |RecordOf(h).md5| + 1, |h.length|)
    ensures |d'| == |d| + (if h.md5 == None then 1 else |h.md5.value|) + 1 + |h.length|
  {
    if h.md5 == None {
      md5 := Short(|d|, 0);
      d' := d + [DASH];
    } else {
      md5 := Short(|d|, |h.md5.value|);
      d' := d + h.md5.value;
    }
    length := Short(|d'| + 1, |h.length|);
    d' := d' + [SPACE] + h.length;
  }

  lemma InitializedStored(h: Hashes, d: seq<Code>, ofs: nat, sha1: Part, sha256: Part)
    requires ofs <= |d| && Copied(RecordOf(h).hashes, d[..ofs], sha1, sha256)
    requires d == d[..ofs] + Tail(RecordOf(h))
    ensures var r, dash := RecordOf(h), if h.md5 == None then 0 else 1;
      Stored(r, dash) == Checksums(d, Short(ofs, if h.md5 == None then 0 else |h.md5.value|), sha1, sha256,
                                Short(ofs + |r.md5| + 1, |h.length|))
  {
    hide KindPart, HashesText, HashOf, Tail;
  }

  /** What is made of computed hashes is canonical, so parsing its text gives the same structure again. */
  lemma InitializedParsed(h: Hashes)
    requires Computed(h)
    ensures Canonical(RecordOf(h)) && 0 !in Render(RecordOf(h)) && ParseText(Render(RecordOf(h))) == Some(RecordOf(h))
  {
    var r := RecordOf(h);
    assert h.md5 in [h.md5, h.sha1, h.sha256] && h.sha1 in [h.md5, h.sha1, h.sha256];
    assert h.sha256 in [h.md5, h.sha1, h.sha256];
    assert forall c :: IsHex(c) ==> c != SPACE && c != 0;
    CanonicalParsed(r);
  }
}
