/** The buffering, the padding and the byte count of MD5, around an arbitrary block transformation: md5.c. */
module Md5Stream {
  import opened Strings
  import Sequences

  const WORD := 0x1_0000_0000
  type Word = w: int | 0 <= w < WORD
  type State = s: seq<Word> | |s| == 4 witness [0, 0, 0, 0]

  /** MD5Transform: how 16 words change the state. */
  type Transform = (State, seq<Word>) -> State

  const INITIAL: State := [0x67452301, 0xefcdab89, 0x98badcfe, 0x10325476]

  /** Four bytes as a word, the least significant first. */
  function ToWord(b: seq<Byte>): Word
    requires |b| == 4
  {
    var b0: int, b1: int, b2: int, b3: int := b[0], b[1], b[2], b[3];
    b0 + 0x100 * b1 + 0x1_0000 * b2 + 0x100_0000 * b3
  }

  function ToBytes(w: Word): (b: seq<Byte>)
    ensures |b| == 4
  {
    [w % 0x100, w / 0x100 % 0x100, w / 0x1_0000 % 0x100, w / 0x100_0000]
  }

  lemma DivAgain(w: nat)
    ensures w / 0x1_0000 == w / 0x100 / 0x100
  {
  }

  lemma DivOnceMore(w: nat)
    ensures w / 0x100_0000 == w / 0x1_0000 / 0x100
  {
  }

  lemma Digit(w: nat)
    ensures w == 0x100 * (w / 0x100) + w % 0x100
  {
  }

  lemma WordBytes(w: Word)
    ensures ToWord(ToBytes(w)) == w
  {
    var q1, q2, q3 := w / 0x100, w / 0x1_0000, w / 0x100_0000;
    DivAgain(w);
    DivOnceMore(w);
    Digit(w);
    Digit(q1);
    Digit(q2);
    Digit(q3);
    assert q3 / 0x100 == 0;
    assert ToBytes(w) == [w % 0x100, q1 % 0x100, q2 % 0x100, q3 % 0x100];
  }

  function Words(data: seq<Byte>): (w: seq<Word>)
    requires |data| % 4 == 0
    ensures |w| == |data| / 4
  {
    if data == [] then [] else [ToWord(data[..4])] + Words(data[4..])
  }

  lemma FourOn(a: seq<Byte>, b: seq<Byte>)
    requires |a| >= 4
    ensures (a + b)[..4] == a[..4] && (a + b)[4..] == a[4..] + b
  {
  }

  lemma {:induction false} WordsConcat(a: seq<Byte>, b: seq<Byte>)
    requires |a| % 4 == 0 && |b| % 4 == 0
    ensures Words(a + b) == Words(a) + Words(b)
  {
    if a == [] {
      Sequences.Nothing(b);
    } else {
      var first, rest := a[..4], a[4..];
      WordsConcat(rest, b);
      FourOn(a, b);
      assert Words(a + b) == [ToWord(first)] + Words(rest + b);
      hide Words, ToWord;
      Sequences.Regroup([ToWord(first)], Words(rest), Words(b));
    }
  }

  // ----- the digest of a message, from RFC 1321, sections 3.1 to 3.4

  /** All blocks of 64 bytes, one after the other. */
  function Fold(t: Transform, s: State, data: seq<Byte>): State
    requires |data| % 64 == 0
    decreases |data|
  {
    if data == [] then s else Fold(t, t(s, Words(data[..64])), data[64..])
  }

  lemma {:induction false} FoldConcat(t: Transform, s: State, a: seq<Byte>, b: seq<Byte>)
    requires |a| % 64 == 0 && |b| % 64 == 0
    ensures Fold(t, s, a + b) == Fold(t, Fold(t, s, a), b)
    decreases |a|
  {
    if a == [] {
      assert a + b == b;
    } else {
      assert (a + b)[..64] == a[..64] && (a + b)[64..] == a[64..] + b;
      FoldConcat(t, t(s, Words(a[..64])), a[64..], b);
    }
  }

  lemma FoldBlock(t: Transform, s: State, a: seq<Byte>, block: seq<Byte>)
    requires |a| % 64 == 0 && |block| == 64
    ensures Fold(t, s, a + block) == t(Fold(t, s, a), Words(block))
  {
    FoldConcat(t, s, a, block);
    assert block[..64] == block && block[64..] == [];
  }

  function Zeros(n: nat): (z: seq<Byte>) ensures |z| == n { seq(n, _ => 0) }

  /** How many zero bytes bring the message and the byte 0x80 to 56 bytes modulo 64. */
  function PaddingLength(n: nat): (z: nat)
    ensures (n + 1 + z + 8) % 64 == 0 && z < 64
  {
    assert n == 64 * (n / 64) + n % 64;
    if n % 64 < 56 then 55 - n % 64 else 119 - n % 64
  }

  /** The length in bits, modulo 2^64, as two words. */
  function LowLength(n: nat): Word { 8 * n % WORD }
  function HighLength(n: nat): Word { 8 * n / WORD % WORD }

  function LengthBytes(n: nat): (b: seq<Byte>)
    ensures |b| == 8
  {
    ToBytes(LowLength(n)) + ToBytes(HighLength(n))
  }

  function Padded(m: seq<Byte>): (p: seq<Byte>)
    ensures |p| == |m| + 1 + PaddingLength(|m|) + 8
  {
    m + [0x80] + Zeros(PaddingLength(|m|)) + LengthBytes(|m|)
  }

  function StateBytes(s: State): seq<Byte> { ToBytes(s[0]) + ToBytes(s[1]) + ToBytes(s[2]) + ToBytes(s[3]) }

  function Digest(t: Transform, m: seq<Byte>): seq<Byte> { StateBytes(Fold(t, INITIAL, Padded(m))) }

  // ----- the same by bytes: RFC 1321, sections 3.1 to 3.3 and 3.5

  /** 256 to the power of n. */
  function Power(n: nat): (p: nat) ensures p > 0 { if n == 0 then 1 else 256 * Power(n - 1) }

  /** The number whose bytes these are, the least significant first. */
  function LittleEndian(b: seq<Byte>): nat { if b == [] then 0 else b[0] + 256 * LittleEndian(b[1..]) }

  lemma FourBytes(a: Byte, b: Byte, c: Byte, d: Byte)
    ensures LittleEndian([a, b, c, d]) == a + 0x100 * b + 0x1_0000 * c + 0x100_0000 * d
  {
    assert [a, b, c, d][1..] == [b, c, d] && [b, c, d][1..] == [c, d] && [c, d][1..] == [d] && [d][1..] == [];
    assert LittleEndian([d]) == d;
    assert LittleEndian([c, d]) == c + 256 * LittleEndian([d]);
    assert LittleEndian([b, c, d]) == b + 256 * LittleEndian([c, d]);
  }

  /** Each word of a block is the number of its four bytes. */
  lemma {:induction false} WordsAt(data: seq<Byte>, i: nat)
    requires |data| % 4 == 0 && 4 * i < |data|
    ensures i < |Words(data)| && 4 * i + 4 <= |data| && Words(data)[i] == LittleEndian(data[4 * i..4 * i + 4])
    decreases i
  {
    if i == 0 {
      var b := data[0..4];
      assert b == [b[0], b[1], b[2], b[3]] && data[..4] == b;
      FourBytes(b[0], b[1], b[2], b[3]);
    } else {
      WordsAt(data[4..], i - 1);
      assert data[4..][4 * (i - 1)..4 * (i - 1) + 4] == data[4 * i..4 * i + 4];
    }
  }

  lemma ToBytesAt(w: Word, k: nat)
    requires k < 4
    ensures ToBytes(w)[k] == w / Power(k) % 256
  {
    assert Power(1) == 256 && Power(2) == 0x1_0000 && Power(3) == 0x100_0000;
    assert w / 0x100_0000 < 256;
  }

  /** Byte k of the digest is a byte of word k / 4 of the folded state, the least significant one first. */
  lemma DigestAt(t: Transform, m: seq<Byte>, k: nat)
    requires k < 16
    ensures |Digest(t, m)| == 16 && Digest(t, m)[k] == Fold(t, INITIAL, Padded(m))[k / 4] / Power(k % 4) % 256
  {
    var s := Fold(t, INITIAL, Padded(m));
    hide Fold, Padded, Power, ToBytes;
    ToBytesAt(s[k / 4], k % 4);
  }

  /** The words to begin with are the bytes 01 23 45 67 89 ab cd ef fe dc ba 98 76 54 32 10. */
  lemma InitialBytes()
    ensures INITIAL[0] == LittleEndian([0x01, 0x23, 0x45, 0x67]) && INITIAL[1] == LittleEndian([0x89, 0xab, 0xcd, 0xef])
    ensures INITIAL[2] == LittleEndian([0xfe, 0xdc, 0xba, 0x98]) && INITIAL[3] == LittleEndian([0x76, 0x54, 0x32, 0x10])
  {
    FourBytes(0x01, 0x23, 0x45, 0x67);
    FourBytes(0x89, 0xab, 0xcd, 0xef);
    FourBytes(0xfe, 0xdc, 0xba, 0x98);
    FourBytes(0x76, 0x54, 0x32, 0x10);
  }

  /**
    * The message, the byte 0x80, fewer than 64 zeros, and the length in bits modulo 2^64 as eight bytes, the least
    * significant first, which together fill blocks of 64 bytes.
    */
  lemma PaddedBytes(m: seq<Byte>)
    ensures var p := Padded(m); var n := |p| - 8;
      && |p| % 64 == 0 && |m| < n <= |m| + 64 && p[..|m|] == m && p[|m|] == 0x80
      && (forall i :: |m| < i < n ==> p[i] == 0)
      && LittleEndian(p[n..]) == 8 * |m| % 0x1_0000_0000_0000_0000
  {
    var p, z := Padded(m), PaddingLength(|m|);
    assert p == m + [0x80] + Zeros(z) + LengthBytes(|m|);
    assert p[..|m|] == m && p[|m|] == 0x80;
    assert p[|p| - 8..] == LengthBytes(|m|);
    LengthNumber(|m|);
  }

  lemma LengthNumber(n: nat)
    ensures LittleEndian(LengthBytes(n)) == 8 * n % 0x1_0000_0000_0000_0000
  {
    var lo, hi := LowLength(n), HighLength(n);
    WordBytes(lo);
    WordBytes(hi);
    LittleEndianWord(ToBytes(lo), ToBytes(hi));
    LittleEndianWord(ToBytes(hi), []);
    assert ToBytes(hi) + [] == ToBytes(hi);
    DoubleWord(8 * n);
  }

  lemma DoubleWord(n: nat)
    ensures n % WORD + WORD * (n / WORD % WORD) == n % (WORD * WORD)
  {
    var q := n / WORD;
    assert n == WORD * q + n % WORD && q == WORD * (q / WORD) + q % WORD;
    assert n == WORD * WORD * (q / WORD) + (WORD * (q % WORD) + n % WORD);
  }

  lemma LittleEndianWord(a: seq<Byte>, b: seq<Byte>)
    requires |a| == 4
    ensures LittleEndian(a + b) == ToWord(a) + WORD * LittleEndian(b)
  {
    var s := a + b;
    assert s[1..][1..][1..][1..] == b && s[1..][0] == a[1] && s[1..][1..][0] == a[2] && s[1..][1..][1..][0] == a[3];
    assert LittleEndian(s[1..][1..][1..]) == a[3] + 256 * LittleEndian(b);
    assert LittleEndian(s[1..][1..]) == a[2] + 256 * LittleEndian(s[1..][1..][1..]);
    assert LittleEndian(s[1..]) == a[1] + 256 * LittleEndian(s[1..][1..]);
  }

  // ----- the context

  /** The number of bytes modulo 2^64, in two words. */
  ghost predicate Counted(low: Word, high: Word, n: nat) { low == n % WORD && high == n / WORD % WORD }

  lemma Regroup(a: seq<Byte>, b: seq<Byte>, c: seq<Byte>)
    ensures a + (b + c) == a + b + c && |a + b| == |a| + |b|
  {
  }

  lemma PadText(before: seq<Byte>, rest: seq<Byte>, zeros: seq<Byte>)
    ensures before + (rest + [0x80] + zeros) == before + rest + ([0x80] + zeros)
  {
  }

  lemma Pieces(before: seq<Byte>, data: seq<Byte>, i: nat, k: nat)
    requires i <= k <= |data|
    ensures before + data[..i] + data[i..k] + data[k..] == before + data
  {
  }

  class Context {
    const transform: Transform
    var buf: State
    var low: Word
    var high: Word
    const input: array<Byte>
    /** What has been read: the blocks that are done, and what does not fill a block yet. */
    ghost var done: seq<Byte>
    ghost var rest: seq<Byte>

    ghost predicate Valid()
      reads this, input
    {
      && |done| % 64 == 0 && |rest| < 64 == input.Length
      && buf == Fold(transform, INITIAL, done) && input[..|rest|] == rest && Counted(low, high, |done| + |rest|)
    }

    ghost function Message(): seq<Byte>
      reads this
    {
      done + rest
    }

    /** MD5Init */
    constructor (transform: Transform)
      ensures Valid() && Message() == [] && fresh(input) && this.transform == transform
    {
      this.transform, buf, low, high := transform, INITIAL, 0, 0;
      done, rest := [], [];
      input := new Byte[64](_ => 0);
    }

    /** Copies bytes into the input block. */
    method Fill(at: nat, data: seq<Byte>)
      requires at + |data| <= input.Length
      modifies input
      ensures input[..at + |data|] == old(input[..at]) + data
    {
      forall i | 0 <= i < |data| { input[at + i] := data[i]; }
    }

    /** Counts k more bytes, with the carry into the high word. */
    method Count(k: Word, ghost n: nat)
      requires Counted(low, high, n)
      modifies `low, `high
      ensures Counted(low, high, n + k)
    {
      CountSum(n, k);
      var t: int := low;
      low := (t + k) % WORD;
      if low < t {
        high := (high + 1) % WORD;
      }
    }

    lemma PadFrom()
      requires Valid()
      ensures |done| % 64 == 0 && |rest| < 64 == input.Length && buf == Fold(transform, INITIAL, done)
      ensures input[..|rest|] == rest && Message() == done + rest && forall k: nat :: |Zeros(k)| == k
    {
    }

    lemma NothingBefore()
      ensures input[..0] == [] && forall z: seq<Byte> :: [] + z == z
    {
    }

    /** Zeros up to the end of the block, which is then full. */
    method FillUp(p: nat, k: nat)
      requires p + k == 64 == input.Length && |done| % 64 == 0 && buf == Fold(transform, INITIAL, done)
      modifies `buf, `done, input
      ensures done == old(done + input[..p] + Zeros(k)) && |done| % 64 == 0 && buf == Fold(transform, INITIAL, done)
    {
      ghost var before, begun := done, input[..p];
      assert |Zeros(k)| == k;
      hide *;
      Fill(p, Zeros(k));
      assert input[..64] == input[..];
      Sequences.Regroup(before, begun, Zeros(k));
      Block();
    }

    /** The padding goes on in another block. */
    method PadOver(p: nat, k: nat)
      requires p + k == 64 == input.Length && |done| % 64 == 0 && buf == Fold(transform, INITIAL, done)
      requires input[..p] == rest + [0x80]
      modifies `buf, `done, input
      ensures |done| % 64 == 0 && buf == Fold(transform, INITIAL, done)
      ensures done == old(done) + rest + ([0x80] + Zeros(k)) && input[..56] == Zeros(56)
    {
      assert |Zeros(56)| == 56;
      hide *;
      PadText(done, rest, Zeros(k));
      Sequences.Regroup(done, rest + [0x80], Zeros(k));
      FillUp(p, k);
      NothingBefore();
      Fill(0, Zeros(56));
    }

    /** A full block. */
    method Block()
      requires input.Length == 64 && |done| % 64 == 0 && buf == Fold(transform, INITIAL, done)
      modifies `buf, `done
      ensures done == old(done) + input[..] && |done| % 64 == 0 && buf == Fold(transform, INITIAL, done)
    {
      FoldBlock(transform, INITIAL, done, input[..]);
      buf := transform(buf, Words(input[..]));
      done := done + input[..];
    }

    /** MD5Update: the context goes on with the bytes, in whatever pieces they come. */
    method Update(data: seq<Byte>)
      requires Valid() && |data| < WORD
      modifies this, input
      ensures Valid() && Message() == old(Message()) + data
    {
      var t: nat := low % 64;
      LowBits(|done|, |rest|);
      hide *;
      Count(|data|, |done| + |rest|);
      if 64 - t > |data| {
        Fill(t, data);
        Keep(rest + data);
        Regroup(done, old(rest), data);
        return;
      }
      UpdateBlocks(t, data);
    }

    /** More than fits the block that has been begun. */
    method UpdateBlocks(t: nat, data: seq<Byte>)
      requires t == |rest| < 64 <= t + |data| && input.Length == 64 && |done| % 64 == 0 && input[..t] == rest
      requires buf == Fold(transform, INITIAL, done) && Counted(low, high, |done| + |rest| + |data|)
      modifies `buf, `done, `rest, input
      ensures Valid() && Message() == old(Message()) + data
    {
      hide Counted, Fold, Words;
      var k := 64 - t;
      Fill(t, data[..k]);
      assert input[..] == input[..64] == rest + data[..k];
      Block();
      Regroup(old(done), rest, data[..k]);
      ghost var first := k;
      k := Blocks(data, k);
      Fill(0, data[k..]);
      Keep(data[k..]);
      Pieces(old(Message()), data, first, k);
    }

    /** These bytes do not fill a block yet. */
    ghost method Keep(bytes: seq<Byte>)
      requires |done| % 64 == 0 && |bytes| < 64 == input.Length && input[..|bytes|] == bytes
      requires buf == Fold(transform, INITIAL, done) && Counted(low, high, |done| + |bytes|)
      modifies `rest
      ensures Valid() && rest == bytes
    {
      rest := bytes;
    }

    /** The full blocks of the data from position i on. */
    method Blocks(data: seq<Byte>, i: nat) returns (k: nat)
      requires i <= |data| && input.Length == 64 && |done| % 64 == 0 && buf == Fold(transform, INITIAL, done)
      modifies `buf, `done, input
      ensures i <= k <= |data| && |data| - k < 64 && done == old(done) + data[i..k]
      ensures |done| % 64 == 0 && buf == Fold(transform, INITIAL, done)
    {
      hide Fold, Words;
      k := i;
      while |data| - k >= 64
        invariant i <= k <= |data| && done == old(done) + data[i..k]
        invariant |done| % 64 == 0 && buf == Fold(transform, INITIAL, done)
        decreases |data| - k
      {
        Fill(0, data[k..k + 64]);
        Block();
        assert data[i..k] + data[k..k + 64] == data[i..k + 64];
        k := k + 64;
      }
    }

    /** The padding, up to the last 8 bytes of a block. */
    method Pad()
      requires Valid()
      modifies `buf, `done, input
      ensures |done| % 64 == 0 && buf == Fold(transform, INITIAL, done)
      ensures |rest| < 56 ==> done + input[..56] == old(Message()) + ([0x80] + Zeros(55 - |rest|))
      ensures |rest| >= 56 ==> done == old(Message()) + ([0x80] + Zeros(63 - |rest|)) && input[..56] == Zeros(56)
    {
      LowBits(|done|, |rest|);
      var p: nat := low % 64;
      PadFrom();
      hide *;
      Fill(p, [0x80]);
      p := p + 1;
      var count: int := 56 - 1 - low % 64;
      if count < 0 {
        PadOver(p, count + 8);
      } else {
        PadText(done, rest, Zeros(count));
        Fill(p, Zeros(count));
      }
    }

    /** MD5Final: the digest of all that was read. */
    method Final() returns (digest: seq<Byte>)
      requires Valid()
      modifies this, input
      ensures digest == Digest(transform, old(Message()))
    {
      ghost var m := Message();
      RestLength(|done|, |rest|);
      LengthWords(|m|, low, high);
      hide Counted, Fold, Words, Padded, LowLength, HighLength, Zeros, Message, ShiftedLow, ShiftedHigh;
      Pad();
      PaddedBlocks(done, m, |rest|, input[..56]);
      var lo, hi := ShiftedLow(low), ShiftedHigh(high, low);
      LastWords(input[..56], lo, hi);
      FoldBlock(transform, INITIAL, done, input[..56] + LengthBytes(|m|));
      buf := transform(buf, Words(input[..56]) + [lo, hi]);
      digest := StateBytes(buf);
    }
  }

  lemma LowBits(whole: nat, rest: nat)
    requires whole % 64 == 0 && rest < 64
    ensures (whole + rest) % WORD % 64 == rest
  {
    var n := whole + rest;
    assert WORD == 64 * 0x400_0000;
    assert n % WORD == n - 64 * (0x400_0000 * (n / WORD));
  }

  lemma CountSum(n: nat, k: nat)
    requires k < WORD
    ensures (n + k) % WORD == (n % WORD + k) % WORD
    ensures (n + k) / WORD % WORD == (n / WORD % WORD + if n % WORD + k >= WORD then 1 else 0) % WORD
  {
  }

  /** `bytes[0] << 3` and `bytes[1] << 3 | bytes[0] >> 29`: the bits that are put together do not overlap. */
  function ShiftedLow(low: Word): Word { low * 8 % WORD }

  function ShiftedHigh(high: Word, low: Word): Word {
    assert high * 8 % WORD == 8 * (high % 0x2000_0000);
    high * 8 % WORD + low / 0x2000_0000
  }

  lemma RestLength(done: nat, rest: nat)
    requires done % 64 == 0 && rest < 64
    ensures (done + rest) % 64 == rest
  {
  }

  lemma ModWord(k: int, b: int)
    ensures (WORD * k + b) % WORD == b % WORD && (WORD * k + b) / WORD == k + b / WORD
  {
  }

  /** The count of bytes in two words, shifted to a count of bits. */
  lemma LengthWords(n: nat, low: Word, high: Word)
    requires Counted(low, high, n)
    ensures ShiftedLow(low) == LowLength(n) && ShiftedHigh(high, low) == HighLength(n)
  {
    var q, l: int := n / WORD, low;
    var p, h: int, c := q / WORD, high, l / 0x2000_0000;
    assert 8 * n == WORD * (8 * q) + 8 * l;
    ModWord(8 * q, 8 * l);
    assert 8 * l / WORD == c;
    assert 8 * q + c == WORD * (8 * p) + (8 * h + c);
    ModWord(8 * p, 8 * h + c);
    HighBits(h, c);
  }

  lemma HighBits(h: nat, c: nat)
    requires h < WORD && c < 8
    ensures (8 * h + c) % WORD == h * 8 % WORD + c
  {
    var k, r := h / 0x2000_0000, h % 0x2000_0000;
    assert 8 * h == WORD * k + 8 * r;
    ModWord(k, 8 * r);
    ModWord(k, 8 * r + c);
  }

  lemma LastWords(block: seq<Byte>, lo: Word, hi: Word)
    requires |block| == 56
    ensures Words(block + (ToBytes(lo) + ToBytes(hi))) == Words(block) + [lo, hi]
  {
    var a, b := ToBytes(lo), ToBytes(hi);
    WordBytes(lo);
    WordBytes(hi);
    WordsConcat(block, a + b);
    WordsConcat(a, b);
    assert a[..4] == a && a[4..] == [] && b[..4] == b && b[4..] == [];
  }

  /** The padded message is what has been folded, and a last block that ends in the length. */
  lemma PaddedBlocks(done: seq<Byte>, m: seq<Byte>, r: nat, block: seq<Byte>)
    requires r == |m| % 64 && |block| == 56
    requires r < 56 ==> done + block == m + ([0x80] + Zeros(55 - r))
    requires r >= 56 ==> done == m + ([0x80] + Zeros(63 - r)) && block == Zeros(56)
    ensures Padded(m) == done + (block + LengthBytes(|m|))
  {
    var z := PaddingLength(|m|);
    if r >= 56 {
      assert Zeros(z) == Zeros(63 - r) + Zeros(56);
    }
    assert m + [0x80] + Zeros(z) == done + block;
  }

  function Flatten(parts: seq<seq<Byte>>): seq<Byte> {
    if parts == [] then [] else Flatten(parts[..|parts| - 1]) + parts[|parts| - 1]
  }

  /** The digest does not depend on how the message is cut into updates. */
  method DigestOf(transform: Transform, parts: seq<seq<Byte>>) returns (digest: seq<Byte>)
    requires forall p :: p in parts ==> |p| < WORD
    ensures digest == Digest(transform, Flatten(parts))
  {
    var c := new Context(transform);
    hide Digest, Fold;
    for i := 0 to |parts|
      invariant c.Valid() && c.Message() == Flatten(parts[..i]) && fresh(c) && fresh(c.input)
                && c.transform == transform
    {
      c.Update(parts[i]);
      assert parts[..i + 1][..i] == parts[..i];
    }
    assert parts[..|parts|] == parts;
    digest := c.Final();
  }
}
