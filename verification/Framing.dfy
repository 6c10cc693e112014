/** Cutting the answers of a method into blocks: receivedata in aptmethod.c. */
module Framing {
  import opened Strings

  const GROWTH := 1024
  const SIZE_LIMIT := 128000

  /**
    * Where a block ends: at the second newline with nothing but carriage returns between; or at a zero byte,
    * or nowhere yet.
    */
  datatype End = Found(at: nat) | Zero | Open

  function Later(e: End): End { if e.Found? then Found(e.at + 1) else e }

  function EndOf(s: seq<Byte>, newlines: nat): (e: End)
    ensures e.Found? ==> e.at < |s| && s[e.at] == NL
  {
    if s == [] then Open
    else if s[0] == 0 then Zero
    else if s[0] == NL && newlines + 1 >= 2 then Found(0)
    else Later(EndOf(s[1..], if s[0] == NL then newlines + 1 else if s[0] == CR then newlines else 0))
  }

  /** All complete blocks, what is left after them, and whether a zero byte has been met in that. */
  datatype Frames = Frames(blocks: seq<seq<Byte>>, left: seq<Byte>, zero: bool)

  function Plus(blocks: seq<seq<Byte>>, f: Frames): Frames { Frames(blocks + f.blocks, f.left, f.zero) }

  lemma PlusPlus(a: seq<seq<Byte>>, b: seq<seq<Byte>>, f: Frames)
    ensures Plus(a, Plus(b, f)) == Plus(a + b, f)
  {
    assert a + (b + f.blocks) == a + b + f.blocks;
  }

  lemma PlusNothing(f: Frames)
    ensures Plus([], f) == f
  {
    assert [] + f.blocks == f.blocks;
  }

  function Cut(s: seq<Byte>): Frames {
    match EndOf(s, 0)
    case Found(k) => Plus([s[..k]], Cut(s[k + 1..]))
    case Zero => Frames([], s, true)
    case Open => Frames([], s, false)
  }

  lemma {:induction false} EndOfMore(a: seq<Byte>, b: seq<Byte>, newlines: nat)
    requires !EndOf(a, newlines).Open?
    ensures EndOf(a + b, newlines) == EndOf(a, newlines)
  {
    if !(a[0] == 0 || (a[0] == NL && newlines + 1 >= 2)) {
      assert (a + b)[1..] == a[1..] + b;
      EndOfMore(a[1..], b, if a[0] == NL then newlines + 1 else if a[0] == CR then newlines else 0);
    }
  }

  // ----- the same by positions

  /** A newline that ends a blank line: there is one before it with nothing but carriage returns between them. */
  ghost predicate Blank(s: seq<Byte>, k: nat) {
    && k < |s| && s[k] == 10
    && exists j :: 0 <= j < k && s[j] == 10 && forall i :: j < i < k ==> s[i] == 13
  }

  /** As above, or with newlines before the text. */
  ghost predicate BlankAfter(s: seq<Byte>, newlines: nat, k: nat) {
    Blank(s, k) || (k < |s| && s[k] == 10 && newlines > 0 && forall i :: 0 <= i < k ==> s[i] == 13)
  }

  lemma BlankNext(s: seq<Byte>, newlines: nat, k: nat)
    requires 0 < k && s != [] && !(s[0] == 10 && newlines > 0)
    ensures BlankAfter(s, newlines, k)
       <==> BlankAfter(s[1..], if s[0] == 10 then newlines + 1 else if s[0] == 13 then newlines else 0, k - 1)
  {
    var t, n := s[1..], if s[0] == 10 then newlines + 1 else if s[0] == 13 then newlines else 0;
    if k < |s| {
      assert forall i :: 0 < i < |s| ==> s[i] == t[i - 1];
    }
    if Blank(s, k) {
      var j :| 0 <= j < k && s[j] == 10 && forall i :: j < i < k ==> s[i] == 13;
      if j > 0 {
        assert t[j - 1] == 10 && forall i :: j - 1 < i < k - 1 ==> t[i] == 13;
      }
    }
    if Blank(t, k - 1) {
      var j :| 0 <= j < k - 1 && t[j] == 10 && forall i :: j < i < k - 1 ==> t[i] == 13;
      assert s[j + 1] == 10 && forall i :: j + 1 < i < k ==> s[i] == 13;
    }
  }

  lemma {:induction false} EndAfter(s: seq<Byte>, newlines: nat, k: nat)
    requires k < |s| && (forall m :: 0 <= m < k ==> s[m] != 0 && !BlankAfter(s, newlines, m))
    ensures BlankAfter(s, newlines, k) ==> EndOf(s, newlines) == Found(k)
    ensures s[k] == 0 ==> EndOf(s, newlines) == Zero
  {
    if k > 0 {
      var n := if s[0] == 10 then newlines + 1 else if s[0] == 13 then newlines else 0;
      assert !BlankAfter(s, newlines, 0);
      BlankNext(s, newlines, k);
      forall m | 0 <= m < k - 1 ensures s[1..][m] != 0 && !BlankAfter(s[1..], n, m) {
        BlankNext(s, newlines, m + 1);
        assert s[1..][m] == s[m + 1];
      }
      EndAfter(s[1..], n, k - 1);
    }
  }

  lemma {:induction false} NoEnd(s: seq<Byte>, newlines: nat)
    requires forall m :: 0 <= m < |s| ==> s[m] != 0 && !BlankAfter(s, newlines, m)
    ensures EndOf(s, newlines) == Open
  {
    if s != [] {
      var n := if s[0] == 10 then newlines + 1 else if s[0] == 13 then newlines else 0;
      assert !BlankAfter(s, newlines, 0);
      forall m | 0 <= m < |s| - 1 ensures s[1..][m] != 0 && !BlankAfter(s[1..], n, m) {
        BlankNext(s, newlines, m + 1);
        assert s[1..][m] == s[m + 1];
      }
      NoEnd(s[1..], n);
    }
  }

  /** The first blank line or zero byte decides; there is nothing else that ends a block. */
  lemma EndIs(s: seq<Byte>, k: nat)
    requires k <= |s| && forall m :: 0 <= m < k ==> s[m] != 0 && !Blank(s, m)
    ensures k == |s| ==> EndOf(s, 0) == Open
    ensures k < |s| && Blank(s, k) ==> EndOf(s, 0) == Found(k)
    ensures k < |s| && s[k] == 0 ==> EndOf(s, 0) == Zero
  {
    if k == |s| {
      NoEnd(s, 0);
    } else {
      EndAfter(s, 0, k);
    }
  }

  /** A block: some lines without a blank one, the last of which is ended. */
  ghost predicate Block(b: seq<Byte>) {
    b != [] && b[|b| - 1] == 10 && forall m :: 0 <= m < |b| ==> b[m] != 0 && !Blank(b, m)
  }

  /** Blocks with a blank line after each. */
  function Blocks(blocks: seq<seq<Byte>>): seq<Byte> {
    if blocks == [] then [] else blocks[0] + ([10] + Blocks(blocks[1..]))
  }

  lemma BlankBefore(a: seq<Byte>, b: seq<Byte>, k: nat)
    requires k < |a|
    ensures Blank(a + b, k) <==> Blank(a, k)
  {
    assert forall i :: 0 <= i < |a| ==> (a + b)[i] == a[i];
  }

  lemma BlockEnd(b: seq<Byte>, rest: seq<Byte>)
    requires Block(b)
    ensures EndOf(b + ([10] + rest), 0) == Found(|b|)
  {
    var s, k := b + ([10] + rest), |b|;
    forall m | 0 <= m < k ensures s[m] != 0 && !Blank(s, m) {
      BlankBefore(b, [10] + rest, m);
    }
    assert s[k] == 10 && s[k - 1] == 10 && Blank(s, k);
    EndIs(s, k);
  }

  lemma CutFirst(b: seq<Byte>, rest: seq<Byte>)
    requires EndOf(b + ([10] + rest), 0) == Found(|b|)
    ensures Cut(b + ([10] + rest)) == Plus([b], Cut(rest))
  {
    var s := b + ([10] + rest);
    assert s[..|b|] == b && s[|b| + 1..] == rest;
    hide EndOf;
  }

  lemma PlusFrames(a: seq<seq<Byte>>, b: seq<seq<Byte>>)
    ensures Plus(a, Frames(b, [], false)) == Frames(a + b, [], false)
  {
  }

  /** Blocks that are written with blank lines between them are cut into the same blocks. */
  lemma {:induction false} BlocksCut(blocks: seq<seq<Byte>>)
    requires forall b :: b in blocks ==> Block(b)
    ensures Cut(Blocks(blocks)) == Frames(blocks, [], false)
  {
    if blocks == [] {
      EndIs([], 0);
    } else {
      var b, more := blocks[0], blocks[1..];
      BlocksCut(more);
      BlockEnd(b, Blocks(more));
      assert Blocks(blocks) == b + ([10] + Blocks(more)) && blocks == [b] + more;
      hide *;
      CutFirst(b, Blocks(more));
      PlusFrames([b], more);
    }
  }

  /** Cutting what has come so far, and then what is left together with more, is cutting it all. */
  lemma {:induction false} CutMore(a: seq<Byte>, b: seq<Byte>)
    requires !Cut(a).zero
    ensures Cut(a + b) == Plus(Cut(a).blocks, Cut(Cut(a).left + b))
    decreases |a|
  {
    hide EndOf;
    match EndOf(a, 0)
    case Found(k) =>
      var c, block := a[k + 1..], [a[..k]];
      EndOfMore(a, b, 0);
      assert (a + b)[..k] == a[..k] && (a + b)[k + 1..] == c + b;
      assert Cut(a + b) == Plus(block, Cut(c + b)) && Cut(a) == Plus(block, Cut(c));
      hide Cut;
      CutMore(c, b);
      PlusPlus(block, Cut(c).blocks, Cut(Cut(c).left + b));
    case Zero =>
      assert false;
    case Open =>
      PlusNothing(Cut(a + b));
  }

  datatype Status = Running | Failed

  class Receiver {
    /** What has been read and not yet been cut, in a buffer of this size. */
    var input: seq<Byte>
    var size: nat
    var status: Status
    /** All that has been read. */
    ghost var stream: seq<Byte>

    ghost predicate Valid()
      reads this
    {
      |input| <= size && (status == Running ==> !Cut(stream).zero && input == Cut(stream).left)
    }

    constructor ()
      ensures Valid() && stream == [] && status == Running
    {
      input, size, status, stream := [], 0, Running, [];
    }

    /** Makes room; how much may be read then. */
    method Room() returns (n: nat)
      requires Valid() && status == Running
      modifies `size, `status
      ensures Valid() && (status == Running ==> n > 0 && |input| + n + 1 == size)
      ensures status == Failed ==> |input| + 1024 >= 128000
    {
      if |input| + GROWTH >= size {
        if size >= SIZE_LIMIT {
          status := Failed;
          return 0;
        }
        size := |input| + GROWTH;
      }
      n := size - |input| - 1;
    }

    /** The loop over one block. */
    method Scan() returns (e: End)
      ensures e == EndOf(input, 0)
    {
      var p, newlines := 0, 0;
      while p < |input|
        invariant p <= |input| && newlines < 2
        invariant EndOf(input, 0) == match EndOf(input[p..], newlines) case Found(k) => Found(p + k) case other => other
        decreases |input| - p
      {
        assert input[p..][1..] == input[p + 1..];
        if input[p] == 0 {
          return Zero;
        } else if input[p] == NL {
          newlines := newlines + 1;
          if newlines >= 2 {
            return Found(p);
          }
        } else if input[p] != CR {
          newlines := 0;
        }
        p := p + 1;
      }
      e := Open;
    }

    /** receivedata: the blocks that are complete with these bytes, whatever pieces they come in. */
    method Receive(data: seq<Byte>) returns (blocks: seq<seq<Byte>>)
      requires Valid() && status == Running && |input| + |data| < size
      modifies this
      ensures Valid() && stream == old(stream) + data
      ensures old(Cut(stream)).blocks + blocks == Cut(stream).blocks
      ensures status == Failed <==> Cut(stream).zero
    {
      CutMore(stream, data);
      stream := stream + data;
      input := input + data;
      blocks := [];
      PlusNothing(Cut(input));
      hide EndOf;
      ghost var whole, done := Cut(input), 0;
      while true
        invariant |input| <= size && status == Running && size == old(size) && stream == old(stream) + data
        invariant whole == Plus(blocks, Cut(input))
        decreases |input|
      {
        var e := Scan();
        match e
        case Zero =>
          status := Failed;
          return;
        case Open =>
          return;
        case Found(k) =>
          PlusPlus(blocks, [input[..k]], Cut(input[k + 1..]));
          blocks := blocks + [input[..k]];
          input := input[k + 1..];
      }
    }
  }
}
