/** What cutting a stream into chunks means for the characters of its lines: indexfile.c. */
module StreamTexts {
  import opened Strings
  import opened IndexFile
  import Sequences

  /** A line as it may be written, with carriage returns at its end. */
  datatype Row = Row(text: seq<Byte>, ends: seq<Byte>)

  /** A chunk with empty lines in front of it, and the carriage returns of the blank line that ends it. */
  datatype Block = Block(front: seq<Byte>, rows: seq<Row>, ends: seq<Byte>)

  predicate Returns(s: seq<Byte>) { forall c :: c in s ==> c == '\r' as int }

  predicate EmptyLines(s: seq<Byte>) { forall c :: c in s ==> c == '\r' as int || c == '\n' as int }

  predicate WellWritten(r: Row) {
    r.text != [] && '\n' as int !in r.text && '\r' as int !in r.text && Returns(r.ends)
  }

  predicate AllWritten(rows: seq<Row>) { forall r :: r in rows ==> WellWritten(r) }

  predicate WellBlock(b: Block) { EmptyLines(b.front) && b.rows != [] && AllWritten(b.rows) && Returns(b.ends) }

  /** Zero bytes become spaces. */
  function Shown(s: seq<Byte>): (t: seq<Byte>)
    ensures |t| == |s|
  {
    seq(|s|, i requires 0 <= i < |s| => if s[i] == 0 then ' ' as int else s[i])
  }

  function RowText(r: Row): seq<Byte> { r.text + (r.ends + ['\n' as int]) }

  function RowsText(rows: seq<Row>): seq<Byte> { if rows == [] then [] else RowText(rows[0]) + RowsText(rows[1..]) }

  /** The lines with newlines between them. */
  function Plain(rows: seq<Row>): seq<Byte> {
    if rows == [] then []
    else if |rows| == 1 then Shown(rows[0].text)
    else Shown(rows[0].text) + (['\n' as int] + Plain(rows[1..]))
  }

  function BlocksText(bs: seq<Block>, end: seq<Byte>): seq<Byte> {
    if bs == [] then end
    else bs[0].front + (RowsText(bs[0].rows) + (bs[0].ends + (['\n' as int] + BlocksText(bs[1..], end))))
  }

  function PlainAll(bs: seq<Block>): seq<seq<Byte>> { seq(|bs|, i requires 0 <= i < |bs| => Plain(bs[i].rows)) }

  // ----- characters and lines

  /** The text, and what was found after it. */
  function Behind(a: seq<Byte>, r: (seq<Byte>, seq<Byte>)): (seq<Byte>, seq<Byte>) { (a + r.0, r.1) }

  lemma BehindTwice(a: seq<Byte>, b: seq<Byte>, r: (seq<Byte>, seq<Byte>))
    ensures Behind(a, Behind(b, r)) == Behind(a + b, r)
  {
    Sequences.Regroup(a, b, r.0);
  }

  lemma ScanOne(c: Byte, b: seq<Byte>, begun: bool, newline: bool)
    requires c != '\n' as int && c != '\r' as int
    ensures Scan([c] + b, begun, newline) == Behind(Shown([c]), Scan(b, true, false))
  {
    assert ([c] + b)[1..] == b && Shown([c]) == [Kept(c)];
  }

  lemma {:induction false} ScanChars(a: seq<Byte>, b: seq<Byte>, begun: bool, newline: bool)
    requires a != [] && '\n' as int !in a && '\r' as int !in a
    ensures Scan(a + b, begun, newline) == Behind(Shown(a), Scan(b, true, false))
  {
    var c, more := a[0], a[1..];
    assert [c] + more == a && Shown([c]) + Shown(more) == Shown(a) && forall x :: x in more ==> x in a;
    hide *;
    ScanOne(c, more + b, begun, newline);
    Sequences.Regroup([c], more, b);
    if more == [] {
      Sequences.Nothing(b);
      Sequences.Nothing([c]);
    } else {
      ScanChars(more, b, true, false);
      BehindTwice(Shown([c]), Shown(more), Scan(b, true, false));
    }
  }

  lemma {:induction false} ScanReturns(a: seq<Byte>, b: seq<Byte>, begun: bool, newline: bool)
    requires Returns(a)
    ensures Scan(a + b, begun, newline) == Scan(b, begun, newline)
  {
    if a == [] {
      Sequences.Nothing(b);
    } else {
      assert a[0] in a && (forall c :: c in a[1..] ==> c in a) && (a + b)[1..] == a[1..] + b;
      ScanReturns(a[1..], b, begun, newline);
    }
  }

  lemma {:induction false} ScanFront(a: seq<Byte>, b: seq<Byte>)
    requires EmptyLines(a)
    ensures Next(a + b) == Next(b)
  {
    if a == [] {
      Sequences.Nothing(b);
    } else {
      assert a[0] in a && (forall c :: c in a[1..] ==> c in a) && (a + b)[1..] == a[1..] + b;
      ScanFront(a[1..], b);
    }
  }

  lemma ScanNewline(b: seq<Byte>)
    ensures Scan(['\n' as int] + b, true, false) == Behind(['\n' as int], Scan(b, true, true))
    ensures Scan(['\n' as int] + b, true, true) == ([], b)
  {
    assert ([NL] + b)[1..] == b;
  }

  lemma RowScanned(r: Row, b: seq<Byte>, begun: bool, newline: bool)
    requires WellWritten(r)
    ensures Scan(RowText(r) + b, begun, newline) == Behind(Shown(r.text) + ['\n' as int], Scan(b, true, true))
  {
    var s: seq<Byte> := ['\n' as int] + b;
    assert RowText(r) + b == r.text + (r.ends + s);
    assert '\n' as int !in r.text && '\r' as int !in r.text && r.text != [] && Returns(r.ends);
    hide *;
    ScanNewline(b);
    ScanReturns(r.ends, s, true, false);
    ScanChars(r.text, r.ends + s, begun, newline);
    BehindTwice(Shown(r.text), ['\n' as int], Scan(b, true, true));
  }

  lemma RowsNext(rows: seq<Row>, b: seq<Byte>)
    requires rows != [] && AllWritten(rows)
    ensures WellWritten(rows[0]) && AllWritten(rows[1..])
    ensures RowsText(rows) + b == RowText(rows[0]) + (RowsText(rows[1..]) + b)
    ensures rows[1..] == [] ==> RowsText(rows[1..]) + b == b
  {
    hide RowText, WellWritten;
    Sequences.Regroup(RowText(rows[0]), RowsText(rows[1..]), b);
    Sequences.Nothing(b);
  }

  lemma PlainNext(rows: seq<Row>)
    requires rows != []
    ensures |rows| == 1 ==> Plain(rows) == Shown(rows[0].text)
    ensures |rows| > 1 ==> Plain(rows) == Shown(rows[0].text) + (['\n' as int] + Plain(rows[1..]))
  {
  }

  lemma {:induction false} RowsScanned(rows: seq<Row>, b: seq<Byte>, begun: bool, newline: bool)
    requires rows != [] && AllWritten(rows)
    ensures Scan(RowsText(rows) + b, begun, newline) == Behind(Plain(rows) + ['\n' as int], Scan(b, true, true))
  {
    hide *;
    var more, end: seq<Byte> := rows[1..], ['\n' as int];
    RowsNext(rows, b);
    RowScanned(rows[0], RowsText(more) + b, begun, newline);
    PlainNext(rows);
    if |rows| > 1 {
      RowsScanned(more, b, true, true);
      BehindTwice(Shown(rows[0].text) + end, Plain(more) + end, Scan(b, true, true));
      Sequences.Regroup(Shown(rows[0].text), end, Plain(more));
      Sequences.Regroup(Shown(rows[0].text) + end, Plain(more), end);
    }
  }

  lemma StripEnd(t: seq<Byte>)
    ensures Strip(t + ['\n' as int]) == t
  {
    assert (t + [NL])[..|t|] == t;
  }

  // ----- chunks

  lemma NextIs(s: seq<Byte>)
    ensures Next(s) == Scan(s, false, true)
  {
  }

  lemma BehindIs(a: seq<Byte>, t: seq<Byte>, rest: seq<Byte>)
    ensures Behind(a, (t, rest)) == (a + t, rest)
  {
  }

  lemma ChunksNext(s: seq<Byte>)
    ensures Chunks(s) == if Next(s).0 == [] then [] else [Strip(Next(s).0)] + Chunks(Next(s).1)
  {
  }

  lemma BlockCut(b: Block, rest: seq<Byte>)
    requires WellBlock(b)
    ensures var s := b.front + (RowsText(b.rows) + (b.ends + (['\n' as int] + rest)));
      Chunks(s) == [Plain(b.rows)] + Chunks(rest)
  {
    var end := b.ends + (['\n' as int] + rest);
    var t := RowsText(b.rows) + end;
    assert EmptyLines(b.front) && b.rows != [] && AllWritten(b.rows) && Returns(b.ends);
    hide *;
    ScanFront(b.front, t);
    RowsScanned(b.rows, end, false, true);
    ScanReturns(b.ends, ['\n' as int] + rest, true, true);
    ScanNewline(rest);
    NextIs(t);
    Sequences.Nothing(Plain(b.rows) + ['\n' as int]);
    BehindIs(Plain(b.rows) + ['\n' as int], [], rest);
    StripEnd(Plain(b.rows));
    ChunksNext(b.front + t);
  }

  /**
    * The chunks of a stream are the lines up to a blank one, without carriage returns and with zero bytes made
    * spaces, whatever empty lines are in front of them.
    */
  lemma {:induction false} ChunksAre(bs: seq<Block>, end: seq<Byte>)
    requires forall b :: b in bs ==> WellBlock(b)
    ensures Chunks(BlocksText(bs, end)) == PlainAll(bs) + Chunks(end)
  {
    if bs == [] {
      Sequences.Nothing(Chunks(end));
    } else {
      var b, rest := bs[0], BlocksText(bs[1..], end);
      assert b in bs && forall c :: c in bs[1..] ==> c in bs;
      assert PlainAll(bs) == [Plain(b.rows)] + PlainAll(bs[1..]);
      assert BlocksText(bs, end) == b.front + (RowsText(b.rows) + (b.ends + (['\n' as int] + rest)));
      hide *;
      BlockCut(b, rest);
      ChunksAre(bs[1..], end);
      Sequences.Regroup([Plain(b.rows)], PlainAll(bs[1..]), Chunks(end));
    }
  }

  /** At the end of a stream, empty lines are no chunk, and the last chunk needs no blank line after it. */
  lemma LastChunk(front: seq<Byte>, rows: seq<Row>)
    requires EmptyLines(front) && AllWritten(rows)
    ensures Chunks(front + RowsText(rows)) == if rows == [] then [] else [Plain(rows)]
  {
    var t := RowsText(rows);
    ScanFront(front, t);
    if rows != [] {
      RowsScanned(rows, [], false, true);
      Sequences.Nothing(t);
      Sequences.Nothing(Plain(rows) + ['\n' as int]);
      assert Next(t) == (Plain(rows) + ['\n' as int], []);
      assert Chunks([]) == [];
      hide *;
      StripEnd(Plain(rows));
      ChunksNext(front + t);
    }
  }

  lemma {:induction false} PlainLast(rows: seq<Row>, r: Row)
    ensures Plain(rows + [r]) == (if rows == [] then [] else Plain(rows) + ['\n' as int]) + Shown(r.text)
  {
    if rows == [] {
      assert rows + [r] == [r];
    } else {
      assert (rows + [r])[0] == rows[0] && (rows + [r])[1..] == rows[1..] + [r];
      PlainLast(rows[1..], r);
      PlainNext(rows);
    }
  }

  lemma LastScanned(last: seq<Byte>)
    requires WellWritten(Row(last, []))
    ensures Scan(last, true, true) == Scan(last, false, true) == (Shown(last), [])
    ensures Shown(last) != [] && Shown(last)[|last| - 1] != '\n' as int
  {
    ScanChars(last, [], true, true);
    ScanChars(last, [], false, true);
    Sequences.Nothing(last);
    Sequences.Nothing(Shown(last));
    assert last[|last| - 1] in last;
  }

  lemma StripNone(a: seq<Byte>, t: seq<Byte>)
    requires t != [] && t[|t| - 1] != '\n' as int
    ensures Strip(a + t) == a + t != []
  {
  }

  /** Nor does its last line need a newline. */
  lemma LastLine(front: seq<Byte>, rows: seq<Row>, last: seq<Byte>)
    requires EmptyLines(front) && AllWritten(rows) && WellWritten(Row(last, []))
    ensures Chunks(front + (RowsText(rows) + last)) == [Plain(rows + [Row(last, [])])]
  {
    var t := RowsText(rows) + last;
    ghost var a: seq<Byte> := if rows == [] then [] else Plain(rows) + ['\n' as int];
    if rows == [] {
      Sequences.Nothing(last);
    }
    assert Chunks([]) == [];
    hide *;
    LastScanned(last);
    if rows != [] {
      RowsScanned(rows, last, false, true);
      BehindIs(a, Shown(last), []);
    } else {
      Sequences.Nothing(Shown(last));
    }
    PlainLast(rows, Row(last, []));
    ScanFront(front, t);
    NextIs(t);
    StripNone(a, Shown(last));
    ChunksNext(front + t);
  }
}
