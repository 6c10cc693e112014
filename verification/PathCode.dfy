/**
 The byte code in which filelist.c stores the list of files of a package: what
 the bytes mean, what the compressor emits for a path, and how the two agree.
 */
module PathCode {
  import opened Strings

  const SLASH: Byte := 47
  const DOT: Byte := 46

  /** The compressor skips names from this length on: a length byte 255 means "add more". */
  const NAME_LIMIT := 255

  /** The compressor enters no directory from this depth on, so that `2 + depth` stays a byte. */
  const DEPTH_LIMIT := 253

  /** A file with the directories leading to it. */
  type Directory = seq<Name>
  datatype Location = Location(dir: Directory, file: Name)

  datatype Op = Up(levels: nat) | Enter(name: Name) | File(name: Name)

  // ----- what the operations do: a current directory and the files named

  datatype Walk = Walk(files: seq<Location>, dir: Directory)

  function Leave(dir: Directory, levels: nat): Directory {
    if levels <= |dir| then dir[..|dir| - levels] else []
  }

  function Run(ops: seq<Op>, dir: Directory): Walk {
    if ops == [] then Walk([], dir)
    else
      match ops[0]
      case Up(n) => Run(ops[1..], Leave(dir, n))
      case Enter(d) => Run(ops[1..], dir + [d])
      case File(f) => var w := Run(ops[1..], dir); Walk([Location(dir, f)] + w.files, w.dir)
  }

  lemma {:induction false} RunConcat(a: seq<Op>, b: seq<Op>, dir: Directory)
    ensures var w := Run(a, dir); var v := Run(b, w.dir);
      Run(a + b, dir) == Walk(w.files + v.files, v.dir)
  {
    if a == [] {
      assert a + b == b;
    } else {
      assert (a + b)[0] == a[0] && (a + b)[1..] == a[1..] + b;
      match a[0]
      case Up(n) => RunConcat(a[1..], b, Leave(dir, n));
      case Enter(d) => RunConcat(a[1..], b, dir + [d]);
      case File(f) => RunConcat(a[1..], b, dir);
    }
  }

  // ----- reading the bytes

  datatype Length = NoLength | Length(len: nat, rest: seq<Byte>)

  function ReadLength(data: seq<Byte>): (r: Length)
    ensures r.Length? ==> |r.rest| < |data|
  {
    if data == [] || data[0] == 0 then NoLength
    else if data[0] == 255 then
      match ReadLength(data[1..])
      case NoLength => NoLength
      case Length(n, rest) => Length(255 + n, rest)
    else Length(data[0], data[1..])
  }

  datatype Step = Done | Corrupt | Next(op: Op, rest: seq<Byte>)

  function ReadName(data: seq<Byte>, isFile: bool): (r: Step)
    ensures r.Next? ==> |r.rest| < |data|
    ensures !r.Done?
  {
    match ReadLength(data)
    case NoLength => Corrupt
    case Length(n, rest) =>
      if |rest| < n then Corrupt
      else Next(if isFile then File(rest[..n]) else Enter(rest[..n]), rest[n..])
  }

  /** One turn of the loop over a record, of which `data` is left. */
  function Read(data: seq<Byte>): (r: Step)
    ensures r.Next? ==> |r.rest| < |data|
  {
    if data == [] then Corrupt
    else if data[0] == 0 then (if |data| == 1 then Done else Corrupt)
    else if |data| == 1 then Corrupt
    else if data[0] == 1 then ReadName(data[1..], true)
    else if data[0] == 2 then ReadName(data[1..], false)
    else Next(Up(data[0] - 2), data[1..])
  }

  /** The operations of a record up to its end or to the first damage, and whether there was none. */
  datatype Record = Record(ops: seq<Op>, intact: bool)

  function Parse(data: seq<Byte>): Record
    decreases |data|
  {
    match Read(data)
    case Done => Record([], true)
    case Corrupt => Record([], false)
    case Next(op, rest) => var r := Parse(rest); Record([op] + r.ops, r.intact)
  }

  // ----- the bytes of an operation

  predicate Writable(op: Op) {
    match op
    case Up(n) => 1 <= n <= DEPTH_LIMIT
    case Enter(d) => |d| < NAME_LIMIT
    case File(f) => |f| < NAME_LIMIT
  }

  predicate Named(op: Op) {
    op.Up? || op.name != []
  }

  function Bytes(op: Op): (b: seq<Byte>)
    requires Writable(op)
    ensures |b| > 0
  {
    match op
    case Up(n) => [2 + n]
    case Enter(d) => [2, |d|] + d
    case File(f) => [1, |f|] + f
  }

  predicate AllWritable(ops: seq<Op>) { forall op :: op in ops ==> Writable(op) }
  predicate AllNamed(ops: seq<Op>) { forall op :: op in ops ==> Named(op) }

  function Write(ops: seq<Op>): seq<Byte>
    requires AllWritable(ops)
  {
    if ops == [] then [] else Bytes(ops[0]) + Write(ops[1..])
  }

  lemma {:induction false} WriteConcat(a: seq<Op>, b: seq<Op>)
    requires AllWritable(a) && AllWritable(b)
    ensures AllWritable(a + b) && Write(a + b) == Write(a) + Write(b)
  {
    hide Bytes, Writable;
    if a == [] {
      assert a + b == b;
    } else {
      assert (a + b)[0] == a[0] && (a + b)[1..] == a[1..] + b;
      WriteConcat(a[1..], b);
    }
  }

  lemma ReadNameWritten(name: Name, rest: seq<Byte>, isFile: bool)
    requires |name| < NAME_LIMIT
    ensures ReadName([|name| as Byte] + (name + rest), isFile)
      == if name == [] then Corrupt else Next(if isFile then File(name) else Enter(name), rest)
  {
    var data := [|name| as Byte] + (name + rest);
    assert data[1..] == name + rest;
    assert (name + rest)[..|name|] == name && (name + rest)[|name|..] == rest;
  }

  lemma ReadWritten(op: Op, rest: seq<Byte>)
    requires Writable(op) && rest != []
    ensures Read(Bytes(op) + rest) == if Named(op) then Next(op, rest) else Corrupt
  {
    hide ReadName;
    if op.Up? {
      var data := [2 + op.levels] + rest;
      assert Bytes(op) == [2 + op.levels] && data[1..] == rest && data[0] == 2 + op.levels;
      hide Bytes;
    } else {
      var tag: Byte := if op.File? then 1 else 2;
      var tail := [|op.name| as Byte] + (op.name + rest);
      var data := [tag] + tail;
      assert Bytes(op) + rest == data;
      assert data[1..] == tail && data[0] == tag;
      hide Bytes;
      ReadNameWritten(op.name, rest, op.File?);
    }
  }

  /**
   Reading back what was written: exactly the operations, if every name in them
   has a byte; otherwise the record counts as damaged from the first empty name on.
   */
  lemma {:induction false} ParseWritten(ops: seq<Op>)
    requires AllWritable(ops)
    ensures AllNamed(ops) ==> Parse(Write(ops) + [0]) == Record(ops, true)
    ensures !AllNamed(ops) ==> !Parse(Write(ops) + [0]).intact
  {
    if ops == [] {
      assert Write(ops) + [0] == [0];
    } else {
      var rest := Write(ops[1..]) + [0];
      assert Write(ops) + [0] == Bytes(ops[0]) + rest;
      ReadWritten(ops[0], rest);
      ParseWritten(ops[1..]);
      assert ops == [ops[0]] + ops[1..];
    }
  }
}
