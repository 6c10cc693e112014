/** Compressing the whole list of files of a package. */
module ListRecord {
  import opened Strings
  import opened PathCode
  import opened PathEncoder
  import opened Compressor
  import Sequences

  /** Where the compressor stands after these paths. */
  function AfterAll(dirs: Directory, paths: seq<seq<Byte>>): Directory {
    Run(EmitAll(dirs, paths), dirs).dir
  }

  /** What the paths mean of which it is known that their add returned RET_OK. */
  function Picked(paths: seq<seq<Byte>>, ok: seq<bool>): seq<Location>
    requires |paths| == |ok|
  {
    if paths == [] then [] else (if ok[0] then [Meaning(paths[0])] else []) + Picked(paths[1..], ok[1..])
  }

  /** The results of the adds of all paths, one after the other. */
  function Results(dirs: Directory, paths: seq<seq<Byte>>): (r: seq<bool>)
    ensures |r| == |paths|
    decreases |paths|
  {
    if paths == [] then [] else [Emit(dirs, paths[0]).1.Ok?] + Results(After(dirs, paths[0]), paths[1..])
  }

  lemma {:induction false} PickedIsAccepted(dirs: Directory, paths: seq<seq<Byte>>)
    ensures Picked(paths, Results(dirs, paths)) == Accepted(dirs, paths)
    decreases |paths|
  {
    if paths != [] {
      PickedIsAccepted(After(dirs, paths[0]), paths[1..]);
    }
  }

  /** What is emitted for the first path, and for the rest. */
  lemma EmitAllFirst(dirs: Directory, paths: seq<seq<Byte>>, first: seq<Byte>, rest: seq<seq<Byte>>)
    requires paths == [first] + rest
    ensures var next := After(dirs, first);
      && EmitAll(dirs, paths) == Emit(dirs, first).0 + EmitAll(next, rest)
      && AfterAll(dirs, paths) == AfterAll(next, rest)
      && Results(dirs, paths) == [Emit(dirs, first).1.Ok?] + Results(next, rest)
  {
    assert paths[0] == first && paths[1..] == rest;
    hide Emit;
    RunConcat(Emit(dirs, first).0, EmitAll(After(dirs, first), rest), dirs);
  }

  /** One more path at the end. */
  lemma {:induction false} EmitAllMore(dirs: Directory, paths: seq<seq<Byte>>, p: seq<Byte>)
    ensures var here := AfterAll(dirs, paths);
      && EmitAll(dirs, paths + [p]) == EmitAll(dirs, paths) + Emit(here, p).0
      && AfterAll(dirs, paths + [p]) == After(here, p)
      && Results(dirs, paths + [p]) == Results(dirs, paths) + [Emit(here, p).1.Ok?]
    decreases |paths|
  {
    hide *;
    EmitNothing(dirs);
    EmitNothing(After(dirs, p));
    if paths == [] {
      assert paths + [p] == [p] + [];
      EmitAllFirst(dirs, paths + [p], p, []);
    } else {
      var first, rest := paths[0], paths[1..];
      EmitAllMore(After(dirs, first), rest, p);
      assert paths == [first] + rest && paths + [p] == [first] + (rest + [p]);
      EmitAllFirst(dirs, paths, first, rest);
      EmitAllFirst(dirs, paths + [p], first, rest + [p]);
    }
  }

  lemma EmitNothing(dirs: Directory)
    ensures EmitAll(dirs, []) == [] && AfterAll(dirs, []) == dirs && Results(dirs, []) == []
  {
  }

  lemma {:induction false} EmitAllPart(dirs: Directory, paths: seq<seq<Byte>>, i: nat)
    requires i <= |paths|
    ensures EmitAll(dirs, paths[..i]) <= EmitAll(dirs, paths)
    decreases |paths| - i
  {
    hide *;
    if i < |paths| {
      assert paths[..i + 1] == paths[..i] + [paths[i]];
      EmitAllMore(dirs, paths[..i], paths[i]);
      EmitAllPart(dirs, paths, i + 1);
    } else {
      assert paths[..i] == paths;
    }
  }

  /** The record of these paths is so long that a compressor may refuse it. */
  predicate BeyondReason(paths: seq<seq<Byte>>) {
    EmitAllWritable([], paths);
    |Write(EmitAll([], paths))| + SLACK > SIZE_LIMIT
  }

  lemma PartBeyondReason(paths: seq<seq<Byte>>, i: nat)
    requires i <= |paths| && BeyondReason(paths[..i])
    ensures BeyondReason(paths)
  {
    EmitAllPart([], paths, i);
    EmitAllWritable([], paths);
    WriteLonger(EmitAll([], paths[..i]), EmitAll([], paths));
  }

  /** Adds one path more, unless the record gets beyond reason. */
  method AddNext(c: FileListCompressor, paths: seq<seq<Byte>>, i: nat, ok: seq<bool>)
    returns (done: bool, ok': seq<bool>)
    requires c.Valid() && i < |paths| && ok == Results([], paths[..i])
    requires c.ops == EmitAll([], paths[..i]) && c.dirs == AfterAll([], paths[..i])
    modifies c, c.filelist, c.offsets
    ensures c.filelist == old(c.filelist) || fresh(c.filelist)
    ensures !done ==> BeyondReason(paths)
    ensures done ==> c.Valid() && ok' == Results([], paths[..i + 1])
    ensures done ==> c.ops == EmitAll([], paths[..i + 1]) && c.dirs == AfterAll([], paths[..i + 1])
  {
    hide *;
    NextPart(paths, i);
    ghost var part := paths[..i + 1];
    EmitAllMore([], paths[..i], paths[i]);
    var r := c.Add(paths[i]);
    done, ok' := r != TooLong, ok + [r == Added];
    if !done {
      TooLongIs(c, part);
      PartBeyondReason(paths, i + 1);
    }
  }

  lemma NextPart(paths: seq<seq<Byte>>, i: nat)
    requires i < |paths|
    ensures paths[..i + 1] == paths[..i] + [paths[i]]
  {
  }

  /** Adds all paths to a new compressor, unless their record gets beyond reason. */
  method CompressAll(paths: seq<seq<Byte>>) returns (done: bool, list: seq<Byte>, ok: seq<bool>)
    ensures AllWritable(EmitAll([], paths))
    ensures done ==> ok == Results([], paths) && list == Write(EmitAll([], paths)) + [0]
    ensures !done ==> BeyondReason(paths)
  {
    EmitAllWritable([], paths);
    EmitNothing([]);
    Sequences.Ends(paths);
    hide *;
    var c := new FileListCompressor();
    list, ok := [], [];
    for i := 0 to |paths|
      invariant c.Valid() && fresh(c) && fresh(c.filelist) && fresh(c.offsets)
      invariant c.ops == EmitAll([], paths[..i]) && c.dirs == AfterAll([], paths[..i]) && ok == Results([], paths[..i])
    {
      done, ok := AddNext(c, paths, i, ok);
      if !done {
        return;
      }
    }
    var record := c.Finish();
    done, list := true, record[..];
  }

  lemma TooLongIs(c: FileListCompressor, paths: seq<seq<Byte>>)
    requires c.Full(EmitAll([], paths))
    ensures BeyondReason(paths)
  {
    EmitAllWritable([], paths);
    c.FullIsLong(EmitAll([], paths));
  }

  /**
    * The buffer of the compressor, whatever paths it was given, reads back without damage exactly if no name in it
    * is empty, and then it names exactly the files whose add was successful, in order.
    */
  method Compress(paths: seq<seq<Byte>>) returns (done: bool, list: seq<Byte>, ok: seq<bool>)
    ensures !done ==> BeyondReason(paths)
    ensures done ==> |ok| == |paths|
    ensures done ==> (Parse(list).intact <==> !SomeEmptyName([], paths))
    ensures done && Parse(list).intact ==> Run(Parse(list).ops, []).files == Picked(paths, ok)
  {
    done, list, ok := CompressAll(paths);
    RoundTrip(paths);
    PickedIsAccepted([], paths);
  }
}
