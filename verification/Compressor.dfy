/** The compressor of filelist.c, on its growing buffer and its array of offsets. */
module Compressor {
  import opened Strings
  import opened PathCode
  import opened PathEncoder

  const SIZE_LIMIT := 1024 * 1024 * 1024

  /** No more than this of the buffer is ever unused. */
  const SLACK := 2048 + 256

  /** `offsets[i]` is where in the buffer the i-th open directory stands, length byte first. */
  ghost predicate Stored(buf: seq<Byte>, offsets: seq<nat>, dirs: Directory) {
    |dirs| <= |offsets| && forall i :: 0 <= i < |dirs| ==> StoredAt(buf, offsets[i], dirs[i])
  }

  ghost predicate StoredAt(buf: seq<Byte>, u: nat, d: Name) {
    u + 1 + |d| <= |buf| && buf[u] == |d| && buf[u + 1..u + 1 + |d|] == d
  }

  /** The buffer holds the operations so far, which lead to the open directories. */
  ghost predicate Consistent(buf: seq<Byte>, offsets: seq<nat>, dirs: Directory, ops: seq<Op>) {
    && Fitting(dirs) && Run(ops, []).dir == dirs
    && AllWritable(ops) && buf == Write(ops) && Stored(buf, offsets, dirs)
  }

  lemma Appended(ops: seq<Op>, op: Op)
    requires AllWritable(ops) && Writable(op)
    ensures AllWritable(ops + [op]) && Write(ops + [op]) == Write(ops) + Bytes(op)
    ensures Run(ops + [op], []).dir == Run([op], Run(ops, []).dir).dir
  {
    WriteConcat(ops, [op]);
    assert Write([op]) == Bytes(op) + Write([op][1..]) == Bytes(op);
    RunConcat(ops, [op], []);
  }

  lemma StoredStill(buf: seq<Byte>, more: seq<Byte>, offsets: seq<nat>, dirs: Directory, depth: nat)
    requires Stored(buf, offsets, dirs) && depth <= |dirs|
    ensures Stored(buf + more, offsets, dirs[..depth])
  {
    forall i | 0 <= i < depth ensures StoredAt(buf + more, offsets[i], dirs[..depth][i]) {
      assert StoredAt(buf, offsets[i], dirs[i]);
    }
  }

  lemma DeepAtMost(buf: seq<Byte>, offsets: seq<nat>, dirs: Directory, ops: seq<Op>)
    requires Consistent(buf, offsets, dirs, ops)
    ensures |dirs| <= DEPTH_LIMIT == 253
  {
  }

  lemma UpTo(dirs: Directory, depth: nat)
    requires Fitting(dirs) && depth < |dirs|
    ensures Writable(Up(|dirs| - depth)) && Run([Up(|dirs| - depth)], dirs).dir == dirs[..depth]
    ensures Fitting(dirs[..depth])
  {
    assert Leave(dirs, |dirs| - depth) == dirs[..depth] && Run([], dirs[..depth]).dir == dirs[..depth];
  }

  lemma AppendedUp(buf: seq<Byte>, offsets: seq<nat>, dirs: Directory, ops: seq<Op>, depth: nat)
    requires Consistent(buf, offsets, dirs, ops) && depth < |dirs|
    ensures Consistent(buf + [2 + |dirs| - depth], offsets, dirs[..depth], ops + [Up(|dirs| - depth)])
  {
    var op := Up(|dirs| - depth);
    Appended(ops, op);
    UpTo(dirs, depth);
    StoredStill(buf, Bytes(op), offsets, dirs, depth);
    assert Bytes(op) == [2 + |dirs| - depth];
    hide Stored, Write, Run, AllWritable, Fitting, Writable, Bytes;
  }

  lemma AppendedFile(buf: seq<Byte>, offsets: seq<nat>, dirs: Directory, ops: seq<Op>, name: Name)
    requires Consistent(buf, offsets, dirs, ops) && |name| < NAME_LIMIT
    ensures Consistent(buf + ([1, |name|] + name), offsets, dirs, ops + [File(name)])
  {
    var op := File(name);
    Appended(ops, op);
    RunFile(name, dirs);
    StoredStill(buf, Bytes(op), offsets, dirs, |dirs|);
    assert dirs[..|dirs|] == dirs;
    hide Stored, Write, Run, AllWritable, Fitting;
  }

  lemma StoredLonger(buf: seq<Byte>, offsets: seq<nat>, dirs: Directory, name: Name)
    requires Stored(buf, offsets, dirs) && |dirs| < |offsets| && |name| < NAME_LIMIT
    ensures Stored(buf + ([2, |name|] + name), offsets[|dirs| := |buf| + 1], dirs + [name])
  {
    var after := buf + ([2, |name|] + name);
    forall i | 0 <= i < |dirs| ensures StoredAt(after, offsets[i], dirs[i]) {
      assert StoredAt(buf, offsets[i], dirs[i]);
    }
    assert after[|buf| + 2..|buf| + 2 + |name|] == name;
  }

  lemma AppendedEnter(buf: seq<Byte>, offsets: seq<nat>, dirs: Directory, ops: seq<Op>, name: Name)
    requires Consistent(buf, offsets, dirs, ops) && |name| < NAME_LIMIT && |dirs| < DEPTH_LIMIT < |offsets|
    ensures Consistent(buf + ([2, |name|] + name), offsets[|dirs| := |buf| + 1], dirs + [name], ops + [Enter(name)])
  {
    Appended(ops, Enter(name));
    RunEnter(name, [], dirs);
    assert [Enter(name)] + [] == [Enter(name)];
    StoredLonger(buf, offsets, dirs, name);
  }

  lemma WriteLonger(ops: seq<Op>, all: seq<Op>)
    requires ops <= all && AllWritable(all)
    ensures AllWritable(ops) && |Write(ops)| <= |Write(all)|
  {
    var rest := all[|ops|..];
    assert all == ops + rest && (forall op :: op in ops ==> op in all) && forall op :: op in rest ==> op in all;
    WriteConcat(ops, rest);
  }

  lemma Joined(buf: seq<Byte>, a: Byte, b: Byte, rest: seq<Byte>)
    ensures buf + [a] + [b] + rest == buf + ([a, b] + rest)
  {
  }

  lemma DescendStep(ops: seq<Op>, depth: nat, name: seq<Byte>)
    requires var k := FirstSlash(name); k < |name| && k < NAME_LIMIT && depth < DEPTH_LIMIT
    ensures var k := FirstSlash(name); var below := Descend(depth + 1, SkipSlashes(name[k + 1..]));
      && ops + Descend(depth, name).0 == ops + [Enter(name[..k])] + below.0
      && Descend(depth, name).1 == below.1
  {
    var k := FirstSlash(name);
    var below := Descend(depth + 1, SkipSlashes(name[k + 1..]));
    assert ops + ([Enter(name[..k])] + below.0) == ops + [Enter(name[..k])] + below.0;
  }

  /** After `depth` directories have matched, what is left still has to be followed. */
  ghost predicate Following(dirs: Directory, path: seq<Byte>, depth: nat, name: seq<Byte>)
    requires depth <= |dirs|
  {
    var (n, rest) := Follow(dirs[depth..], name);
    Follow(dirs, path) == (depth + n, rest)
  }

  lemma FollowingStep(dirs: Directory, path: seq<Byte>, depth: nat, name: seq<Byte>, d: Name)
    requires depth < |dirs| && d == dirs[depth] && Following(dirs, path, depth, name)
    ensures
      if Under(d, name) then Following(dirs, path, depth + 1, name[|d| + 1..])
      else Follow(dirs, path) == (depth, name)
  {
    assert dirs[depth..][0] == dirs[depth] && dirs[depth..][1..] == dirs[depth + 1..];
  }

  lemma Emitted(ops: seq<Op>, dirs: Directory, path: seq<Byte>)
    requires Run(ops, []).dir == dirs
    ensures var (depth, rest) := Follow(dirs, Strip(path));
      ops + Emit(dirs, path).0 == ops + Climb(dirs, depth) + Descend(depth, rest).0
    ensures Run(ops + Emit(dirs, path).0, []).dir == After(dirs, path)
  {
    var (depth, rest) := Follow(dirs, Strip(path));
    assert ops + (Climb(dirs, depth) + Descend(depth, rest).0) == ops + Climb(dirs, depth) + Descend(depth, rest).0;
    RunConcat(ops, Emit(dirs, path).0, []);
  }

  /** Skips a leading dot and the slashes after it. */
  method StripPath(path: seq<Byte>) returns (name: seq<Byte>)
    ensures name == Strip(path)
  {
    name := path;
    if |name| > 0 && name[0] == DOT {
      name := name[1..];
    }
    name := OverSlashes(name);
  }

  /** RET_OK, RET_NOTHING, or the error for a list that has grown beyond reason. */
  datatype Return = Added | Skipped | TooLong

  /** Skips slashes at the start of a path. */
  method OverSlashes(s: seq<Byte>) returns (name: seq<Byte>)
    ensures name == SkipSlashes(s)
  {
    name := s;
    while |name| > 0 && name[0] == SLASH
      invariant SkipSlashes(name) == SkipSlashes(s)
    {
      name := name[1..];
    }
  }

  /** memchr for a slash; the length if there is none. */
  method FindSlash(s: seq<Byte>) returns (k: nat)
    ensures k == FirstSlash(s)
  {
    k := 0;
    while k < |s| && s[k] != SLASH
      invariant k <= |s| && FirstSlash(s) == k + FirstSlash(s[k..])
    {
      k := k + 1;
    }
  }

  class FileListCompressor {
    var filelist: array<Byte>
    var len: nat
    var dirdepth: nat
    const offsets: array<nat>
    ghost var ops: seq<Op>
    ghost var dirs: Directory

    ghost predicate Valid()
      reads this, filelist, offsets
    {
      && offsets.Length == 256 && len <= filelist.Length <= len + SLACK && dirdepth == |dirs|
      && Consistent(filelist[..len], offsets[..], dirs, ops)
    }

    /** The buffer has grown beyond reason, and what it holds is only a part of these operations. */
    ghost predicate Full(all: seq<Op>)
      reads this, filelist, offsets
    {
      Valid() && filelist.Length > SIZE_LIMIT && ops <= all
    }

    /** So the bytes of these operations alone are about as many as the limit allows. */
    lemma FullIsLong(all: seq<Op>)
      requires Full(all) && AllWritable(all)
      ensures |Write(all)| + SLACK > SIZE_LIMIT
    {
      WriteLonger(ops, all);
    }

    /** filelistcompressor_setup */
    constructor ()
      ensures Valid() && ops == [] && dirs == []
      ensures fresh(filelist) && fresh(offsets)
    {
      filelist := new Byte[2000];
      offsets := new nat[256];
      len, dirdepth := 0, 0;
      ops, dirs := [], [];
    }

    /** Makes room for n more bytes and two to spare. */
    method Space(n: nat) returns (ok: bool)
      requires Valid() && n <= 256
      modifies this`filelist
      ensures Valid() && (filelist == old(filelist) || fresh(filelist))
      ensures filelist[..len] == old(filelist[..len])
      ensures ok ==> len + n + 2 < filelist.Length
      ensures !ok ==> filelist == old(filelist) && filelist.Length > SIZE_LIMIT
    {
      hide Consistent;
      if len + n + 2 >= filelist.Length {
        if filelist.Length > SIZE_LIMIT {
          return false;
        }
        var bigger := new Byte[len + n + 2048];
        forall i | 0 <= i < len { bigger[i] := filelist[i]; }
        assert bigger[..len] == filelist[..len];
        filelist := bigger;
      }
      assert filelist[..len] == old(filelist[..len]) && offsets[..] == old(offsets[..]);
      return true;
    }

    /** Appends bytes to the buffer, in which there is room for them. */
    method Append(bytes: seq<Byte>)
      requires len + |bytes| <= filelist.Length
      modifies this`len, filelist
      ensures len == old(len) + |bytes|
      ensures filelist[..len] == old(filelist[..len]) + bytes
    {
      forall i | 0 <= i < |bytes| { filelist[len + i] := bytes[i]; }
      len := len + |bytes|;
    }

    method AppendNamed(tag: Byte, name: Name)
      requires |name| < NAME_LIMIT && len + 2 + |name| <= filelist.Length
      modifies this`len, filelist
      ensures len == old(len) + 2 + |name|
      ensures filelist[..len] == old(filelist[..len]) + ([tag, |name|] + name)
    {
      Append([tag]);
      Append([|name|]);
      Append(name);
      Joined(old(filelist[..len]), tag, |name|, name);
    }

    lemma ValidIs()
      requires Valid()
      ensures offsets.Length == 256 && len <= filelist.Length <= len + SLACK && dirdepth == |dirs|
      ensures Consistent(filelist[..len], offsets[..], dirs, ops)
    {
    }

    /** These are the operations and the open directories now. */
    ghost method Settle(buf: seq<Byte>, offs: seq<nat>, now: Directory, all: seq<Op>)
      requires offsets.Length == 256 && len <= filelist.Length <= len + SLACK && dirdepth == |now|
      requires buf == filelist[..len] && offs == offsets[..] && Consistent(buf, offs, now, all)
      modifies `ops, `dirs
      ensures Valid() && ops == all && dirs == now
    {
      ops, dirs := all, now;
    }

    /** One byte that says how many directories are left, up to the given depth. */
    method PutUp(depth: nat)
      requires Valid() && depth < dirdepth && len < filelist.Length
      modifies this, filelist
      ensures Valid() && ops == old(ops) + [Up(old(|dirs|) - depth)] && dirs == old(dirs)[..depth]
      ensures filelist == old(filelist)
    {
      hide *;
      ValidIs();
      ghost var buf, offs := filelist[..len], offsets[..];
      DeepAtMost(buf, offs, dirs, ops);
      AppendedUp(buf, offs, dirs, ops, depth);
      var levels: Byte := 2 + dirdepth - depth;
      Append([levels]);
      dirdepth := depth;
      Settle(buf + [levels], offs, dirs[..depth], ops + [Up(|dirs| - depth)]);
    }

    /** A 2, the length of the name and the name; the place of the length is remembered. */
    method PutEnter(name: Name)
      requires Valid() && dirdepth < DEPTH_LIMIT && |name| < NAME_LIMIT && len + 2 + |name| <= filelist.Length
      modifies this, filelist, offsets
      ensures Valid() && ops == old(ops) + [PathCode.Enter(name)] && dirs == old(dirs) + [name]
      ensures filelist == old(filelist)
    {
      hide *;
      ValidIs();
      ghost var buf, offs := filelist[..len], offsets[..];
      DeepAtMost(buf, offs, dirs, ops);
      AppendedEnter(buf, offs, dirs, ops, name);
      var place: nat := len + 1;
      offsets[dirdepth] := place;
      assert offsets[..] == offs[dirdepth := place] && filelist[..len] == buf;
      dirdepth := dirdepth + 1;
      AppendNamed(2, name);
      Settle(buf + ([2, |name|] + name), offs[|dirs| := place], dirs + [name], ops + [PathCode.Enter(name)]);
    }

    /** A 1, the length of the name and the name. */
    method PutFile(name: Name)
      requires Valid() && |name| < NAME_LIMIT && len + 2 + |name| <= filelist.Length
      modifies this, filelist
      ensures Valid() && ops == old(ops) + [File(name)] && dirs == old(dirs)
      ensures filelist == old(filelist)
    {
      hide *;
      ValidIs();
      ghost var buf, offs := filelist[..len], offsets[..];
      AppendedFile(buf, offs, dirs, ops, name);
      AppendNamed(1, name);
      Settle(buf + ([1, |name|] + name), offs, dirs, ops + [File(name)]);
    }

    /** The name of an open directory, as the buffer has it: a length byte and the bytes. */
    method OpenName(depth: nat) returns (d: Name)
      requires Valid() && depth < dirdepth
      ensures d == dirs[depth]
    {
      var u := offsets[depth];
      assert StoredAt(filelist[..len], u, dirs[depth]);
      // No length byte is 255, so there are no continuation bytes to add up here.
      assert filelist[u] != 255;
      d := filelist[u + 1..u + 1 + filelist[u]];
      assert d == filelist[..len][u + 1..u + 1 + filelist[u]];
    }

    /** How deep the path stays in the directories already open, and what is left of it there. */
    method FollowOpen(path: seq<Byte>) returns (depth: nat, name: seq<Byte>)
      requires Valid()
      ensures (depth, name) == Follow(dirs, path)
    {
      hide Consistent;
      depth, name := 0, path;
      assert dirs[0..] == dirs;
      while depth < dirdepth
        invariant depth <= |dirs| == dirdepth && Following(dirs, path, depth, name)
      {
        var d := OpenName(depth);
        FollowingStep(dirs, path, depth, name, d);
        if |d| >= |name| || name[..|d|] != d || name[|d|] != SLASH {
          break;
        }
        name := name[|d| + 1..];
        depth := depth + 1;
      }
    }

    method Enter(name: Name) returns (ok: bool)
      requires Valid() && dirdepth < DEPTH_LIMIT && |name| < NAME_LIMIT
      modifies this, filelist, offsets
      ensures filelist == old(filelist) || fresh(filelist)
      ensures !ok ==> Full(old(ops))
      ensures ok ==> Valid() && ops == old(ops) + [PathCode.Enter(name)] && dirs == old(dirs) + [name]
    {
      ok := Space(2 + |name|);
      if ok {
        PutEnter(name);
      }
    }

    /** Enters one directory more. */
    method EnterFirst(path: seq<Byte>, slash: nat) returns (r: Return, name: seq<Byte>)
      requires Valid() && slash == FirstSlash(path) < |path|
      modifies this, filelist, offsets
      ensures filelist == old(filelist) || fresh(filelist)
      ensures r == TooLong ==> Full(old(ops))
      ensures r != TooLong ==> Valid()
      ensures r == Skipped ==> ops == old(ops + Descend(|dirs|, path).0) && old(Descend(|dirs|, path).1) == Nothing
      ensures r == Added ==> ops + Descend(|dirs|, name).0 == old(ops + Descend(|dirs|, path).0)
      ensures r == Added ==> Descend(|dirs|, name).1 == old(Descend(|dirs|, path).1) && |name| < |path|
    {
      name := path;
      hide Descend, FirstSlash, SkipSlashes, Consistent;
      if slash >= 255 || dirdepth > 252 {
        DescendSkipped(|dirs|, path);
        assert ops + [] == ops;
        return Skipped, name;
      }
      DescendStep(ops, |dirs|, path);
      var ok := Enter(path[..slash]);
      if !ok {
        return TooLong, name;
      }
      name := OverSlashes(path[slash + 1..]);
      r := Added;
    }

    /** Enters the directories that are left in the path and names the file. */
    method PutRest(path: seq<Byte>) returns (r: Return)
      requires Valid()
      modifies this, filelist, offsets
      ensures filelist == old(filelist) || fresh(filelist)
      ensures r == TooLong ==> Full(old(ops + Descend(|dirs|, path).0))
      ensures r != TooLong ==> Valid() && ops == old(ops + Descend(|dirs|, path).0)
      ensures r != TooLong ==> (r == Added <==> old(Descend(|dirs|, path).1).Ok?)
    {
      var name := path;
      var slash := FindSlash(path);
      while slash < |name|
        invariant Valid() && (filelist == old(filelist) || fresh(filelist)) && slash == FirstSlash(name)
        invariant ops + Descend(|dirs|, name).0 == old(ops + Descend(|dirs|, path).0)
        invariant Descend(|dirs|, name).1 == old(Descend(|dirs|, path).1)
        decreases |name|
      {
        r, name := EnterFirst(name, slash);
        if r != Added {
          return;
        }
        slash := FindSlash(name);
      }
      r := PutLast(name);
    }

    method PutLast(name: seq<Byte>) returns (r: Return)
      requires Valid() && FirstSlash(name) == |name|
      modifies this, filelist
      ensures filelist == old(filelist) || fresh(filelist)
      ensures r == TooLong ==> Full(old(ops))
      ensures r != TooLong ==> Valid() && ops == old(ops) + Descend(old(|dirs|), name).0
      ensures r != TooLong ==> (r == Added <==> Descend(old(|dirs|), name).1.Ok?)
    {
      if |name| >= 255 {
        assert ops + [] == ops;
        return Skipped;
      }
      var ok := Space(2 + |name|);
      if !ok {
        return TooLong;
      }
      PutFile(name);
      return Added;
    }

    /** Leaves the directories beyond the given depth. */
    method LeaveTo(depth: nat) returns (ok: bool)
      requires Valid() && depth <= dirdepth
      modifies this, filelist
      ensures filelist == old(filelist) || fresh(filelist)
      ensures !ok ==> Full(old(ops))
      ensures ok ==> Valid() && ops == old(ops + Climb(dirs, depth)) && dirs == old(dirs)[..depth]
    {
      hide Consistent, Run;
      if depth < dirdepth {
        ok := Space(1);
        if ok {
          PutUp(depth);
        }
      } else {
        assert ops + [] == ops && dirs[..depth] == dirs;
        ok := true;
      }
    }

    /**
     filelistcompressor_add: appends the operations for one path, for which
     Emit gives the meaning, and keeps the directory stack in step with them.
     */
    method Add(path: seq<Byte>) returns (r: Return)
      requires Valid()
      modifies this, filelist, offsets
      ensures filelist == old(filelist) || fresh(filelist)
      ensures r == TooLong ==> Full(old(ops + Emit(dirs, path).0))
      ensures r != TooLong ==> Valid() && ops == old(ops + Emit(dirs, path).0)
      ensures r != TooLong ==> dirs == old(After(dirs, path)) && (r == Added <==> old(Emit(dirs, path).1).Ok?)
    {
      var name := StripPath(path);
      var depth;
      depth, name := FollowOpen(name);
      Emitted(ops, dirs, path);
      var ok := LeaveTo(depth);
      if !ok {
        return TooLong;
      }
      r := PutRest(name);
    }

    /** filelistcompressor_finish: the record with its terminating NUL. */
    method Finish() returns (list: array<Byte>)
      requires Valid()
      ensures fresh(list) && list[..] == Write(ops) + [0]
    {
      list := new Byte[len + 1];
      forall i | 0 <= i < len { list[i] := filelist[i]; }
      list[len] := 0;
      assert list[..len] == filelist[..len];
    }
  }
}
