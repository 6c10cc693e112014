/** What filelistcompressor_add appends for one path, and what a whole list of paths becomes. */
module PathEncoder {
  import opened Strings
  import opened PathCode

  function SkipSlashes(s: seq<Byte>): (r: seq<Byte>)
    ensures |r| <= |s| && (r == [] || r[0] != SLASH)
  {
    if s != [] && s[0] == SLASH then SkipSlashes(s[1..]) else s
  }

  /** A path without its leading dot and slashes. */
  function Strip(path: seq<Byte>): seq<Byte> {
    SkipSlashes(if path != [] && path[0] == DOT then path[1..] else path)
  }

  /** Position of the first slash, or the length if there is none. */
  function FirstSlash(s: seq<Byte>): (k: nat)
    ensures k <= |s| && (k < |s| ==> s[k] == SLASH) && forall i :: 0 <= i < k ==> s[i] != SLASH
  {
    if s == [] || s[0] == SLASH then 0 else 1 + FirstSlash(s[1..])
  }

  // ----- the meaning of a path: its non-empty components

  function Locate(s: seq<Byte>): Location
    decreases |s|
  {
    var k := FirstSlash(s);
    if k == |s| then Location([], s)
    else
      var l := Locate(SkipSlashes(s[k + 1..]));
      Location([s[..k]] + l.dir, l.file)
  }

  function Meaning(path: seq<Byte>): Location { Locate(Strip(path)) }

  // ----- the emitted operations

  datatype Result = Ok | Nothing

  /** Descends from the directory at this depth into what is left of the path. */
  function Descend(depth: nat, s: seq<Byte>): (seq<Op>, Result)
    decreases |s|
  {
    var k := FirstSlash(s);
    if k == |s| then
      if |s| >= NAME_LIMIT then ([], Nothing) else ([File(s)], Ok)
    else if k >= NAME_LIMIT || depth >= DEPTH_LIMIT then ([], Nothing)
    else
      var (ops, r) := Descend(depth + 1, SkipSlashes(s[k + 1..]));
      ([Enter(s[..k])] + ops, r)
  }

  /** Does s name something inside directory d? */
  predicate Under(d: Name, s: seq<Byte>) {
    |d| < |s| && s[..|d|] == d && s[|d|] == SLASH
  }

  /** How many of the directories a path stays in, and what is left of it there. */
  function Follow(dirs: Directory, s: seq<Byte>): (r: (nat, seq<Byte>))
    ensures r.0 <= |dirs| && |r.1| <= |s|
  {
    if dirs != [] && Under(dirs[0], s) then
      var (n, rest) := Follow(dirs[1..], s[|dirs[0]| + 1..]);
      (n + 1, rest)
    else (0, s)
  }

  /** Leaves the directories in which a path does not stay. */
  function Climb(dirs: Directory, depth: nat): seq<Op> {
    if depth < |dirs| then [Up(|dirs| - depth)] else []
  }

  function Emit(dirs: Directory, path: seq<Byte>): (seq<Op>, Result) {
    var (depth, rest) := Follow(dirs, Strip(path));
    var (ops, r) := Descend(depth, rest);
    (Climb(dirs, depth) + ops, r)
  }

  /** All names fit a length byte. */
  predicate Short(dirs: Directory) { forall d :: d in dirs ==> |d| < NAME_LIMIT }

  /** The compressor keeps its directory stack such that every name fits its length byte. */
  predicate Fitting(dirs: Directory) {
    |dirs| <= DEPTH_LIMIT && Short(dirs)
  }

  lemma {:induction false} DescendWritable(depth: nat, s: seq<Byte>, dir: Directory)
    requires Fitting(dir) && |dir| == depth
    ensures AllWritable(Descend(depth, s).0)
    ensures Fitting(Run(Descend(depth, s).0, dir).dir)
    decreases |s|
  {
    var k := FirstSlash(s);
    if k < |s| && k < NAME_LIMIT && depth < DEPTH_LIMIT {
      DescendWritable(depth + 1, SkipSlashes(s[k + 1..]), dir + [s[..k]]);
      var ops := Descend(depth + 1, SkipSlashes(s[k + 1..])).0;
      assert ([Enter(s[..k])] + ops)[1..] == ops;
    }
  }

  /** Every operation emitted fits in bytes: no length and no number of levels overflows. */
  lemma EmitWritable(dirs: Directory, path: seq<Byte>)
    requires Fitting(dirs)
    ensures AllWritable(Emit(dirs, path).0) && Fitting(Run(Emit(dirs, path).0, dirs).dir)
  {
    var (depth, rest) := Follow(dirs, Strip(path));
    var (ops, r) := Descend(depth, rest);
    DescendWritable(depth, rest, dirs[..depth]);
    if depth < |dirs| {
      assert ([Up(|dirs| - depth)] + ops)[1..] == ops;
      assert Leave(dirs, |dirs| - depth) == dirs[..depth];
    } else {
      assert [] + ops == ops && dirs[..depth] == dirs;
    }
  }

  // ----- when an empty name is emitted

  /** Nothing after the last slash. */
  predicate NoFile(s: seq<Byte>) { s == [] || s[|s| - 1] == SLASH }

  /**
   An empty name is emitted if what is left of the path, where it leaves the
   directories already open, begins with a slash (it had two in a row there), or
   if the path is added and nothing is left after its last slash.
   */
  predicate EmptyName(dirs: Directory, path: seq<Byte>) {
    var (depth, rest) := Follow(dirs, Strip(path));
    || (rest != [] && rest[0] == SLASH && depth < DEPTH_LIMIT)
    || (Emit(dirs, path).1.Ok? && NoFile(rest))
  }

  lemma SkipSlashesLast(s: seq<Byte>)
    ensures var r := SkipSlashes(s);
      NoFile(s) <==> NoFile(r)
  {
  }

  lemma AllNamedCons(op: Op, ops: seq<Op>)
    ensures AllNamed([op] + ops) <==> Named(op) && AllNamed(ops)
  {
    assert forall o :: o in [op] + ops <==> o == op || o in ops;
  }

  lemma DescendNamedHere(depth: nat, s: seq<Byte>)
    requires FirstSlash(s) == |s|
    ensures var (ops, r) := Descend(depth, s);
      (AllNamed(ops) <==> !(r.Ok? && NoFile(s))) && (s != [] ==> s[0] != SLASH)
  {
    AllNamedCons(File(s), []);
    assert [File(s)] + [] == [File(s)] && s[..|s|] == s;
  }

  /** Nothing is emitted for a name that is too long, or too deep. */
  lemma DescendSkipped(depth: nat, s: seq<Byte>)
    requires FirstSlash(s) < |s| && (FirstSlash(s) >= NAME_LIMIT || depth >= DEPTH_LIMIT)
    ensures Descend(depth, s) == ([], Nothing) && AllNamed([])
  {
  }

  /** The first name is empty if there is a slash in front; what is after the first slash ends as it all does. */
  lemma NamedHere(s: seq<Byte>, k: nat)
    requires k < |s| && s[k] == SLASH && (k > 0 ==> s[0] != SLASH)
    ensures Named(Enter(s[..k])) <==> s[0] != SLASH
    ensures NoFile(s) <==> NoFile(s[k + 1..])
  {
    assert |s[..k]| == k;
  }

  lemma DescendIs(depth: nat, s: seq<Byte>, t: seq<Byte>)
    requires var k := FirstSlash(s); k < |s| && k < NAME_LIMIT && depth < DEPTH_LIMIT && t == SkipSlashes(s[k + 1..])
    ensures var below := Descend(depth + 1, t);
      Descend(depth, s) == ([Enter(s[..FirstSlash(s)])] + below.0, below.1) && |t| < |s|
  {
  }

  lemma DescendNamedSkipped(depth: nat, s: seq<Byte>)
    requires FirstSlash(s) < |s| && (FirstSlash(s) >= NAME_LIMIT || depth >= DEPTH_LIMIT)
    ensures var (ops, r) := Descend(depth, s);
      AllNamed(ops) && !r.Ok? && !(s != [] && s[0] == SLASH && depth < DEPTH_LIMIT)
  {
    DescendSkipped(depth, s);
    hide Descend, AllNamed;
  }

  lemma DescendNamedStep(depth: nat, s: seq<Byte>, t: seq<Byte>, below: seq<Op>)
    requires FirstSlash(s) < |s| && depth < DEPTH_LIMIT && t == SkipSlashes(s[FirstSlash(s) + 1..])
    ensures AllNamed([Enter(s[..FirstSlash(s)])] + below) <==> s[0] != SLASH && AllNamed(below)
    ensures (NoFile(s) <==> NoFile(t)) && s != [] && (t == [] || t[0] != SLASH)
  {
    var k := FirstSlash(s);
    SkipSlashesLast(s[k + 1..]);
    NamedHere(s, k);
    AllNamedCons(Enter(s[..k]), below);
    hide AllNamed, Named, NoFile;
  }

  lemma {:induction false} DescendNamed(depth: nat, s: seq<Byte>)
    ensures var (ops, r) := Descend(depth, s);
      AllNamed(ops) <==> !(s != [] && s[0] == SLASH && depth < DEPTH_LIMIT) && !(r.Ok? && NoFile(s))
    decreases |s|
  {
    hide *;
    var k := FirstSlash(s);
    if k == |s| {
      DescendNamedHere(depth, s);
    } else if k >= NAME_LIMIT || depth >= DEPTH_LIMIT {
      DescendNamedSkipped(depth, s);
    } else {
      var t := SkipSlashes(s[k + 1..]);
      DescendIs(depth, s, t);
      DescendNamed(depth + 1, t);
      DescendNamedStep(depth, s, t, Descend(depth + 1, t).0);
    }
  }

  lemma EmitNamed(dirs: Directory, path: seq<Byte>)
    ensures AllNamed(Emit(dirs, path).0) <==> !EmptyName(dirs, path)
  {
    var (depth, rest) := Follow(dirs, Strip(path));
    DescendNamed(depth, rest);
  }

  // ----- what the emitted operations name

  /** A directory stack as only well-formed adds leave it: every name is a path component. */
  predicate Components(dirs: Directory) {
    forall d :: d in dirs ==> d != [] && SLASH !in d
  }

  lemma {:induction false} FirstSlashOf(s: seq<Byte>, k: nat)
    requires k < |s| && s[k] == SLASH && forall i :: 0 <= i < k ==> s[i] != SLASH
    ensures FirstSlash(s) == k
  {
    if k > 0 {
      FirstSlashOf(s[1..], k - 1);
    }
  }

  lemma ComponentsTail(dirs: Directory)
    requires dirs != [] && Components(dirs)
    ensures dirs[0] != [] && SLASH !in dirs[0] && Components(dirs[1..])
  {
    assert dirs[0] in dirs;
    assert forall d :: d in dirs[1..] ==> d in dirs;
  }

  /** A slash in front would survive to the end, since no component begins with one. */
  lemma FollowNoSlash(dirs: Directory, s: seq<Byte>)
    requires Components(dirs)
    requires var rest := Follow(dirs, s).1; rest == [] || rest[0] != SLASH
    ensures SkipSlashes(s) == s
  {
    if dirs != [] && Under(dirs[0], s) {
      ComponentsTail(dirs);
      assert s[0] == s[..|dirs[0]|][0] == dirs[0][0];
    }
  }

  lemma LocateUnder(d: Name, t: seq<Byte>, s: seq<Byte>)
    requires Under(d, s) && t == s[|d| + 1..] && SLASH !in d && SkipSlashes(t) == t
    ensures Locate(s) == Inside([d], Locate(t))
  {
    FirstSlashOf(s, |d|);
  }

  /** The location l, found from inside the directory dir. */
  function Inside(dir: Directory, l: Location): Location {
    Location(dir + l.dir, l.file)
  }

  lemma InsideTwice(d: Name, dir: Directory, l: Location)
    ensures Inside([d], Inside(dir, l)) == Inside([d] + dir, l)
  {
    assert [d] + (dir + l.dir) == [d] + dir + l.dir;
  }

  lemma FollowCons(dirs: Directory, s: seq<Byte>, n: nat, rest: seq<Byte>)
    requires dirs != [] && Under(dirs[0], s) && Follow(dirs, s) == (n, rest)
    ensures n > 0 && Follow(dirs[1..], s[|dirs[0]| + 1..]) == (n - 1, rest)
  {
  }

  lemma InsideFirst(dirs: Directory, n: nat, l: Location)
    requires 0 < n <= |dirs|
    ensures Inside([dirs[0]], Inside(dirs[1..][..n - 1], l)) == Inside(dirs[..n], l)
  {
    InsideTwice(dirs[0], dirs[1..][..n - 1], l);
    assert [dirs[0]] + dirs[1..][..n - 1] == dirs[..n];
  }

  /** Staying in open directories keeps the meaning, unless a slash follows right after. */
  lemma {:induction false} FollowMeaning(dirs: Directory, s: seq<Byte>, n: nat, rest: seq<Byte>)
    requires Components(dirs) && Follow(dirs, s) == (n, rest) && (rest == [] || rest[0] != SLASH)
    ensures Locate(s) == Inside(dirs[..n], Locate(rest))
    decreases dirs
  {
    if dirs != [] && Under(dirs[0], s) {
      var t := s[|dirs[0]| + 1..];
      ComponentsTail(dirs);
      FollowCons(dirs, s, n, rest);
      FollowMeaning(dirs[1..], t, n - 1, rest);
      FollowNoSlash(dirs[1..], t);
      LocateUnder(dirs[0], t, s);
      InsideFirst(dirs, n, Locate(rest));
    } else {
      assert dirs[..0] + Locate(s).dir == Locate(s).dir;
    }
  }

  lemma RunEnter(d: Name, ops: seq<Op>, dir: Directory)
    ensures Run([Enter(d)] + ops, dir) == Run(ops, dir + [d])
  {
    assert ([Enter(d)] + ops)[1..] == ops;
  }

  lemma RunFile(f: Name, dir: Directory)
    ensures Run([File(f)], dir) == Walk([Location(dir, f)], dir)
  {
    assert Run([], dir) == Walk([], dir);
  }

  lemma {:induction false} DescendMeaning(depth: nat, s: seq<Byte>, dir: Directory)
    ensures var (ops, r) := Descend(depth, s);
      Run(ops, dir).files == if r.Ok? then [Location(dir + Locate(s).dir, Locate(s).file)] else []
    decreases |s|
  {
    var k := FirstSlash(s);
    hide FirstSlash, SkipSlashes;
    if k == |s| {
      assert dir + [] == dir;
      RunFile(s, dir);
    } else if k < NAME_LIMIT && depth < DEPTH_LIMIT {
      var t := SkipSlashes(s[k + 1..]);
      DescendMeaning(depth + 1, t, dir + [s[..k]]);
      hide Run;
      RunEnter(s[..k], Descend(depth + 1, t).0, dir);
      assert dir + ([s[..k]] + Locate(t).dir) == dir + [s[..k]] + Locate(t).dir;
    }
  }

  lemma ComponentsHere(depth: nat, s: seq<Byte>, dir: Directory)
    requires FirstSlash(s) == |s|
    ensures Run(Descend(depth, s).0, dir).dir == dir
  {
    RunFile(s, dir);
    RunNothing(dir);
  }

  lemma RunNothing(dir: Directory)
    ensures Run([], dir) == Walk([], dir)
  {
  }

  lemma ComponentsMore(dir: Directory, s: seq<Byte>)
    requires Components(dir) && Named(Enter(s[..FirstSlash(s)]))
    ensures Components(dir + [s[..FirstSlash(s)]])
  {
    var d := s[..FirstSlash(s)];
    assert SLASH !in d && forall e :: e in dir + [d] ==> e in dir || e == d;
  }

  lemma {:induction false} DescendComponents(depth: nat, s: seq<Byte>, dir: Directory)
    requires Components(dir) && AllNamed(Descend(depth, s).0)
    ensures Components(Run(Descend(depth, s).0, dir).dir)
    decreases |s|
  {
    hide *;
    var k := FirstSlash(s);
    if k == |s| {
      ComponentsHere(depth, s, dir);
    } else if k >= NAME_LIMIT || depth >= DEPTH_LIMIT {
      DescendSkipped(depth, s);
      RunNothing(dir);
    } else {
      var t := SkipSlashes(s[k + 1..]);
      DescendIs(depth, s, t);
      AllNamedCons(Enter(s[..k]), Descend(depth + 1, t).0);
      ComponentsMore(dir, s);
      DescendComponents(depth + 1, t, dir + [s[..k]]);
      RunEnter(s[..k], Descend(depth + 1, t).0, dir);
    }
  }

  /** Whether a path is stored at all depends on the path alone: no name too long, not too deep. */
  predicate Storable(l: Location) {
    |l.dir| <= DEPTH_LIMIT && Short(l.dir) && |l.file| < NAME_LIMIT
  }

  lemma ShortFirst(d: Name, dir: Directory)
    ensures Short([d] + dir) <==> |d| < NAME_LIMIT && Short(dir)
  {
    assert d in [d] + dir && forall e :: e in [d] + dir <==> e == d || e in dir;
  }

  lemma ResultHere(depth: nat, s: seq<Byte>)
    requires FirstSlash(s) == |s|
    ensures Locate(s) == Location([], s) && Short([]) && (Descend(depth, s).1.Ok? <==> |s| < NAME_LIMIT)
  {
  }

  lemma LocateIs(s: seq<Byte>, t: seq<Byte>)
    requires FirstSlash(s) < |s| && t == SkipSlashes(s[FirstSlash(s) + 1..])
    ensures Locate(s) == Location([s[..FirstSlash(s)]] + Locate(t).dir, Locate(t).file) && |t| < |s|
  {
  }

  lemma {:induction false} DescendResult(depth: nat, s: seq<Byte>)
    requires depth <= DEPTH_LIMIT
    ensures Descend(depth, s).1.Ok? <==>
      depth + |Locate(s).dir| <= DEPTH_LIMIT && Short(Locate(s).dir) && |Locate(s).file| < NAME_LIMIT
    decreases |s|
  {
    hide *;
    var k := FirstSlash(s);
    if k == |s| {
      ResultHere(depth, s);
    } else {
      var t := SkipSlashes(s[k + 1..]);
      LocateIs(s, t);
      ShortFirst(s[..k], Locate(t).dir);
      if depth < DEPTH_LIMIT && k < NAME_LIMIT {
        DescendIs(depth, s, t);
        DescendResult(depth + 1, t);
      } else {
        DescendSkipped(depth, s);
      }
    }
  }

  /** The operations are those below the directory in which the path stays open. */
  lemma EmitRun(dirs: Directory, path: seq<Byte>)
    ensures var (depth, rest) := Follow(dirs, Strip(path));
      Run(Emit(dirs, path).0, dirs) == Run(Descend(depth, rest).0, dirs[..depth])
  {
    var (depth, rest) := Follow(dirs, Strip(path));
    var ops := Descend(depth, rest).0;
    if depth < |dirs| {
      var up := Up(|dirs| - depth);
      assert Leave(dirs, |dirs| - depth) == dirs[..depth];
      hide Descend, Follow, Strip;
      assert ([up] + ops)[1..] == ops && ([up] + ops)[0] == up;
    } else {
      hide Descend, Follow, Strip, Run;
      assert [] + ops == ops && dirs[..depth] == dirs;
    }
  }

  lemma StartsWithSlash(depth: nat, s: seq<Byte>)
    requires s != [] && s[0] == SLASH && depth >= DEPTH_LIMIT
    ensures Descend(depth, s) == ([], Nothing)
  {
    FirstSlashOf(s, 0);
  }

  /** What is left of a path begins with a slash: it had two in a row where it leaves the open directories. */
  predicate DoubledSlash(dirs: Directory, path: seq<Byte>) {
    var rest := Follow(dirs, Strip(path)).1;
    rest != [] && rest[0] == SLASH
  }

  /**
   One add that emits no empty name: the operations, run where the compressor
   stands, name the file that the path means if the add succeeds, and no file if
   it is refused.
   */
  lemma EmitMeaning(dirs: Directory, path: seq<Byte>)
    requires Fitting(dirs) && Components(dirs) && !EmptyName(dirs, path)
    ensures var (ops, r) := Emit(dirs, path);
      && Run(ops, dirs).files == (if r.Ok? then [Meaning(path)] else [])
      && Components(Run(ops, dirs).dir)
  {
    var (depth, rest) := Follow(dirs, Strip(path));
    EmitRun(dirs, path);
    DescendNamed(depth, rest);
    assert forall d :: d in dirs[..depth] ==> d in dirs;
    DescendComponents(depth, rest, dirs[..depth]);
    DescendMeaning(depth, rest, dirs[..depth]);
    if DoubledSlash(dirs, path) {
      StartsWithSlash(depth, rest);
    } else {
      FollowMeaning(dirs, Strip(path), depth, rest);
    }
  }

  /** It is refused exactly when a name is too long or there are too many directories. */
  lemma EmitRefused(dirs: Directory, path: seq<Byte>)
    requires Fitting(dirs) && Components(dirs) && !DoubledSlash(dirs, path)
    ensures Emit(dirs, path).1.Ok? <==> Storable(Meaning(path))
  {
    var (depth, rest) := Follow(dirs, Strip(path));
    FollowMeaning(dirs, Strip(path), depth, rest);
    DescendResult(depth, rest);
    var dir := Locate(rest).dir;
    assert forall d :: d in dirs[..depth] + dir <==> d in dirs[..depth] || d in dir;
    assert forall d :: d in dirs[..depth] ==> d in dirs;
  }

  // ----- a whole list of paths

  function After(dirs: Directory, path: seq<Byte>): Directory {
    Run(Emit(dirs, path).0, dirs).dir
  }

  function EmitAll(dirs: Directory, paths: seq<seq<Byte>>): seq<Op>
    decreases |paths|
  {
    if paths == [] then [] else Emit(dirs, paths[0]).0 + EmitAll(After(dirs, paths[0]), paths[1..])
  }

  /** What the paths mean whose add returned RET_OK, in order. */
  function Accepted(dirs: Directory, paths: seq<seq<Byte>>): seq<Location>
    decreases |paths|
  {
    if paths == [] then []
    else (if Emit(dirs, paths[0]).1.Ok? then [Meaning(paths[0])] else [])
         + Accepted(After(dirs, paths[0]), paths[1..])
  }

  predicate SomeEmptyName(dirs: Directory, paths: seq<seq<Byte>>)
    decreases |paths|
  {
    paths != [] && (EmptyName(dirs, paths[0]) || SomeEmptyName(After(dirs, paths[0]), paths[1..]))
  }

  lemma {:induction false} EmitAllWritable(dirs: Directory, paths: seq<seq<Byte>>)
    requires Fitting(dirs)
    ensures AllWritable(EmitAll(dirs, paths))
    ensures AllNamed(EmitAll(dirs, paths)) <==> !SomeEmptyName(dirs, paths)
    decreases |paths|
  {
    if paths != [] {
      EmitWritable(dirs, paths[0]);
      EmitNamed(dirs, paths[0]);
      EmitAllWritable(After(dirs, paths[0]), paths[1..]);
      var a, b := Emit(dirs, paths[0]).0, EmitAll(After(dirs, paths[0]), paths[1..]);
      assert forall op :: op in a + b <==> op in a || op in b;
    }
  }

  lemma {:induction false} EmitAllMeaning(dirs: Directory, paths: seq<seq<Byte>>)
    requires Fitting(dirs) && Components(dirs) && !SomeEmptyName(dirs, paths)
    ensures Run(EmitAll(dirs, paths), dirs).files == Accepted(dirs, paths)
    decreases |paths|
  {
    if paths != [] {
      EmitWritable(dirs, paths[0]);
      EmitMeaning(dirs, paths[0]);
      EmitAllMeaning(After(dirs, paths[0]), paths[1..]);
      RunConcat(Emit(dirs, paths[0]).0, EmitAll(After(dirs, paths[0]), paths[1..]), dirs);
    }
  }

  /**
   The round trip.  The record of any list of paths reads back without damage
   exactly when no add emitted an empty name, and then it names precisely the
   files whose add succeeded, in order.
   */
  lemma RoundTrip(paths: seq<seq<Byte>>)
    ensures AllWritable(EmitAll([], paths))
    ensures var r := Parse(Write(EmitAll([], paths)) + [0]);
      && (r.intact <==> !SomeEmptyName([], paths))
      && (r.intact ==> Run(r.ops, []).files == Accepted([], paths))
  {
    EmitAllWritable([], paths);
    ParseWritten(EmitAll([], paths));
    if !SomeEmptyName([], paths) {
      EmitAllMeaning([], paths);
    }
  }

  /** A path that has a file name and no two slashes in a row, after the leading ones. */
  predicate Normalised(path: seq<Byte>) {
    var s := Strip(path);
    !NoFile(s) && forall i :: 0 < i < |s| ==> s[i - 1] != SLASH || s[i] != SLASH
  }

  lemma {:induction false} FollowSuffix(dirs: Directory, s: seq<Byte>)
    ensures var rest := Follow(dirs, s).1; var k := |s| - |rest|;
      rest == s[k..] && (k == 0 || s[k - 1] == SLASH)
  {
    if dirs != [] && Under(dirs[0], s) {
      FollowSuffix(dirs[1..], s[|dirs[0]| + 1..]);
    }
  }

  /**
   What can be seen before the add: an empty name is emitted exactly if the path has
   two slashes in a row where it leaves the open directories, unless these are as deep
   as can be, or if it ends in a slash, or is nothing but slashes, and is not too long.
   */
  lemma EmptyNameIs(dirs: Directory, path: seq<Byte>)
    requires Fitting(dirs) && Components(dirs)
    ensures EmptyName(dirs, path) <==>
              if DoubledSlash(dirs, path) then Follow(dirs, Strip(path)).0 < DEPTH_LIMIT
              else NoFile(Strip(path)) && Storable(Meaning(path))
  {
    var s := Strip(path);
    var (depth, rest) := Follow(dirs, s);
    FollowSuffix(dirs, s);
    if DoubledSlash(dirs, path) {
      if depth >= DEPTH_LIMIT {
        StartsWithSlash(depth, rest);
      }
    } else {
      EmitRefused(dirs, path);
      assert rest != [] ==> rest[|rest| - 1] == s[|s| - 1];
    }
  }

  lemma NormalisedIsNamed(dirs: Directory, path: seq<Byte>)
    requires Normalised(path)
    ensures !EmptyName(dirs, path) && !DoubledSlash(dirs, path)
  {
    FollowSuffix(dirs, Strip(path));
  }

  /** The meanings of the paths that are short and shallow enough. */
  function StorableMeanings(paths: seq<seq<Byte>>): seq<Location> {
    if paths == [] then []
    else (if Storable(Meaning(paths[0])) then [Meaning(paths[0])] else []) + StorableMeanings(paths[1..])
  }

  lemma {:induction false} NormalisedAccepted(dirs: Directory, paths: seq<seq<Byte>>)
    requires Fitting(dirs) && Components(dirs) && forall p :: p in paths ==> Normalised(p)
    ensures !SomeEmptyName(dirs, paths) && Accepted(dirs, paths) == StorableMeanings(paths)
    decreases |paths|
  {
    if paths != [] {
      NormalisedIsNamed(dirs, paths[0]);
      EmitWritable(dirs, paths[0]);
      EmitMeaning(dirs, paths[0]);
      EmitRefused(dirs, paths[0]);
      NormalisedAccepted(After(dirs, paths[0]), paths[1..]);
    }
  }

  /** For normalised paths the round trip always holds, and what is kept depends on the paths alone. */
  lemma NormalisedRoundTrip(paths: seq<seq<Byte>>)
    requires forall p :: p in paths ==> Normalised(p)
    ensures AllWritable(EmitAll([], paths))
    ensures var r := Parse(Write(EmitAll([], paths)) + [0]);
      r.intact && Run(r.ops, []).files == StorableMeanings(paths)
  {
    RoundTrip(paths);
    NormalisedAccepted([], paths);
  }

  const A: Name := [97]
  const A_X: seq<Byte> := [97, SLASH, 120]
  const A__Y: seq<Byte> := [97, SLASH, SLASH, 121]

  lemma {:induction false} LocateFile(f: Name)
    requires SLASH !in f
    ensures FirstSlash(f) == |f| && Locate(f) == Location([], f)
    ensures forall depth: nat :: |f| < NAME_LIMIT ==> Descend(depth, f) == ([File(f)], Ok)
  {
    if f != [] {
      assert f[0] in f && forall c :: c in f[1..] ==> c in f;
      LocateFile(f[1..]);
    }
  }

  lemma DoubledMeaning()
    ensures Meaning(A__Y) == Location([A], [121])
  {
    FirstSlashOf(A__Y, 1);
    assert SkipSlashes(A__Y[2..]) == [121] && A__Y[..1] == A;
    assert Strip(A__Y) == A__Y;
    LocateFile([121]);
    assert Locate(A__Y) == Location([A] + [], [121]);
  }

  lemma AfterFirst()
    ensures After([], A_X) == [A]
  {
    FirstSlashOf(A_X, 1);
    assert A_X[..1] == A && A_X[2..] == [120];
    LocateFile([120]);
    assert Strip(A_X) == A_X && SkipSlashes(A_X[2..]) == [120];
    assert Descend(0, A_X).0 == [Enter(A)] + [File([120])];
    assert Follow([], A_X) == (0, A_X);
    assert Emit([], A_X).0 == [Enter(A)] + [File([120])];
    assert [] + [A] == [A];
    RunEnter(A, [File([120])], []);
    RunFile([120], [A]);
  }

  /**
   `a/x` followed by `a//y` damages the record, although both paths have a
   meaning: the second slash is still there when `a` is found to be open.
   */
  lemma DoubledSlashDamages()
    ensures Meaning(A__Y) == Location([A], [121]) && AllWritable(EmitAll([], [A_X, A__Y]))
    ensures !Parse(Write(EmitAll([], [A_X, A__Y])) + [0]).intact
  {
    DoubledMeaning();
    AfterFirst();
    assert Under(A, A__Y) && A__Y[2..] == [SLASH, 121];
    assert [A][1..] == [] && Follow([], A__Y[2..]) == (0, A__Y[2..]);
    assert Follow([A], A__Y) == (1, A__Y[2..]);
    assert [A_X, A__Y][1..] == [A__Y];
    assert SomeEmptyName([A], [A__Y]);
    RoundTrip([A_X, A__Y]);
  }
}
