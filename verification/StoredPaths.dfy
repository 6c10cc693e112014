/** Which paths the compressor of filelist.c stores, in numbers, and the bytes that it stores for them. */
module StoredPaths {
  import opened Strings
  import opened PathCode
  import opened PathEncoder
  import opened Compressor
  import opened IndexWriter
  import opened PathTexts
  import opened ListRecord
  import Sequences

  function Slashes(s: seq<Byte>): nat { if s == [] then 0 else (if s[0] == 47 then 1 else 0) + Slashes(s[1..]) }

  /** No part of the text without slashes is longer than 254 bytes. */
  ghost predicate ShortParts(s: seq<Byte>) {
    forall i, j :: 0 <= i <= j <= |s| && 47 !in s[i..j] ==> j - i <= 254
  }

  /** At most 253 directories, and no name longer than what one length byte other than 255 can tell. */
  ghost predicate Fits(s: seq<Byte>) { Slashes(s) <= 253 && ShortParts(s) }

  /** A name without slashes is stored exactly if its length fits a byte that is not 255. */
  lemma NameStored(f: Name)
    requires 47 !in f
    ensures Descend(0, f).1.Ok? <==> |f| <= 254
  {
    LocateFile(f);
  }

  // ----- leading dots and slashes

  /** A path is meant from the root, whether it begins there, or with a dot, or not. */
  lemma StripIs(t: seq<Byte>)
    requires t != [] && t[0] != 46 && t[0] != 47
    ensures Strip(t) == t && Strip([47] + t) == t && Strip([46, 47] + t) == t
  {
    assert ([47] + t)[1..] == t && ([46, 47] + t)[1..] == [47] + t;
  }

  // ----- storable paths

  lemma {:induction false} SlashFree(s: seq<Byte>)
    ensures 47 !in s <==> Slashes(s) == 0
  {
    if s != [] {
      SlashFree(s[1..]);
      assert s == [s[0]] + s[1..];
    }
  }

  lemma {:induction false} SlashesConcat(a: seq<Byte>, b: seq<Byte>)
    ensures Slashes(a + b) == Slashes(a) + Slashes(b)
  {
    if a == [] {
      Sequences.Nothing(b);
    } else {
      assert (a + b)[0] == a[0] && (a + b)[1..] == a[1..] + b;
      SlashesConcat(a[1..], b);
    }
  }

  /** A text with a slash at k, cut there. */
  lemma ShortPartsCut(s: seq<Byte>, k: nat)
    requires k < |s| && s[k] == 47 && 47 !in s[..k]
    ensures ShortParts(s) <==> k <= 254 && ShortParts(s[k + 1..])
  {
    var t := s[k + 1..];
    if ShortParts(s) {
      assert s[0..k] == s[..k];
      forall i, j | 0 <= i <= j <= |t| && 47 !in t[i..j] ensures j - i <= 254 {
        assert t[i..j] == s[k + 1 + i..k + 1 + j];
      }
    }
    forall i, j | 0 <= i <= k < j <= |s| ensures 47 in s[i..j] {
      assert s[i..j][k - i] == 47;
    }
    if k <= 254 && ShortParts(t) {
      forall i, j | 0 <= i <= j <= |s| && 47 !in s[i..j] ensures j - i <= 254 {
        if i > k {
          assert s[i..j] == t[i - k - 1..j - k - 1];
        }
      }
    }
  }

  lemma ShortPartsPlain(s: seq<Byte>)
    requires 47 !in s
    ensures ShortParts(s) <==> |s| <= 254
  {
    assert s[0..|s|] == s;
  }

  lemma SlashFirst(s: seq<Byte>, k: nat)
    requires k == FirstSlash(s)
    ensures k <= |s| && (k == |s| ==> 47 !in s)
    ensures k < |s| ==> s[k] == 47 && 47 !in s[..k] && s == s[..k] + ([47] + s[k + 1..])
  {
    assert SLASH == 47;
    hide *;
    if k < |s| {
      Sequences.Halves(s, k);
      Sequences.Step(s, k);
    }
  }

  lemma SlashCount(t: seq<Byte>)
    ensures Slashes([47] + t) == 1 + Slashes(t)
  {
    assert ([47] + t)[1..] == t;
  }

  lemma FitsPlain(s: seq<Byte>, k: nat)
    requires k == FirstSlash(s)
    ensures k == |s| ==> 47 !in s && Slashes(s) == 0 && (ShortParts(s) <==> |s| <= 254)
    ensures k < |s| ==> Slashes(s) == 1 + Slashes(s[k + 1..]) && (ShortParts(s) <==> k <= 254 && ShortParts(s[k + 1..]))
  {
    hide *;
    SlashFirst(s, k);
    if k == |s| {
      SlashFree(s);
      ShortPartsPlain(s);
    } else {
      ShortPartsCut(s, k);
      SlashFree(s[..k]);
      SlashCount(s[k + 1..]);
      SlashesConcat(s[..k], [47] + s[k + 1..]);
    }
  }

  /** What is stored depends on the text alone. */
  lemma {:induction false} StorableText(s: seq<Byte>)
    requires NoTwoSlashes(s)
    ensures |Locate(s).dir| == Slashes(s)
    ensures Short(Locate(s).dir) && |Locate(s).file| < NAME_LIMIT <==> ShortParts(s)
    decreases |s|
  {
    var k := FirstSlash(s);
    FitsPlain(s, k);
    if k < |s| {
      AfterSlash(s, k);
      var t := s[k + 1..];
      LocateIs(s, t);
      ShortFirst(s[..k], Locate(t).dir);
      StorableText(t);
    }
    hide *;
    Limits();
  }

  lemma Limits()
    ensures NAME_LIMIT == 255 && DEPTH_LIMIT == 253
  {
  }

  lemma StorableFits(path: seq<Byte>)
    requires Normalised(path)
    ensures Storable(Meaning(path)) <==> Fits(Strip(path))
  {
    StorableText(Strip(path));
  }

  // ----- how long a record is

  /** A record is no longer than this. */
  function Weight(paths: seq<seq<Byte>>): nat { if paths == [] then 0 else 2 * |paths[0]| + 3 + Weight(paths[1..]) }

  lemma WriteFirst(op: Op, ops: seq<Op>)
    requires Writable(op) && AllWritable(ops)
    ensures AllWritable([op] + ops) && |Write([op] + ops)| == |Bytes(op)| + |Write(ops)|
  {
    assert ([op] + ops)[1..] == ops;
  }

  lemma {:induction false} DescendWeight(depth: nat, s: seq<Byte>)
    requires AllWritable(Descend(depth, s).0)
    ensures |Write(Descend(depth, s).0)| <= 2 * |s| + 2
    decreases |s|
  {
    var k := FirstSlash(s);
    if k < |s| && k < NAME_LIMIT && depth < DEPTH_LIMIT {
      var t := SkipSlashes(s[k + 1..]);
      var ops := Descend(depth + 1, t).0;
      assert Descend(depth, s).0 == [Enter(s[..k])] + ops;
      assert forall op :: op in ops ==> op in Descend(depth, s).0;
      DescendWeight(depth + 1, t);
      assert |Bytes(Enter(s[..k]))| == 2 + k;
      hide *;
      WriteFirst(Enter(s[..k]), ops);
    } else if k == |s| && |s| < NAME_LIMIT {
      assert Write([File(s)]) == Bytes(File(s)) + Write([File(s)][1..]);
    }
  }

  lemma StripShorter(path: seq<Byte>)
    ensures |Strip(path)| <= |path|
  {
  }

  lemma EmitIs(dirs: Directory, path: seq<Byte>, depth: nat, rest: seq<Byte>)
    requires Follow(dirs, Strip(path)) == (depth, rest)
    ensures depth <= |dirs| && |rest| <= |Strip(path)|
    ensures Emit(dirs, path) == (Climb(dirs, depth) + Descend(depth, rest).0, Descend(depth, rest).1)
  {
  }

  lemma ClimbIs(dirs: Directory, depth: nat)
    requires AllWritable(Climb(dirs, depth))
    ensures Write(Climb(dirs, depth)) == if depth < |dirs| then [2 + (|dirs| - depth)] else []
  {
    if depth < |dirs| {
      var up := Up(|dirs| - depth);
      assert Climb(dirs, depth) == [up] && [up][1..] == [] && up in [up];
      assert Write([up]) == Bytes(up) + Write([]);
    }
  }

  lemma WritableParts(a: seq<Op>, b: seq<Op>)
    requires AllWritable(a + b)
    ensures AllWritable(a) && AllWritable(b)
  {
    assert forall op :: op in a || op in b ==> op in a + b;
  }

  lemma EmitWeight(dirs: Directory, path: seq<Byte>)
    requires AllWritable(Emit(dirs, path).0)
    ensures |Write(Emit(dirs, path).0)| <= 2 * |path| + 3
  {
    hide *;
    var (depth, rest) := Follow(dirs, Strip(path));
    var ops := Descend(depth, rest).0;
    StripShorter(path);
    EmitIs(dirs, path, depth, rest);
    WritableParts(Climb(dirs, depth), ops);
    ClimbIs(dirs, depth);
    DescendWeight(depth, rest);
    WriteConcat(Climb(dirs, depth), ops);
  }

  lemma {:induction false} EmitAllWeight(dirs: Directory, paths: seq<seq<Byte>>)
    requires Fitting(dirs)
    ensures AllWritable(EmitAll(dirs, paths)) && |Write(EmitAll(dirs, paths))| <= Weight(paths)
    decreases |paths|
  {
    EmitAllWritable(dirs, paths);
    if paths != [] {
      EmitWritable(dirs, paths[0]);
      EmitWeight(dirs, paths[0]);
      EmitAllWeight(After(dirs, paths[0]), paths[1..]);
      WriteConcat(Emit(dirs, paths[0]).0, EmitAll(After(dirs, paths[0]), paths[1..]));
    }
  }

  /** The compressor gives up only on a list whose paths, so weighed, come near a gigabyte. */
  lemma ReasonIs(paths: seq<seq<Byte>>)
    ensures BeyondReason(paths) ==> Weight(paths) + 2304 > 0x4000_0000
  {
    EmitAllWeight([], paths);
  }

  // ----- the bytes of a record

  /** Each directory is a 2, its length and its name; the file is a 1, its length and its name. */
  function PathBytes(s: seq<Byte>): seq<int> {
    var k := FirstSlash(s);
    if k == |s| then [1, |s|] + s else [2, k] + s[..k] + PathBytes(s[k + 1..])
  }

  lemma WriteOne(op: Op, ops: seq<Op>)
    requires AllWritable([op] + ops)
    ensures Writable(op) && AllWritable(ops) && Write([op] + ops) == Bytes(op) + Write(ops)
  {
    assert ([op] + ops)[0] == op && ([op] + ops)[1..] == ops && op in [op] + ops;
    assert forall o :: o in ops ==> o in [op] + ops;
  }

  lemma SlashHere(s: seq<Byte>)
    ensures FirstSlash(s) <= |s| && (FirstSlash(s) < |s| ==> s[FirstSlash(s)] == SLASH)
  {
  }

  lemma DescendFile(depth: nat, s: seq<Byte>)
    requires FirstSlash(s) == |s| && Descend(depth, s).1.Ok? && AllWritable(Descend(depth, s).0)
    ensures Write(Descend(depth, s).0) == PathBytes(s)
  {
    WriteOne(File(s), []);
    assert [File(s)] + [] == [File(s)];
  }

  lemma DescendEnter(depth: nat, s: seq<Byte>, k: nat)
    requires NoTwoSlashes(s) && k == FirstSlash(s) < |s| && NoTwoSlashes(s[k + 1..]) && Descend(depth, s).1.Ok?
    ensures var t := s[k + 1..];
      && Descend(depth, s) == ([Enter(s[..k])] + Descend(depth + 1, t).0, Descend(depth + 1, t).1)
      && |t| < |s| && PathBytes(s) == [2, k] + s[..k] + PathBytes(t)
      && (Writable(Enter(s[..k])) ==> Bytes(Enter(s[..k])) == [2, k] + s[..k])
  {
    var t := s[k + 1..];
    assert SkipSlashes(t) == t;
    hide FirstSlash, SkipSlashes;
  }

  lemma {:induction false} DescendBytes(depth: nat, s: seq<Byte>)
    requires NoTwoSlashes(s) && Descend(depth, s).1.Ok? && AllWritable(Descend(depth, s).0)
    ensures Write(Descend(depth, s).0) == PathBytes(s)
    decreases |s|
  {
    hide *;
    var k := FirstSlash(s);
    if k == |s| {
      DescendFile(depth, s);
    } else {
      SlashHere(s);
      AfterSlash(s, k);
      DescendEnter(depth, s, k);
      WriteOne(Enter(s[..k]), Descend(depth + 1, s[k + 1..]).0);
      DescendBytes(depth + 1, s[k + 1..]);
    }
  }

  /** What an add puts behind the record: one byte if it leaves directories, and then the rest of the path. */
  lemma EmitBytes(dirs: Directory, path: seq<Byte>)
    requires Fitting(dirs) && Components(dirs) && Normalised(path) && Fits(Strip(path))
    ensures AllWritable(Emit(dirs, path).0)
    ensures var (depth, rest) := Follow(dirs, Strip(path));
      Write(Emit(dirs, path).0) == (if depth < |dirs| then [2 + (|dirs| - depth)] else []) + PathBytes(rest)
  {
    hide *;
    var (depth, rest) := Follow(dirs, Strip(path));
    EmitWritable(dirs, path);
    EmitIs(dirs, path, depth, rest);
    StorableFits(path);
    NormalisedIsNamed(dirs, path);
    EmitRefused(dirs, path);
    RestNormalised(dirs, path);
    WritableParts(Climb(dirs, depth), Descend(depth, rest).0);
    ClimbIs(dirs, depth);
    DescendBytes(depth, rest);
    WriteConcat(Climb(dirs, depth), Descend(depth, rest).0);
  }

  lemma EndNormalised(s: seq<Byte>, k: nat)
    requires k < |s| && s[|s| - 1] != 47 && s[0] != 47 && (k > 0 ==> s[k - 1] == 47)
    requires forall i :: 0 < i < |s| ==> s[i - 1] != 47 || s[i] != 47
    ensures NoTwoSlashes(s[k..])
  {
    var rest := s[k..];
    assert rest[|rest| - 1] == s[|s| - 1] && rest[0] == s[k];
    forall i | 0 < i < |rest| ensures rest[i - 1] != 47 || rest[i] != 47 {
      assert rest[i - 1] == s[k + i - 1] && rest[i] == s[k + i];
    }
  }

  lemma RestNormalised(dirs: Directory, path: seq<Byte>)
    requires Normalised(path)
    ensures NoTwoSlashes(Follow(dirs, Strip(path)).1)
  {
    var s := Strip(path);
    assert !NoFile(s) && s[0] != 47;
    FollowSuffix(dirs, s);
    FollowShorter(dirs, s);
    var rest := Follow(dirs, s).1;
    hide Follow, Strip, SkipSlashes;
    EndNormalised(s, |s| - |rest|);
  }

  lemma {:induction false} FollowShorter(dirs: Directory, s: seq<Byte>)
    requires !NoFile(s)
    ensures Follow(dirs, s).1 != []
  {
    if dirs != [] && Under(dirs[0], s) {
      FollowShorter(dirs[1..], s[|dirs[0]| + 1..]);
    }
  }

  /** A path stays in all open directories that it goes through. */
  lemma {:induction false} FollowMost(dirs: Directory, n: nat, t: seq<Byte>)
    requires n <= |dirs|
    ensures Follow(dirs, DirText(dirs[..n]) + t).0 >= n
  {
    if n > 0 {
      var d, s := dirs[0], DirText(dirs[1..][..n - 1]) + t;
      assert dirs[..n] == [d] + dirs[1..][..n - 1];
      DirTextFront(d, dirs[1..][..n - 1]);
      var all := DirText(dirs[..n]) + t;
      assert all == d + [47] + s && all[..|d|] == d && all[|d| + 1..] == s;
      FollowMost(dirs[1..], n - 1, t);
    }
  }

  function Repeat(n: nat): seq<Byte> { seq(n, _ => 255) }

  /** A length is the sum of bytes 255 and a last one that is neither that nor 0. */
  lemma {:induction false} LongLength(n: nat, b: Byte, rest: seq<Byte>)
    requires 0 < b < 255
    ensures ReadLength(Repeat(n) + [b] + rest) == Length(255 * n + b, rest)
  {
    var data := Repeat(n) + [b] + rest;
    if n == 0 {
      assert data[0] == b && data[1..] == rest;
    } else {
      assert data[0] == 255 && data[1..] == Repeat(n - 1) + [b] + rest;
      LongLength(n - 1, b, rest);
    }
  }
}
