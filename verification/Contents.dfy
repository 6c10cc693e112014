/** The whole way: the lists of files of many packages, compressed, indexed, and written out. */
module Contents {
  import opened Strings
  import opened PathCode
  import opened PathEncoder
  import opened ListRecord
  import opened FileIndex
  import opened IndexWriter
  import opened PathTexts
  import opened StoredPaths
  import Sequences

  /** A package with the paths of its files. */
  datatype Listed = Listed(package: Package, paths: seq<seq<Byte>>)

  predicate Normal(p: Listed) { forall path :: path in p.paths ==> Normalised(path) && IsCString(path) }

  predicate AllNormal(all: seq<Listed>) { forall p :: p in all ==> Normal(p) }

  /** The record of the files of a package, compressed from their paths. */
  ghost predicate Recorded(p: Listed, record: seq<Byte>) {
    Normal(p) && AllWritable(EmitAll([], p.paths)) && record == Write(EmitAll([], p.paths)) + [0]
  }

  /** The packages that list a file, in the order given. */
  ghost function Naming(all: seq<Listed>, l: Location): Packages {
    if all == [] then []
    else
      var last := all[|all| - 1];
      Naming(all[..|all| - 1], l) + Mentions(StorableMeanings(last.paths), l, last.package)
  }

  predicate CFiles(ops: seq<Op>) { forall op :: op in ops && op.File? ==> IsCString(op.name) }

  lemma SkipSlashesTail(s: seq<Byte>)
    ensures IsCString(s) ==> IsCString(SkipSlashes(s))
  {
  }

  lemma {:induction false} DescendCFiles(depth: nat, s: seq<Byte>)
    requires IsCString(s)
    ensures CFiles(Descend(depth, s).0)
    decreases |s|
  {
    var k := FirstSlash(s);
    if k < |s| && k < NAME_LIMIT && depth < DEPTH_LIMIT {
      SkipSlashesTail(s[k + 1..]);
      DescendCFiles(depth + 1, SkipSlashes(s[k + 1..]));
    }
  }

  lemma {:induction false} FollowTail(dirs: Directory, s: seq<Byte>)
    requires IsCString(s)
    ensures IsCString(Follow(dirs, s).1)
  {
    if dirs != [] && Under(dirs[0], s) {
      FollowTail(dirs[1..], s[|dirs[0]| + 1..]);
    }
  }

  lemma {:induction false} EmitAllCFiles(dirs: Directory, paths: seq<seq<Byte>>)
    requires forall path :: path in paths ==> IsCString(path)
    ensures CFiles(EmitAll(dirs, paths))
    decreases |paths|
  {
    if paths != [] {
      SkipSlashesTail(paths[0]);
      if paths[0] != [] {
        SkipSlashesTail(paths[0][1..]);
      }
      FollowTail(dirs, Strip(paths[0]));
      var (depth, rest) := Follow(dirs, Strip(paths[0]));
      DescendCFiles(depth, rest);
      EmitAllCFiles(After(dirs, paths[0]), paths[1..]);
    }
  }

  /** What a record adds to the index. */
  lemma RecordedAdds(p: Listed, record: seq<Byte>)
    requires Recorded(p, record)
    ensures Parse(record).intact && Run(Parse(record).ops, []).files == StorableMeanings(p.paths)
    ensures CFiles(Parse(record).ops)
  {
    NormalisedRoundTrip(p.paths);
    EmitAllCFiles([], p.paths);
    RoundTrip(p.paths);
    ParseWritten(EmitAll([], p.paths));
  }

  ghost predicate Indexes(files: map<Directory, map<Name, Packages>>, all: seq<Listed>) {
    forall l :: PackagesOf(files, l) == Naming(all, l)
  }

  lemma IndexesOneMore(files: map<Directory, map<Name, Packages>>, files': map<Directory, map<Name, Packages>>,
                       all: seq<Listed>, p: Listed)
    requires Indexes(files, all) && AddedAll(files, files', StorableMeanings(p.paths), p.package)
    ensures Indexes(files', all + [p])
  {
    assert (all + [p])[..|all|] == all;
  }

  /** A line for every file that some package lists, once, in order, with exactly the packages that list it. */
  ghost predicate ContentsFile(out: seq<Line>, locs: seq<Location>, all: seq<Listed>) {
    && InOrder(locs) && (forall l :: l in locs <==> Naming(all, l) != [])
    && |out| == |locs| && forall i :: 0 <= i < |locs| ==> out[i] == Line(PathText(locs[i]), Naming(all, locs[i]))
  }

  method AddListed(list: FileList, p: Listed, record: seq<Byte>, ghost all: seq<Listed>, ghost more: seq<Listed>)
    requires list.Valid() && Recorded(p, record) && Indexes(list.pic.files, all) && more == all + [p]
    modifies list`repr, list`pic, list.repr
    ensures list.Valid() && (forall o :: o in list.repr ==> o in old(list.repr) || fresh(o))
    ensures Indexes(list.pic.files, more)
  {
    RecordedAdds(p, record);
    ghost var before := list.pic.files;
    var intact := list.AddFiles(p.package, record);
    IndexesOneMore(before, list.pic.files, all, p);
  }

  ghost predicate AllRecorded(all: seq<Listed>, records: seq<seq<Byte>>) {
    |all| == |records| && forall i :: 0 <= i < |all| ==> Recorded(all[i], records[i])
  }

  lemma OneMore(all: seq<Listed>, records: seq<seq<Byte>>, i: nat)
    requires i <= |all| && AllRecorded(all, records)
    ensures all[..0] == [] && all[..|all|] == all && |all| == |records|
    ensures i < |all| ==> all[..i + 1] == all[..i] + [all[i]] && Recorded(all[i], records[i])
  {
  }

  lemma CompleteContents(out: seq<Line>, files: map<Directory, map<Name, Packages>>, all: seq<Listed>)
    requires Indexes(files, all) && exists locs :: Complete(out, locs, files)
    ensures exists locs :: ContentsFile(out, locs, all)
  {
    var locs :| Complete(out, locs, files);
    assert ContentsFile(out, locs, all);
  }

  /** Reads the records of all packages into the index. */
  method IndexListed(list: FileList, all: seq<Listed>, records: seq<seq<Byte>>)
    requires list.Valid() && Indexes(list.pic.files, []) && AllRecorded(all, records)
    modifies list`repr, list`pic, list.repr
    ensures list.Valid() && Indexes(list.pic.files, all)
  {
    hide *;
    ghost var files := list.pic.files;
    OneMore(all, records, 0);
    for i := 0 to |all|
      invariant list.Valid()
      invariant forall o :: o in list.repr ==> o in old(list.repr) || fresh(o)
      invariant files == list.pic.files && Indexes(files, all[..i])
    {
      OneMore(all, records, i);
      AddListed(list, all[i], records[i], all[..i], all[..i + 1]);
      files := list.pic.files;
    }
  }

  /** Compresses the list of every package, unless one gets beyond reason. */
  method CompressLists(all: seq<Listed>) returns (done: bool, records: seq<seq<Byte>>)
    requires AllNormal(all)
    ensures done ==> AllRecorded(all, records)
    ensures !done ==> exists p :: p in all && BeyondReason(p.paths)
  {
    records := [];
    for i := 0 to |all|
      invariant |records| == i && forall j :: 0 <= j < i ==> Recorded(all[j], records[j])
    {
      var record, ok;
      done, record, ok := CompressAll(all[i].paths);
      if !done {
        assert all[i] in all;
        return;
      }
      assert Normal(all[i]);
      records := records + [record];
    }
    done := true;
  }

  // ----- the lines as text

  /** How often a package lists a file that is printed like this. */
  ghost function MentionsText(paths: seq<seq<Byte>>, text: seq<Byte>, package: Package): Packages {
    if paths == [] then []
    else
      (if Storable(Meaning(paths[0])) && Strip(paths[0]) == text then [package] else [])
      + MentionsText(paths[1..], text, package)
  }

  /** The packages that list a file that is printed like this, in the order given. */
  ghost function NamingText(all: seq<Listed>, text: seq<Byte>): Packages {
    if all == [] then []
    else
      var last := all[|all| - 1];
      NamingText(all[..|all| - 1], text) + MentionsText(last.paths, text, last.package)
  }

  lemma MeaningIsText(path: seq<Byte>, l: Location)
    requires Normalised(path) && Slashless(l)
    ensures Meaning(path) == l <==> Strip(path) == PathText(l)
  {
    PathTextMeaning(path);
    if Strip(path) == PathText(l) {
      PathTextInjective(Meaning(path), l);
    }
  }

  lemma {:induction false} MentionsAsText(paths: seq<seq<Byte>>, l: Location, package: Package)
    requires (forall path :: path in paths ==> Normalised(path)) && Slashless(l)
    ensures Mentions(StorableMeanings(paths), l, package) == MentionsText(paths, PathText(l), package)
  {
    if paths != [] {
      var first := if Storable(Meaning(paths[0])) then [Meaning(paths[0])] else [];
      MeaningIsText(paths[0], l);
      MentionsAsText(paths[1..], l, package);
      MentionsConcat(first, StorableMeanings(paths[1..]), l, package);
      hide Meaning, Strip, Storable, PathText, Slashless, Normalised;
      assert Mentions([], l, package) == []
        && forall m :: Mentions([m], l, package) == if m == l then [package] else [];
    }
  }

  lemma {:induction false} NamingAsText(all: seq<Listed>, l: Location)
    requires AllNormal(all) && Slashless(l)
    ensures Naming(all, l) == NamingText(all, PathText(l))
  {
    if all != [] {
      assert Normal(all[|all| - 1]);
      NamingAsText(all[..|all| - 1], l);
      MentionsAsText(all[|all| - 1].paths, l, all[|all| - 1].package);
    }
  }

  lemma {:induction false} MentionsIn(named: seq<Location>, l: Location, package: Package)
    ensures Mentions(named, l, package) != [] ==> l in named
  {
    if named != [] {
      MentionsIn(named[..|named| - 1], l, package);
    }
  }

  lemma {:induction false} MeaningsSlashless(paths: seq<seq<Byte>>)
    requires forall path :: path in paths ==> Normalised(path)
    ensures forall l :: l in StorableMeanings(paths) ==> Slashless(l)
  {
    if paths != [] {
      PathTextMeaning(paths[0]);
      MeaningsSlashless(paths[1..]);
    }
  }

  lemma {:induction false} NamingSlashless(all: seq<Listed>, l: Location)
    requires AllNormal(all) && Naming(all, l) != []
    ensures Slashless(l)
  {
    if Naming(all[..|all| - 1], l) != [] {
      NamingSlashless(all[..|all| - 1], l);
    } else {
      var last := all[|all| - 1];
      assert Normal(last);
      MentionsIn(StorableMeanings(last.paths), l, last.package);
      MeaningsSlashless(last.paths);
    }
  }

  /** A path that is printed is one of the paths given. */
  lemma {:induction false} TextLocation(paths: seq<seq<Byte>>, text: seq<Byte>, package: Package) returns (l: Location)
    requires (forall path :: path in paths ==> Normalised(path)) && MentionsText(paths, text, package) != []
    ensures Slashless(l) && PathText(l) == text
  {
    if Storable(Meaning(paths[0])) && Strip(paths[0]) == text {
      PathTextMeaning(paths[0]);
      l := Meaning(paths[0]);
    } else {
      l := TextLocation(paths[1..], text, package);
    }
  }

  lemma {:induction false} NamingLocation(all: seq<Listed>, text: seq<Byte>) returns (l: Location)
    requires AllNormal(all) && NamingText(all, text) != []
    ensures Slashless(l) && PathText(l) == text
  {
    var last := all[|all| - 1];
    if NamingText(all[..|all| - 1], text) != [] {
      l := NamingLocation(all[..|all| - 1], text);
    } else {
      assert Normal(last);
      l := TextLocation(last.paths, text, last.package);
    }
  }

  /** Every path that some package lists is printed in exactly one line, with the packages that list it. */
  ghost predicate ContentsLines(out: seq<Line>, all: seq<Listed>) {
    && (forall i, j :: 0 <= i < j < |out| ==> out[i].path != out[j].path)
    && (forall i :: 0 <= i < |out| ==> out[i].packages == NamingText(all, out[i].path) && out[i].packages != [])
    && forall t :: NamingText(all, t) != [] ==> exists i :: 0 <= i < |out| && out[i].path == t
  }

  lemma LocationLine(out: seq<Line>, locs: seq<Location>, all: seq<Listed>, i: nat)
    requires ContentsFile(out, locs, all) && AllNormal(all) && i < |out|
    ensures Slashless(locs[i]) && out[i].path == PathText(locs[i])
    ensures out[i].packages == NamingText(all, out[i].path) && out[i].packages != []
  {
    assert locs[i] in locs;
    NamingSlashless(all, locs[i]);
    NamingAsText(all, locs[i]);
  }

  lemma LinesApart(out: seq<Line>, locs: seq<Location>, all: seq<Listed>, i: nat, j: nat)
    requires ContentsFile(out, locs, all) && AllNormal(all) && i < j < |out|
    ensures out[i].path != out[j].path
  {
    LocationLine(out, locs, all, i);
    LocationLine(out, locs, all, j);
    assert Precedes(locs[i], locs[j]);
    PrecedesIrreflexive(locs[i]);
    if out[i].path == out[j].path {
      PathTextInjective(locs[i], locs[j]);
    }
  }

  lemma TextLine(out: seq<Line>, locs: seq<Location>, all: seq<Listed>, t: seq<Byte>) returns (i: nat)
    requires ContentsFile(out, locs, all) && AllNormal(all) && NamingText(all, t) != []
    ensures i < |out| && out[i].path == t
  {
    var l := NamingLocation(all, t);
    NamingAsText(all, l);
    assert l in locs;
    i :| 0 <= i < |locs| && locs[i] == l;
  }

  lemma LinesAsText(out: seq<Line>, locs: seq<Location>, all: seq<Listed>)
    requires ContentsFile(out, locs, all) && AllNormal(all)
    ensures ContentsLines(out, all)
  {
    hide ContentsFile, AllNormal, NamingText;
    forall i, j | 0 <= i < j < |out| ensures out[i].path != out[j].path {
      LinesApart(out, locs, all, i, j);
    }
    forall i | 0 <= i < |out| ensures out[i].packages == NamingText(all, out[i].path) && out[i].packages != [] {
      LocationLine(out, locs, all, i);
    }
    forall t | NamingText(all, t) != [] ensures exists i :: 0 <= i < |out| && out[i].path == t {
      var i := TextLine(out, locs, all, t);
    }
  }

  // ----- the packages of a line

  /** How often a path is listed. */
  function Times(paths: seq<seq<Byte>>, text: seq<Byte>): nat {
    multiset(seq(|paths|, i requires 0 <= i < |paths| => Strip(paths[i])))[text]
  }

  lemma TimesNext(paths: seq<seq<Byte>>, text: seq<Byte>)
    requires paths != []
    ensures Times(paths, text) == Times(paths[1..], text) + if Strip(paths[0]) == text then 1 else 0
  {
    hide Strip;
    var all := seq(|paths|, i requires 0 <= i < |paths| => Strip(paths[i]));
    var more := seq(|paths[1..]|, i requires 0 <= i < |paths[1..]| => Strip(paths[1..][i]));
    assert all == [Strip(paths[0])] + more;
  }

  /** A package is named as often as it lists the path, if that is stored. */
  lemma {:induction false} MentionsAre(paths: seq<seq<Byte>>, text: seq<Byte>, package: Package)
    requires forall path :: path in paths ==> Normalised(path)
    ensures var m := MentionsText(paths, text, package);
      && |m| == (if Fits(text) then Times(paths, text) else 0) && forall x :: x in m ==> x == package
  {
    if paths != [] {
      TimesNext(paths, text);
      assert paths[0] in paths && forall path :: path in paths[1..] ==> path in paths;
      StorableFits(paths[0]);
      MentionsAre(paths[1..], text, package);
      hide Times, Fits, Strip, Storable, Meaning, Normalised;
    }
  }

  /** The packages that come first are named first. */
  lemma {:induction false} NamingConcat(a: seq<Listed>, b: seq<Listed>, text: seq<Byte>)
    ensures NamingText(a + b, text) == NamingText(a, text) + NamingText(b, text)
  {
    hide MentionsText;
    if b == [] {
      Sequences.Nothing(a);
    } else {
      var k := |b| - 1;
      assert (a + b)[..|a| + k] == a + b[..k] && (a + b)[|a| + k] == b[k];
      NamingConcat(a, b[..k], text);
    }
  }

  lemma NamingOne(p: Listed, text: seq<Byte>)
    ensures NamingText([p], text) == MentionsText(p.paths, text, p.package)
  {
    hide MentionsText;
    assert [p][..0] == [];
  }

  /** A line names a package as often as it lists the path, after those before it and before those after it. */
  lemma PackagesAre(a: seq<Listed>, p: Listed, b: seq<Listed>, text: seq<Byte>)
    requires Normal(p)
    ensures var m := NamingText([p], text);
      && NamingText(a + ([p] + b), text) == NamingText(a, text) + (m + NamingText(b, text))
      && |m| == (if Fits(text) then Times(p.paths, text) else 0) && forall x :: x in m ==> x == p.package
  {
    NormalPaths(p);
    hide *;
    NamingConcat(a, [p] + b, text);
    NamingConcat([p], b, text);
    NamingOne(p, text);
    MentionsAre(p.paths, text, p.package);
  }

  lemma NormalPaths(p: Listed)
    requires Normal(p)
    ensures forall path :: path in p.paths ==> Normalised(path)
  {
    hide Normalised;
  }

  /** Every path that fits has a line, with every package that lists it. */
  ghost predicate Stores(out: seq<Line>, all: seq<Listed>) {
    forall p, path :: p in all && path in p.paths && Fits(Strip(path)) ==>
      exists i :: 0 <= i < |out| && out[i].path == Strip(path) && p.package in out[i].packages
  }

  lemma {:induction false} MentionedText(paths: seq<seq<Byte>>, path: seq<Byte>, package: Package)
    requires path in paths && Storable(Meaning(path))
    ensures package in MentionsText(paths, Strip(path), package)
  {
    if path != paths[0] {
      assert path in paths[1..];
      MentionedText(paths[1..], path, package);
    }
  }

  lemma {:induction false} NamedText(all: seq<Listed>, p: Listed, path: seq<Byte>)
    requires p in all && path in p.paths && Storable(Meaning(path))
    ensures p.package in NamingText(all, Strip(path))
  {
    var last := all[|all| - 1];
    if p == last {
      MentionedText(p.paths, path, p.package);
    } else {
      assert p in all[..|all| - 1];
      NamedText(all[..|all| - 1], p, path);
    }
  }

  lemma LinesStore(out: seq<Line>, all: seq<Listed>)
    requires AllNormal(all) && ContentsLines(out, all)
    ensures Stores(out, all)
  {
    forall p, path | p in all && path in p.paths && Fits(Strip(path))
      ensures exists i :: 0 <= i < |out| && out[i].path == Strip(path) && p.package in out[i].packages
    {
      assert Normal(p);
      StorableFits(path);
      NamedText(all, p, path);
      hide NamingText, Fits, Strip, Storable, Meaning, Normal;
      var i :| 0 <= i < |out| && out[i].path == Strip(path);
    }
  }

  /**
    * Compresses the lists, indexes the records one after the other and writes the Contents file; it gives up only
    * if the record of some list is beyond reason, and so its paths are.
    */
  method WriteContents(all: seq<Listed>) returns (done: bool, out: seq<Line>)
    requires AllNormal(all)
    ensures !done ==> exists p :: p in all && BeyondReason(p.paths) && Weight(p.paths) + 2304 > 0x4000_0000
    ensures done ==> Stores(out, all)
    ensures done ==> ContentsLines(out, all) && exists locs :: ContentsFile(out, locs, all)
  {
    var records;
    done, records := CompressLists(all);
    if !done {
      ghost var p :| p in all && BeyondReason(p.paths);
      ReasonIs(p.paths);
      return false, [];
    }
    var list := new FileList();
    IndexListed(list, all, records);
    out := WriteIndex(list);
    CompleteContents(out, list.pic.files, all);
    ghost var locs :| ContentsFile(out, locs, all);
    LinesAsText(out, locs, all);
    LinesStore(out, all);
  }
}
