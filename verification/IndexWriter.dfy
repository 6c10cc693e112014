/** Writing out the contents index: every file once, in order. */
module IndexWriter {
  import opened Strings
  import opened AvlTree
  import opened PathCode
  import opened FileIndex
  import Sequences

  /** A line of the Contents file: the path, and the packages after it. */
  datatype Line = Line(path: seq<Byte>, packages: Packages)

  function DirText(dir: Directory): seq<Byte> {
    if dir == [] then [] else DirText(dir[..|dir| - 1]) + dir[|dir| - 1] + [SLASH]
  }

  function PathText(l: Location): seq<Byte> { DirText(l.dir) + l.file }

  /** The order of the lines: in each directory first its files, then its subdirectories, each by name. */
  predicate Precedes(l: Location, m: Location)
    decreases |l.dir|
  {
    if l.dir == [] then m.dir != [] || Before(l.file, m.file)
    else if m.dir == [] then false
    else if l.dir[0] != m.dir[0] then Before(l.dir[0], m.dir[0])
    else Precedes(Location(l.dir[1..], l.file), Location(m.dir[1..], m.file))
  }

  ghost predicate InOrder(locs: seq<Location>) {
    forall i, j :: 0 <= i < j < |locs| ==> Precedes(locs[i], locs[j])
  }

  /** No location precedes itself, so lines in order are all different. */
  lemma {:induction false} PrecedesIrreflexive(l: Location)
    ensures !Precedes(l, l)
    decreases |l.dir|
  {
    if l.dir == [] {
      CompareEqual(l.file, l.file);
    } else {
      PrecedesIrreflexive(Location(l.dir[1..], l.file));
    }
  }

  /** Below a common directory the order is that of what comes after it. */
  lemma {:induction false} PrecedesBelow(p: Directory, l: Location, m: Location)
    ensures Precedes(Location(p + l.dir, l.file), Location(p + m.dir, m.file)) <==> Precedes(l, m)
  {
    if p == [] {
      assert [] + l.dir == l.dir && [] + m.dir == m.dir;
    } else {
      assert (p + l.dir)[1..] == p[1..] + l.dir && (p + m.dir)[1..] == p[1..] + m.dir;
      PrecedesBelow(p[1..], l, m);
    }
  }

  /** Files come before what is in subdirectories, and both come by name, with all that is below a name together. */
  lemma PrecedesIs(p: Directory, q: Directory, r: Directory, a: Name, b: Name, m: Name, n: Name)
    ensures Before(a, b) ==> Precedes(Location(p, a), Location(p, b))
    ensures Precedes(Location(p, a), Location(p + [n] + q, b))
    ensures Before(m, n) ==> Precedes(Location(p + [m] + q, a), Location(p + [n] + r, b))
  {
    PrecedesTop(q, r, a, b, m, n);
    hide *;
    PrecedesBelow(p, Location([], a), Location([], b));
    PrecedesBelow(p, Location([], a), Location([n] + q, b));
    PrecedesBelow(p, Location([m] + q, a), Location([n] + r, b));
    Sequences.Nothing(p);
    Sequences.Regroup(p, [n], q);
    Sequences.Regroup(p, [m], q);
    Sequences.Regroup(p, [n], r);
  }

  lemma PrecedesTop(q: Directory, r: Directory, a: Name, b: Name, m: Name, n: Name)
    ensures Before(a, b) ==> Precedes(Location([], a), Location([], b))
    ensures Precedes(Location([], a), Location([n] + q, b))
    ensures Before(m, n) ==> Precedes(Location([m] + q, a), Location([n] + r, b))
  {
    CompareEqual(m, n);
    hide Compare;
  }

  /** The lines of these locations, with the packages that the index has for them. */
  ghost function LinesOf(files: map<Directory, map<Name, Packages>>, locs: seq<Location>): seq<Line> {
    seq(|locs|, i requires 0 <= i < |locs| => Line(PathText(locs[i]), PackagesOf(files, locs[i])))
  }

  lemma LinesConcat(files: map<Directory, map<Name, Packages>>, a: seq<Location>, b: seq<Location>)
    ensures LinesOf(files, a + b) == LinesOf(files, a) + LinesOf(files, b)
  {
  }

  /** filelist_writefiles */
  function WriteFiles(prefix: seq<Byte>, node: Node?<Packages>, ghost s: Shape<Packages>): (out: seq<Line>)
    requires Linked(node, s)
    reads Nodes(s)
    ensures out == FileLines(prefix, Entries(s))
    decreases s
  {
    if node == null then []
    else
      WriteFiles(prefix, node.nextl, s.left)
      + [Line(prefix + node.name, node.value)]
      + WriteFiles(prefix, node.nextr, s.right)
  }

  ghost function FileLines(prefix: seq<Byte>, e: seq<Entry<Packages>>): seq<Line> {
    seq(|e|, i requires 0 <= i < |e| => Line(prefix + e[i].0, e[i].1))
  }

  ghost function FileLocations(p: Directory, e: seq<Entry<Packages>>): seq<Location> {
    seq(|e|, i requires 0 <= i < |e| => Location(p, e[i].0))
  }

  lemma {:induction false} EntryValue<V>(e: seq<Entry<V>>, i: nat)
    requires Sorted(e) && i < |e|
    ensures e[i].0 in MapOf(e) && MapOf(e)[e[i].0] == e[i].1
  {
    if i < |e| - 1 {
      EntryValue(e[..|e| - 1], i);
      CompareEqual(e[i].0, e[|e| - 1].0);
    }
  }

  // ----- what is to be written, from the sorted contents of the directories

  /** For each directory its files with their packages, and the names of its subdirectories, both in order. */
  datatype Listing = Listing(files: map<Directory, seq<Entry<Packages>>>, subs: map<Directory, seq<Name>>)

  ghost predicate Increasing(names: seq<Name>) {
    forall i, j :: 0 <= i < j < |names| ==> Before(names[i], names[j])
  }

  ghost predicate Sound(g: Listing) {
    && g.files.Keys == g.subs.Keys
    && (forall p :: p in g.files ==> Sorted(g.files[p]) && forall e :: e in g.files[p] ==> e.1 != [])
    && (forall p :: p in g.files ==> Increasing(g.subs[p]))
    && (forall p, n :: Child(p, n) in g.files <==> p in g.files && n in g.subs[p])
  }

  /** The packages of a location, from the listing. */
  ghost function Listed(g: Listing, l: Location): Packages {
    if l.dir in g.files then Lookup(MapOf(g.files[l.dir]), l.file) else []
  }

  /** The directories from p on down: fewer for a subdirectory. */
  ghost function Below(dirs: set<Directory>, p: Directory): set<Directory> {
    set q | q in dirs && p <= q
  }

  lemma BelowChild(dirs: set<Directory>, p: Directory, n: Name)
    requires p in dirs
    ensures |Below(dirs, Child(p, n))| < |Below(dirs, p)|
  {
    var a, b := Below(dirs, Child(p, n)), Below(dirs, p);
    assert p in b && p !in a;
    forall q | q in a ensures q in b {
      assert p == Child(p, n)[..|p|] == q[..|p|];
    }
    SubsetSize(a, b - {p});
  }

  lemma {:induction false} SubsetSize<T>(a: set<T>, b: set<T>)
    requires a <= b
    ensures |a| <= |b|
    decreases b
  {
    if a != {} {
      var x :| x in a;
      SubsetSize(a - {x}, b - {x});
    }
  }

  /** Of a directory first the files, then what is below each subdirectory. */
  ghost function DirLocations(g: Listing, p: Directory): seq<Location>
    requires Sound(g) && p in g.files
    decreases |Below(g.files.Keys, p)|, 1
  {
    FileLocations(p, g.files[p]) + SubLocations(g, p, g.subs[p])
  }

  ghost function SubLocations(g: Listing, p: Directory, names: seq<Name>): seq<Location>
    requires Sound(g) && p in g.files && forall n :: n in names ==> n in g.subs[p]
    decreases |Below(g.files.Keys, p)|, 0, |names|
  {
    if names == [] then []
    else
      BelowChild(g.files.Keys, p, names[0]);
      assert Child(p, names[0]) in g.files;
      DirLocations(g, Child(p, names[0])) + SubLocations(g, p, names[1..])
  }

  lemma {:induction false} SubLocationsConcat(g: Listing, p: Directory, a: seq<Name>, b: seq<Name>)
    requires Sound(g) && p in g.files && forall n :: n in a + b ==> n in g.subs[p]
    ensures (forall n :: n in a ==> n in g.subs[p]) && (forall n :: n in b ==> n in g.subs[p])
    ensures SubLocations(g, p, a + b) == SubLocations(g, p, a) + SubLocations(g, p, b)
  {
    assert (forall n :: n in a ==> n in a + b) && (forall n :: n in b ==> n in a + b);
    if a == [] {
      assert a + b == b;
    } else {
      assert (a + b)[0] == a[0] && (a + b)[1..] == a[1..] + b;
      SubLocationsConcat(g, p, a[1..], b);
    }
  }

  // ----- exactly the stored locations

  /** The way to l goes through one of these subdirectories of p. */
  ghost predicate Reaches(p: Directory, names: seq<Name>, l: Location) {
    exists n :: n in names && Child(p, n) <= l.dir
  }

  lemma {:induction false} PrefixIn(g: Listing, p: Directory, q: Directory)
    requires Sound(g) && q in g.files && p <= q
    ensures p in g.files
    decreases |q| - |p|
  {
    if |p| < |q| {
      assert Child(p, q[|p|]) <= q;
      PrefixIn(g, Child(p, q[|p|]), q);
    } else {
      assert p == q;
    }
  }

  /** A stored location below p is in p itself or reached through one of its subdirectories. */
  lemma WhereBelow(g: Listing, p: Directory, l: Location)
    requires Sound(g) && p in g.files && Listed(g, l) != []
    ensures p <= l.dir <==> l.dir == p || Reaches(p, g.subs[p], l)
  {
    if p <= l.dir && p != l.dir {
      var n := l.dir[|p|];
      assert Child(p, n) <= l.dir;
      PrefixIn(g, Child(p, n), l.dir);
    }
    if Reaches(p, g.subs[p], l) {
      var n :| n in g.subs[p] && Child(p, n) <= l.dir;
      assert p == Child(p, n)[..|p|] == l.dir[..|p|];
    }
  }

  lemma FilesCover(g: Listing, p: Directory, l: Location)
    requires Sound(g) && p in g.files
    ensures l in FileLocations(p, g.files[p]) <==> l.dir == p && Listed(g, l) != []
  {
    var e := g.files[p];
    if l.dir == p && l.file in MapOf(e) {
      MapOfKeys(e, l.file);
      var i :| 0 <= i < |e| && e[i].0 == l.file;
      EntryValue(e, i);
      assert FileLocations(p, e)[i] == l;
    }
    if l in FileLocations(p, e) {
      var i :| 0 <= i < |e| && FileLocations(p, e)[i] == l;
      EntryValue(e, i);
      assert e[i] in e;
    }
  }

  lemma {:induction false} DirCovers(g: Listing, p: Directory, l: Location)
    requires Sound(g) && p in g.files
    ensures l in DirLocations(g, p) <==> p <= l.dir && Listed(g, l) != []
    decreases |Below(g.files.Keys, p)|, 1
  {
    FilesCover(g, p, l);
    SubsCover(g, p, g.subs[p], l);
    if Listed(g, l) != [] {
      WhereBelow(g, p, l);
    }
  }

  lemma {:induction false} SubsCover(g: Listing, p: Directory, names: seq<Name>, l: Location)
    requires Sound(g) && p in g.files && forall n :: n in names ==> n in g.subs[p]
    ensures l in SubLocations(g, p, names) <==> Listed(g, l) != [] && Reaches(p, names, l)
    decreases |Below(g.files.Keys, p)|, 0, |names|
  {
    if names != [] {
      BelowChild(g.files.Keys, p, names[0]);
      assert Child(p, names[0]) in g.files;
      DirCovers(g, Child(p, names[0]), l);
      SubsCover(g, p, names[1..], l);
      assert forall n :: n in names <==> n == names[0] || n in names[1..];
    }
  }

  // ----- in order

  lemma InOrderConcat(a: seq<Location>, b: seq<Location>)
    requires InOrder(a) && InOrder(b) && forall l, m :: l in a && m in b ==> Precedes(l, m)
    ensures InOrder(a + b)
  {
  }

  lemma FilesBefore(p: Directory, l: Location, m: Location)
    requires l.dir == p && p <= m.dir && p != m.dir
    ensures Precedes(l, m)
  {
    assert l == Location(p + [], l.file) && m == Location(p + m.dir[|p|..], m.file);
    PrecedesBelow(p, Location([], l.file), Location(m.dir[|p|..], m.file));
  }

  lemma SubdirBefore(p: Directory, n: Name, k: Name, l: Location, m: Location)
    requires Before(n, k) && Child(p, n) <= l.dir && Child(p, k) <= m.dir
    ensures Precedes(l, m)
  {
    var x, y := Location(l.dir[|p|..], l.file), Location(m.dir[|p|..], m.file);
    assert p == Child(p, n)[..|p|] == l.dir[..|p|] && p == Child(p, k)[..|p|] == m.dir[..|p|];
    assert l == Location(p + x.dir, x.file) && m == Location(p + y.dir, y.file);
    assert x.dir[0] == Child(p, n)[|p|] == n && y.dir[0] == Child(p, k)[|p|] == k;
    CompareEqual(n, k);
    PrecedesBelow(p, x, y);
  }

  lemma FilesInOrder(p: Directory, e: seq<Entry<Packages>>)
    requires Sorted(e)
    ensures InOrder(FileLocations(p, e))
  {
    var locs := FileLocations(p, e);
    forall i, j | 0 <= i < j < |locs| ensures Precedes(locs[i], locs[j]) {
      assert p + [] == p;
      PrecedesBelow(p, Location([], e[i].0), Location([], e[j].0));
    }
  }

  lemma {:induction false} DirInOrder(g: Listing, p: Directory)
    requires Sound(g) && p in g.files
    ensures InOrder(DirLocations(g, p))
    decreases |Below(g.files.Keys, p)|, 1
  {
    var here, below := FileLocations(p, g.files[p]), SubLocations(g, p, g.subs[p]);
    FilesInOrder(p, g.files[p]);
    SubsInOrder(g, p, g.subs[p]);
    forall l, m | l in here && m in below ensures Precedes(l, m) {
      FilesCover(g, p, l);
      SubsCover(g, p, g.subs[p], m);
      WhereBelow(g, p, m);
      var n :| n in g.subs[p] && Child(p, n) <= m.dir;
      FilesBefore(p, l, m);
    }
    InOrderConcat(here, below);
  }

  lemma {:induction false} SubsInOrder(g: Listing, p: Directory, names: seq<Name>)
    requires Sound(g) && p in g.files && Increasing(names) && forall n :: n in names ==> n in g.subs[p]
    ensures InOrder(SubLocations(g, p, names))
    decreases |Below(g.files.Keys, p)|, 0, |names|
  {
    if names != [] {
      BelowChild(g.files.Keys, p, names[0]);
      assert Child(p, names[0]) in g.files;
      var first, rest := DirLocations(g, Child(p, names[0])), SubLocations(g, p, names[1..]);
      DirInOrder(g, Child(p, names[0]));
      SubsInOrder(g, p, names[1..]);
      forall l, m | l in first && m in rest ensures Precedes(l, m) {
        DirCovers(g, Child(p, names[0]), l);
        SubsCover(g, p, names[1..], m);
        var n :| n in names[1..] && Child(p, n) <= m.dir;
        SubdirBefore(p, names[0], n, l, m);
      }
      InOrderConcat(first, rest);
    }
  }

  // ----- the trees, written by recursion

  ghost function NamesOf<V>(e: seq<Entry<V>>): seq<Name> {
    seq(|e|, i requires 0 <= i < |e| => e[i].0)
  }

  /** The sorted contents of all directories of the index. */
  ghost function ListingOf(pic: Picture, r: set<object>): Listing
    requires AllOk(pic, r)
    reads r
  {
    assert forall p :: p in pic.dirs ==> OneOk(pic.dirs[p], p, pic.files[p], pic.subs[p], r);
    Listing(map p | p in pic.dirs :: Entries(pic.dirs[p].files.shape),
            map p | p in pic.dirs :: NamesOf(Entries(pic.dirs[p].subdirs.shape)))
  }

  /** These nodes hold subdirectories of p. */
  ghost predicate SubsOf(pic: Picture, p: Directory, s: Shape<Dir>) {
    forall n :: n in Nodes(s) ==> Child(p, n.name) in pic.dirs && pic.dirs[Child(p, n.name)] == n.value
  }

  ghost predicate Whole(root: Dir, pic: Picture, r: set<object>)
    reads r
  {
    AllOk(pic, r) && Nested(root, pic)
  }

  lemma SubsOfAll(root: Dir, pic: Picture, r: set<object>, p: Directory)
    requires Whole(root, pic, r) && p in pic.dirs
    ensures OneOk(pic.dirs[p], p, pic.files[p], pic.subs[p], r)
    ensures SubsOf(pic, p, pic.dirs[p].subdirs.shape)
  {
    assert OneOk(pic.dirs[p], p, pic.files[p], pic.subs[p], r);
    var s := pic.dirs[p].subdirs.shape;
    forall n | n in Nodes(s) ensures Child(p, n.name) in pic.dirs && pic.dirs[Child(p, n.name)] == n.value {
      NodeInContents(s, n);
      var i :| 0 <= i < |Entries(s)| && Entries(s)[i] == Item(n);
      EntryValue(Entries(s), i);
    }
  }

  /** The files of a directory and then its subdirectories. */
  function WriteDir(prefix: seq<Byte>, dir: Dir, ghost p: Directory, ghost pic: Picture, ghost root: Dir,
                    ghost r: set<object>)
    : (out: seq<Line>)
    requires Whole(root, pic, r) && p in pic.dirs && pic.dirs[p] == dir
    reads r
    decreases |Below(pic.dirs.Keys, p)|, 1
  {
    assert OneOk(dir, p, pic.files[p], pic.subs[p], r);
    SubsOfAll(root, pic, r, p);
    WriteFiles(prefix, dir.files.root, dir.files.shape)
    + WriteDirs(prefix, dir.subdirs.root, dir.subdirs.shape, p, pic, root, r)
  }

  /** filelist_writedirs */
  function WriteDirs(prefix: seq<Byte>, node: Node?<Dir>, ghost s: Shape<Dir>, ghost p: Directory,
                     ghost pic: Picture, ghost root: Dir, ghost r: set<object>)
    : (out: seq<Line>)
    requires Whole(root, pic, r) && p in pic.dirs && Nodes(s) <= r && Linked(node, s) && SubsOf(pic, p, s)
    reads r
    decreases |Below(pic.dirs.Keys, p)|, 0, s
  {
    if node == null then []
    else
      BelowChild(pic.dirs.Keys, p, node.name);
      WriteDirs(prefix, node.nextl, s.left, p, pic, root, r)
      + WriteDir(prefix + node.name + [SLASH], node.value, Child(p, node.name), pic, root, r)
      + WriteDirs(prefix, node.nextr, s.right, p, pic, root, r)
  }

  lemma SortedNames<V>(e: seq<Entry<V>>)
    requires Sorted(e)
    ensures Increasing(NamesOf(e)) && forall n :: n in NamesOf(e) <==> n in MapOf(e)
  {
    forall n ensures n in NamesOf(e) <==> n in MapOf(e) {
      MapOfKeys(e, n);
      if n in NamesOf(e) {
        var i :| 0 <= i < |NamesOf(e)| && NamesOf(e)[i] == n;
        assert e[i].0 == n;
      }
      if exists i :: 0 <= i < |e| && e[i].0 == n {
        var i :| 0 <= i < |e| && e[i].0 == n;
        assert NamesOf(e)[i] == n;
      }
    }
  }

  lemma NoEmptyEntry(e: seq<Entry<Packages>>, x: Entry<Packages>)
    requires Sorted(e) && x in e && forall k :: k in MapOf(e) ==> MapOf(e)[k] != []
    ensures x.1 != []
  {
    var i :| 0 <= i < |e| && e[i] == x;
    EntryValue(e, i);
  }

  lemma ListingSound(root: Dir, pic: Picture, r: set<object>)
    requires Whole(root, pic, r)
    ensures Sound(ListingOf(pic, r))
  {
    var g := ListingOf(pic, r);
    forall p | p in pic.dirs
      ensures Sorted(g.files[p]) && Increasing(g.subs[p])
      ensures forall e :: e in g.files[p] ==> e.1 != []
      ensures forall n :: n in g.subs[p] <==> n in pic.subs[p]
    {
      assert OneOk(pic.dirs[p], p, pic.files[p], pic.subs[p], r);
      forall e | e in g.files[p] ensures e.1 != [] { NoEmptyEntry(g.files[p], e); }
      SortedNames(Entries(pic.dirs[p].subdirs.shape));
    }
    forall p, n ensures Child(p, n) in g.files <==> p in g.files && n in g.subs[p] { }
  }

  lemma ListedPackages(pic: Picture, r: set<object>, l: Location)
    requires AllOk(pic, r)
    ensures Listed(ListingOf(pic, r), l) == PackagesOf(pic.files, l)
  {
    if l.dir in pic.dirs {
      assert OneOk(pic.dirs[l.dir], l.dir, pic.files[l.dir], pic.subs[l.dir], r);
    }
  }

  lemma DirTextMore(p: Directory, n: Name)
    ensures DirText(Child(p, n)) == DirText(p) + n + [SLASH]
  {
    assert Child(p, n)[..|p|] == p;
  }

  lemma FilesWritten(pic: Picture, p: Directory, e: seq<Entry<Packages>>)
    requires p in pic.files && Sorted(e) && pic.files[p] == MapOf(e)
    ensures FileLines(DirText(p), e) == LinesOf(pic.files, FileLocations(p, e))
  {
    forall i | 0 <= i < |e| ensures PackagesOf(pic.files, Location(p, e[i].0)) == e[i].1 {
      EntryValue(e, i);
    }
  }

  lemma {:induction false} DirWritten(prefix: seq<Byte>, p: Directory, pic: Picture, root: Dir, r: set<object>)
    requires Whole(root, pic, r) && p in pic.dirs && prefix == DirText(p) && Sound(ListingOf(pic, r))
    ensures WriteDir(prefix, pic.dirs[p], p, pic, root, r) == LinesOf(pic.files, DirLocations(ListingOf(pic, r), p))
    decreases |Below(pic.dirs.Keys, p)|, 1
  {
    var g, dir := ListingOf(pic, r), pic.dirs[p];
    assert OneOk(dir, p, pic.files[p], pic.subs[p], r);
    SubsOfAll(root, pic, r, p);
    FilesWritten(pic, p, g.files[p]);
    DirsWritten(prefix, dir.subdirs.root, dir.subdirs.shape, p, pic, root, r);
    LinesConcat(pic.files, FileLocations(p, g.files[p]), SubLocations(g, p, g.subs[p]));
  }

  lemma NamesOfConcat<V>(a: seq<Entry<V>>, b: seq<Entry<V>>)
    ensures NamesOf(a + b) == NamesOf(a) + NamesOf(b)
  {
    assert forall i :: 0 <= i < |a + b| ==> (a + b)[i].0 == if i < |a| then a[i].0 else b[i - |a|].0;
  }

  lemma NamesOfOne<V>(n: Node<V>)
    ensures NamesOf([Item(n)]) == [n.name]
  {
  }

  lemma NamesOfShape(s: Shape<Dir>)
    requires s.At?
    ensures NamesOf(Entries(s)) == NamesOf(Entries(s.left)) + ([s.node.name] + NamesOf(Entries(s.right)))
  {
    assert Entries(s) == Entries(s.left) + [Item(s.node)] + Entries(s.right);
    hide *;
    NamesOfConcat(Entries(s.left) + [Item(s.node)], Entries(s.right));
    NamesOfConcat(Entries(s.left), [Item(s.node)]);
    NamesOfOne(s.node);
    Sequences.Regroup(NamesOf(Entries(s.left)), [s.node.name], NamesOf(Entries(s.right)));
  }

  lemma SubsOfNames(pic: Picture, p: Directory, s: Shape<Dir>, r: set<object>)
    requires AllOk(pic, r) && Sound(ListingOf(pic, r)) && p in pic.dirs && SubsOf(pic, p, s)
    ensures forall n :: n in NamesOf(Entries(s)) ==> n in ListingOf(pic, r).subs[p]
  {
    forall n | n in NamesOf(Entries(s)) ensures n in ListingOf(pic, r).subs[p] {
      NameOfNode(s, n);
      assert Child(p, n) in ListingOf(pic, r).files;
    }
  }

  lemma {:induction false} NameOfNode<V>(s: Shape<V>, n: Name)
    requires n in NamesOf(Entries(s))
    ensures exists o :: o in Nodes(s) && o.name == n
  {
    var i :| 0 <= i < |Entries(s)| && Entries(s)[i].0 == n;
    if i < |Entries(s.left)| {
      assert NamesOf(Entries(s.left))[i] == n;
      NameOfNode(s.left, n);
    } else if i == |Entries(s.left)| {
      assert s.node.name == n;
    } else {
      assert NamesOf(Entries(s.right))[i - |Entries(s.left)| - 1] == n;
      NameOfNode(s.right, n);
    }
  }

  lemma NothingBelow(g: Listing, files: map<Directory, map<Name, Packages>>, p: Directory, s: Shape<Dir>)
    requires s.Nil? && Sound(g) && p in g.files
    ensures NamesOf(Entries(s)) == [] && LinesOf(files, SubLocations(g, p, [])) == []
  {
  }

  lemma {:induction false} DirsWritten(prefix: seq<Byte>, node: Node?<Dir>, s: Shape<Dir>, p: Directory,
                                       pic: Picture, root: Dir, r: set<object>)
    requires Whole(root, pic, r) && p in pic.dirs && Nodes(s) <= r && Linked(node, s) && SubsOf(pic, p, s)
    requires prefix == DirText(p) && Sound(ListingOf(pic, r))
    ensures (forall n :: n in NamesOf(Entries(s)) ==> n in ListingOf(pic, r).subs[p])
    ensures WriteDirs(prefix, node, s, p, pic, root, r)
      == LinesOf(pic.files, SubLocations(ListingOf(pic, r), p, NamesOf(Entries(s))))
    decreases |Below(pic.dirs.Keys, p)|, 0, s
  {
    var g := ListingOf(pic, r);
    SubsOfNames(pic, p, s, r);
    if node == null {
      NothingBelow(g, pic.files, p, s);
    } else {
      BelowChild(pic.dirs.Keys, p, node.name);
      DirTextMore(p, node.name);
      DirsWritten(prefix, node.nextl, s.left, p, pic, root, r);
      DirWritten(prefix + node.name + [SLASH], Child(p, node.name), pic, root, r);
      DirsWritten(prefix, node.nextr, s.right, p, pic, root, r);
      NamesOfShape(s);
      SplitLines(g, pic.files, p, NamesOf(Entries(s.left)), node.name, NamesOf(Entries(s.right)));
    }
  }

  lemma SplitLines(g: Listing, files: map<Directory, map<Name, Packages>>, p: Directory,
                   a: seq<Name>, n: Name, b: seq<Name>)
    requires Sound(g) && p in g.files && forall k :: k in a + ([n] + b) ==> k in g.subs[p]
    ensures n in a + ([n] + b) && Child(p, n) in g.files
    ensures (forall k :: k in a ==> k in g.subs[p]) && (forall k :: k in b ==> k in g.subs[p])
    ensures LinesOf(files, SubLocations(g, p, a + ([n] + b)))
      == LinesOf(files, SubLocations(g, p, a)) + LinesOf(files, DirLocations(g, Child(p, n)))
         + LinesOf(files, SubLocations(g, p, b))
  {
    SubLocationsConcat(g, p, a, [n] + b);
    assert ([n] + b)[0] == n && ([n] + b)[1..] == b && n in a + ([n] + b);
    assert Child(p, n) in g.files;
    assert SubLocations(g, p, [n] + b) == DirLocations(g, Child(p, n)) + SubLocations(g, p, b);
    LinesConcat(files, SubLocations(g, p, a), SubLocations(g, p, [n] + b));
    LinesConcat(files, DirLocations(g, Child(p, n)), SubLocations(g, p, b));
  }

  /** Every path that has packages, once, in order, with its packages. */
  ghost predicate Complete(out: seq<Line>, locs: seq<Location>, files: map<Directory, map<Name, Packages>>) {
    && InOrder(locs)
    && (forall l :: l in locs <==> PackagesOf(files, l) != [])
    && out == LinesOf(files, locs)
  }

  /** The order is asymmetric. */
  lemma {:induction false} PrecedesAsymmetric(l: Location, m: Location)
    ensures !(Precedes(l, m) && Precedes(m, l))
    decreases |l.dir|
  {
    if l.dir == [] && m.dir == [] {
      CompareSwap(l.file, m.file);
    } else if l.dir != [] && m.dir != [] {
      if l.dir[0] == m.dir[0] {
        PrecedesAsymmetric(Location(l.dir[1..], l.file), Location(m.dir[1..], m.file));
      } else {
        CompareSwap(l.dir[0], m.dir[0]);
      }
    }
  }

  lemma FirstOnce(a: seq<Location>, b: seq<Location>)
    requires InOrder(a) && InOrder(b) && (forall l :: l in a <==> l in b) && a != [] && b != []
    ensures a[0] == b[0]
  {
    assert a[0] in b && b[0] in a;
    if a[0] != b[0] {
      var i :| 0 <= i < |a| && a[i] == b[0];
      var j :| 0 <= j < |b| && b[j] == a[0];
      PrecedesAsymmetric(a[0], b[0]);
    }
  }

  /** There is only one such output. */
  lemma {:induction false} InOrderOnce(a: seq<Location>, b: seq<Location>)
    requires InOrder(a) && InOrder(b) && forall l :: l in a <==> l in b
    ensures a == b
  {
    assert a != [] ==> a[0] in b;
    assert b != [] ==> b[0] in a;
    if a != [] {
      FirstOnce(a, b);
      forall l ensures l in a[1..] <==> l in b[1..] {
        PrecedesIrreflexive(a[0]);
        assert (l in a <==> l == a[0] || l in a[1..]) && (l in b <==> l == b[0] || l in b[1..]);
      }
      InOrderOnce(a[1..], b[1..]);
    }
  }

  lemma CompleteOnce(out: seq<Line>, out': seq<Line>, a: seq<Location>, b: seq<Location>,
                     files: map<Directory, map<Name, Packages>>)
    requires Complete(out, a, files) && Complete(out', b, files)
    ensures out == out'
  {
    InOrderOnce(a, b);
  }

  /** filelist_write */
  function WriteIndex(list: FileList): (out: seq<Line>)
    requires list.Valid()
    reads list, list.repr
    ensures exists locs :: Complete(out, locs, list.pic.files)
  {
    assert OneOk(list.root, [], list.pic.files[[]], list.pic.subs[[]], list.repr);
    WrittenComplete(list);
    WriteDir([], list.root, [], list.pic, list.root, list.repr)
  }

  lemma WrittenComplete(list: FileList)
    requires list.Valid()
    ensures exists locs :: Complete(WriteDir([], list.root, [], list.pic, list.root, list.repr), locs, list.pic.files)
  {
    var pic, r := list.pic, list.repr;
    ListingSound(list.root, pic, r);
    var g := ListingOf(pic, r);
    var locs := DirLocations(g, []);
    DirInOrder(g, []);
    DirWritten([], [], pic, list.root, r);
    forall l ensures l in locs <==> PackagesOf(pic.files, l) != [] {
      DirCovers(g, [], l);
      ListedPackages(pic, r, l);
    }
    assert Complete(WriteDir([], list.root, [], pic, list.root, r), locs, pic.files);
  }
}
