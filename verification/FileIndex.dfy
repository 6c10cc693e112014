/** The contents index of filelist.c: directories of files of packages, filled from byte-coded lists. */
module FileIndex {
  import opened Strings
  import opened AvlTree
  import opened StackBound
  import opened Searches
  import opened PathCode
  import Sequences

  /** "section/name", as put into the index. */
  type Package = seq<Byte>
  type Packages = seq<Package>

  /** A directory: the part of `struct dirlist` that is not its place in a tree. */
  class Dir {
    const parent: Dir?
    const files: Tree<Packages>
    const subdirs: Tree<Dir>
    /** The names leading here from the root. */
    ghost const path: Directory

    constructor (parent: Dir?, ghost path: Directory)
      ensures this.parent == parent && this.path == path && fresh(files) && fresh(subdirs)
      ensures files.root == null && files.shape == Nil && files.home == OfFiles(path)
      ensures subdirs.root == null && subdirs.shape == Nil && subdirs.home == OfDirs(path)
    {
      this.parent, this.path := parent, path;
      files := new Tree(OfFiles(path));
      subdirs := new Tree(OfDirs(path));
    }
  }

  twostate predicate FreshDir(new d: Dir, parent: Dir, path: Directory)
    reads d.files, d.subdirs
  {
    && fresh(d) && fresh(d.files) && fresh(d.subdirs) && d.parent == parent && d.path == path && Bare(d)
    && d.files.home == OfFiles(path) && d.subdirs.home == OfDirs(path)
  }

  /** Both trees are empty. */
  ghost predicate Bare(d: Dir)
    reads d.files, d.subdirs
  {
    d.files.root == null && d.files.shape == Nil && d.subdirs.root == null && d.subdirs.shape == Nil
  }

  lemma {:induction false} NodeInContents<V>(s: Shape<V>, n: Node<V>)
    requires n in Nodes(s)
    ensures Item(n) in Entries(s) && n.name in MapOf(Entries(s))
  {
    if n != s.node {
      if n in Nodes(s.left) {
        NodeInContents(s.left, n);
      } else {
        NodeInContents(s.right, n);
      }
    }
    MapOfKeys(Entries(s), n.name);
  }

  /** The packages that name a file, or none if it is not there. */
  ghost function Lookup(m: map<Name, Packages>, file: Name): Packages {
    if file in m then m[file] else []
  }

  /** The order of findfile, and anything for what is no C string. */
  function FileOrdering(name: Name): Name -> Ordering
    requires IsCString(name)
  {
    (n: Name) => if IsCString(n) then FileOrder(name, n) else Equal
  }

  lemma FilesOrdered(tree: Tree<Packages>, name: Name)
    requires tree.Valid() && IsCString(name) && forall k :: k in tree.Contents() ==> IsCString(k)
    ensures forall n :: n in Nodes(tree.shape) ==> FileOrdering(name)(n.name) == Compare(name, n.name)
  {
    forall n | n in Nodes(tree.shape) ensures IsCString(n.name) && FileOrder(name, n.name) == Compare(name, n.name) {
      NodeInContents(tree.shape, n);
      FileOrderIsCompare(name, n.name);
    }
  }

  function DirOrdering(name: Name): Name -> Ordering {
    (n: Name) => DirOrder(name, n)
  }

  lemma DirsOrdered(tree: Tree<Dir>, name: Name)
    ensures forall n :: n in Nodes(tree.shape) ==> DirOrdering(name)(n.name) == Compare(name, n.name)
  {
    forall n | n in Nodes(tree.shape) ensures DirOrder(name, n.name) == Compare(name, n.name) {
      DirOrderIsCompare(name, n.name);
    }
  }

  /** With fewer nodes than there are addresses the stack of links is long enough. */
  lemma TreeFits<V>(tree: Tree<V>)
    requires tree.Valid()
    ensures |Nodes(tree.shape)| < 0x1_0000_0000_0000_0000 ==> Height(tree.shape) + 1 <= 128
  {
    if |Nodes(tree.shape)| < 0x1_0000_0000_0000_0000 {
      StackSuffices(tree.shape);
    }
  }

  /** The search of findfile, and how many links it has put on its stack. */
  method SearchFile(tree: Tree<Packages>, name: Name)
    returns (p: Node?<Packages>, stack: seq<Link<Packages>>, ghost c: Path<Packages>, ghost s: Shape<Packages>)
    requires tree.Valid() && IsCString(name)
    requires forall k :: k in tree.Contents() ==> IsCString(k)
    ensures Searching(tree.root, c, p, s, tree.shape, name, stack) && (p != null ==> p.name == name)
    ensures |Nodes(tree.shape)| < 0x1_0000_0000_0000_0000 ==> |stack| <= 128
    ensures unchanged(tree) && tree.Valid()
  {
    FilesOrdered(tree, name);
    assert allocated(Nodes(tree.shape));
    hide *;
    p, stack, c, s := tree.Descend(name, FileOrdering(name));
    TreeFits(tree);
  }

  lemma SearchedEmpty<V>(root: Node?<V>, c: Path<V>, s: Shape<V>, whole: Shape<V>, key: Name, stack: seq<Link<V>>)
    requires Searching(root, c, null, s, whole, key, stack)
    ensures s == Nil
  {
  }

  lemma LookupIs(m: map<Name, Packages>, name: Name, package: Package)
    ensures if name in m then Lookup(m, name) == m[name] else Lookup(m, name) + [package] == [package]
  {
  }

  /** findfile: adds the package to the file, which is created if need be. */
  method FindFile(tree: Tree<Packages>, package: Package, name: Name)
    requires tree.Valid() && IsCString(name)
    requires forall k :: k in tree.Contents() ==> IsCString(k)
    modifies tree, Nodes(tree.shape)
    ensures tree.Valid()
    ensures forall n :: n in Nodes(tree.shape) ==> n in old(Nodes(tree.shape)) || fresh(n)
    ensures tree.Contents() == old(tree.Contents())[name := old(Lookup(tree.Contents(), name)) + [package]]
  {
    hide *;
    LookupIs(tree.Contents(), name, package);
    var p, stack;
    ghost var c, s;
    p, stack, c, s := SearchFile(tree, name);
    if p != null {
      tree.Change(p, p.value + [package], stack, c, s);
    } else {
      SearchedEmpty(tree.root, c, s, tree.shape, name, stack);
      tree.Add(name, [package], stack, c);
    }
  }

  /** The search of finddir. */
  method SearchDir(tree: Tree<Dir>, name: Name)
    returns (p: Node?<Dir>, stack: seq<Link<Dir>>, ghost c: Path<Dir>, ghost s: Shape<Dir>)
    requires tree.Valid()
    ensures Searching(tree.root, c, p, s, tree.shape, name, stack) && (p != null ==> p.name == name)
    ensures p != null ==> name in tree.Contents() && tree.Contents()[name] == p.value
    ensures |Nodes(tree.shape)| < 0x1_0000_0000_0000_0000 ==> |stack| <= 128
    ensures unchanged(tree) && tree.Valid()
  {
    DirsOrdered(tree, name);
    assert allocated(Nodes(tree.shape));
    hide *;
    p, stack, c, s := tree.Descend(name, DirOrdering(name));
    TreeFits(tree);
    if p != null {
      FoundValue(tree, c, p, s, name, stack);
    }
  }

  lemma FoundValue<V>(tree: Tree<V>, c: Path<V>, p: Node<V>, s: Shape<V>, key: Name, stack: seq<Link<V>>)
    requires tree.Valid() && Searching(tree.root, c, p, s, tree.shape, key, stack) && p.name == key
    ensures key in tree.Contents() && tree.Contents()[key] == p.value
  {
    ChangedNode(tree.shape, c, s, key, p);
  }

  method MakeDir(dir: Dir, name: Name) returns (d: Dir)
    ensures FreshDir(d, dir, dir.path + [name])
  {
    d := new Dir(dir, dir.path + [name]);
  }

  method Hang(tree: Tree<Dir>, name: Name, d: Dir, stack: seq<Link<Dir>>, ghost c: Path<Dir>)
    requires tree.Valid() && Searching(tree.root, c, null, Nil, tree.shape, name, stack) && d.subdirs != tree && Bare(d)
    modifies tree, Nodes(tree.shape)
    ensures tree.Valid() && Bare(d)
    ensures forall n :: n in Nodes(tree.shape) ==> n in old(Nodes(tree.shape)) || fresh(n)
    ensures name !in old(tree.Contents()) && tree.Contents() == old(tree.Contents())[name := d]
  {
    ghost var own: set<object> := {d.files, d.subdirs};
    hide *;
    tree.Add(name, d, stack, c);
    assert unchanged(own);
  }

  method AddDir(dir: Dir, name: Name, stack: seq<Link<Dir>>, ghost c: Path<Dir>) returns (d: Dir)
    requires var tree := dir.subdirs;
      tree.Valid() && Searching(tree.root, c, null, Nil, tree.shape, name, stack)
    modifies dir.subdirs, Nodes(dir.subdirs.shape)
    ensures dir.subdirs.Valid() && FreshDir(d, dir, dir.path + [name])
    ensures forall n :: n in Nodes(dir.subdirs.shape) ==> n in old(Nodes(dir.subdirs.shape)) || fresh(n)
    ensures name !in old(dir.subdirs.Contents())
    ensures dir.subdirs.Contents() == old(dir.subdirs.Contents())[name := d]
  {
    ghost var nodes, path := Nodes(dir.subdirs.shape), PathNodes(c);
    assert allocated(nodes) && allocated(path);
    hide Searching, Nodes, Tree.Valid, Tree.Contents, PathNodes, Bare;
    d := MakeDir(dir, name);
    assert unchanged(dir.subdirs) && unchanged(nodes) && unchanged(path);
    Hang(dir.subdirs, name, d, stack, c);
  }

  /** finddir: the subdirectory of that name, which is created if need be. */
  method FindDir(dir: Dir, name: Name) returns (d: Dir)
    requires dir.subdirs.Valid()
    modifies dir.subdirs, Nodes(dir.subdirs.shape)
    ensures dir.subdirs.Valid()
    ensures forall n :: n in Nodes(dir.subdirs.shape) ==> n in old(Nodes(dir.subdirs.shape)) || fresh(n)
    ensures dir.subdirs.Contents() == old(dir.subdirs.Contents())[name := d]
    ensures if name in old(dir.subdirs.Contents()) then d == old(dir.subdirs.Contents())[name]
            else FreshDir(d, dir, dir.path + [name])
  {
    hide Searching, Nodes, Tree.Valid, Tree.Contents;
    var p, stack;
    ghost var c, s;
    p, stack, c, s := SearchDir(dir.subdirs, name);
    if p != null {
      d := p.value;
    } else {
      SearchedEmpty(dir.subdirs.root, c, s, dir.subdirs.shape, name, stack);
      d := AddDir(dir, name, stack, c);
    }
  }

  /** A tree of files in order, in the directory p, with the given contents. */
  ghost predicate FilesOk(tree: Tree<Packages>, p: Directory, files: map<Name, Packages>)
    reads tree, Nodes(tree.shape)
  {
    && tree.home == OfFiles(p) && tree.Valid() && tree.Contents() == files
    && forall k :: k in files ==> IsCString(k) && files[k] != []
  }

  ghost predicate SubdirsOk(tree: Tree<Dir>, p: Directory, subdirs: map<Name, Dir>)
    reads tree, Nodes(tree.shape)
  {
    tree.home == OfDirs(p) && tree.Valid() && tree.Contents() == subdirs
  }

  /** A directory of this path: its two trees are in order, its own, and hold the given contents. */
  ghost predicate DirOk(d: Dir, p: Directory, files: map<Name, Packages>, subdirs: map<Name, Dir>)
    reads d.files, d.subdirs, Nodes(d.files.shape), Nodes(d.subdirs.shape)
  {
    d.path == p && FilesOk(d.files, p, files) && SubdirsOk(d.subdirs, p, subdirs)
  }

  ghost function TreeObjects<V>(tree: Tree<V>): set<object>
    reads tree
  {
    {tree as object} + Nodes(tree.shape)
  }

  /** The objects of a directory. */
  ghost function Mine(d: Dir): set<object>
    reads d.files, d.subdirs
  {
    TreeObjects(d.files) + TreeObjects(d.subdirs)
  }

  /** A directory in order, made of objects in r. */
  ghost predicate OneOk(d: Dir, p: Directory, files: map<Name, Packages>, subdirs: map<Name, Dir>, r: set<object>)
    reads r
  {
    d.files in r && d.subdirs in r && Mine(d) <= r && DirOk(d, p, files, subdirs)
  }

  /** The index as a picture: the directory of each path, its files and its subdirectories. */
  datatype Picture = Picture(dirs: map<Directory, Dir>, files: map<Directory, map<Name, Packages>>,
                             subs: map<Directory, map<Name, Dir>>)
  {
    ghost predicate Total() { files.Keys == dirs.Keys == subs.Keys }

    ghost function With(p: Directory, d: Dir, f: map<Name, Packages>, s: map<Name, Dir>): Picture {
      Picture(dirs[p := d], files[p := f], subs[p := s])
    }
  }

  /** All directories are in order, and made of the objects in r. */
  ghost predicate AllOk(pic: Picture, r: set<object>)
    reads r
  {
    && pic.Total()
    && (forall p :: p in pic.dirs ==> OneOk(pic.dirs[p], p, pic.files[p], pic.subs[p], r))
  }

  ghost predicate AllBut(pic: Picture, p: Directory, r: set<object>)
    reads r
  {
    && pic.Total()
    && (forall q :: q in pic.dirs && q != p ==> OneOk(pic.dirs[q], q, pic.files[q], pic.subs[q], r))
  }

  /** A tree or node that belongs to the directory p. */
  ghost predicate HomeOf(o: object, p: Directory) {
    || (o is Tree<Packages> && (o as Tree<Packages>).home.path == p)
    || (o is Tree<Dir> && (o as Tree<Dir>).home.path == p)
    || (o is Node<Packages> && (o as Node<Packages>).home.path == p)
    || (o is Node<Dir> && (o as Node<Dir>).home.path == p)
  }

  lemma HomeOfMine(d: Dir, p: Directory, f: map<Name, Packages>, s: map<Name, Dir>, o: object)
    requires DirOk(d, p, f, s) && o in Mine(d)
    ensures HomeOf(o, p)
  {
  }

  lemma Apart(d: Dir, p: Directory, f: map<Name, Packages>, s: map<Name, Dir>,
              e: Dir, q: Directory, g: map<Name, Packages>, t: map<Name, Dir>)
    requires DirOk(d, p, f, s) && DirOk(e, q, g, t) && p != q
    ensures Mine(d) !! Mine(e)
  {
    forall o | o in Mine(d) ensures HomeOf(o, p) { HomeOfMine(d, p, f, s, o); }
    forall o | o in Mine(e) ensures HomeOf(o, q) { HomeOfMine(e, q, g, t, o); }
  }

  /** The other directories do without the objects of one of them. */
  lemma TakeOut(pic: Picture, r: set<object>, p: Directory)
    requires AllOk(pic, r) && p in pic.dirs
    ensures OneOk(pic.dirs[p], p, pic.files[p], pic.subs[p], r)
    ensures AllBut(pic, p, r - Mine(pic.dirs[p]))
  {
    var d := pic.dirs[p];
    assert OneOk(d, p, pic.files[p], pic.subs[p], r);
    forall q | q in pic.dirs && q != p ensures OneOk(pic.dirs[q], q, pic.files[q], pic.subs[q], r - Mine(d)) {
      assert OneOk(pic.dirs[q], q, pic.files[q], pic.subs[q], r);
      Apart(d, p, pic.files[p], pic.subs[p], pic.dirs[q], q, pic.files[q], pic.subs[q]);
    }
  }

  lemma OneOkIs(d: Dir, p: Directory, f: map<Name, Packages>, s: map<Name, Dir>, r: set<object>)
    requires DirOk(d, p, f, s) && Mine(d) <= r
    ensures OneOk(d, p, f, s, r)
  {
  }

  lemma Wider(d: Dir, p: Directory, f: map<Name, Packages>, s: map<Name, Dir>, r: set<object>, all: set<object>)
    requires OneOk(d, p, f, s, r) && r <= all
    ensures OneOk(d, p, f, s, all)
  {
    hide DirOk;
  }

  lemma AllButIs(pic: Picture, p: Directory, r: set<object>)
    requires AllBut(pic, p, r)
    ensures pic.Total() && forall q :: q in pic.dirs ==> q in pic.files && q in pic.subs
    ensures forall q :: q in pic.dirs && q != p ==> OneOk(pic.dirs[q], q, pic.files[q], pic.subs[q], r)
  {
  }

  lemma AllOkIs(pic: Picture, r: set<object>)
    requires pic.Total() && forall p :: p in pic.dirs ==> p in pic.files && p in pic.subs
    requires forall p :: p in pic.dirs ==> OneOk(pic.dirs[p], p, pic.files[p], pic.subs[p], r)
    ensures AllOk(pic, r)
  {
  }

  lemma WithIs(pic: Picture, p: Directory, d: Dir, f: map<Name, Packages>, s: map<Name, Dir>)
    requires pic.Total()
    ensures var g := pic.With(p, d, f, s);
      && g.Total() && p in g.dirs && p in g.files && p in g.subs
      && g.dirs[p] == d && g.files[p] == f && g.subs[p] == s
      && (forall q :: q in g.dirs <==> q in pic.dirs || q == p)
      && (forall q :: q in g.dirs && q != p ==>
        q in g.files && q in g.subs && q in pic.files && q in pic.subs
        && g.dirs[q] == pic.dirs[q] && g.files[q] == pic.files[q] && g.subs[q] == pic.subs[q])
  {
  }

  /** A directory, new or changed, beside the others. */
  lemma PutIn(pic: Picture, r: set<object>, p: Directory, d: Dir, f: map<Name, Packages>, s: map<Name, Dir>)
    requires AllBut(pic, p, r) && DirOk(d, p, f, s)
    ensures AllOk(pic.With(p, d, f, s), r + Mine(d))
  {
    var all, pic' := r + Mine(d), pic.With(p, d, f, s);
    OneOkIs(d, p, f, s, all);
    hide *;
    AllButIs(pic, p, r);
    WithIs(pic, p, d, f, s);
    forall q | q in pic'.dirs ensures OneOk(pic'.dirs[q], q, pic'.files[q], pic'.subs[q], all) {
      if q != p {
        Wider(pic.dirs[q], q, pic.files[q], pic.subs[q], r, all);
      }
    }
    AllOkIs(pic', all);
  }

  lemma MineIs(d: Dir)
    ensures Mine(d) == TreeObjects(d.files) + TreeObjects(d.subdirs)
  {
  }

  lemma KindsApart(d: Dir, p: Directory, f: map<Name, Packages>, s: map<Name, Dir>)
    requires DirOk(d, p, f, s)
    ensures TreeObjects(d.files) !! TreeObjects(d.subdirs)
  {
    forall o | o in TreeObjects(d.files) ensures o !in TreeObjects(d.subdirs) {
      assert HomeOf(o, p);
    }
  }

  lemma FilesOkIs(tree: Tree<Packages>, p: Directory, files: map<Name, Packages>)
    ensures FilesOk(tree, p, files) <==>
      && tree.home == OfFiles(p) && tree.Valid() && tree.Contents() == files
      && forall k :: k in files ==> IsCString(k) && files[k] != []
    ensures TreeObjects(tree) == {tree as object} + Nodes(tree.shape)
  {
  }

  method AddToFiles(tree: Tree<Packages>, package: Package, name: Name, ghost p: Directory,
                    ghost f: map<Name, Packages>)
    requires FilesOk(tree, p, f) && IsCString(name)
    modifies TreeObjects(tree)
    ensures FilesOk(tree, p, f[name := Lookup(f, name) + [package]])
    ensures forall o :: o in TreeObjects(tree) ==> o in old(TreeObjects(tree)) || fresh(o)
  {
    hide *;
    FilesOkIs(tree, p, f);
    FindFile(tree, package, name);
    FilesOkIs(tree, p, f[name := Lookup(f, name) + [package]]);
  }

  /** findfile in one directory. */
  method AddToDir(dir: Dir, package: Package, name: Name, ghost p: Directory, ghost f: map<Name, Packages>,
                  ghost s: map<Name, Dir>)
    requires DirOk(dir, p, f, s) && IsCString(name)
    modifies Mine(dir)
    ensures DirOk(dir, p, f[name := Lookup(f, name) + [package]], s)
    ensures forall o :: o in Mine(dir) ==> o in old(Mine(dir)) || fresh(o)
  {
    KindsApart(dir, p, f, s);
    assert allocated(Nodes(dir.subdirs.shape));
    AddToFiles(dir.files, package, name, p, f);
  }

  function Child(p: Directory, n: Name): Directory { p + [n] }

  /** The trees of subdirectories and the parent links agree with the paths. */
  ghost predicate Nested(root: Dir, pic: Picture) {
    && pic.Total() && [] in pic.dirs && pic.dirs[[]] == root && root.parent == null
    && (forall p, n :: Child(p, n) in pic.dirs ==> p in pic.dirs && pic.dirs[Child(p, n)].parent == pic.dirs[p])
    && (forall p, n :: p in pic.dirs ==> (n in pic.subs[p] <==> Child(p, n) in pic.dirs))
    && (forall p, n :: p in pic.dirs && Child(p, n) in pic.dirs ==> pic.subs[p][n] == pic.dirs[Child(p, n)])
  }

  /** The picture with one more, empty subdirectory. */
  ghost function Grown(pic: Picture, p: Directory, name: Name, d: Dir): Picture
    requires p in pic.dirs && pic.Total()
  {
    WithSub(pic, p, name, d).With(p + [name], d, map[], map[])
  }

  lemma GrownAt(pic: Picture, p: Directory, name: Name, d: Dir, q: Directory)
    requires pic.Total() && p in pic.dirs && Child(p, name) !in pic.dirs
    ensures var g := Grown(pic, p, name, d);
      && g.Total() && (q in g.dirs <==> q in pic.dirs || q == Child(p, name))
      && (q == Child(p, name) ==> g.dirs[q] == d && g.subs[q] == map[])
      && (q in pic.dirs ==> g.dirs[q] == pic.dirs[q])
      && (q in pic.dirs ==> g.subs[q] == if q == p then pic.subs[q][name := d] else pic.subs[q])
  {
  }

  lemma NestedMore(root: Dir, pic: Picture, p: Directory, name: Name, d: Dir)
    requires Nested(root, pic) && p in pic.dirs && name !in pic.subs[p] && d.parent == pic.dirs[p]
    ensures Nested(root, Grown(pic, p, name, d))
  {
    var g := Grown(pic, p, name, d);
    assert Child(p, name) != [] && Child(p, name) != p && Child(p, name) !in pic.dirs;
    GrownAt(pic, p, name, d, []);
    forall q, n
      ensures Child(q, n) in g.dirs ==> q in g.dirs && g.dirs[Child(q, n)].parent == g.dirs[q]
      ensures q in g.dirs ==> (n in g.subs[q] <==> Child(q, n) in g.dirs)
      ensures q in g.dirs && Child(q, n) in g.dirs ==> g.subs[q][n] == g.dirs[Child(q, n)]
    {
      Snoc(q, n, p, name);
      GrownAt(pic, p, name, d, q);
      GrownAt(pic, p, name, d, Child(q, n));
    }
  }

  lemma Snoc(p: Directory, n: Name, q: Directory, m: Name)
    ensures p + [n] == q + [m] <==> p == q && n == m
  {
    if p + [n] == q + [m] {
      assert p == (p + [n])[..|p|] == (q + [m])[..|q|] == q;
      assert n == (p + [n])[|p|] == (q + [m])[|q|] == m;
    }
  }

  /** The packages that name a file, in the order in which they were added. */
  ghost function PackagesOf(files: map<Directory, map<Name, Packages>>, l: Location): Packages {
    if l.dir in files then Lookup(files[l.dir], l.file) else []
  }

  /** The package comes last at one file, and nothing else changes. */
  ghost predicate Added(files: map<Directory, map<Name, Packages>>, files': map<Directory, map<Name, Packages>>,
                        l: Location, package: Package)
  {
    forall k :: PackagesOf(files', k) == (if k == l then PackagesOf(files, l) + [package] else PackagesOf(files, k))
  }

  lemma PackageAdded(files: map<Directory, map<Name, Packages>>, p: Directory, name: Name, package: Package)
    requires p in files
    ensures AddedAll(files, files[p := files[p][name := Lookup(files[p], name) + [package]]],
                     [Location(p, name)], package)
  {
    AddedFirst(files, files[p := files[p][name := Lookup(files[p], name) + [package]]], Location(p, name), package);
  }


  /** findfile in one directory leaves all other directories alone. */
  method AddToOne(dir: Dir, package: Package, name: Name, ghost p: Directory, ghost pic: Picture, ghost r: set<object>)
    returns (ghost r': set<object>)
    requires AllOk(pic, r) && p in pic.dirs && pic.dirs[p] == dir && IsCString(name)
    modifies Mine(dir)
    ensures AllOk(pic.With(p, dir, pic.files[p][name := Lookup(pic.files[p], name) + [package]], pic.subs[p]), r')
    ensures forall o :: o in r' ==> o in r || fresh(o)
  {
    ghost var others := r - Mine(dir);
    ghost var f, s := pic.files[p], pic.subs[p];
    TakeOut(pic, r, p);
    AddToDir(dir, package, name, p, f, s);
    assert AllBut(pic, p, others);
    PutIn(pic, others, p, dir, f[name := Lookup(f, name) + [package]], s);
    r' := others + Mine(dir);
  }

  /** A directory just made: nothing in it. */
  ghost predicate EmptyDir(d: Dir, p: Directory, parent: Dir)
    reads d.files, d.subdirs, Nodes(d.files.shape), Nodes(d.subdirs.shape)
  {
    DirOk(d, p, map[], map[]) && d.parent == parent
  }

  twostate predicate NewDir(new d: Dir, p: Directory, parent: Dir)
    reads d.files, d.subdirs, Nodes(d.files.shape), Nodes(d.subdirs.shape)
  {
    EmptyDir(d, p, parent) && fresh(Mine(d))
  }

  method EnterInSubdirs(dir: Dir, name: Name, ghost p: Directory, ghost s: map<Name, Dir>) returns (d: Dir)
    requires SubdirsOk(dir.subdirs, p, s) && dir.path == p
    modifies TreeObjects(dir.subdirs)
    ensures SubdirsOk(dir.subdirs, p, s[name := d])
    ensures forall o :: o in TreeObjects(dir.subdirs) ==> o in old(TreeObjects(dir.subdirs)) || fresh(o)
    ensures if name in s then d == s[name] else FreshDir(d, dir, p + [name])
  {
    d := FindDir(dir, name);
  }

  /** finddir in one directory. */
  method EnterInDir(dir: Dir, name: Name, ghost p: Directory, ghost f: map<Name, Packages>, ghost s: map<Name, Dir>)
    returns (d: Dir)
    requires DirOk(dir, p, f, s)
    modifies Mine(dir)
    ensures DirOk(dir, p, f, s[name := d])
    ensures forall o :: o in Mine(dir) ==> o in old(Mine(dir)) || fresh(o)
    ensures if name in s then d == s[name] else NewDir(d, p + [name], dir)
  {
    ghost var files := Nodes(dir.files.shape);
    assert allocated(files);
    hide FilesOk, SubdirsOk, Nodes, Mine, OwnOf, Bare;
    KindsApart(dir, p, f, s);
    MineIs(dir);
    d := EnterInSubdirs(dir, name, p, s);
    MineIs(dir);
    assert unchanged(dir.files) && unchanged(files);
    if name !in s {
      BareOk(d, p + [name]);
      OwnIs(d);
      EmptyIs(d, p + [name], dir);
    }
  }

  /** The picture in which a directory has this subdirectory. */
  ghost function WithSub(pic: Picture, p: Directory, name: Name, d: Dir): Picture
    requires p in pic.dirs && pic.Total()
  {
    pic.With(p, pic.dirs[p], pic.files[p], pic.subs[p][name := d])
  }

  /** The picture after finddir: one more, empty directory if there was none of that name. */
  ghost function Entered(pic: Picture, p: Directory, name: Name, d: Dir): Picture
    requires p in pic.dirs && pic.Total()
  {
    if name in pic.subs[p] then WithSub(pic, p, name, d)
    else Grown(pic, p, name, d)
  }

  lemma EnteredNew(pic: Picture, p: Directory, name: Name, d: Dir)
    requires pic.Total() && p in pic.dirs && name !in pic.subs[p]
    ensures Entered(pic, p, name, d) == Grown(pic, p, name, d)
  {
  }

  lemma EnteredNested(root: Dir, pic: Picture, p: Directory, name: Name, d: Dir)
    requires Nested(root, pic) && p in pic.dirs
    requires if name in pic.subs[p] then d == pic.subs[p][name] else d.parent == pic.dirs[p]
    ensures Nested(root, Entered(pic, p, name, d))
  {
    if name in pic.subs[p] {
      var g := Entered(pic, p, name, d);
      assert pic.subs[p][name := d] == pic.subs[p];
      assert g.Total() && g.dirs == pic.dirs && g.subs == pic.subs;
      hide *;
      NestedLike(root, pic, g);
    } else {
      hide *;
      EnteredNew(pic, p, name, d);
      NestedMore(root, pic, p, name, d);
    }
  }

  lemma EnteredOk(root: Dir, pic: Picture, p: Directory, name: Name, d: Dir)
    requires Nested(root, pic) && p in pic.dirs
    requires if name in pic.subs[p] then d == pic.subs[p][name] else d.parent == pic.dirs[p]
    ensures var pic' := Entered(pic, p, name, d);
      p + [name] in pic'.dirs && pic'.dirs[p + [name]] == d
    ensures forall package :: AddedAll(pic.files, Entered(pic, p, name, d).files, [], package)
  {
    assert Child(p, name) == p + [name];
    forall k ensures PackagesOf(Entered(pic, p, name, d).files, k) == PackagesOf(pic.files, k) { }
  }

  lemma TotalIs(pic: Picture, r: set<object>, p: Directory)
    requires AllOk(pic, r) && p in pic.dirs
    ensures pic.Total() && p in pic.files && p in pic.subs
  {
  }

  lemma EnteredIs(pic: Picture, p: Directory, name: Name, d: Dir)
    requires pic.Total() && p in pic.dirs
    ensures var g := WithSub(pic, p, name, d);
      g == pic.With(p, pic.dirs[p], pic.files[p], pic.subs[p][name := d])
      && Entered(pic, p, name, d) == if name in pic.subs[p] then g else g.With(p + [name], d, map[], map[])
  {
  }

  lemma OneIs(d: Dir, p: Directory, f: map<Name, Packages>, s: map<Name, Dir>, r: set<object>)
    requires OneOk(d, p, f, s, r)
    ensures DirOk(d, p, f, s) && Mine(d) <= r
  {
  }

  lemma AllButNew(pic: Picture, p: Directory, r: set<object>)
    requires AllOk(pic, r)
    ensures AllBut(pic, p, r)
  {
    hide OneOk;
  }

  twostate lemma NewIs(new d: Dir, new p: Directory, parent: Dir)
    requires NewDir(d, p, parent)
    ensures DirOk(d, p, map[], map[]) && d.parent == parent && fresh(Mine(d))
  {
  }

  lemma EmptyIs(d: Dir, p: Directory, parent: Dir)
    ensures EmptyDir(d, p, parent) <==> DirOk(d, p, map[], map[]) && d.parent == parent
  {
  }

  /** finddir in one directory of the index leaves all others alone. */
  method EnterInAll(dir: Dir, name: Name, ghost p: Directory, ghost pic: Picture, ghost r: set<object>)
    returns (d: Dir, ghost r': set<object>)
    requires AllOk(pic, r) && p in pic.dirs && pic.dirs[p] == dir
    modifies Mine(dir)
    ensures if name in pic.subs[p] then d == pic.subs[p][name] else d.parent == dir
    ensures AllOk(Entered(pic, p, name, d), r') && forall o :: o in r' ==> o in r || fresh(o)
  {
    hide *;
    ghost var others := r - Mine(dir);
    TotalIs(pic, r, p);
    TakeOut(pic, r, p);
    OneIs(dir, p, pic.files[p], pic.subs[p], r);
    d := EnterInDir(dir, name, p, pic.files[p], pic.subs[p]);
    assert AllBut(pic, p, others);
    EnteredIs(pic, p, name, d);
    PutIn(pic, others, p, dir, pic.files[p], pic.subs[p][name := d]);
    r' := others + Mine(dir);
    if name !in pic.subs[p] {
      NewIs(d, p + [name], dir);
      AllButNew(WithSub(pic, p, name, d), p + [name], r');
      PutIn(WithSub(pic, p, name, d), r', p + [name], d, map[], map[]);
      r' := r' + Mine(d);
    }
  }

  /** The index of an empty list: nothing but the root directory. */
  ghost function Alone(root: Dir): Picture { Picture(map[[] := root], map[[] := map[]], map[[] := map[]]) }

  lemma RootAlone(root: Dir)
    requires DirOk(root, [], map[], map[]) && root.parent == null
    ensures AllOk(Alone(root), Mine(root)) && Nested(root, Alone(root))
    ensures forall l :: PackagesOf(Alone(root).files, l) == []
  {
    OneOkIs(root, [], map[], map[], Mine(root));
    hide DirOk;
  }

  lemma BareOk(d: Dir, p: Directory)
    requires Bare(d) && d.path == p && d.files.home == OfFiles(p) && d.subdirs.home == OfDirs(p)
    ensures DirOk(d, p, map[], map[]) && Mine(d) == OwnOf(d)
  {
  }

  class FileList {
    const root: Dir
    ghost var pic: Picture
    ghost var repr: set<object>

    ghost predicate Valid()
      reads this, repr
    {
      AllOk(pic, repr) && Nested(root, pic) && this !in repr
    }

    /** filelist_init */
    constructor ()
      ensures Valid()
      ensures fresh(repr)
      ensures forall l :: PackagesOf(pic.files, l) == []
    {
      var r := new Dir(null, []);
      ghost var own := OwnOf(r);
      OwnIs(r);
      assert fresh(own);
      root, pic, repr := r, Alone(r), own;
      new;
      hide *;
      BareOk(r, []);
      RootAlone(r);
      NoTree(this, r);
      Intact();
    }

    lemma Intact()
      requires AllOk(pic, repr) && Nested(root, pic) && this !in repr
      ensures Valid()
    {
    }

    ghost method Redraw(pic': Picture, r': set<object>)
      requires AllOk(pic', r') && this !in r'
      modifies this`pic, this`repr
      ensures pic == pic' && repr == r' && AllOk(pic, repr)
    {
      hide AllOk;
      assert (forall o :: o in r' ==> o != this) && allocated(r') && allocated(pic');
      pic := pic';
      repr := r';
    }

    /** One file of a package, in a directory of the list. */
    method AddFile(dir: Dir, ghost p: Directory, package: Package, name: Name)
      requires Valid() && p in pic.dirs && pic.dirs[p] == dir && IsCString(name)
      modifies this`repr, this`pic, repr
      ensures Valid() && (forall o :: o in repr ==> o in old(repr) || fresh(o)) && pic.dirs == old(pic.dirs)
      ensures AddedAll(old(pic.files), pic.files, [Location(p, name)], package)
    {
      assert OneOk(dir, p, pic.files[p], pic.subs[p], repr);
      ghost var f := pic.files[p][name := Lookup(pic.files[p], name) + [package]];
      ghost var r' := AddToOne(dir, package, name, p, pic, repr);
      PackageAdded(pic.files, p, name, package);
      SameNesting(root, pic, p, f);
      Redraw(pic.With(p, dir, f, pic.subs[p]), r');
    }

    /** The subdirectory of a directory of the list, made if need be. */
    method EnterDir(dir: Dir, ghost p: Directory, name: Name, ghost package: Package) returns (d: Dir)
      requires Valid() && p in pic.dirs && pic.dirs[p] == dir
      modifies this`repr, this`pic, repr
      ensures Valid() && (forall o :: o in repr ==> o in old(repr) || fresh(o))
      ensures p + [name] in pic.dirs && pic.dirs[p + [name]] == d
      ensures AddedAll(old(pic.files), pic.files, [], package)
    {
      assert OneOk(dir, p, pic.files[p], pic.subs[p], repr);
      ghost var r';
      d, r' := EnterInAll(dir, name, p, pic, repr);
      EnteredOk(root, pic, p, name, d);
      EnteredNested(root, pic, p, name, d);
      Redraw(Entered(pic, p, name, d), r');
    }

    /** One operation of a record, in the current directory. */
    method Perform(dir: Dir, ghost p: Directory, op: Op, package: Package) returns (d: Dir)
      requires Valid() && p in pic.dirs && pic.dirs[p] == dir && (op.File? ==> IsCString(op.name))
      modifies this`repr, this`pic, repr
      ensures Valid() && (forall o :: o in repr ==> o in old(repr) || fresh(o))
      ensures DirAfter(op, p) in pic.dirs && pic.dirs[DirAfter(op, p)] == d
      ensures AddedAll(old(pic.files), pic.files, DoneBy(op, p), package)
    {
      hide AllOk, Nested, PackagesOf, AddedAll;
      match op
      case Up(n) =>
        d := LeaveDirs(dir, root, pic, p, n);
        AddedNone(pic.files, package);
      case Enter(name) =>
        d := EnterDir(dir, p, name, package);
      case File(name) =>
        d := dir;
        AddFile(dir, p, package, name);
    }

    /** One turn of the loop over a record; `next` is where the next turn starts. */
    method Turn(package: Package, data: seq<Byte>, pos: nat, dir: Dir, ghost p: Directory,
                ghost done: seq<Location>, ghost start: map<Directory, map<Name, Packages>>)
      returns (step: Step, next: nat, d: Dir, ghost q: Directory, ghost done': seq<Location>)
      requires pos <= |data| && Walking(data, pos, done, p)
      requires Valid() && p in pic.dirs && pic.dirs[p] == dir && AddedAll(start, pic.files, done, package)
      requires forall op :: op in Parse(data).ops && op.File? ==> IsCString(op.name)
      modifies this`repr, this`pic, repr
      ensures Valid() && (forall o :: o in repr ==> o in old(repr) || fresh(o)) && q in pic.dirs && pic.dirs[q] == d
      ensures AddedAll(start, pic.files, done', package)
      ensures Walked(data, next, done', q, step) && (step.Next? ==> pos < next)
    {
      d, q, done' := dir, p, done;
      step, next := ReadAt(data, pos);
      WalkingOn(data, pos, done, p, step, next);
      if step.Next? {
        ghost var before := pic.files;
        d := Perform(dir, p, step.op, package);
        AddedOn(start, before, pic.files, done, DoneBy(step.op, p), package);
        done', q := done + DoneBy(step.op, p), DirAfter(step.op, p);
      }
    }

    /**
     filelist_addfiles: walks through the record of a package.  Every file named
     before the end of the record, or before the first damage, gets the package;
     the result says whether the record was undamaged.
     */
    method AddFiles(package: Package, data: seq<Byte>) returns (intact: bool)
      requires Valid() && forall op :: op in Parse(data).ops && op.File? ==> IsCString(op.name)
      modifies this`repr, this`pic, repr
      ensures Valid() && (forall o :: o in repr ==> o in old(repr) || fresh(o))
      ensures intact == Parse(data).intact
      ensures AddedAll(old(pic.files), pic.files, Run(Parse(data).ops, []).files, package)
    {
      hide AllOk, Walking, AddedAll, Parse, Run;
      var curdir, step, pos := root, Next(Up(0), []), 0;
      ghost var p: Directory, done: seq<Location> := [], [];
      ghost var start := pic.files;
      WalkingStart(data);
      AddedNone(start, package);
      while step.Next?
        invariant Valid() && p in pic.dirs && pic.dirs[p] == curdir
        invariant forall o :: o in repr ==> o in old(repr) || fresh(o)
        invariant AddedAll(start, pic.files, done, package)
        invariant Walked(data, pos, done, p, step)
        decreases step.Next?, |data| - pos
      {
        step, pos, curdir, p, done := Turn(package, data, pos, curdir, p, done, start);
      }
      return step.Done?;
    }
  }

  lemma LeaveOne(p: Directory, n: nat)
    ensures n > 0 && p != [] ==> Leave(p[..|p| - 1], n - 1) == Leave(p, n)
    ensures Leave([], n) == [] && Leave(p, 0) == p
  {
  }

  /** Up through the parent links, at most to the root. */
  method LeaveDirs(dir: Dir, ghost root: Dir, ghost pic: Picture, ghost p: Directory, levels: nat) returns (d: Dir)
    requires Nested(root, pic) && p in pic.dirs && pic.dirs[p] == dir
    ensures Leave(p, levels) in pic.dirs && pic.dirs[Leave(p, levels)] == d
  {
    d := dir;
    var n := levels;
    ghost var q := p;
    NestedParent(root, pic, q);
    while n > 0 && d.parent != null
      invariant q in pic.dirs && pic.dirs[q] == d && Leave(q, n) == Leave(p, levels)
      invariant d.parent == null <==> q == []
    {
      NestedParent(root, pic, q);
      LeaveOne(q, n);
      d, q := d.parent, q[..|q| - 1];
      n := n - 1;
      NestedParent(root, pic, q);
    }
    LeaveOne(q, n);
  }

  // ----- a record, read from a position on

  /** What the walk has still to do, and what it has done, make up the whole record. */
  ghost predicate Walking(data: seq<Byte>, pos: nat, done: seq<Location>, p: Directory)
    requires pos <= |data|
  {
    var left, whole := Parse(data[pos..]), Parse(data);
    && left.intact == whole.intact && done + Run(left.ops, p).files == Run(whole.ops, []).files
    && forall op :: op in left.ops ==> op in whole.ops
  }

  /** The walk goes on, or it is over and has named the files of the record. */
  ghost predicate Walked(data: seq<Byte>, pos: nat, done: seq<Location>, p: Directory, step: Step) {
    if step.Next? then pos <= |data| && Walking(data, pos, done, p)
    else done == Run(Parse(data).ops, []).files && step.Done? == Parse(data).intact
  }

  lemma WalkingStart(data: seq<Byte>)
    ensures Walking(data, 0, [], [])
  {
    assert data[0..] == data;
  }

  ghost function DoneBy(op: Op, p: Directory): seq<Location> {
    if op.File? then [Location(p, op.name)] else []
  }

  ghost function DirAfter(op: Op, p: Directory): Directory {
    match op
    case Up(n) => Leave(p, n)
    case Enter(d) => p + [d]
    case File(_) => p
  }

  lemma WalkingOn(data: seq<Byte>, pos: nat, done: seq<Location>, p: Directory, step: Step, next: nat)
    requires pos <= |data| && Walking(data, pos, done, p) && step == Read(data[pos..])
    requires step.Next? ==> next <= |data| && step.rest == data[next..]
    ensures !step.Next? ==> done == Run(Parse(data).ops, []).files && step.Done? == Parse(data).intact
    ensures step.Next? ==> step.op in Parse(data).ops
    ensures step.Next? ==> Walking(data, next, done + DoneBy(step.op, p), DirAfter(step.op, p))
  {
    var left := Parse(data[pos..]);
    if step.Next? {
      var after := Parse(data[next..]);
      assert left == Record([step.op] + after.ops, after.intact);
      assert step.op in left.ops && forall op :: op in after.ops ==> op in left.ops;
      DoneFirst(step.op, after.ops, done, p);
    } else {
      assert done + [] == done;
    }
  }

  lemma RunFirst(op: Op, ops: seq<Op>, p: Directory)
    ensures Run([op] + ops, p).files == DoneBy(op, p) + Run(ops, DirAfter(op, p)).files
  {
    hide Leave;
    assert ([op] + ops)[0] == op && ([op] + ops)[1..] == ops;
    assert [] + Run(ops, DirAfter(op, p)).files == Run(ops, DirAfter(op, p)).files;
  }

  lemma DoneFirst(op: Op, ops: seq<Op>, done: seq<Location>, p: Directory)
    ensures done + Run([op] + ops, p).files == done + DoneBy(op, p) + Run(ops, DirAfter(op, p)).files
  {
    RunFirst(op, ops, p);
    hide *;
  }

  /** As `Read`, from a position in the record. */
  method ReadAt(data: seq<Byte>, pos: nat) returns (step: Step, next: nat)
    requires pos <= |data|
    ensures step == Read(data[pos..])
    ensures step.Next? ==> pos < next <= |data| && step.rest == data[next..]
  {
    next := pos;
    if pos == |data| {
      return Corrupt, next;
    }
    if data[pos] == 0 {
      return if pos == |data| - 1 then Done else Corrupt, next;
    }
    if pos >= |data| - 1 {
      return Corrupt, next;
    }
    var d := data[pos];
    next := pos + 1;
    if d == 1 || d == 2 {
      assert data[pos..][1..] == data[next..];
      step, next := ReadNameAt(data, next, d == 1);
    } else {
      step := Next(Up(d - 2), data[next..]);
    }
  }

  /** The bytes up to next say that the length of the name is len more than what follows says. */
  ghost predicate LengthFrom(data: seq<Byte>, pos: nat, next: nat, len: nat) {
    pos <= next <= |data|
    && ReadLength(data[pos..])
      == match ReadLength(data[next..]) case NoLength => NoLength case Length(n, rest) => Length(len + n, rest)
  }

  lemma LengthStart(data: seq<Byte>, pos: nat)
    requires pos <= |data|
    ensures LengthFrom(data, pos, pos, 0)
  {
  }

  lemma LengthNext(data: seq<Byte>, pos: nat, next: nat, len: nat)
    requires next < |data| && data[next] == 255 && LengthFrom(data, pos, next, len)
    ensures LengthFrom(data, pos, next + 1, len + 255)
  {
    Sequences.Step(data, next);
    assert ReadLength(data[next..])
      == match ReadLength(data[next + 1..]) case NoLength => NoLength case Length(n, rest) => Length(255 + n, rest);
    hide ReadLength;
  }

  lemma NoName(data: seq<Byte>, pos: nat, next: nat, len: nat, isFile: bool)
    requires LengthFrom(data, pos, next, len) && (next == |data| || data[next] == 0)
    ensures ReadName(data[pos..], isFile) == Corrupt
  {
  }

  lemma NameRead(data: seq<Byte>, pos: nat, next: nat, len: nat, isFile: bool)
    requires LengthFrom(data, pos, next, len) && next < |data| && data[next] != 0 && data[next] != 255
    ensures var start, n := next + 1, len + data[next];
      ReadName(data[pos..], isFile)
        == if |data| - start < n then Corrupt
           else
             var name := data[start..start + n];
             Next(if isFile then File(name) else Enter(name), data[start + n..])
  {
    var start, n := next + 1, len + data[next];
    Sequences.Step(data, next);
    assert ReadLength(data[pos..]) == Length(n, data[start..]);
    hide ReadLength;
    if start + n <= |data| {
      Sequences.Later(data, start, n);
      NameAt(data, start, n);
    }
  }

  lemma NameAt(data: seq<Byte>, pos: nat, len: nat)
    requires pos + len <= |data|
    ensures data[pos..][..len] == data[pos..pos + len]
  {
  }

  method ReadNameAt(data: seq<Byte>, pos: nat, isFile: bool) returns (step: Step, next: nat)
    requires pos <= |data|
    ensures step == ReadName(data[pos..], isFile)
    ensures step.Next? ==> pos < next <= |data| && step.rest == data[next..]
  {
    hide *;
    var len: nat := 0;
    next := pos;
    LengthStart(data, pos);
    while next < |data| && data[next] == 255
      invariant pos <= next <= |data| && LengthFrom(data, pos, next, len)
    {
      LengthNext(data, pos, next, len);
      next := next + 1;
      len := len + 255;
    }
    if next == |data| || data[next] == 0 {
      NoName(data, pos, next, len, isFile);
      return Corrupt, next;
    }
    NameRead(data, pos, next, len, isFile);
    len := len + data[next];
    next := next + 1;
    if |data| - next < len {
      return Corrupt, next;
    }
    var name := data[next..next + len];
    next := next + len;
    step := Next(if isFile then File(name) else Enter(name), data[next..]);
  }

  // ----- what the files named add to the index

  /** The package once for each time the file is named. */
  ghost function Mentions(named: seq<Location>, l: Location, package: Package): Packages {
    if named == [] then []
    else
      Mentions(named[..|named| - 1], l, package) + (if named[|named| - 1] == l then [package] else [])
  }

  ghost predicate AddedAll(files: map<Directory, map<Name, Packages>>, files': map<Directory, map<Name, Packages>>,
                           named: seq<Location>, package: Package)
  {
    forall k :: PackagesOf(files', k) == PackagesOf(files, k) + Mentions(named, k, package)
  }

  lemma AddedNone(files: map<Directory, map<Name, Packages>>, package: Package)
    ensures AddedAll(files, files, [], package)
  {
  }

  lemma AddedFirst(files: map<Directory, map<Name, Packages>>, files': map<Directory, map<Name, Packages>>,
                   l: Location, package: Package)
    requires Added(files, files', l, package)
    ensures AddedAll(files, files', [l], package)
  {
    assert [l][..0] == [];
    forall k ensures PackagesOf(files', k) == PackagesOf(files, k) + Mentions([l], k, package) {
      assert PackagesOf(files, k) + [] == PackagesOf(files, k);
      assert [] + [package] == [package];
    }
  }

  lemma {:induction false} MentionsConcat(a: seq<Location>, b: seq<Location>, l: Location, package: Package)
    ensures Mentions(a + b, l, package) == Mentions(a, l, package) + Mentions(b, l, package)
  {
    if b == [] {
      assert a + b == a;
    } else {
      MentionsConcat(a, b[..|b| - 1], l, package);
      assert (a + b)[..|a + b| - 1] == a + b[..|b| - 1];
    }
  }

  lemma AddedOn(start: map<Directory, map<Name, Packages>>, files: map<Directory, map<Name, Packages>>,
                files': map<Directory, map<Name, Packages>>, a: seq<Location>, b: seq<Location>, package: Package)
    requires AddedAll(start, files, a, package) && AddedAll(files, files', b, package)
    ensures AddedAll(start, files', a + b, package)
  {
    forall k ensures PackagesOf(files', k) == PackagesOf(start, k) + Mentions(a + b, k, package) {
      MentionsConcat(a, b, k, package);
      assert PackagesOf(files', k) == PackagesOf(files, k) + Mentions(b, k, package);
      assert PackagesOf(files, k) == PackagesOf(start, k) + Mentions(a, k, package);
      hide *;
      Sequences.Regroup(PackagesOf(start, k), Mentions(a, k, package), Mentions(b, k, package));
    }
  }

  lemma NestedParent(root: Dir, pic: Picture, p: Directory)
    requires Nested(root, pic) && p in pic.dirs
    ensures pic.dirs[p].parent == null <==> p == []
    ensures p != [] ==> p[..|p| - 1] in pic.dirs && pic.dirs[p].parent == pic.dirs[p[..|p| - 1]]
  {
    if p != [] {
      assert p == Child(p[..|p| - 1], p[|p| - 1]);
    }
  }

  lemma NestedLike(root: Dir, pic: Picture, g: Picture)
    requires Nested(root, pic) && g.Total() && g.dirs == pic.dirs && g.subs == pic.subs
    ensures Nested(root, g)
  {
  }

  lemma SameNesting(root: Dir, pic: Picture, p: Directory, f: map<Name, Packages>)
    requires Nested(root, pic) && p in pic.dirs
    ensures Nested(root, pic.With(p, pic.dirs[p], f, pic.subs[p])) && pic.dirs[p := pic.dirs[p]] == pic.dirs
  {
    var g := pic.With(p, pic.dirs[p], f, pic.subs[p]);
    assert g.Total() && g.dirs == pic.dirs && g.subs == pic.subs;
    hide *;
    NestedLike(root, pic, g);
  }

  /** The objects of a directory with nothing in it. */
  ghost function OwnOf(d: Dir): set<object> { {d.files, d.subdirs} }

  lemma OwnIs(d: Dir)
    ensures forall o :: o in OwnOf(d) ==> o == d.files || o == d.subdirs
  {
  }

  lemma NoTree(list: FileList, d: Dir)
    ensures (list as object) !in OwnOf(d)
  {
  }
}
