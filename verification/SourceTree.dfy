/** The tree of source names, each with its sorted list of versions, in archallflood.c. */
module SourceTree {
  import opened Strings

  class SourceVersion {
    var next: SourceVersion?
    const name: SourceName
    const version: Name
    var hasSibling: bool

    constructor (name: SourceName, version: Name, next: SourceVersion?)
      ensures this.name == name && this.version == version && this.next == next && !hasSibling
    {
      this.name, this.version, this.next, hasSibling := name, version, next, false;
    }
  }

  class SourceName {
    var parent: SourceName?
    var leftChild: SourceName?
    var rightChild: SourceName?
    const name: Name
    var versions: SourceVersion?
    /** The versions of the list, in order. */
    ghost var list: seq<SourceVersion>

    constructor (name: Name, parent: SourceName?)
      ensures this.name == name && this.parent == parent && leftChild == null && rightChild == null
      ensures versions == null && list == []
    {
      this.name, this.parent, leftChild, rightChild, versions, list := name, parent, null, null, null, [];
    }

    method SetChild(n: SourceName, toLeft: bool)
      modifies `leftChild, `rightChild
      ensures LinksOf(this) == if toLeft then old(LinksOf(this)).(left := n) else old(LinksOf(this)).(right := n)
      ensures list == old(list) && versions == old(versions)
    {
      if toLeft {
        leftChild := n;
      } else {
        rightChild := n;
      }
    }
  }

  datatype Shape = Nil | At(left: Shape, node: SourceName, right: Shape)

  ghost function Nodes(s: Shape): set<SourceName> {
    if s == Nil then {} else Nodes(s.left) + {s.node} + Nodes(s.right)
  }

  /** The three links of a node. */
  datatype Links = Links(parent: SourceName?, left: SourceName?, right: SourceName?)

  ghost function LinksOf(n: SourceName): Links
    reads n`parent, n`leftChild, n`rightChild
  {
    Links(n.parent, n.leftChild, n.rightChild)
  }

  /** The links, down and up, are those of the shape. */
  ghost predicate Linked(h: map<SourceName, Links>, p: SourceName?, up: SourceName?, s: Shape)
    decreases s
  {
    match s
    case Nil => p == null
    case At(l, n, r) =>
      && p == n && n in h && h[n].parent == up
      && Linked(h, h[n].left, n, l) && Linked(h, h[n].right, n, r)
  }

  ghost predicate Ordered(s: Shape) {
    s.At? ==>
      && Ordered(s.left) && Ordered(s.right)
      && (forall m :: m in Nodes(s.left) ==> Before(m.name, s.node.name))
      && (forall m :: m in Nodes(s.right) ==> Before(s.node.name, m.name))
  }

  ghost function ItemAt(list: seq<SourceVersion>, i: nat): SourceVersion? {
    if i < |list| then list[i] else null
  }

  /** The linked list that p heads. */
  ghost predicate Chain(p: SourceVersion?, list: seq<SourceVersion>)
    reads list`next
  {
    p == ItemAt(list, 0) && forall i {:trigger list[i].next} :: 0 <= i < |list| ==> list[i].next == ItemAt(list, i + 1)
  }

  ghost function VersionsOf(nodes: set<SourceName>): set<SourceVersion>
    reads nodes`list
  {
    set n, v | n in nodes && v in n.list :: v
  }

  ghost predicate Increasing(list: seq<SourceVersion>) {
    forall i, j :: 0 <= i < j < |list| ==> Before(list[i].version, list[j].version)
  }

  ghost predicate ListOk(n: SourceName)
    reads n`versions, n`list, n.list`next
  {
    && Chain(n.versions, n.list) && Increasing(n.list)
    && forall v :: v in n.list ==> v.name == n
  }

  // ----- searching

  /** Where the name is, or the empty place where it belongs, below the node `up`. */
  ghost function Place(s: Shape, up: SourceName?, name: Name): (SourceName?, Shape) {
    match s
    case Nil => (up, s)
    case At(l, n, r) =>
      match Compare(name, n.name)
      case Equal => (up, s)
      case Less => Place(l, n, name)
      case Greater => Place(r, n, name)
  }

  lemma {:induction false} PlaceFinds(s: Shape, up: SourceName?, name: Name)
    requires Ordered(s)
    ensures var t := Place(s, up, name).1;
      && (t.At? ==> t.node in Nodes(s) && t.node.name == name)
      && (t == Nil ==> forall n :: n in Nodes(s) ==> n.name != name)
  {
    if s.At? {
      CompareEqual(name, s.node.name);
      CompareSwap(s.node.name, name);
      if Compare(name, s.node.name) == Less {
        PlaceFinds(s.left, s.node, name);
        forall n | n in Nodes(s.right) ensures n.name != name {
          CompareSwap(s.node.name, n.name);
        }
      } else if Compare(name, s.node.name) == Greater {
        PlaceFinds(s.right, s.node, name);
      }
    }
  }

  /** A new leaf where the name belongs. */
  ghost function Planted(s: Shape, leaf: SourceName): Shape {
    match s
    case Nil => At(Nil, leaf, Nil)
    case At(l, n, r) =>
      if Compare(leaf.name, n.name) == Less then At(Planted(l, leaf), n, r) else At(l, n, Planted(r, leaf))
  }

  lemma {:induction false} PlantedOk(s: Shape, up: SourceName?, leaf: SourceName)
    requires Ordered(s) && Place(s, up, leaf.name).1 == Nil
    ensures Ordered(Planted(s, leaf)) && Nodes(Planted(s, leaf)) == Nodes(s) + {leaf}
  {
    if s.At? {
      CompareSwap(leaf.name, s.node.name);
      CompareSwap(s.node.name, leaf.name);
      CompareEqual(leaf.name, s.node.name);
      if Compare(leaf.name, s.node.name) == Less {
        PlantedOk(s.left, s.node, leaf);
      } else {
        PlantedOk(s.right, s.node, leaf);
      }
    }
  }

  lemma {:induction false} PlaceParent(s: Shape, up: SourceName?, name: Name)
    requires Place(s, up, name).1 == Nil && s.At?
    ensures Place(s, up, name).0 in Nodes(s)
  {
    match Compare(name, s.node.name)
    case Less => if s.left.At? { PlaceParent(s.left, s.node, name); }
    case Greater => if s.right.At? { PlaceParent(s.right, s.node, name); }
    case Equal =>
  }

  lemma OrderedDistinct(s: Shape)
    requires Ordered(s) && s.At?
    ensures s.node !in Nodes(s.left) && s.node !in Nodes(s.right) && Nodes(s.left) !! Nodes(s.right)
  {
    CompareEqual(s.node.name, s.node.name);
    forall m | m in Nodes(s.left) && m in Nodes(s.right) ensures false {
      CompareSwap(m.name, s.node.name);
    }
  }

  /** The links after the leaf has been hung under a node, on the side of its name. */
  ghost function Hung(h: map<SourceName, Links>, parent: SourceName, leaf: SourceName): map<SourceName, Links>
    requires parent in h
  {
    h[parent := if Compare(leaf.name, parent.name) == Less then h[parent].(left := leaf) else h[parent].(right := leaf)]
     [leaf := Links(parent, null, null)]
  }

  lemma {:induction false} SameLinked(h: map<SourceName, Links>, k: map<SourceName, Links>,
                                      p: SourceName?, up: SourceName?, s: Shape)
    requires Linked(h, p, up, s) && forall n :: n in Nodes(s) && n in h ==> n in k && k[n] == h[n]
    ensures Linked(k, p, up, s)
    decreases s
  {
    if s.At? {
      SameLinked(h, k, h[s.node].left, s.node, s.left);
      SameLinked(h, k, h[s.node].right, s.node, s.right);
    }
  }

  /** The new leaf is hung into its place. */
  lemma {:induction false} PlantedLinked(h: map<SourceName, Links>, p: SourceName?, up: SourceName?, s: Shape,
                                         parent: SourceName, leaf: SourceName)
    requires Linked(h, p, up, s) && Ordered(s) && s.At? && leaf !in Nodes(s) && parent in h
    requires Place(s, up, leaf.name) == (parent, Nil)
    ensures Linked(Hung(h, parent, leaf), p, up, Planted(s, leaf))
    decreases s
  {
    var n, k := s.node, Hung(h, parent, leaf);
    OrderedDistinct(s);
    PlaceParent(s, up, leaf.name);
    CompareEqual(leaf.name, n.name);
    if Compare(leaf.name, n.name) == Less {
      if s.left.At? {
        PlaceParent(s.left, n, leaf.name);
        PlantedLinked(h, h[n].left, n, s.left, parent, leaf);
      }
      SameLinked(h, k, h[n].right, n, s.right);
    } else {
      if s.right.At? {
        PlaceParent(s.right, n, leaf.name);
        PlantedLinked(h, h[n].right, n, s.right, parent, leaf);
      }
      SameLinked(h, k, h[n].left, n, s.left);
    }
  }

  class Sources {
    var root: SourceName?
    ghost var shape: Shape
    ghost var links: map<SourceName, Links>
    /** All versions of all sources. */
    ghost var all: set<SourceVersion>

    ghost predicate Tree()
      reads `root, `shape, `links, Nodes(shape)`parent, Nodes(shape)`leftChild, Nodes(shape)`rightChild
    {
      && Ordered(shape) && Linked(links, root, null, shape)
      && forall n :: n in Nodes(shape) ==> n in links && links[n] == LinksOf(n)
    }

    ghost predicate Valid()
      reads this, all`next, Nodes(shape)`versions, Nodes(shape)`list
      reads Nodes(shape)`parent, Nodes(shape)`leftChild, Nodes(shape)`rightChild
    {
      ValidFor(all)
    }

    ghost predicate ValidFor(all: set<SourceVersion>)
      reads `root, `shape, `links, all`next, Nodes(shape)`versions, Nodes(shape)`list
      reads Nodes(shape)`parent, Nodes(shape)`leftChild, Nodes(shape)`rightChild
    {
      && Tree()
      && (forall n, v :: n in Nodes(shape) && v in n.list ==> v in all)
      && (forall v :: v in all ==> v.name in Nodes(shape) && v in v.name.list)
      && forall n :: n in Nodes(shape) ==> ListOk(n)
    }

    constructor ()
      ensures Valid() && all == {} && shape == Nil
    {
      root, shape, links, all := null, Nil, map[], {};
    }

    /** The search in the tree, as in find_or_add_sourcename and find_source. */
    method Descend(name: Name) returns (p: SourceName?, parent: SourceName?, toLeft: bool)
      requires Tree()
      ensures p != null ==> p in Nodes(shape) && p.name == name
      ensures p == null ==> Place(shape, null, name) == (parent, Nil)
      ensures p == null && parent != null ==> toLeft == (Compare(name, parent.name) == Less) && parent in Nodes(shape)
      ensures p == null ==> forall n :: n in Nodes(shape) ==> n.name != name
      ensures p == null && parent == null ==> shape == Nil
    {
      p, parent, toLeft := root, null, false;
      ghost var t := shape;
      while p != null && Compare(name, p.name) != Equal
        invariant Linked(links, p, parent, t) && Place(shape, null, name) == Place(t, parent, name)
        invariant Nodes(t) <= Nodes(shape) && (parent == null ==> t == shape)
        invariant parent != null ==> parent in Nodes(shape) && toLeft == (Compare(name, parent.name) == Less)
        decreases t
      {
        assert p in Nodes(shape) && links[p] == LinksOf(p);
        parent := p;
        if Compare(name, p.name) == Greater {
          p, t, toLeft := p.rightChild, t.right, false;
        } else {
          p, t, toLeft := p.leftChild, t.left, true;
        }
      }
      PlaceFinds(shape, null, name);
      if p != null {
        CompareEqual(name, p.name);
      }
    }

    /** find_or_add_sourcename */
    method FindOrAddName(name: Name) returns (n: SourceName)
      requires Tree()
      modifies `root, `shape, `links, Nodes(shape)
      ensures Tree() && n in Nodes(shape) && n.name == name && Nodes(shape) == old(Nodes(shape)) + {n}
      ensures n in old(Nodes(shape)) || (fresh(n) && n.versions == null && n.list == [])
      ensures forall m :: m in old(Nodes(shape)) ==> m.list == old(m.list) && m.versions == old(m.versions)
      ensures all == old(all)
    {
      hide *;
      ghost var nodes := Nodes(shape);
      assert allocated(nodes);
      var p, parent, toLeft := Descend(name);
      if p != null {
        assert nodes == nodes + {p};
        return p;
      }
      n := new SourceName(name, parent);
      Leaf(n);
      assert Tree();
      if parent == null {
        SetRoot(n);
      } else {
        Hang(n, parent, toLeft);
      }
    }

    lemma Leaf(n: SourceName)
      ensures LinksOf(n) == Links(n.parent, n.leftChild, n.rightChild) && Nodes(Nil) == {}
    {
    }

    method SetRoot(n: SourceName)
      requires shape == Nil && LinksOf(n) == Links(null, null, null)
      modifies `root, `shape, `links
      ensures Tree() && Nodes(shape) == {n} && all == old(all)
    {
      root := n;
      links := links[n := Links(null, null, null)];
      shape := At(Nil, n, Nil);
    }

    lemma HungIs(n: SourceName, parent: SourceName)
      requires Tree() && Place(shape, null, n.name) == (parent, Nil) && parent in Nodes(shape)
      requires n !in Nodes(shape) && LinksOf(n) == Links(parent, null, null)
      ensures parent in links && n != parent
      ensures var h, s := Hung(links, parent, n), Planted(shape, n);
        && Ordered(s) && Nodes(s) == Nodes(shape) + {n} && Linked(h, root, null, s)
        && (forall m :: m in Nodes(shape) && m != parent ==> m in h && h[m] == LinksOf(m))
        && n in h && h[n] == LinksOf(n) && parent in h
        && h[parent] == if Compare(n.name, parent.name) == Less then LinksOf(parent).(left := n)
                        else LinksOf(parent).(right := n)
    {
      PlantedOk(shape, null, n);
      PlantedLinked(links, root, null, shape, parent, n);
    }

    /** The tree has taken another shape. */
    ghost method Reshape(h: map<SourceName, Links>, s: Shape)
      requires Ordered(s) && Linked(h, root, null, s) && forall m :: m in Nodes(s) ==> m in h && h[m] == LinksOf(m)
      modifies `shape, `links
      ensures Tree() && shape == s && links == h && all == old(all)
    {
      links, shape := h, s;
    }

    /** Hangs a new node below another. */
    method Hang(n: SourceName, parent: SourceName, toLeft: bool)
      requires Tree() && Place(shape, null, n.name) == (parent, Nil) && parent in Nodes(shape)
      requires n !in Nodes(shape) && LinksOf(n) == Links(parent, null, null)
      requires toLeft == (Compare(n.name, parent.name) == Less)
      modifies `shape, `links, parent
      ensures Tree() && Nodes(shape) == old(Nodes(shape)) + {n} && all == old(all)
      ensures parent.list == old(parent.list) && parent.versions == old(parent.versions)
    {
      hide *;
      HungIs(n, parent);
      ghost var h, s, nodes := Hung(links, parent, n), Planted(shape, n), Nodes(shape);
      assert allocated(nodes);
      parent.SetChild(n, toLeft);
      Reshape(h, s);
    }

    /** The node of a source, made if need be. */
    method NameNode(source: Name) returns (n: SourceName)
      requires Valid()
      modifies `root, `shape, `links, Nodes(shape)
      ensures Valid() && all == old(all)
      ensures n in Nodes(shape) && n.name == source && (n in old(Nodes(shape)) || fresh(n))
      ensures Nodes(shape) == old(Nodes(shape)) + {n}
    {
      ghost var versions, nodes := all, Nodes(shape);
      assert allocated(nodes) && allocated(versions);
      TreePart();
      hide *;
      n := FindOrAddName(source);
      assert unchanged(versions);
      ListsStill(n);
      NameAdded(n);
    }

    lemma TreePart()
      requires Valid()
      ensures Tree()
    {
    }

    twostate lemma NameAdded(new n: SourceName)
      requires old(Valid()) && all == old(all) && Tree() && Nodes(shape) == old(Nodes(shape)) + {n}
      requires n in old(Nodes(shape)) || n.list == []
      requires forall m :: m in old(Nodes(shape)) ==> m.list == old(m.list)
      requires forall m :: m in Nodes(shape) ==> ListOk(m)
      ensures Valid()
    {
      hide Tree, ListOk, Nodes;
    }

    twostate lemma ListsStill(new n: SourceName)
      requires old(Valid()) && all == old(all) && Nodes(shape) == old(Nodes(shape)) + {n}
      requires n in old(Nodes(shape)) || (n.versions == null && n.list == [])
      requires forall m :: m in old(Nodes(shape)) ==> m.list == old(m.list) && m.versions == old(m.versions)
      requires forall v :: v in all ==> v.next == old(v.next)
      ensures forall m :: m in Nodes(shape) ==> ListOk(m)
    {
      forall m | m in Nodes(shape) ensures ListOk(m) {
        if m in old(Nodes(shape)) {
          ListKept(m);
        } else {
          EmptyList(m);
        }
      }
    }

    method VersionOf(n: SourceName, version: Name) returns (v: SourceVersion)
      requires Valid() && n in Nodes(shape)
      modifies this`all, n`versions, n`list, n.list`next
      ensures Valid() && all == old(all) + {v} && v.name == n && v.version == version
      ensures v in old(all) || (fresh(v) && !v.hasSibling)
    {
      assert allocated(Nodes(shape));
      assert ListOk(n);
      hide *;
      v := AddVersion(n, version);
      Grown(n, v);
      Extend(v);
    }

    ghost method Extend(v: SourceVersion)
      requires ValidFor(all + {v})
      modifies `all
      ensures Valid() && all == old(all) + {v}
    {
      all := all + {v};
    }

    twostate lemma Grown(n: SourceName, new v: SourceVersion)
      requires old(Valid()) && n in Nodes(shape) && shape == old(shape) && links == old(links) && root == old(root)
      requires all == old(all) && v.name == n && ListOk(n)
      requires forall w :: w in n.list <==> w in old(n.list) || w == v
      requires forall m :: m in Nodes(shape) ==>
        m.parent == old(m.parent) && m.leftChild == old(m.leftChild) && m.rightChild == old(m.rightChild)
      requires forall m :: m in Nodes(shape) && m != n ==> m.list == old(m.list) && m.versions == old(m.versions)
      requires forall w :: w in old(all) && w !in old(n.list) ==> w.next == old(w.next)
      ensures ValidFor(all + {v})
    {
      hide Nodes, Ordered, Linked, Increasing, Chain;
      forall m | m in Nodes(shape) && m != n ensures ListOk(m) {
        forall w | w in old(m.list) ensures w !in old(n.list) {
          assert old(ListOk(m)) && old(ListOk(n));
        }
        ListKept(m);
      }
    }

    /** No two versions of the same name and source. */
    lemma VersionsUnique(v: SourceVersion, w: SourceVersion)
      requires Valid() && v in all && w in all && v.name.name == w.name.name && v.version == w.version
      ensures v == w
    {
      SameName(shape, v.name, w.name);
      assert ListOk(v.name);
      var i :| 0 <= i < |v.name.list| && v.name.list[i] == v;
      var j :| 0 <= j < |v.name.list| && v.name.list[j] == w;
      CompareEqual(v.version, w.version);
    }

    /** find_or_add_source */
    method FindOrAdd(source: Name, version: Name) returns (v: SourceVersion)
      requires Valid()
      modifies this, Nodes(shape), all`next
      ensures Valid() && all == old(all) + {v} && v.name.name == source && v.version == version
      ensures v in old(all) || (fresh(v) && !v.hasSibling)
      ensures forall m :: m in Nodes(shape) ==> m in old(Nodes(shape)) || fresh(m)
    {
      assert allocated(Nodes(shape));
      var n := NameNode(source);
      hide Tree, ListOk;
      v := VersionOf(n, version);
    }

    /** find_source */
    method Find(source: Name, version: Name) returns (v: SourceVersion?)
      requires Valid()
      ensures v != null ==> v in all && v.name.name == source && v.version == version
      ensures v == null ==> forall w :: w in all ==> w.name.name != source || w.version != version
    {
      var p, parent, toLeft := Descend(source);
      if p == null {
        forall w | w in all ensures w.name.name != source {
          var n :| n in Nodes(shape) && w in n.list;
          assert ListOk(n);
        }
        return null;
      }
      assert ListOk(p);
      ghost var k;
      var prev, found;
      prev, v, found, k := Walk(p, version);
      if !found {
        forall w | w in all ensures w.name.name != source || w.version != version {
          var n :| n in Nodes(shape) && w in n.list;
          assert ListOk(n);
          if n.name == source {
            SameName(shape, n, p);
            AbsentVersion(p.list, k, version, w);
          }
        }
        return null;
      }
    }
  }

  twostate lemma ListKept(n: SourceName)
    requires old(ListOk(n)) && n.versions == old(n.versions) && n.list == old(n.list)
    requires forall w :: w in old(n.list) ==> w.next == old(w.next)
    ensures ListOk(n)
  {
    forall i | 0 <= i < |n.list| ensures n.list[i].next == ItemAt(n.list, i + 1) {
      assert n.list[i] in old(n.list);
    }
  }

  lemma EmptyList(n: SourceName)
    requires n.versions == null && n.list == []
    ensures ListOk(n)
  {
  }

  lemma InsertedVersion(list: seq<SourceVersion>, k: nat, v: SourceVersion)
    requires Increasing(list) && k <= |list|
    requires forall i :: 0 <= i < k ==> Before(list[i].version, v.version)
    requires k < |list| ==> Before(v.version, list[k].version)
    ensures Increasing(With(list, k, v))
  {
    var r := With(list, k, v);
    forall i, j | 0 <= i < j < |r| ensures Before(r[i].version, r[j].version) {
      if i == k && j > k + 1 {
        assert r[j] == list[j - 1];
        BeforeTransitive(v.version, list[k].version, r[j].version);
      }
    }
  }

  /** The walk along the versions of a source: the item of this version, or the first larger one. */
  method Walk(n: SourceName, version: Name) returns (prev: SourceVersion?, v: SourceVersion?, found: bool, ghost k: nat)
    requires ListOk(n)
    ensures k <= |n.list| && v == ItemAt(n.list, k) && prev == (if k == 0 then null else n.list[k - 1])
    ensures forall i :: 0 <= i < k ==> Before(n.list[i].version, version)
    ensures found ==> v != null && v.version == version
    ensures !found && v != null ==> Before(version, v.version)
  {
    hide Compare, Increasing;
    prev, v, k := null, n.versions, 0;
    while v != null && Compare(version, v.version) == Greater
      invariant k <= |n.list| && v == ItemAt(n.list, k) && prev == (if k == 0 then null else n.list[k - 1])
      invariant forall i :: 0 <= i < k ==> Before(n.list[i].version, version)
      decreases |n.list| - k
    {
      CompareSwap(v.version, version);
      prev, v, k := v, v.next, k + 1;
    }
    found := v != null && Compare(version, v.version) == Equal;
    if v != null {
      CompareEqual(version, v.version);
    }
  }

  lemma {:induction false} SameName(s: Shape, n: SourceName, m: SourceName)
    requires Ordered(s) && n in Nodes(s) && m in Nodes(s) && n.name == m.name
    ensures n == m
  {
    CompareEqual(n.name, m.name);
    CompareSwap(n.name, s.node.name);
    CompareSwap(m.name, s.node.name);
    CompareSwap(s.node.name, n.name);
    CompareSwap(s.node.name, m.name);
    if n in Nodes(s.left) && m in Nodes(s.left) {
      SameName(s.left, n, m);
    } else if n in Nodes(s.right) && m in Nodes(s.right) {
      SameName(s.right, n, m);
    } else {
      CompareEqual(n.name, s.node.name);
      CompareEqual(m.name, s.node.name);
    }
  }

  lemma AbsentVersion(list: seq<SourceVersion>, k: nat, version: Name, w: SourceVersion)
    requires Increasing(list) && k <= |list| && w in list
    requires forall i :: 0 <= i < k ==> Before(list[i].version, version)
    requires k < |list| ==> Before(version, list[k].version)
    ensures w.version != version
  {
    var i :| 0 <= i < |list| && list[i] == w;
    CompareEqual(w.version, version);
    if i > k {
      BeforeTransitive(version, list[k].version, w.version);
    }
    CompareEqual(version, w.version);
  }

  ghost predicate Apart(list: seq<SourceVersion>) { forall i, j :: 0 <= i < j < |list| ==> list[i] != list[j] }

  ghost function With(list: seq<SourceVersion>, k: nat, v: SourceVersion): seq<SourceVersion>
    requires k <= |list|
  {
    list[..k] + [v] + list[k..]
  }

  /** Puts a version into the list at position k, by the link in front of it. */
  method Splice(n: SourceName, prev: SourceVersion?, v: SourceVersion, ghost k: nat)
    requires Chain(n.versions, n.list) && Apart(n.list) && k <= |n.list| && v !in n.list
    requires v.next == ItemAt(n.list, k) && prev == (if k == 0 then null else n.list[k - 1])
    modifies n`versions, n`list, n.list`next
    ensures n.list == With(old(n.list), k, v) && Chain(n.versions, n.list)
  {
    ghost var list := n.list;
    if prev == null {
      n.versions := v;
    } else {
      prev.next := v;
    }
    n.list := With(list, k, v);
    forall i | 0 <= i < |n.list| ensures n.list[i].next == ItemAt(n.list, i + 1) {
      if i > k {
        assert n.list[i] == list[i - 1];
      }
    }
  }

  lemma WithMembers(list: seq<SourceVersion>, k: nat, v: SourceVersion)
    requires k <= |list|
    ensures forall w :: w in With(list, k, v) <==> w in list || w == v
  {
    assert list == list[..k] + list[k..];
  }

  /** The second half of find_or_add_source. */
  method AddVersion(n: SourceName, version: Name) returns (v: SourceVersion)
    requires ListOk(n)
    modifies n`versions, n`list, n.list`next
    ensures ListOk(n)
    ensures (forall w :: w in n.list <==> w in old(n.list) || w == v) && v.name == n && v.version == version
    ensures v in old(n.list) || (fresh(v) && !v.hasSibling)
  {
    hide Increasing, Chain, Compare, Before, Apart;
    var prev, cur, found;
    ghost var k;
    prev, cur, found, k := Walk(n, version);
    if found {
      assert cur in n.list;
      return cur;
    }
    v := new SourceVersion(n, version, cur);
    InsertedVersion(n.list, k, v);
    Different(n.list);
    WithMembers(n.list, k, v);
    Splice(n, prev, v, k);
  }

  lemma Different(list: seq<SourceVersion>)
    requires Increasing(list)
    ensures Apart(list)
  {
    forall i, j | 0 <= i < j < |list| ensures list[i] != list[j] {
      CompareEqual(list[i].version, list[j].version);
      assert Before(list[i].version, list[j].version);
    }
  }

  // ----- freeing everything

  /** The nodes above the one in hand, each without the subtrees that are gone; the nearest is outermost. */
  datatype Above = Over | Under(up: Above, node: SourceName, right: Shape)

  ghost function NearestOf(c: Above): SourceName? { if c == Over then null else c.node }

  ghost function AboveNodes(c: Above): set<SourceName> {
    if c == Over then {} else AboveNodes(c.up) + {c.node} + Nodes(c.right)
  }

  /** Left subtrees come first, so all nodes above have no left child any more. */
  ghost predicate AboveLinked(h: map<SourceName, Links>, c: Above) {
    c != Over ==>
      && c.node in h && h[c.node].parent == NearestOf(c.up) && h[c.node].left == null
      && Linked(h, h[c.node].right, c.node, c.right) && AboveLinked(h, c.up)
  }

  ghost function Size(s: Shape): nat { if s == Nil then 0 else Size(s.left) + 1 + Size(s.right) }

  ghost function AboveSize(c: Above): nat { if c == Over then 0 else AboveSize(c.up) + 1 + Size(c.right) }

  ghost predicate Distinct(s: Shape) {
    s.At? ==>
      && s.node !in Nodes(s.left) && s.node !in Nodes(s.right) && Nodes(s.left) !! Nodes(s.right)
      && Distinct(s.left) && Distinct(s.right)
  }

  ghost predicate AboveDistinct(c: Above) {
    c != Over ==>
      && c.node !in Nodes(c.right) && c.node !in AboveNodes(c.up) && Nodes(c.right) !! AboveNodes(c.up)
      && Distinct(c.right) && AboveDistinct(c.up)
  }

  lemma {:induction false} DistinctIfOrdered(s: Shape)
    requires Ordered(s)
    ensures Distinct(s)
  {
    if s.At? {
      OrderedDistinct(s);
      DistinctIfOrdered(s.left);
      DistinctIfOrdered(s.right);
    }
  }

  /** What is left of the tree: the subtree t in hand, headed by s, and what is above it. */
  ghost predicate Remains(h: map<SourceName, Links>, s: SourceName?, t: Shape, c: Above) {
    && Linked(h, s, NearestOf(c), t) && AboveLinked(h, c)
    && Distinct(t) && AboveDistinct(c) && Nodes(t) !! AboveNodes(c)
  }

  ghost function Rest(t: Shape, c: Above): set<SourceName> { Nodes(t) + AboveNodes(c) }

  lemma {:induction false} AboveSame(h: map<SourceName, Links>, k: map<SourceName, Links>, c: Above)
    requires AboveLinked(h, c) && forall n :: n in AboveNodes(c) && n in h ==> n in k && k[n] == h[n]
    ensures AboveLinked(k, c)
  {
    if c != Over {
      SameLinked(h, k, h[c.node].right, c.node, c.right);
      AboveSame(h, k, c.up);
    }
  }

  lemma GoLeft(h: map<SourceName, Links>, s: SourceName, t: Shape, c: Above)
    requires Remains(h, s, t, c) && h[s].left != null
    ensures var k, d := h[s := h[s].(left := null)], Under(c, s, t.right);
      && Remains(k, h[s].left, t.left, d) && h[s].left in Rest(t, c) && Rest(t.left, d) == Rest(t, c)
      && Size(t.left) < Size(t) && Size(t.left) + AboveSize(d) == Size(t) + AboveSize(c)
  {
    var k := h[s := h[s].(left := null)];
    SameLinked(h, k, h[s].left, s, t.left);
    SameLinked(h, k, h[s].right, s, t.right);
    AboveSame(h, k, c);
  }

  lemma GoRight(h: map<SourceName, Links>, s: SourceName, t: Shape, c: Above)
    requires Remains(h, s, t, c) && h[s].left == null && h[s].right != null
    ensures var k, d := h[s := h[s].(right := null)], Under(c, s, Nil);
      && Remains(k, h[s].right, t.right, d) && h[s].right in Rest(t, c) && Rest(t.right, d) == Rest(t, c)
      && Size(t.right) < Size(t) && Size(t.right) + AboveSize(d) == Size(t) + AboveSize(c)
  {
    var k := h[s := h[s].(right := null)];
    assert Linked(h, null, s, t.left) && t.left == Nil;
    SameLinked(h, k, h[s].right, s, t.right);
    AboveSame(h, k, c);
  }

  /** A leaf is gone, and its parent is next. */
  ghost function Next(c: Above): Shape { if c == Over then Nil else At(Nil, c.node, c.right) }
  ghost function Up(c: Above): Above { if c == Over then Over else c.up }

  lemma GoUp(h: map<SourceName, Links>, s: SourceName, t: Shape, c: Above)
    requires Remains(h, s, t, c) && h[s].left == null && h[s].right == null
    ensures t == At(Nil, s, Nil) && Remains(h, h[s].parent, Next(c), Up(c)) && Rest(Next(c), Up(c)) == Rest(t, c) - {s}
    ensures Size(Next(c)) + AboveSize(Up(c)) < Size(t) + AboveSize(c) && s in Rest(t, c)
    ensures if h[s].parent == null then Rest(Next(c), Up(c)) == {} else h[s].parent in Rest(Next(c), Up(c))
  {
    assert Linked(h, null, s, t.left) && t.left == Nil && Linked(h, null, s, t.right) && t.right == Nil;
    if c != Over {
      assert Linked(h, null, c.node, Nil);
      assert Linked(h, c.node, NearestOf(c.up), At(Nil, c.node, c.right));
    }
  }

  /** All different. */
  ghost predicate Once(freed: seq<object>) { forall i, j :: 0 <= i < j < |freed| ==> freed[i] != freed[j] }

  /** These nodes and their versions. */
  ghost predicate Belongs(lists: map<SourceName, seq<SourceVersion>>, nodes: set<SourceName>, o: object) {
    exists n :: n in nodes && n in lists && (o == n || o in lists[n])
  }

  /** Freed so far: each node that is gone and each of its versions, once. */
  ghost predicate Freed(lists: map<SourceName, seq<SourceVersion>>, gone: set<SourceName>, freed: seq<object>) {
    && Once(freed) && (forall o :: o in freed ==> Belongs(lists, gone, o))
    && (forall n :: n in gone ==> n in freed && n in lists && forall v :: v in lists[n] ==> v in freed)
  }

  /** What the versions lists were, and that no version is in two places. */
  ghost predicate Listed(lists: map<SourceName, seq<SourceVersion>>, nodes: set<SourceName>) {
    forall n :: n in nodes ==> n in lists && Apart(lists[n]) && forall v :: v in lists[n] ==> v.name == n
  }

  ghost function Objects(list: seq<SourceVersion>): seq<object> {
    seq(|list|, i requires 0 <= i < |list| => list[i])
  }

  lemma FreedMore(lists: map<SourceName, seq<SourceVersion>>, gone: set<SourceName>, freed: seq<object>, n: SourceName)
    requires Listed(lists, gone + {n}) && Freed(lists, gone, freed) && n !in gone
    ensures Freed(lists, gone + {n}, freed + Objects(lists[n]) + [n])
  {
    var list, freed' := Objects(lists[n]), freed + Objects(lists[n]) + [n];
    NotFreed(lists, gone, freed, n);
    assert n in lists && Once(Objects(lists[n])) && (forall v :: v in lists[n] ==> v in list) by {
      assert n in gone + {n};
      forall v | v in lists[n] ensures v in list {
        var i :| 0 <= i < |lists[n]| && lists[n][i] == v;
        assert list[i] == v;
      }
    }
    forall o | o in freed' ensures Belongs(lists, gone + {n}, o) {
      if o in freed {
        var m :| m in gone && m in lists && (o == m || o in lists[m]);
        assert m in gone + {n};
      } else {
        assert n in gone + {n};
      }
    }
    forall m | m in gone + {n} ensures m in freed' && m in lists && forall v :: v in lists[m] ==> v in freed' {
      assert m in gone || m == n;
    }
    forall i, j | 0 <= i < j < |freed'| ensures freed'[i] != freed'[j] {
      if j < |freed| {
      } else if j < |freed| + |list| {
        assert freed'[j] == lists[n][j - |freed|];
        if i < |freed| {
          assert freed'[i] in freed;
        }
      } else if i >= |freed| {
        assert freed'[i] == lists[n][i - |freed|];
      }
    }
  }

  /** A node that is still there, and its versions, have not been freed. */
  lemma NotFreed(lists: map<SourceName, seq<SourceVersion>>, gone: set<SourceName>, freed: seq<object>, n: SourceName)
    requires Listed(lists, gone + {n}) && Freed(lists, gone, freed) && n !in gone
    ensures n !in freed && forall v :: v in lists[n] ==> v !in freed
  {
    forall o | o in freed ensures o != n && o !in lists[n] {
      var m :| m in gone && m in lists && (o == m || o in lists[m]);
      assert m in gone + {n} && n in gone + {n};
    }
  }

  /** free: of something that is not yet freed. */
  ghost method Free(o: object, freed: seq<object>) returns (freed': seq<object>)
    requires o !in freed
    ensures freed' == freed + [o]
  {
    freed' := freed + [o];
  }

  /** Frees the versions of a source, each before the next is taken. */
  method FreeVersions(s: SourceName, ghost freed: seq<object>) returns (ghost freed': seq<object>)
    requires Chain(s.versions, s.list) && Apart(s.list) && s !in freed && forall v :: v in s.list ==> v !in freed
    modifies s
    ensures freed' == freed + Objects(old(s.list)) && LinksOf(s) == old(LinksOf(s)) && s.parent == old(s.parent)
  {
    ghost var list, k := s.list, 0;
    freed' := freed;
    while s.versions != null
      invariant k <= |list| && s.versions == ItemAt(list, k) && LinksOf(s) == old(LinksOf(s))
      invariant freed' == freed + Objects(list[..k])
      decreases |list| - k
    {
      var v := s.versions;
      assert v in list;
      forall i | |freed| <= i < |freed| + k ensures freed'[i] != v { assert freed'[i] == list[i - |freed|]; }
      assert v !in freed';
      var nv := v.next;
      freed' := Free(v, freed');
      s.versions := nv;
      k := k + 1;
    }
    assert list[..k] == list;
  }

  /** The links are those of the nodes. */
  ghost predicate Seen(h: map<SourceName, Links>, nodes: set<SourceName>)
    reads nodes
  {
    forall n :: n in nodes ==> n in h && h[n] == LinksOf(n)
  }

  /** Down to a leaf, cutting each link that is followed; only what is not freed is touched. */
  method ToLeaf(s: SourceName, ghost h: map<SourceName, Links>, ghost t: Shape, ghost c: Above,
                ghost freed: seq<object>)
    returns (leaf: SourceName, ghost h': map<SourceName, Links>, ghost t': Shape, ghost c': Above)
    requires Remains(h, s, t, c) && s in Rest(t, c) && Seen(h, Rest(t, c))
             && forall n :: n in Rest(t, c) ==> n !in freed
    modifies Rest(t, c)`leftChild, Rest(t, c)`rightChild
    ensures Remains(h', leaf, t', c') && Rest(t', c') == Rest(t, c) && Seen(h', Rest(t, c))
    ensures leaf in Rest(t, c) && leaf.leftChild == null && leaf.rightChild == null
    ensures Size(t') + AboveSize(c') == Size(t) + AboveSize(c)
  {
    hide Remains, Rest, AboveSize;
    ghost var rest := Rest(t, c);
    leaf, h', t', c' := s, h, t, c;
    while leaf.leftChild != null || leaf.rightChild != null
      invariant Remains(h', leaf, t', c') && Rest(t', c') == rest && Seen(h', rest) && leaf in rest
      invariant Size(t') + AboveSize(c') == Size(t) + AboveSize(c)
      decreases Size(t')
    {
      assert leaf !in freed;
      if leaf.leftChild != null {
        GoLeft(h', leaf, t', c');
        var n := leaf.leftChild;
        leaf.leftChild := null;
        h' := h'[leaf := h'[leaf].(left := null)];
        t', c', leaf := t'.left, Under(c', leaf, t'.right), n;
      } else {
        GoRight(h', leaf, t', c');
        var n := leaf.rightChild;
        leaf.rightChild := null;
        h' := h'[leaf := h'[leaf].(right := null)];
        t', c', leaf := t'.right, Under(c', leaf, Nil), n;
      }
    }
  }

  /** The versions lists of these nodes are as they were. */
  ghost predicate Kept(lists: map<SourceName, seq<SourceVersion>>, nodes: set<SourceName>)
    reads nodes`list, nodes`versions, VersionsOf(nodes)
  {
    forall n :: n in nodes ==>
      n in lists && n.list == lists[n] && (forall v :: v in n.list ==> v in VersionsOf(nodes))
        && Chain(n.versions, n.list)
  }

  /** Frees a leaf with its versions; what is left goes on at its parent. */
  method FreeLeaf(leaf: SourceName, ghost h: map<SourceName, Links>, ghost t: Shape, ghost c: Above,
                  ghost lists: map<SourceName, seq<SourceVersion>>, ghost gone: set<SourceName>,
                   ghost freed: seq<object>)
    returns (n: SourceName?, ghost freed': seq<object>)
    requires Remains(h, leaf, t, c) && Seen(h, Rest(t, c)) && leaf.leftChild == null && leaf.rightChild == null
    requires leaf in Rest(t, c) && leaf !in gone && Freed(lists, gone, freed) && Listed(lists, gone + {leaf})
    requires Kept(lists, Rest(t, c))
    modifies leaf
    ensures Remains(h, n, Next(c), Up(c)) && Rest(Next(c), Up(c)) == Rest(t, c) - {leaf}
             && Seen(h, Rest(Next(c), Up(c)))
    ensures if n == null then Rest(Next(c), Up(c)) == {} else n in Rest(Next(c), Up(c))
    ensures Freed(lists, gone + {leaf}, freed') && Size(Next(c)) + AboveSize(Up(c)) < Size(t) + AboveSize(c)
    ensures Kept(lists, Rest(t, c) - {leaf})
  {
    ghost var rest := Rest(t, c);
    ghost var others := rest - {leaf};
    assert allocated(others) && allocated(VersionsOf(others));
    hide *;
    FreeLeafFrom(leaf, h, t, c, lists, gone, freed);
    assert leaf !in others;
    freed' := FreeVersions(leaf, freed);
    assert Seen(h, others);
    assert Kept(lists, others);
    n := leaf.parent;
    freed' := Free(leaf, freed');
  }

  /** A leaf can be freed; what is left is the rest of the tree. */
  lemma FreeLeafFrom(leaf: SourceName, h: map<SourceName, Links>, t: Shape, c: Above,
                     lists: map<SourceName, seq<SourceVersion>>, gone: set<SourceName>, freed: seq<object>)
    requires Remains(h, leaf, t, c) && Seen(h, Rest(t, c)) && leaf.leftChild == null && leaf.rightChild == null
    requires leaf in Rest(t, c) && leaf !in gone && Freed(lists, gone, freed) && Listed(lists, gone + {leaf})
    requires Kept(lists, Rest(t, c))
    ensures Remains(h, leaf.parent, Next(c), Up(c)) && Rest(Next(c), Up(c)) == Rest(t, c) - {leaf}
    ensures Seen(h, Rest(t, c) - {leaf}) && Kept(lists, Rest(t, c) - {leaf})
    ensures if leaf.parent == null then Rest(Next(c), Up(c)) == {} else leaf.parent in Rest(Next(c), Up(c))
    ensures Size(Next(c)) + AboveSize(Up(c)) < Size(t) + AboveSize(c)
    ensures Chain(leaf.versions, leaf.list) && Apart(leaf.list) && leaf !in freed
    ensures (forall v :: v in leaf.list ==> v !in freed) && leaf !in freed + Objects(leaf.list)
    ensures Freed(lists, gone + {leaf}, freed + Objects(leaf.list) + [leaf])
  {
    KeptFewer(lists, Rest(t, c), leaf);
    NotFreed(lists, gone, freed, leaf);
    FreedMore(lists, gone, freed, leaf);
    GoUp(h, leaf, t, c);
    ListedApart(lists, gone + {leaf}, leaf);
    ObjectsOf(lists[leaf], leaf);
    hide Remains, Rest, Freed, Listed, AboveSize, Size;
  }

  lemma KeptFewer(lists: map<SourceName, seq<SourceVersion>>, nodes: set<SourceName>, n: SourceName)
    requires Kept(lists, nodes)
    ensures Kept(lists, nodes - {n})
  {
  }

  lemma ListedApart(lists: map<SourceName, seq<SourceVersion>>, nodes: set<SourceName>, n: SourceName)
    requires Listed(lists, nodes) && n in nodes
    ensures n in lists && Apart(lists[n])
  {
  }

  lemma ObjectsOf(list: seq<SourceVersion>, n: SourceName)
    ensures (n as object) !in Objects(list)
  {
    forall o | o in Objects(list) ensures o != n {
      var i :| 0 <= i < |list| && Objects(list)[i] == o;
      assert o == list[i];
    }
  }

  /** From the node in hand to a leaf, which is freed, and on to its parent. */
  method DestroyTurn(s: SourceName, ghost h: map<SourceName, Links>, ghost t: Shape, ghost c: Above,
                     ghost lists: map<SourceName, seq<SourceVersion>>, ghost all: set<SourceName>,
                      ghost freed: seq<object>)
    returns (n: SourceName?, ghost h': map<SourceName, Links>, ghost t': Shape, ghost c': Above,
             ghost freed': seq<object>)
    requires Remains(h, s, t, c) && Rest(t, c) <= all && Seen(h, Rest(t, c)) && s in Rest(t, c)
    requires Kept(lists, Rest(t, c)) && Freed(lists, all - Rest(t, c), freed) && Listed(lists, all)
    modifies Rest(t, c)
    ensures Remains(h', n, t', c') && Rest(t', c') <= Rest(t, c) && Seen(h', Rest(t', c'))
    ensures if n == null then Rest(t', c') == {} else n in Rest(t', c')
    ensures Kept(lists, Rest(t', c')) && Freed(lists, all - Rest(t', c'), freed')
    ensures Size(t') + AboveSize(c') < Size(t) + AboveSize(c)
  {
    ghost var rest := Rest(t, c);
    assert allocated(rest) && allocated(VersionsOf(rest));
    hide *;
    NoneFreed(lists, all, rest, freed);
    var leaf;
    leaf, h', t', c' := ToLeaf(s, h, t, c, freed);
    OneFewer(all, rest, leaf);
    ListedPart(lists, all, (all - rest) + {leaf});
    n, freed' := FreeLeaf(leaf, h', t', c', lists, all - rest, freed);
    t', c' := Next(c'), Up(c');
  }

  lemma NoneFreed(lists: map<SourceName, seq<SourceVersion>>, all: set<SourceName>, rest: set<SourceName>,
                  freed: seq<object>)
    requires Freed(lists, all - rest, freed) && Listed(lists, all) && rest <= all
    ensures forall m :: m in rest ==> m !in freed
  {
    hide Freed, Listed;
    forall m | m in rest ensures m !in freed {
      ListedPart(lists, all, (all - rest) + {m});
      NotFreed(lists, all - rest, freed, m);
    }
  }

  lemma OneFewer(all: set<SourceName>, rest: set<SourceName>, leaf: SourceName)
    requires leaf in rest && rest <= all
    ensures all - (rest - {leaf}) == (all - rest) + {leaf} && (all - rest) + {leaf} <= all
    ensures leaf !in all - rest && rest - {leaf} <= rest
  {
  }

  lemma ListedPart(lists: map<SourceName, seq<SourceVersion>>, all: set<SourceName>, part: set<SourceName>)
    requires Listed(lists, all) && part <= all
    ensures Listed(lists, part)
  {
  }

  lemma DestroyStart(sources: Sources, lists: map<SourceName, seq<SourceVersion>>)
    requires sources.Valid() && forall n :: n in Nodes(sources.shape) ==> n in lists && lists[n] == n.list
    ensures var all := Nodes(sources.shape);
      && Remains(sources.links, sources.root, sources.shape, Over) && Rest(sources.shape, Over) == all
      && Seen(sources.links, all) && (sources.root == null ==> all == {})
      && (sources.root != null ==> sources.root in all)
      && Kept(lists, all) && Freed(lists, {}, []) && Listed(lists, all)
  {
    DistinctIfOrdered(sources.shape);
    forall n | n in Nodes(sources.shape) ensures Apart(n.list) {
      assert ListOk(n);
      Different(n.list);
    }
  }

  lemma DestroyEnd(lists: map<SourceName, seq<SourceVersion>>, all: set<SourceName>, freed: seq<object>)
    requires Freed(lists, all, freed)
    ensures Once(freed)
    ensures forall o :: o in freed ==> o in all || exists n :: n in all && n in lists && o in lists[n]
    ensures forall n :: n in all ==> n in freed && n in lists && forall v :: v in lists[n] ==> v in freed
  {
    forall o | o in freed ensures o in all || exists n :: n in all && n in lists && o in lists[n] {
      var n :| n in all && n in lists && (o == n || o in lists[n]);
    }
  }

  /** floodlist_free, for the sources: frees every node and every version exactly once. */
  method Destroy(sources: Sources) returns (ghost freed: seq<object>)
    requires sources.Valid()
    modifies Nodes(sources.shape)
    ensures Once(freed)
    ensures forall o :: o in freed ==> o in old(Nodes(sources.shape)) || o in old(sources.all)
    ensures forall n :: n in old(Nodes(sources.shape)) ==> n in freed
    ensures forall v :: v in old(sources.all) ==> v in freed
  {
    ghost var all := Nodes(sources.shape);
    ghost var lists := map n | n in all :: n.list;
    ghost var h, t, c := sources.links, sources.shape, Over;
    var s := sources.root;
    freed := [];
    DestroyStart(sources, lists);
    hide Remains, Rest, Freed, Kept, Listed, AboveSize, Size, Nodes;
    assert all - all == {};
    while s != null
      invariant Remains(h, s, t, c) && Rest(t, c) <= all && Seen(h, Rest(t, c))
      invariant if s == null then Rest(t, c) == {} else s in Rest(t, c)
      invariant Kept(lists, Rest(t, c)) && Freed(lists, all - Rest(t, c), freed)
      decreases Size(t) + AboveSize(c)
    {
      s, h, t, c, freed := DestroyTurn(s, h, t, c, lists, all, freed);
    }
    assert all - {} == all;
    DestroyEnd(lists, all, freed);
  }
}
