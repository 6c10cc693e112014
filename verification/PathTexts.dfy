/** The lines of the Contents file as text: what is printed for a path is the path. */
module PathTexts {
  import opened Strings
  import opened PathCode
  import opened PathEncoder
  import opened IndexWriter

  /** No name contains a slash. */
  ghost predicate Slashless(l: Location) { (forall d :: d in l.dir ==> SLASH !in d) && SLASH !in l.file }

  lemma {:induction false} DirTextFront(d: Name, dir: Directory)
    ensures DirText([d] + dir) == d + [SLASH] + DirText(dir)
  {
    var all := [d] + dir;
    if dir == [] {
      assert all[..0] == [] && DirText(all) == [] + d + [SLASH];
    } else {
      assert all[..|all| - 1] == [d] + dir[..|dir| - 1] && all[|all| - 1] == dir[|dir| - 1];
      DirTextFront(d, dir[..|dir| - 1]);
    }
  }

  lemma PathTextFront(l: Location)
    requires l.dir != []
    ensures PathText(l) == l.dir[0] + [SLASH] + PathText(Location(l.dir[1..], l.file))
  {
    assert l.dir == [l.dir[0]] + l.dir[1..];
    DirTextFront(l.dir[0], l.dir[1..]);
  }

  /** The first component is what comes before the first slash. */
  lemma PathTextHead(l: Location)
    requires Slashless(l)
    ensures l.dir == [] ==> PathText(l) == l.file && FirstSlash(PathText(l)) == |PathText(l)|
    ensures l.dir != [] ==>
              var t, k := PathText(l), |l.dir[0]|;
              FirstSlash(t) == k < |t| && t[..k] == l.dir[0] && t[k + 1..] == PathText(Location(l.dir[1..], l.file))
  {
    if l.dir == [] {
      LocateFile(l.file);
    } else {
      var d, rest := l.dir[0], PathText(Location(l.dir[1..], l.file));
      PathTextFront(l);
      assert d in l.dir && (d + [SLASH] + rest)[..|d|] == d && (d + [SLASH] + rest)[|d| + 1..] == rest;
      FirstSlashOf(PathText(l), |d|);
    }
  }

  /** Different locations are printed differently. */
  lemma {:induction false} PathTextInjective(l: Location, m: Location)
    requires Slashless(l) && Slashless(m) && PathText(l) == PathText(m)
    ensures l == m
    decreases |l.dir|
  {
    PathTextHead(l);
    PathTextHead(m);
    if l.dir != [] && m.dir != [] {
      PathTextInjective(Location(l.dir[1..], l.file), Location(m.dir[1..], m.file));
      assert l.dir == [l.dir[0]] + l.dir[1..] && m.dir == [m.dir[0]] + m.dir[1..];
    }
  }

  ghost predicate NoTwoSlashes(s: seq<Byte>) {
    !NoFile(s) && s[0] != SLASH && forall i :: 0 < i < |s| ==> s[i - 1] != SLASH || s[i] != SLASH
  }

  lemma AfterSlash(s: seq<Byte>, k: nat)
    requires NoTwoSlashes(s) && k < |s| && s[k] == SLASH
    ensures NoTwoSlashes(s[k + 1..]) && s == s[..k] + [SLASH] + s[k + 1..]
  {
    var t := s[k + 1..];
    assert t != [] && t[0] == s[k + 1] && t[|t| - 1] == s[|s| - 1];
    forall i | 0 < i < |t| ensures t[i - 1] != SLASH || t[i] != SLASH {
      assert t[i - 1] == s[k + i] && t[i] == s[k + 1 + i];
    }
  }

  lemma {:induction false} LocateText(s: seq<Byte>)
    requires NoTwoSlashes(s)
    ensures PathText(Locate(s)) == s && Slashless(Locate(s))
    decreases |s|
  {
    var k := FirstSlash(s);
    if k < |s| {
      AfterSlash(s, k);
      var t := s[k + 1..];
      LocateText(t);
      LocateInside(s, k, t);
    } else {
      assert s[..k] == s && DirText([]) + s == s;
    }
  }

  lemma LocateInside(s: seq<Byte>, k: nat, t: seq<Byte>)
    requires k == FirstSlash(s) < |s| && t == s[k + 1..] && t != [] && t[0] != SLASH && Slashless(Locate(t))
    ensures Slashless(Locate(s)) && PathText(Locate(s)) == s[..k] + [SLASH] + PathText(Locate(t))
  {
    var dir, file := Locate(t).dir, Locate(t).file;
    assert Locate(s) == Location([s[..k]] + dir, file) && SLASH !in s[..k];
    hide Locate, FirstSlash, SkipSlashes, PathText, DirText;
    var l := Location([s[..k]] + dir, file);
    assert l.dir[1..] == dir && l.dir[0] == s[..k];
    PathTextFront(l);
    hide *;
    assert Locate(t) == Location(dir, file);
  }

  /** A normalised path is printed as it was given, but for the leading dot and slashes. */
  lemma PathTextMeaning(path: seq<Byte>)
    requires Normalised(path)
    ensures PathText(Meaning(path)) == Strip(path) && Slashless(Meaning(path))
  {
    LocateText(Strip(path));
  }
}
