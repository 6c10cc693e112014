/** The two comparisons that steer the searches of filelist.c, on memory as C sees it. */
module Searches {
  import opened Strings

  /** strncmp(a, b, n), up to the sign; both reach as far as the comparison looks. */
  function Strncmp(a: seq<Byte>, b: seq<Byte>, n: nat): int
    requires n <= |a| && (n <= |b| || 0 in b)
  {
    if n == 0 then 0
    else if a[0] != b[0] then a[0] - b[0]
    else if a[0] == 0 then 0
    else Strncmp(a[1..], b[1..], n - 1)
  }

  /** memcmp(a, b, n), up to the sign. */
  function Memcmp(a: seq<Byte>, b: seq<Byte>, n: nat): int
    requires n <= |a| && n <= |b|
  {
    if n == 0 then 0
    else if a[0] != b[0] then a[0] - b[0]
    else Memcmp(a[1..], b[1..], n - 1)
  }

  /** Which way findfile turns: left, stop, or right. */
  function FileOrder(key: Name, name: Name): Ordering
    requires IsCString(key) && IsCString(name)
  {
    var memory := name + [0];
    assert memory[|name|] == 0;
    var c := Strncmp(key, memory, |key|);
    StrncmpEqual(key, name);
    if c == 0 && memory[|key|] == 0 then Equal
    else if c > 0 then Greater
    else Less
  }

  /** Which way finddir turns. */
  function DirOrder(key: Name, name: Name): Ordering {
    if |key| < |name| then
      (if Memcmp(key, name, |key|) <= 0 then Less else Greater)
    else
      var c := Memcmp(key, name, |name|);
      if c == 0 && |name| == |key| then Equal
      else if c >= 0 then Greater
      else Less
  }

  lemma {:induction false} StrncmpEqual(key: Name, name: Name)
    requires IsCString(key) && IsCString(name)
    ensures 0 in name + [0]
    ensures Strncmp(key, name + [0], |key|) == 0 ==> |key| <= |name|
  {
    assert (name + [0])[|name|] == 0;
    if key != [] {
      assert key[0] in key;
      if name != [] {
        assert (name + [0])[1..] == name[1..] + [0];
        assert forall b :: b in key[1..] ==> b in key;
        assert forall b :: b in name[1..] ==> b in name;
        StrncmpEqual(key[1..], name[1..]);
      }
    }
  }

  lemma {:induction false} FileOrderIsCompare(key: Name, name: Name)
    requires IsCString(key) && IsCString(name)
    ensures FileOrder(key, name) == Compare(key, name)
  {
    if key != [] {
      assert key[0] in key;
      if name != [] {
        assert (name + [0])[1..] == name[1..] + [0];
        assert forall b :: b in key[1..] ==> b in key;
        assert forall b :: b in name[1..] ==> b in name;
        FileOrderIsCompare(key[1..], name[1..]);
      }
    } else if name != [] {
      assert name[0] in name;
    }
  }

  lemma {:induction false} DirOrderIsCompare(key: Name, name: Name)
    ensures DirOrder(key, name) == Compare(key, name)
  {
    if key != [] && name != [] && key[0] == name[0] {
      DirOrderIsCompare(key[1..], name[1..]);
    }
  }
}
