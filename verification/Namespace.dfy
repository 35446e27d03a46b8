/**
 Names.  A node's name is a C string in a fixed field: what follows the
 terminator is left over from earlier names.  Names are absolute, with '|'
 between components, and the used names always form a tree.
 */
module Namespace {
  import opened Bytes
  import opened InodeTable

  const BAR: byte := 124          // '|'
  const NAME_MAX: nat := 95
  const FILE: nat := 0
  const DIR: nat := 1

  /** The C string in a field: the bytes before the first zero. */
  function Str(raw: seq<byte>): (s: seq<byte>)
    ensures |s| <= |raw| && 0 !in s
    ensures s == raw[..|s|]
    ensures |s| < |raw| ==> raw[|s|] == 0
  {
    if raw == [] || raw[0] == 0 then [] else [raw[0]] + Str(raw[1..])
  }

  lemma {:induction false} StrIs(raw: seq<byte>, s: seq<byte>)
    requires |s| < |raw| && raw[..|s|] == s && 0 !in s && raw[|s|] == 0
    ensures Str(raw) == s
  {
  }

  /** Well-formed absolute name. */
  predicate NameOk(s: seq<byte>) {
    && 2 <= |s| <= NAME_MAX
    && s[0] == BAR && s[|s| - 1] != BAR
    && forall i :: 1 <= i < |s| && s[i] == BAR ==> s[i - 1] != BAR
  }

  /** name_ok, scanning as the source does. */
  method CheckName(s: seq<byte>) returns (ok: bool)
    ensures ok == NameOk(s)
  {
    if |s| == 0 || s[0] != BAR || |s| < 2 || |s| > NAME_MAX || s[|s| - 1] == BAR {
      return false;
    }
    var i := 1;
    while i < |s|
      invariant 1 <= i <= |s|
      invariant forall j :: 1 <= j < i && s[j] == BAR ==> s[j - 1] != BAR
    {
      if s[i] == BAR && s[i - 1] == BAR {
        return false;
      }
      i := i + 1;
    }
    ok := true;
  }

  /** Position of the last '|'; 0 when there is none. */
  function LastBar(s: seq<byte>): (k: nat)
    ensures s != [] ==> k < |s|
    ensures BAR in s ==> k < |s| && s[k] == BAR
    ensures forall j :: k < j < |s| ==> s[j] != BAR
  {
    if s == [] then 0
    else if s[|s| - 1] == BAR then |s| - 1
    else LastBar(s[..|s| - 1])
  }

  /** "|a|b" for "|a|b|c"; the empty string, standing for the root, for "|a". */
  function Parent(s: seq<byte>): seq<byte> {
    s[..LastBar(s)]
  }

  ghost predicate IsDir(nodes: seq<Node>, s: seq<byte>) {
    exists i :: 0 <= i < |nodes| && nodes[i].used && nodes[i].kind == DIR && Str(nodes[i].name) == s
  }

  /** Used names are well formed and unique, and each one's parent is the root or a used directory. */
  ghost predicate Tree(nodes: seq<Node>) {
    && (forall i :: 0 <= i < |nodes| && nodes[i].used ==> NameOk(Str(nodes[i].name)))
    && (forall i, j :: 0 <= i < j < |nodes| && nodes[i].used && nodes[j].used ==>
          Str(nodes[i].name) != Str(nodes[j].name))
    && (forall i :: 0 <= i < |nodes| && nodes[i].used && Parent(Str(nodes[i].name)) != [] ==>
          IsDir(nodes, Parent(Str(nodes[i].name))))
  }

  /** s is a proper ancestor of t: "|a" and "|a|b" of "|a|b|c". */
  predicate Above(s: seq<byte>, t: seq<byte>) {
    s != [] && |s| < |t| && t[..|s|] == s && t[|s|] == BAR
  }

  lemma ParentIsAbove(t: seq<byte>)
    requires t != [] && BAR in t
    ensures Parent(t) != [] ==> Above(Parent(t), t)
  {
  }

  lemma AboveParent(s: seq<byte>, t: seq<byte>)
    requires Above(s, t)
    ensures s == Parent(t) || Above(s, Parent(t))
  {
    assert t[|s|] in t;
    var p := Parent(t);
    assert |s| <= LastBar(t);
    assert p[..|s|] == t[..|s|];
  }

  /** Every proper ancestor of a used name is a used directory. */
  lemma {:induction false} AncestorsAreDirs(nodes: seq<Node>, i: nat, s: seq<byte>)
    requires Tree(nodes) && i < |nodes| && nodes[i].used && Above(s, Str(nodes[i].name))
    ensures IsDir(nodes, s)
    decreases |Str(nodes[i].name)|
  {
    var t := Str(nodes[i].name);
    AboveParent(s, t);
    assert Parent(t) != [];
    if s != Parent(t) {
      var j :| 0 <= j < |nodes| && nodes[j].used && nodes[j].kind == DIR && Str(nodes[j].name) == Parent(t);
      AncestorsAreDirs(nodes, j, s);
    }
  }

  /** The comparison loop of find: equal up to the terminators. */
  method SameName(raw: seq<byte>, s: seq<byte>) returns (eq: bool)
    requires |raw| == NAME && raw[NAME - 1] == 0 && 0 !in s
    ensures eq <==> Str(raw) == s
  {
    var k := 0;
    while raw[k] != 0 && k < |s| && raw[k] == s[k]
      invariant k < NAME && k <= |s| && raw[..k] == s[..k]
      decreases NAME - k
    {
      assert s[k] in s;
      k := k + 1;
    }
    eq := raw[k] == if k < |s| then s[k] else 0;
    var t := Str(raw);
    assert k < |s| ==> s[k] in s;
    if eq {
      StrIs(raw, s);
    }
  }

  /** Index of the used node with this name, or the table size. */
  method Find(nodes: seq<Node>, s: seq<byte>) returns (i: nat)
    requires NamesTerminated(nodes) && 0 !in s
    ensures i <= |nodes|
    ensures i < |nodes| ==> nodes[i].used && Str(nodes[i].name) == s
    ensures i == |nodes| ==> forall j :: 0 <= j < |nodes| && nodes[j].used ==> Str(nodes[j].name) != s
  {
    i := 0;
    while i < |nodes|
      invariant i <= |nodes|
      invariant forall j :: 0 <= j < i && nodes[j].used ==> Str(nodes[j].name) != s
    {
      if nodes[i].used {
        var eq := SameName(nodes[i].name, s);
        if eq {
          return;
        }
      }
      i := i + 1;
    }
  }

  ghost predicate NamesTerminated(nodes: seq<Node>) {
    forall i :: 0 <= i < |nodes| ==> |nodes[i].name| == NAME && nodes[i].name[NAME - 1] == 0
  }

  /** The parent is the root, or a used directory. */
  method ParentOk(nodes: seq<Node>, s: seq<byte>) returns (ok: bool)
    requires NamesTerminated(nodes) && Tree(nodes) && 0 !in s && NameOk(s)
    ensures ok <==> Parent(s) == [] || IsDir(nodes, Parent(s))
  {
    var last := LastBar(s);
    if last == 0 {
      return true;
    }
    var par := s[..last];
    var i := Find(nodes, par);
    ok := i < |nodes| && nodes[i].kind == DIR;
    if IsDir(nodes, par) && i < |nodes| {
      var j :| 0 <= j < |nodes| && nodes[j].used && nodes[j].kind == DIR && Str(nodes[j].name) == par;
      assert i == j;
    }
  }

  /** Tests the byte after the prefix first, which may be a leftover behind the terminator. */
  method HasChildren(nodes: seq<Node>, dir: seq<byte>) returns (r: bool)
    requires NamesTerminated(nodes) && 0 !in dir && 0 < |dir| <= NAME_MAX
    ensures r <==> exists i :: 0 <= i < |nodes| && nodes[i].used && Above(dir, Str(nodes[i].name))
  {
    var i := 0;
    while i < |nodes|
      invariant i <= |nodes|
      invariant forall j :: 0 <= j < i && nodes[j].used ==> !Above(dir, Str(nodes[j].name))
    {
      if nodes[i].used && nodes[i].name[|dir|] == BAR {
        var raw := nodes[i].name;
        var k := 0;
        while k < |dir| && raw[k] == dir[k]
          invariant k <= |dir| && raw[..k] == dir[..k]
        {
          k := k + 1;
        }
        PrefixInField(raw, dir);
        if k == |dir| {
          assert raw[..|dir|] == dir;
          return true;
        }
        assert raw[..|dir|][k] != dir[k];
      } else if nodes[i].used {
        PrefixInField(nodes[i].name, dir);
      }
      i := i + 1;
    }
    r := false;
  }

  /** Leftover bytes never make a prefix match. */
  lemma PrefixInField(raw: seq<byte>, dir: seq<byte>)
    requires |raw| == NAME && raw[NAME - 1] == 0 && 0 !in dir && 0 < |dir| <= NAME_MAX
    ensures Above(dir, Str(raw)) <==> raw[|dir|] == BAR && raw[..|dir|] == dir
  {
    var t := Str(raw);
    assert |dir| < |t| ==> raw[..|dir|] == t[..|dir|];
  }

  /** Writing a new name over an old one: the terminator ends it, the rest stays. */
  function Overwrite(raw: seq<byte>, s: seq<byte>): (r: seq<byte>)
    requires |raw| == NAME && |s| <= NAME_MAX
    ensures |r| == NAME
  {
    s + [0] + raw[|s| + 1..]
  }

  lemma OverwriteReads(raw: seq<byte>, s: seq<byte>)
    requires |raw| == NAME && raw[NAME - 1] == 0 && |s| <= NAME_MAX && 0 !in s
    ensures Str(Overwrite(raw, s)) == s && Overwrite(raw, s)[NAME - 1] == 0
  {
    StrIs(Overwrite(raw, s), s);
  }

  lemma TreeAdd(nodes: seq<Node>, i: nat, n: Node)
    requires Tree(nodes) && i < |nodes| && !nodes[i].used && n.used
    requires NameOk(Str(n.name))
    requires forall j :: 0 <= j < |nodes| && nodes[j].used ==> Str(nodes[j].name) != Str(n.name)
    requires Parent(Str(n.name)) == [] || IsDir(nodes, Parent(Str(n.name)))
    ensures Tree(nodes[i := n])
  {
    hide Str, NameOk, Parent;
    forall s | IsDir(nodes, s)
      ensures IsDir(nodes[i := n], s)
    {
      var j :| 0 <= j < |nodes| && nodes[j].used && nodes[j].kind == DIR && Str(nodes[j].name) == s;
      assert nodes[i := n][j] == nodes[j];
    }
  }

  /** Removing a node keeps the tree when nothing lies below it, or when it is a file. */
  lemma TreeRemove(nodes: seq<Node>, i: nat, n: Node)
    requires Tree(nodes) && i < |nodes| && nodes[i].used && !n.used
    requires nodes[i].kind != DIR ||
             forall j :: 0 <= j < |nodes| && nodes[j].used ==> !Above(Str(nodes[i].name), Str(nodes[j].name))
    ensures Tree(nodes[i := n])
  {
    hide Str, NameOk, Parent, Above;
    var after := nodes[i := n];
    forall j | 0 <= j < |nodes| && after[j].used && Parent(Str(after[j].name)) != []
      ensures IsDir(after, Parent(Str(after[j].name)))
    {
      var t := Str(nodes[j].name);
      var k :| 0 <= k < |nodes| && nodes[k].used && nodes[k].kind == DIR && Str(nodes[k].name) == Parent(t);
      if k == i {
        UsedHasBar(nodes, j);
        ParentIsAbove(t);
      }
      assert after[k] == nodes[k];
    }
  }

  lemma UsedHasBar(nodes: seq<Node>, j: nat)
    requires Tree(nodes) && j < |nodes| && nodes[j].used
    ensures Str(nodes[j].name) != [] && BAR in Str(nodes[j].name)
  {
    assert NameOk(Str(nodes[j].name));
    assert Str(nodes[j].name)[0] == BAR;
  }

  /** Changing what a node holds does not touch the tree. */
  lemma TreeContent(nodes: seq<Node>, i: nat, n: Node)
    requires Tree(nodes) && i < |nodes|
    requires n.used == nodes[i].used && n.kind == nodes[i].kind && n.name == nodes[i].name
    ensures Tree(nodes[i := n])
  {
    hide Str, NameOk, Parent;
    forall s | IsDir(nodes, s)
      ensures IsDir(nodes[i := n], s)
    {
      var j :| 0 <= j < |nodes| && nodes[j].used && nodes[j].kind == DIR && Str(nodes[j].name) == s;
      assert nodes[i := n][j].used && nodes[i := n][j].kind == DIR && Str(nodes[i := n][j].name) == s;
    }
  }
}
