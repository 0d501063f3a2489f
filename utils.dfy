/** src/library/utils.ts: the emptiness test and the flat-list-to-forest builder. */
module Utils {
  import opened Wrappers
  import opened Types

  /** isNotEmptyArray: a present array with at least one element. */
  function IsNotEmptyArray<T>(data: Option<seq<T>>): (r: bool)
    ensures r <==> data.Some? && data.value != []
  {
    match data
    case None => false
    case Some(s) => |s| > 0
  }

  /** The records with parentId 0, in input order (the first reduce). */
  function Roots(s: seq<Leaf>): (r: seq<Leaf>)
    ensures |r| <= |s|
  {
    if s == [] then []
    else Roots(s[..|s| - 1]) + (if s[|s| - 1].parentId == 0 then [s[|s| - 1]] else [])
  }

  /** The records with a non-zero parentId, in input order (the second reduce). */
  function NonRoots(s: seq<Leaf>): (r: seq<Leaf>)
    ensures |r| <= |s|
  {
    if s == [] then []
    else NonRoots(s[..|s| - 1]) + (if s[|s| - 1].parentId != 0 then [s[|s| - 1]] else [])
  }

  /** The records of s whose parentId is pid, in input order. */
  function ChildrenOf(pid: int, s: seq<Leaf>): seq<Leaf>
  {
    if s == [] then []
    else ChildrenOf(pid, s[..|s| - 1]) + (if s[|s| - 1].parentId == pid then [s[|s| - 1]] else [])
  }

  /** The roots are exactly the records with parentId 0, the non-roots exactly
      the others, and the children of pid exactly the records naming pid. */
  lemma {:induction false} FilterMembers(pid: int, s: seq<Leaf>)
    ensures forall x :: x in Roots(s) <==> x in s && x.parentId == 0
    ensures forall x :: x in NonRoots(s) <==> x in s && x.parentId != 0
    ensures forall x :: x in ChildrenOf(pid, s) <==> x in s && x.parentId == pid
  {
    if s != [] {
      var s', last := s[..|s| - 1], s[|s| - 1];
      FilterMembers(pid, s');
      assert s == s' + [last];
      assert forall x :: x in s <==> x in s' || x == last;
    }
  }

  /** A copy of s with the element at index i spliced out. */
  function Remove(s: seq<Leaf>, i: nat): (r: seq<Leaf>)
    requires i < |s|
    ensures |r| == |s| - 1
    ensures forall x :: x in r ==> x in s
  {
    s[..i] + s[i + 1..]
  }

  /** translator([parent], rest): the parent with every matching record of rest
      appended to its children, each built from rest minus itself. */
  function Attach(parent: Leaf, rest: seq<Leaf>): (r: Leaf)
    ensures Strip(r) == Strip(parent)
    ensures |parent.children| <= |r.children| <= |parent.children| + |rest|
    decreases |rest|, 1
  {
    parent.(children := parent.children + Kids(parent.id, rest, |rest|))
  }

  /** The subtrees that the scan of rest[..n] attaches under the parent with id pid. */
  function Kids(pid: int, rest: seq<Leaf>, n: nat): (r: seq<Leaf>)
    requires n <= |rest|
    ensures |r| <= n
    decreases |rest|, 0, n
  {
    if n == 0 then []
    else
      Kids(pid, rest, n - 1) +
      (if rest[n - 1].parentId == pid then [Attach(rest[n - 1], Remove(rest, n - 1))] else [])
  }

  /** translateDataToTree: every root with its subtree, built from the non-roots. */
  function Forest(data: seq<Leaf>): (r: seq<Leaf>)
    ensures |r| == |Roots(data)|
    ensures forall i :: 0 <= i < |r| ==> Strip(r[i]) == Strip(Roots(data)[i])
    ensures forall n :: n in r ==> n.parentId == 0
    ensures data == [] ==> r == []
  {
    FilterMembers(0, data);
    var roots, rest := Roots(data), NonRoots(data);
    seq(|roots|, i requires 0 <= i < |roots| => Attach(roots[i], rest))
  }

  /** The recursive translator: scans the candidates in order and, for each one
      whose parentId is the parent's id, builds it from a copy of the candidates
      without itself and appends it to the parent's children. */
  method Translator(parent: Leaf, children: seq<Leaf>) returns (node: Leaf)
    ensures node == Attach(parent, children)
    decreases |children|
  {
    node := parent;
    for index := 0 to |children|
      invariant node == parent.(children := parent.children + Kids(parent.id, children, index))
    {
      var child := children[index];
      if child.parentId == parent.id {
        var temp := children[..index] + children[index + 1..];
        var built := Translator(child, temp);
        node := node.(children := node.children + [built]);
      }
    }
  }

  /** The two reduces of translateDataToTree: the roots and the non-roots, each
      in input order. */
  method Partition(data: seq<Leaf>) returns (parents: seq<Leaf>, children: seq<Leaf>)
    ensures parents == Roots(data) && children == NonRoots(data)
  {
    parents := [];
    for i := 0 to |data|
      invariant parents == Roots(data[..i])
    {
      assert data[..i + 1][..i] == data[..i];
      if data[i].parentId == 0 {
        parents := parents + [data[i]];
      }
    }
    children := [];
    for i := 0 to |data|
      invariant children == NonRoots(data[..i])
    {
      assert data[..i + 1][..i] == data[..i];
      if data[i].parentId != 0 {
        children := children + [data[i]];
      }
    }
    assert data[..|data|] == data;
  }

  /** translateDataToTree: partitions the records, then runs the translator
      over the roots with the non-roots as candidates. */
  method TranslateDataToTree(data: seq<Leaf>) returns (tree: seq<Leaf>)
    ensures tree == Forest(data)
  {
    var parents, children := Partition(data);
    tree := [];
    for i := 0 to |parents|
      invariant |tree| == i
      invariant forall k :: 0 <= k < i ==> tree[k] == Attach(parents[k], children)
    {
      var node := Translator(parents[i], children);
      tree := tree + [node];
    }
  }
}
