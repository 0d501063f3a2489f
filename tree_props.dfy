/** What translateDataToTree promises: the partition keeps input order, each
    parent's new children are its matching records in input order, every edge is
    a genuine parentId link, and with unique ids every record reachable from a
    root appears exactly once. */
module TreeProps {
  import opened Types
  import opened Utils

  // ---------------------------------------------------------------------------
  // The partition into roots and non-roots
  // ---------------------------------------------------------------------------

  /** Filtering commutes with concatenation: both partitions keep input order. */
  lemma {:induction false} PartitionOrder(s: seq<Leaf>, t: seq<Leaf>)
    ensures Roots(s + t) == Roots(s) + Roots(t)
    ensures NonRoots(s + t) == NonRoots(s) + NonRoots(t)
    decreases |t|
  {
    if t == [] {
      assert s + t == s;
    } else {
      var t', x := t[..|t| - 1], t[|t| - 1];
      assert (s + t)[..|s + t| - 1] == s + t';
      assert (s + t)[|s + t| - 1] == x;
      PartitionOrder(s, t');
      calc {
        Roots(s + t);
        Roots(s + t') + (if x.parentId == 0 then [x] else []);
        Roots(s) + Roots(t') + (if x.parentId == 0 then [x] else []);
        Roots(s) + Roots(t);
      }
      calc {
        NonRoots(s + t);
        NonRoots(s + t') + (if x.parentId != 0 then [x] else []);
        NonRoots(s) + NonRoots(t') + (if x.parentId != 0 then [x] else []);
        NonRoots(s) + NonRoots(t);
      }
    }
  }

  /** Every record lands in exactly one of the two partitions. */
  lemma {:induction false} PartitionSplits(s: seq<Leaf>)
    ensures multiset(Roots(s)) + multiset(NonRoots(s)) == multiset(s)
  {
    if s != [] {
      PartitionSplits(s[..|s| - 1]);
      assert s == s[..|s| - 1] + [s[|s| - 1]];
    }
  }

  lemma {:induction false} PartitionUnique(s: seq<Leaf>)
    requires UniqueIds(s)
    ensures UniqueIds(Roots(s)) && UniqueIds(NonRoots(s))
  {
    if s != [] {
      var s', x := s[..|s| - 1], s[|s| - 1];
      assert UniqueIds(s');
      PartitionUnique(s');
      FilterMembers(0, s');
      forall y | y in s' ensures y.id != x.id {
        var k :| 0 <= k < |s'| && s'[k] == y;
        assert s[k] == y;
      }
      if x.parentId == 0 {
        UniqueSnoc(Roots(s'), x);
      } else {
        UniqueSnoc(NonRoots(s'), x);
      }
    }
  }

  /** Appending a record whose id is new keeps ids unique. */
  lemma UniqueSnoc(a: seq<Leaf>, x: Leaf)
    requires UniqueIds(a) && forall y :: y in a ==> y.id != x.id
    ensures UniqueIds(a + [x])
  {
    forall i, j | 0 <= i < j < |a + [x]| ensures (a + [x])[i].id != (a + [x])[j].id {
      assert (a + [x])[i] == a[i];
      if j < |a| { assert (a + [x])[j] == a[j]; }
    }
  }

  // ---------------------------------------------------------------------------
  // Children: order and links
  // ---------------------------------------------------------------------------

  /** The scan of rest[..n] attaches one subtree per matching record, in order. */
  lemma {:induction false} KidsOrder(pid: int, rest: seq<Leaf>, n: nat)
    requires n <= |rest|
    ensures |Kids(pid, rest, n)| == |ChildrenOf(pid, rest[..n])|
    ensures forall k :: 0 <= k < |Kids(pid, rest, n)| ==>
              Strip(Kids(pid, rest, n)[k]) == Strip(ChildrenOf(pid, rest[..n])[k])
  {
    if n > 0 {
      KidsOrder(pid, rest, n - 1);
      assert rest[..n][..n - 1] == rest[..n - 1];
    }
  }

  /** Attaching keeps the parent's own fields and its existing children, then
      appends one subtree per record of rest whose parentId is the parent's id,
      in input order. */
  lemma AttachChildren(parent: Leaf, rest: seq<Leaf>)
    ensures Strip(Attach(parent, rest)) == Strip(parent)
    ensures Attach(parent, rest).children[..|parent.children|] == parent.children
    ensures |Attach(parent, rest).children| == |parent.children| + |ChildrenOf(parent.id, rest)|
    ensures forall k :: 0 <= k < |ChildrenOf(parent.id, rest)| ==>
              Strip(Attach(parent, rest).children[|parent.children| + k]) == Strip(ChildrenOf(parent.id, rest)[k])
  {
    KidsOrder(parent.id, rest, |rest|);
    assert rest[..|rest|] == rest;
  }

  /** Every child's parentId is its parent's id, all the way down. */
  ghost predicate Linked(n: Leaf)
    decreases n
  {
    forall i :: 0 <= i < |n.children| ==> n.children[i].parentId == n.id && Linked(n.children[i])
  }

  lemma {:induction false} AttachLinked(parent: Leaf, rest: seq<Leaf>)
    requires parent.children == [] && Fresh(rest)
    ensures Linked(Attach(parent, rest))
    decreases |rest|, 1
  {
    KidsLinked(parent.id, rest, |rest|);
  }

  lemma {:induction false} KidsLinked(pid: int, rest: seq<Leaf>, n: nat)
    requires n <= |rest| && Fresh(rest)
    ensures forall i :: 0 <= i < |Kids(pid, rest, n)| ==>
              Kids(pid, rest, n)[i].parentId == pid && Linked(Kids(pid, rest, n)[i])
    decreases |rest|, 0, n
  {
    if n > 0 {
      KidsLinked(pid, rest, n - 1);
      if rest[n - 1].parentId == pid {
        AttachLinked(rest[n - 1], Remove(rest, n - 1));
      }
    }
  }

  /** In the forest built from a flat list, every edge is a parentId link. */
  lemma ForestLinked(data: seq<Leaf>)
    requires Fresh(data)
    ensures forall t :: t in Forest(data) ==> Linked(t)
  {
    var roots, rest := Roots(data), NonRoots(data);
    FilterMembers(0, data);
    assert Fresh(rest);
    forall i | 0 <= i < |roots| ensures Linked(Forest(data)[i]) {
      assert roots[i] in data;
      AttachLinked(roots[i], rest);
    }
  }
}
