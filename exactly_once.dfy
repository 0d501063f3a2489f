/** With unique ids, translateDataToTree renders every record that reaches a
    root through parentId links exactly once, and nothing else. */
module ExactlyOnce {
  import opened Types
  import opened Utils
  import TreeProps

  /** All the nodes of a tree in pre-order, each seen without its children. */
  function Flatten(n: Leaf): seq<Leaf>
    decreases n
  {
    [Strip(n)] + FlattenAll(n.children)
  }

  function FlattenAll(ns: seq<Leaf>): seq<Leaf>
    decreases ns
  {
    if ns == [] then [] else Flatten(ns[0]) + FlattenAll(ns[1..])
  }

  /** ch[0], ch[1], ... is a path of records of pool, each naming the next as
      its parent, the last naming top. */
  ghost predicate ChainUp(ch: seq<Leaf>, pool: seq<Leaf>, top: int) {
    && |ch| > 0
    && (forall i :: 0 <= i < |ch| ==> ch[i] in pool)
    && (forall i :: 0 <= i < |ch| - 1 ==> ch[i].parentId == ch[i + 1].id)
    && ch[|ch| - 1].parentId == top
  }

  /** A record reaches a root: it is a root, or a path of distinct non-root
      records leads from it to a root. */
  ghost predicate Reachable(x: Leaf, data: seq<Leaf>) {
    && x in data
    && (|| x.parentId == 0
        || exists ch, r :: r in data && r.parentId == 0 && ChainUp(ch, NonRoots(data), r.id) && NoDup(ch) && ch[0] == x)
  }

  /** e lies in the subtree built for rest[j], a record naming pid as parent. */
  ghost predicate UnderMatch(pid: int, rest: seq<Leaf>, j: nat, e: Leaf) {
    j < |rest| && rest[j].parentId == pid && e in Flatten(Attach(rest[j], Remove(rest, j)))
  }

  // ---------------------------------------------------------------------------
  // Sequence helpers
  // ---------------------------------------------------------------------------

  lemma {:induction false} FlattenAllAppend(a: seq<Leaf>, b: seq<Leaf>)
    ensures FlattenAll(a + b) == FlattenAll(a) + FlattenAll(b)
    decreases |a|
  {
    if a == [] {
      assert a + b == b;
    } else {
      assert (a + b)[1..] == a[1..] + b;
      FlattenAllAppend(a[1..], b);
    }
  }

  lemma {:induction false} FlattenAllMembers(ns: seq<Leaf>, e: Leaf)
    ensures e in FlattenAll(ns) <==> exists i :: 0 <= i < |ns| && e in Flatten(ns[i])
    decreases |ns|
  {
    if ns != [] {
      FlattenAllMembers(ns[1..], e);
      if e in FlattenAll(ns[1..]) {
        var i :| 0 <= i < |ns[1..]| && e in Flatten(ns[1..][i]);
        assert e in Flatten(ns[i + 1]);
      }
      if exists i :: 0 <= i < |ns| && e in Flatten(ns[i]) {
        var i :| 0 <= i < |ns| && e in Flatten(ns[i]);
        if i > 0 {
          assert ns[1..][i - 1] == ns[i];
        }
      }
    }
  }

  /** One more step of the scan adds the next record's subtree at the end when
      it matches, and nothing otherwise. */
  lemma KidsStep(pid: int, rest: seq<Leaf>, n: nat)
    requires 0 < n <= |rest|
    ensures rest[n - 1].parentId == pid ==>
              FlattenAll(Kids(pid, rest, n)) == FlattenAll(Kids(pid, rest, n - 1)) + Flatten(Attach(rest[n - 1], Remove(rest, n - 1)))
    ensures rest[n - 1].parentId != pid ==> Kids(pid, rest, n) == Kids(pid, rest, n - 1)
  {
    if rest[n - 1].parentId == pid {
      var last := [Attach(rest[n - 1], Remove(rest, n - 1))];
      assert Kids(pid, rest, n) == Kids(pid, rest, n - 1) + last;
      FlattenAllAppend(Kids(pid, rest, n - 1), last);
      assert FlattenAll(last) == Flatten(last[0]) + FlattenAll([]);
    } else {
      assert Kids(pid, rest, n) == Kids(pid, rest, n - 1) + [];
    }
  }

  /** KidsStep, as membership. */
  lemma KidsStepMember(pid: int, rest: seq<Leaf>, n: nat, e: Leaf)
    requires 0 < n <= |rest|
    ensures e in FlattenAll(Kids(pid, rest, n)) <==>
              || e in FlattenAll(Kids(pid, rest, n - 1))
              || (rest[n - 1].parentId == pid && e in Flatten(Attach(rest[n - 1], Remove(rest, n - 1))))
  {
    KidsStep(pid, rest, n);
  }

  lemma NoDupAppend(a: seq<Leaf>, b: seq<Leaf>)
    requires NoDup(a) && NoDup(b)
    requires forall e :: e in a ==> e !in b
    ensures NoDup(a + b)
  {
    forall i, j | 0 <= i < j < |a + b| ensures (a + b)[i] != (a + b)[j] {
      if i < |a| && j >= |a| {
        assert (a + b)[i] in a;
        assert (a + b)[j] in b;
      }
    }
  }

  lemma {:induction false} NoDupFlattenAll(ns: seq<Leaf>)
    requires forall i :: 0 <= i < |ns| ==> NoDup(Flatten(ns[i]))
    requires forall i, j, e :: 0 <= i < j < |ns| && e in Flatten(ns[i]) ==> e !in Flatten(ns[j])
    ensures NoDup(FlattenAll(ns))
    decreases |ns|
  {
    if ns != [] {
      NoDupFlattenAll(ns[1..]);
      forall e | e in Flatten(ns[0]) ensures e !in FlattenAll(ns[1..]) {
        FlattenAllMembers(ns[1..], e);
      }
      NoDupAppend(Flatten(ns[0]), FlattenAll(ns[1..]));
    }
  }

  /** Removing an element keeps every other element, and with unique ids removes
      its id. */
  lemma RemoveFacts(s: seq<Leaf>, j: nat)
    requires j < |s|
    ensures forall x :: x in s && x != s[j] ==> x in Remove(s, j)
    ensures Fresh(s) ==> Fresh(Remove(s, j))
    ensures UniqueIds(s) ==> UniqueIds(Remove(s, j)) && s[j].id !in Ids(Remove(s, j))
  {
    var r := Remove(s, j);
    forall x | x in s && x != s[j] ensures x in r {
      var k :| 0 <= k < |s| && s[k] == x;
      if k < j { assert r[k] == x; } else { assert r[k - 1] == x; }
    }
    assert forall k :: 0 <= k < |r| ==> r[k] == (if k < j then s[k] else s[k + 1]);
    if UniqueIds(s) {
      forall x | x in r ensures x.id != s[j].id {
        var k :| 0 <= k < |r| && r[k] == x;
      }
    }
  }

  // ---------------------------------------------------------------------------
  // Completeness: every record on a path to the parent is attached
  // ---------------------------------------------------------------------------

  /** Everything under a matching record's subtree is under the scan's result. */
  lemma {:induction false} KidsContain(pid: int, rest: seq<Leaf>, n: nat, j: nat, e: Leaf)
    requires j < n <= |rest| && rest[j].parentId == pid
    requires e in Flatten(Attach(rest[j], Remove(rest, j)))
    ensures e in FlattenAll(Kids(pid, rest, n))
    decreases n
  {
    KidsStep(pid, rest, n);
    if j < n - 1 {
      KidsContain(pid, rest, n - 1, j, e);
    }
  }

  /** Completeness below a parent: the start of any path of distinct records of
      rest leading up to the parent appears in the parent's subtree. */
  lemma {:induction false} AttachComplete(parent: Leaf, rest: seq<Leaf>, ch: seq<Leaf>)
    requires parent.children == [] && Fresh(rest)
    requires ChainUp(ch, rest, parent.id) && NoDup(ch)
    ensures ch[0] in Flatten(Attach(parent, rest))
    decreases |rest|
  {
    var top := ch[|ch| - 1];
    var j :| 0 <= j < |rest| && rest[j] == top;
    var sub := Attach(top, Remove(rest, j));
    if |ch| == 1 {
      assert ch[0] == Strip(top) == Flatten(sub)[0];
    } else {
      var ch' := ch[..|ch| - 1];
      RemoveFacts(rest, j);
      forall i | 0 <= i < |ch'| ensures ch'[i] in Remove(rest, j) {
        assert ch'[i] == ch[i] != ch[|ch| - 1];
      }
      assert ChainUp(ch', Remove(rest, j), top.id);
      AttachComplete(top, Remove(rest, j), ch');
    }
    KidsContain(parent.id, rest, |rest|, j, ch[0]);
    assert Attach(parent, rest).children == Kids(parent.id, rest, |rest|);
  }

  // ---------------------------------------------------------------------------
  // Soundness: everything attached lies on a path to the parent
  // ---------------------------------------------------------------------------

  /** Something in the scan's result lies in the subtree of one matching record. */
  lemma {:induction false} KidsSound(pid: int, rest: seq<Leaf>, n: nat, e: Leaf)
    requires n <= |rest|
    requires e in FlattenAll(Kids(pid, rest, n))
    ensures exists j: nat :: j < n && UnderMatch(pid, rest, j, e)
    decreases n
  {
    assert Kids(pid, rest, 0) == [] && FlattenAll([]) == [];
    assert n > 0;
    KidsStepMember(pid, rest, n, e);
    if !UnderMatch(pid, rest, n - 1, e) {
      KidsSound(pid, rest, n - 1, e);
    }
  }

  /** A path up to c through records other than c, followed by c itself. */
  lemma ChainExtend(ch: seq<Leaf>, pool: seq<Leaf>, rest: seq<Leaf>, c: Leaf)
    requires ChainUp(ch, pool, c.id) && NoDup(ch)
    requires c.id !in Ids(pool) && c in rest
    requires forall x :: x in pool ==> x in rest
    ensures ChainUp(ch + [c], rest, c.parentId) && NoDup(ch + [c])
    ensures (ch + [c])[0] == ch[0] && (ch + [c])[|ch + [c]| - 1] == c
  {
    var ch2 := ch + [c];
    forall i | 0 <= i < |ch| ensures ch[i] != c {
      assert ch[i] in pool;
    }
    forall i | 0 <= i < |ch2| ensures ch2[i] in rest {
      if i < |ch| { assert ch2[i] == ch[i] && ch[i] in pool; }
    }
    forall i, k | 0 <= i < k < |ch2| ensures ch2[i] != ch2[k] {
      if k < |ch| { assert ch2[i] == ch[i] && ch2[k] == ch[k]; }
    }
  }

  /** Soundness of one matching record's subtree: each of its nodes starts a
      path of distinct records of rest that ends at that record. */
  lemma {:induction false} SubtreeChain(pid: int, rest: seq<Leaf>, j: nat, e: Leaf)
    requires Fresh(rest) && UniqueIds(rest)
    requires j < |rest| && rest[j].parentId == pid
    requires e in Flatten(Attach(rest[j], Remove(rest, j)))
    ensures exists ch :: ChainUp(ch, rest, pid) && NoDup(ch) && ch[0] == e && ch[|ch| - 1] == rest[j]
    decreases |rest|, 0
  {
    RemoveFacts(rest, j);
    var c := rest[j];
    AttachSound(c, Remove(rest, j), e);
    if e == Strip(c) {
      assert ChainUp([c], rest, pid);
    } else {
      var ch: seq<Leaf> :| ChainUp(ch, Remove(rest, j), c.id) && NoDup(ch) && ch[0] == e;
      ChainExtend(ch, Remove(rest, j), rest, c);
    }
  }

  /** Soundness below a parent: every node of its subtree other than itself
      starts a path of distinct records of rest leading up to the parent. */
  lemma {:induction false} AttachSound(parent: Leaf, rest: seq<Leaf>, e: Leaf)
    requires parent.children == [] && Fresh(rest) && UniqueIds(rest)
    requires e in Flatten(Attach(parent, rest))
    ensures e == Strip(parent) || exists ch :: ChainUp(ch, rest, parent.id) && NoDup(ch) && ch[0] == e
    decreases |rest|, 1
  {
    if e != Strip(parent) {
      assert Attach(parent, rest).children == Kids(parent.id, rest, |rest|);
      assert e in FlattenAll(Kids(parent.id, rest, |rest|));
      KidsSound(parent.id, rest, |rest|, e);
      var j: nat :| j < |rest| && UnderMatch(parent.id, rest, j, e);
      SubtreeChain(parent.id, rest, j, e);
    }
  }

  // ---------------------------------------------------------------------------
  // Uniqueness: with unique ids, a record's path upwards is determined
  // ---------------------------------------------------------------------------

  /** Two upward paths of records of pool from the same record, each ending at
      a parent outside the pool, are the same path. */
  lemma {:induction false} ChainsAgree(ch1: seq<Leaf>, ch2: seq<Leaf>, pool: seq<Leaf>, t1: int, t2: int)
    requires UniqueIds(pool)
    requires ChainUp(ch1, pool, t1) && ChainUp(ch2, pool, t2)
    requires t1 !in Ids(pool) && t2 !in Ids(pool)
    requires ch1[0] == ch2[0]
    ensures ch1 == ch2
    decreases |ch1|
  {
    if |ch1| > 1 { assert ch1[1] in pool; }
    if |ch2| > 1 { assert ch2[1] in pool; }
    if |ch1| == 1 && |ch2| == 1 {
      assert ch1 == [ch1[0]] && ch2 == [ch2[0]];
    } else if |ch1| == 1 {
      assert false;
    } else if |ch2| == 1 {
      assert false;
    } else {
      SameIdSameLeaf(pool, ch1[1], ch2[1]);
      assert ChainUp(ch1[1..], pool, t1);
      assert ChainUp(ch2[1..], pool, t2);
      ChainsAgree(ch1[1..], ch2[1..], pool, t1, t2);
      assert ch1 == [ch1[0]] + ch1[1..];
      assert ch2 == [ch2[0]] + ch2[1..];
    }
  }

  /** Two records matched by the same scan have disjoint subtrees. */
  lemma SiblingsDisjoint(pid: int, rest: seq<Leaf>, j: nat, k: nat, e: Leaf)
    requires Fresh(rest) && UniqueIds(rest) && pid !in Ids(rest)
    requires j < k < |rest| && rest[j].parentId == pid && rest[k].parentId == pid
    requires e in Flatten(Attach(rest[j], Remove(rest, j)))
    ensures e !in Flatten(Attach(rest[k], Remove(rest, k)))
  {
    SubtreeChain(pid, rest, j, e);
    var ch1: seq<Leaf> :| ChainUp(ch1, rest, pid) && NoDup(ch1) && ch1[0] == e && ch1[|ch1| - 1] == rest[j];
    if e in Flatten(Attach(rest[k], Remove(rest, k))) {
      SubtreeChain(pid, rest, k, e);
      var ch2: seq<Leaf> :| ChainUp(ch2, rest, pid) && NoDup(ch2) && ch2[0] == e && ch2[|ch2| - 1] == rest[k];
      ChainsAgree(ch1, ch2, rest, pid, pid);
      assert false;
    }
  }

  /** Each recursive call builds a record from candidates that no longer hold
      it, so a record never appears inside its own subtree. */
  lemma NotInOwnSubtree(parent: Leaf, rest: seq<Leaf>)
    requires parent.children == [] && Fresh(rest) && UniqueIds(rest) && parent.id !in Ids(rest)
    ensures Strip(parent) !in FlattenAll(Attach(parent, rest).children)
  {
    AttachNoDup(parent, rest);
    var f := Flatten(Attach(parent, rest));
    assert f == [Strip(parent)] + FlattenAll(Attach(parent, rest).children);
    HeadNotInTail(Strip(parent), FlattenAll(Attach(parent, rest).children));
  }

  /** A record attached by the scan before the n-th candidate is not in the
      n-th candidate's subtree when that one matches too. */
  lemma EarlierSiblingsDisjoint(pid: int, rest: seq<Leaf>, n: nat, e: Leaf)
    requires 0 < n <= |rest| && Fresh(rest) && UniqueIds(rest) && pid !in Ids(rest)
    requires rest[n - 1].parentId == pid
    requires e in FlattenAll(Kids(pid, rest, n - 1))
    ensures e !in Flatten(Attach(rest[n - 1], Remove(rest, n - 1)))
  {
    KidsSound(pid, rest, n - 1, e);
    var j: nat :| j < n - 1 && UnderMatch(pid, rest, j, e);
    SiblingsDisjoint(pid, rest, j, n - 1, e);
  }

  /** The subtree a matching candidate adds neither repeats a record nor
      shares one with the subtrees attached before it. */
  lemma MatchedSubtreeFits(pid: int, rest: seq<Leaf>, n: nat)
    requires 0 < n <= |rest| && Fresh(rest) && UniqueIds(rest) && pid !in Ids(rest)
    requires rest[n - 1].parentId == pid
    requires NoDup(FlattenAll(Kids(pid, rest, n - 1)))
    ensures NoDup(FlattenAll(Kids(pid, rest, n - 1)) + Flatten(Attach(rest[n - 1], Remove(rest, n - 1))))
    decreases |rest|, 0, 0
  {
    var prev := FlattenAll(Kids(pid, rest, n - 1));
    var sub := Flatten(Attach(rest[n - 1], Remove(rest, n - 1)));
    RemoveFacts(rest, n - 1);
    AttachNoDup(rest[n - 1], Remove(rest, n - 1));
    forall e | e in prev ensures e !in sub {
      EarlierSiblingsDisjoint(pid, rest, n, e);
    }
    NoDupAppend(prev, sub);
  }

  /** The subtrees that one scan attaches are pairwise disjoint, and each holds
      no record twice. */
  lemma {:induction false} KidsNoDup(pid: int, rest: seq<Leaf>, n: nat)
    requires n <= |rest| && Fresh(rest) && UniqueIds(rest) && pid !in Ids(rest)
    ensures NoDup(FlattenAll(Kids(pid, rest, n)))
    decreases |rest|, 0, n
  {
    if n > 0 {
      KidsNoDup(pid, rest, n - 1);
      KidsStep(pid, rest, n);
      if rest[n - 1].parentId == pid {
        MatchedSubtreeFits(pid, rest, n);
      }
    }
  }

  /** No record appears twice in the subtree built for a parent whose id is
      not among the candidates; in particular the parent never reappears
      inside its own subtree. */
  lemma {:induction false} AttachNoDup(parent: Leaf, rest: seq<Leaf>)
    requires parent.children == [] && Fresh(rest) && UniqueIds(rest) && parent.id !in Ids(rest)
    ensures NoDup(Flatten(Attach(parent, rest)))
    decreases |rest|, 1
  {
    var kids := FlattenAll(Kids(parent.id, rest, |rest|));
    assert Attach(parent, rest).children == Kids(parent.id, rest, |rest|);
    KidsNoDup(parent.id, rest, |rest|);
    forall e | e in kids ensures e != Strip(parent) {
      KidsSound(parent.id, rest, |rest|, e);
      var j: nat :| j < |rest| && UnderMatch(parent.id, rest, j, e);
      SubtreeChain(parent.id, rest, j, e);
    }
    NoDupAppend([Strip(parent)], kids);
  }

  // ---------------------------------------------------------------------------
  // The whole forest
  // ---------------------------------------------------------------------------

  /** No root's id is the id of a candidate child. */
  lemma RootIdNotCandidate(data: seq<Leaf>, r: Leaf)
    requires UniqueIds(data) && r in data && r.parentId == 0
    ensures r.id !in Ids(NonRoots(data))
  {
    FilterMembers(0, data);
    forall y | y in NonRoots(data) ensures y.id != r.id {
      if y.id == r.id {
        SameIdSameLeaf(data, y, r);
      }
    }
  }

  /** The subtrees of two different roots share no record. */
  lemma RootsDisjoint(data: seq<Leaf>, i: nat, j: nat, e: Leaf)
    requires Fresh(data) && UniqueIds(data)
    requires i < j < |Roots(data)|
    requires e in Flatten(Attach(Roots(data)[i], NonRoots(data)))
    ensures e !in Flatten(Attach(Roots(data)[j], NonRoots(data)))
  {
    var roots, rest := Roots(data), NonRoots(data);
    FilterMembers(0, data);
    TreeProps.PartitionUnique(data);
    assert roots[i] in data && roots[j] in data;
    assert Fresh(rest) && roots[i].children == [] && roots[j].children == [];
    assert roots[i].id != roots[j].id;
    RootIdNotCandidate(data, roots[i]);
    RootIdNotCandidate(data, roots[j]);
    AttachSound(roots[i], rest, e);
    if e in Flatten(Attach(roots[j], rest)) {
      AttachSound(roots[j], rest, e);
      if e != Strip(roots[i]) {
        var ch1: seq<Leaf> :| ChainUp(ch1, rest, roots[i].id) && NoDup(ch1) && ch1[0] == e;
        assert ch1[0] in rest;
        if e != Strip(roots[j]) {
          var ch2: seq<Leaf> :| ChainUp(ch2, rest, roots[j].id) && NoDup(ch2) && ch2[0] == e;
          ChainsAgree(ch1, ch2, rest, roots[i].id, roots[j].id);
        }
      }
    }
  }

  /** Soundness of the forest: every rendered node is a record that reaches a root. */
  lemma ForestSound(data: seq<Leaf>, x: Leaf)
    requires Fresh(data) && UniqueIds(data)
    requires x in FlattenAll(Forest(data))
    ensures Reachable(x, data)
  {
    var roots, rest, forest := Roots(data), NonRoots(data), Forest(data);
    FilterMembers(0, data);
    FlattenAllMembers(forest, x);
    var i :| 0 <= i < |forest| && x in Flatten(forest[i]);
    assert forest[i] == Attach(roots[i], rest);
    assert roots[i] in data;
    assert Fresh(rest);
    TreeProps.PartitionUnique(data);
    AttachSound(roots[i], rest, x);
    if x != Strip(roots[i]) {
      var ch: seq<Leaf> :| ChainUp(ch, rest, roots[i].id) && NoDup(ch) && ch[0] == x;
      assert ch[0] in rest;
    }
  }

  /** The candidates of a list of fresh lines are fresh. */
  lemma FreshNonRoots(data: seq<Leaf>)
    requires Fresh(data)
    ensures Fresh(NonRoots(data))
  {
    FilterMembers(0, data);
    forall k | 0 <= k < |NonRoots(data)| ensures NonRoots(data)[k].children == [] {
      assert NonRoots(data)[k] in data;
    }
  }

  /** Whatever lies in a root's subtree is rendered. */
  lemma InForest(data: seq<Leaf>, r: Leaf, x: Leaf)
    requires r in data && r.parentId == 0
    requires x in Flatten(Attach(r, NonRoots(data)))
    ensures x in FlattenAll(Forest(data))
  {
    FilterMembers(0, data);
    var roots, forest := Roots(data), Forest(data);
    assert r in roots;
    var i :| 0 <= i < |roots| && roots[i] == r;
    assert forest[i] == Attach(r, NonRoots(data));
    FlattenAllMembers(forest, x);
  }

  /** Completeness of the forest: every record that reaches a root is rendered. */
  lemma ForestComplete(data: seq<Leaf>, x: Leaf)
    requires Fresh(data)
    requires Reachable(x, data)
    ensures x in FlattenAll(Forest(data))
  {
    if x.parentId == 0 {
      var k :| 0 <= k < |data| && data[k] == x;
      assert Flatten(Attach(x, NonRoots(data)))[0] == Strip(x) == x;
      InForest(data, x, x);
    } else {
      var ch: seq<Leaf>, r: Leaf :| r in data && r.parentId == 0 && ChainUp(ch, NonRoots(data), r.id) && NoDup(ch) && ch[0] == x;
      var k :| 0 <= k < |data| && data[k] == r;
      FreshNonRoots(data);
      AttachComplete(r, NonRoots(data), ch);
      InForest(data, r, x);
    }
  }

  /** The forest holds no record twice. */
  lemma ForestNoDup(data: seq<Leaf>)
    requires Fresh(data) && UniqueIds(data)
    ensures NoDup(FlattenAll(Forest(data)))
  {
    var roots, rest, forest := Roots(data), NonRoots(data), Forest(data);
    FilterMembers(0, data);
    TreeProps.PartitionUnique(data);
    assert Fresh(rest);
    forall i | 0 <= i < |forest| ensures NoDup(Flatten(forest[i])) {
      assert forest[i] == Attach(roots[i], rest);
      assert roots[i] in data;
      RootIdNotCandidate(data, roots[i]);
      AttachNoDup(roots[i], rest);
    }
    forall i, j, e | 0 <= i < j < |forest| && e in Flatten(forest[i]) ensures e !in Flatten(forest[j]) {
      RootsDisjoint(data, i, j, e);
    }
    NoDupFlattenAll(forest);
  }

  /** translateDataToTree with unique ids: the rendered forest holds every
      record that reaches a root exactly once, and nothing else; records whose
      parentId links never reach a root are dropped. */
  lemma ForestExactlyOnce(data: seq<Leaf>)
    requires Fresh(data) && UniqueIds(data)
    ensures NoDup(FlattenAll(Forest(data)))
    ensures forall x :: x in FlattenAll(Forest(data)) <==> Reachable(x, data)
  {
    ForestNoDup(data);
    forall x ensures x in FlattenAll(Forest(data)) <==> Reachable(x, data) {
      if x in FlattenAll(Forest(data)) {
        ForestSound(data, x);
      }
      if Reachable(x, data) {
        ForestComplete(data, x);
      }
    }
  }
}
