/** The shapes of src/type/type.ts: a flat record and a line/tree node. */
module Types {

  /** IBaseNode: a flat, parent-referencing record; parentId 0 marks a top-level record. */
  datatype Record = Record(id: int, name: string, parentId: int)

  /** ILeafNode: a record extended with the rendering key and title, the two
      inline-editing flags and the ordered children (empty, never absent). */
  datatype Leaf = Leaf(id: int, name: string, parentId: int,
                       key: int, title: string,
                       isEdit: bool, isCreate: bool,
                       children: seq<Leaf>)

  /** The record a leaf carries. */
  function RecordOf(n: Leaf): Record {
    Record(n.id, n.name, n.parentId)
  }

  function Records(l: seq<Leaf>): (r: seq<Record>)
    ensures |r| == |l|
    ensures forall i :: 0 <= i < |l| ==> r[i] == RecordOf(l[i])
  {
    seq(|l|, i requires 0 <= i < |l| => RecordOf(l[i]))
  }

  /** A node seen without its children: what a flat line looks like. */
  function Strip(n: Leaf): Leaf {
    n.(children := [])
  }

  /** Every line is childless, as the component's flat list always is. */
  ghost predicate Fresh(l: seq<Leaf>) {
    forall i :: 0 <= i < |l| ==> l[i].children == []
  }

  /** Ids are unique across the list (a caller-maintained invariant). */
  ghost predicate UniqueIds(l: seq<Leaf>) {
    forall i, j :: 0 <= i < j < |l| ==> l[i].id != l[j].id
  }

  ghost function Ids(l: seq<Leaf>): set<int> {
    set x | x in l :: x.id
  }

  ghost predicate NoDup<T>(s: seq<T>) {
    forall i, j :: 0 <= i < j < |s| ==> s[i] != s[j]
  }

  /** With unique ids a line is determined by its id. */
  lemma SameIdSameLeaf(l: seq<Leaf>, x: Leaf, y: Leaf)
    requires UniqueIds(l) && x in l && y in l && x.id == y.id
    ensures x == y
  {
    var i :| 0 <= i < |l| && l[i] == x;
    var j :| 0 <= j < |l| && l[j] == y;
    if i < j || j < i { assert false; }
  }

  lemma HeadNotInTail<T>(x: T, s: seq<T>)
    requires NoDup([x] + s)
    ensures x !in s
  {
    forall k | 0 <= k < |s| ensures s[k] != x {
      assert ([x] + s)[0] == x && ([x] + s)[k + 1] == s[k];
      assert 0 < k + 1 < |[x] + s|;
    }
  }
}
