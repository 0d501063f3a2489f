/** Worked cases of the tree builder on concrete records. */
module Scenarios {
  import opened Types
  import opened Utils
  import opened LineList

  /** Records A (id 1, a root) and B (id 2, child of 1) render as A with the
      single child B. */
  lemma TwoRecordForest()
    ensures var a, b := LineOf(Record(1, "A", 0)), LineOf(Record(2, "B", 1));
            Forest([a, b]) == [a.(children := [b])]
  {
    var a, b := LineOf(Record(1, "A", 0)), LineOf(Record(2, "B", 1));
    assert [a, b][..1] == [a] && [a][..0] == [];
    assert Roots([a]) == [a];
    assert Roots([a, b]) == [a];
    assert NonRoots([a]) == [];
    assert NonRoots([a, b]) == [b];
    assert Remove([b], 0) == [];
    assert Kids(2, [], 0) == [];
    assert Attach(b, []) == b;
    assert Kids(1, [b], 0) == [];
    assert Kids(1, [b], 1) == [b];
  }

  /** A record whose parent is missing is not rendered, nor is one naming
      itself as parent: only the root remains. */
  lemma OrphansDropped()
    ensures var a, o, s := LineOf(Record(1, "A", 0)), LineOf(Record(5, "O", 9)), LineOf(Record(7, "S", 7));
            Forest([o, a, s]) == [a]
  {
    var a, o, s := LineOf(Record(1, "A", 0)), LineOf(Record(5, "O", 9)), LineOf(Record(7, "S", 7));
    assert [o, a, s][..2] == [o, a] && [o, a][..1] == [o] && [o][..0] == [];
    assert Roots([o]) == [];
    assert Roots([o, a]) == [a];
    assert Roots([o, a, s]) == [a];
    assert NonRoots([o]) == [o];
    assert NonRoots([o, a]) == [o];
    assert NonRoots([o, a, s]) == [o, s];
    assert [o, s][..1] == [o];
    assert Kids(1, [o, s], 0) == [];
    assert Kids(1, [o, s], 1) == [];
    assert Kids(1, [o, s], 2) == [];
  }
}
