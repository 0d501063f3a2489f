/** The flat `lineList` shared by src/EditableTree.tsx and src/App.tsx: how it
    is built from the records, and the two flag rewrites behind
    toggleLeafEdit and toggleLeafCreate. */
module LineList {
  import opened Wrappers
  import opened Types
  import Utils
  import ExactlyOnce

  /** What a committed gesture hands to the owner of the records. */
  datatype Commit = Edit(value: string, id: int) | Create(value: string, parentId: int) | Delete(id: int)

  /** Every line is childless and renders its own id as key and name as title. */
  ghost predicate WellFormed(l: seq<Leaf>) {
    forall i :: 0 <= i < |l| ==> l[i].key == l[i].id && l[i].title == l[i].name && l[i].children == []
  }

  predicate Flagged(n: Leaf) {
    n.isEdit || n.isCreate
  }

  ghost predicate NoFocus(l: seq<Leaf>) {
    forall i :: 0 <= i < |l| ==> !Flagged(l[i])
  }

  /** Single focus: no line carries both flags, and every flagged line carries
      the same key and the same flag. */
  ghost predicate SingleFocus(l: seq<Leaf>) {
    && (forall i :: 0 <= i < |l| ==> !(l[i].isEdit && l[i].isCreate))
    && (forall i, j :: 0 <= i < |l| && 0 <= j < |l| && Flagged(l[i]) && Flagged(l[j]) ==>
          l[i].key == l[j].key && l[i].isEdit == l[j].isEdit)
  }

  ghost predicate UniqueKeys(l: seq<Leaf>) {
    forall i, j :: 0 <= i < j < |l| ==> l[i].key != l[j].key
  }

  /** A line with both flags down: what the flag rewrites leave alone. */
  function Unflagged(n: Leaf): Leaf {
    n.(isEdit := false, isCreate := false)
  }

  /** The line a record becomes: it reads back as that record, renders id and
      name as key and title, and carries no flag and no children. */
  function LineOf(r: Record): (l: Leaf)
    ensures RecordOf(l) == r
    ensures WellFormed([l]) && NoFocus([l])
  {
    Leaf(r.id, r.name, r.parentId, r.id, r.name, false, false, [])
  }

  /** `records.map(...)`: one unflagged, childless line per record, in order;
      reading the records back gives the input. */
  function Lines(records: seq<Record>): (l: seq<Leaf>)
    ensures Records(l) == records
    ensures WellFormed(l) && NoFocus(l)
  {
    seq(|records|, i requires 0 <= i < |records| => LineOf(records[i]))
  }

  /** The lineList effect of EditableTree: the lines of a non-empty list, and
      no lines for an empty or missing one. */
  function LineListOf(list: Option<seq<Record>>): (l: seq<Leaf>)
    ensures Records(l) == if Utils.IsNotEmptyArray(list) then list.value else []
    ensures WellFormed(l) && NoFocus(l)
  {
    if Utils.IsNotEmptyArray(list) then Lines(list.value) else []
  }

  /** The map of toggleLeafEdit: only the line with the given key may be in
      edit mode, and no line is in create mode. */
  function EditFocus(l: seq<Leaf>, key: int, isEdit: bool): (r: seq<Leaf>)
    ensures |r| == |l| && Records(r) == Records(l)
    ensures forall i :: 0 <= i < |l| ==> Unflagged(r[i]) == Unflagged(l[i])
    ensures forall i :: 0 <= i < |l| ==> !r[i].isCreate && (r[i].isEdit <==> isEdit && l[i].key == key)
    ensures SingleFocus(r)
    ensures !isEdit ==> NoFocus(r)
  {
    seq(|l|, i requires 0 <= i < |l| => l[i].(isCreate := false, isEdit := if l[i].key == key then isEdit else false))
  }

  /** The map of toggleLeafCreate: only the line with the given key may be in
      create mode, and no line is in edit mode. */
  function CreateFocus(l: seq<Leaf>, key: int, isCreate: bool): (r: seq<Leaf>)
    ensures |r| == |l| && Records(r) == Records(l)
    ensures forall i :: 0 <= i < |l| ==> Unflagged(r[i]) == Unflagged(l[i])
    ensures forall i :: 0 <= i < |l| ==> !r[i].isEdit && (r[i].isCreate <==> isCreate && l[i].key == key)
    ensures SingleFocus(r)
    ensures !isCreate ==> NoFocus(r)
  {
    seq(|l|, i requires 0 <= i < |l| => l[i].(isEdit := false, isCreate := if l[i].key == key then isCreate else false))
  }

  /** The rewrites touch nothing but flags, so the lines stay well formed and
      keep their keys. */
  lemma RewritesKeepLines(l: seq<Leaf>, key: int, on: bool)
    requires WellFormed(l)
    ensures WellFormed(EditFocus(l, key, on)) && WellFormed(CreateFocus(l, key, on))
    ensures UniqueKeys(l) ==> UniqueKeys(EditFocus(l, key, on)) && UniqueKeys(CreateFocus(l, key, on))
  {
    var e, c := EditFocus(l, key, on), CreateFocus(l, key, on);
    assert forall i :: 0 <= i < |l| ==> e[i].key == Unflagged(e[i]).key == l[i].key;
    assert forall i :: 0 <= i < |l| ==> c[i].key == Unflagged(c[i]).key == l[i].key;
  }

  /** With unique keys, single focus means at most one line is flagged. */
  lemma AtMostOneFlagged(l: seq<Leaf>, i: nat, j: nat)
    requires UniqueKeys(l) && SingleFocus(l)
    requires i < |l| && j < |l| && Flagged(l[i]) && Flagged(l[j])
    ensures i == j
  {
  }

  /** Opening a focus on a key that some line carries, when keys are unique,
      flags that line and only it: the previous focus is closed. */
  lemma FocusMoves(l: seq<Leaf>, key: int, k: nat)
    requires UniqueKeys(l) && k < |l| && l[k].key == key
    ensures EditFocus(l, key, true)[k].isEdit && !EditFocus(l, key, true)[k].isCreate
    ensures CreateFocus(l, key, true)[k].isCreate && !CreateFocus(l, key, true)[k].isEdit
    ensures forall i :: 0 <= i < |l| && i != k ==> !Flagged(EditFocus(l, key, true)[i]) && !Flagged(CreateFocus(l, key, true)[i])
  {
  }

  /** Two flagged lines of a single-focus list with unique ids are the same line. */
  lemma SameFocusedLine(l: seq<Leaf>, x: Leaf, y: Leaf)
    requires WellFormed(l) && UniqueIds(l) && SingleFocus(l)
    requires x in l && y in l && Flagged(x) && Flagged(y)
    ensures x == y
  {
    var a :| 0 <= a < |l| && l[a] == x;
    var b :| 0 <= b < |l| && l[b] == y;
    assert x.id == x.key == y.key == y.id;
    SameIdSameLeaf(l, x, y);
  }

  /** In the tree rendered from the lines, with unique ids at most one node is
      in edit or create mode. */
  lemma TreeSingleFocus(l: seq<Leaf>)
    requires WellFormed(l) && UniqueIds(l) && SingleFocus(l)
    ensures forall i, j :: 0 <= i < j < |ExactlyOnce.FlattenAll(Utils.Forest(l))| ==>
              !(Flagged(ExactlyOnce.FlattenAll(Utils.Forest(l))[i]) && Flagged(ExactlyOnce.FlattenAll(Utils.Forest(l))[j]))
  {
    var f := ExactlyOnce.FlattenAll(Utils.Forest(l));
    assert Fresh(l);
    ExactlyOnce.ForestExactlyOnce(l);
    forall i, j | 0 <= i < j < |f| ensures !(Flagged(f[i]) && Flagged(f[j])) {
      if Flagged(f[i]) && Flagged(f[j]) {
        assert f[i] in f && f[j] in f;
        SameFocusedLine(l, f[i], f[j]);
      }
    }
  }
}
