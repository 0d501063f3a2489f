/** src/EditableTree.tsx: the component's state and its handlers, each handler
    one atomic step. The callbacks it forwards to are returned as a Commit. */
module Component {
  import opened Wrappers
  import opened Types
  import opened Utils
  import opened Keys
  import opened LineList

  /** The id of the inline input; a selection click on it is ignored. */
  const INPUT_ID: string := "inputId"

  class EditableTree {
    // Props: the records, and which of the optional callbacks were given.
    var list: Option<seq<Record>>
    const hasOnEdit: bool
    const hasOnCreate: bool
    const hasOnDelete: bool

    // State.
    var isInputShow: bool
    var lineList: seq<Leaf>
    var treeList: seq<Leaf>
    var expandKeys: seq<int>
    var selectKeys: seq<int>
    var autoExpand: bool

    /** The lines are exactly the current records, never hold two foci, and the
        rendered tree is always the one built from them. */
    ghost predicate Valid()
      reads this
    {
      && Records(lineList) == (if IsNotEmptyArray(list) then list.value else [])
      && WellFormed(lineList)
      && SingleFocus(lineList)
      && treeList == Forest(lineList)
    }

    /** Mounting: the initial state, then the list and tree effects. */
    constructor (list: Option<seq<Record>>, expandedKeys: seq<int>, selectedKeys: seq<int>,
                 autoExpandParent: bool, hasOnEdit: bool, hasOnCreate: bool, hasOnDelete: bool)
      ensures Valid()
      ensures this.list == list && lineList == LineListOf(list) && NoFocus(lineList)
      ensures isInputShow
      ensures expandKeys == expandedKeys && selectKeys == selectedKeys && autoExpand == autoExpandParent
      ensures this.hasOnEdit == hasOnEdit && this.hasOnCreate == hasOnCreate && this.hasOnDelete == hasOnDelete
    {
      this.list := list;
      this.hasOnEdit, this.hasOnCreate, this.hasOnDelete := hasOnEdit, hasOnCreate, hasOnDelete;
      isInputShow := true;
      lineList, treeList := [], [];
      expandKeys, selectKeys := expandedKeys, selectedKeys;
      autoExpand := autoExpandParent;
      new;
      ReceiveList(list);
    }

    /** The effect on a new `list`: fresh, unflagged lines for it, and the tree
        rebuilt. Expansion, selection and the input flag are kept. */
    method ReceiveList(list: Option<seq<Record>>)
      modifies this`list, this`lineList, this`treeList
      ensures Valid()
      ensures this.list == list && lineList == LineListOf(list) && NoFocus(lineList)
    {
      this.list := list;
      lineList := LineListOf(list);
      RebuildTree();
    }

    /** The effect on `lineList`: the tree is rebuilt from a copy of the lines,
        which stay as they are. */
    method RebuildTree()
      modifies this`treeList
      ensures treeList == Forest(lineList)
    {
      treeList := TranslateDataToTree(lineList);
    }

    /** toggleLeafEdit: puts the line with the key into edit mode (or out of
        it), closes every other edit and every create, and shows the input
        exactly when editing. */
    method ToggleLeafEdit(key: int, isEdit: bool)
      requires Valid()
      modifies this`lineList, this`treeList, this`isInputShow
      ensures Valid()
      ensures lineList == EditFocus(old(lineList), key, isEdit)
      ensures isInputShow == isEdit
    {
      RewritesKeepLines(lineList, key, isEdit);
      lineList := EditFocus(lineList, key, isEdit);
      RebuildTree();
      isInputShow := isEdit;
    }

    /** toggleLeafCreate: puts the line with the key into create mode (or out
        of it), closes every other create and every edit, and expands the key
        even when closing. */
    method ToggleLeafCreate(key: int, isCreate: bool)
      requires Valid()
      modifies this`lineList, this`treeList, this`isInputShow, this`expandKeys, this`autoExpand
      ensures Valid()
      ensures lineList == CreateFocus(old(lineList), key, isCreate)
      ensures isInputShow == isCreate
      ensures expandKeys == Distinct(old(expandKeys) + [key]) && key in expandKeys
      ensures !autoExpand
    {
      var keys := expandKeys + [key];
      RewritesKeepLines(lineList, key, isCreate);
      lineList := CreateFocus(lineList, key, isCreate);
      RebuildTree();
      isInputShow := isCreate;
      HandleExpand(keys);
    }

    /** handleLeafEdit: closes the edit, then forwards the value as it is,
        empty or not, when onEdit was given. */
    method HandleLeafEdit(value: string, key: int) returns (call: Option<Commit>)
      requires Valid()
      modifies this`lineList, this`treeList, this`isInputShow
      ensures Valid() && NoFocus(lineList) && Records(lineList) == Records(old(lineList))
      ensures lineList == EditFocus(old(lineList), key, false) && !isInputShow
      ensures call == if hasOnEdit then Some(Edit(value, key)) else None
    {
      ToggleLeafEdit(key, false);
      call := if hasOnEdit then Some(Edit(value, key)) else None;
    }

    /** handleLeafCreate: closes the create (expanding the parent), then
        forwards the value as it is when onCreate was given. */
    method HandleLeafCreate(value: string, parentId: int) returns (call: Option<Commit>)
      requires Valid()
      modifies this`lineList, this`treeList, this`isInputShow, this`expandKeys, this`autoExpand
      ensures Valid() && NoFocus(lineList) && Records(lineList) == Records(old(lineList))
      ensures lineList == CreateFocus(old(lineList), parentId, false) && !isInputShow
      ensures expandKeys == Distinct(old(expandKeys) + [parentId]) && parentId in expandKeys && !autoExpand
      ensures call == if hasOnCreate then Some(Create(value, parentId)) else None
    {
      ToggleLeafCreate(parentId, false);
      call := if hasOnCreate then Some(Create(value, parentId)) else None;
    }

    /** handleLeafDelete: forwards the key when onDelete was given; the
        component itself changes nothing. */
    method HandleLeafDelete(key: int) returns (call: Option<Commit>)
      ensures call == if hasOnDelete then Some(Delete(key)) else None
    {
      call := if hasOnDelete then Some(Delete(key)) else None;
    }

    /** handleTreeNodeSelect: takes the new selection as given, unless the
        click landed on the inline input. */
    method HandleTreeNodeSelect(selectedKeys: seq<int>, targetId: Option<string>)
      requires Valid()
      modifies this`selectKeys
      ensures Valid()
      ensures selectKeys == if targetId == Some(INPUT_ID) then old(selectKeys) else selectedKeys
    {
      if targetId != Some(INPUT_ID) {
        selectKeys := selectedKeys;
      }
    }

    /** handleExpand: keeps each key once, at its first occurrence, and turns
        automatic parent expansion off for good. */
    method HandleExpand(expandedKeys: seq<int>)
      requires Valid()
      modifies this`expandKeys, this`autoExpand
      ensures Valid()
      ensures expandKeys == Distinct(expandedKeys) && NoDup(expandKeys)
      ensures forall k :: k in expandKeys <==> k in expandedKeys
      ensures !autoExpand
    {
      expandKeys := Dedup(expandedKeys);
      autoExpand := false;
    }
  }
}
