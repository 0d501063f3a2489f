/** src/App.tsx: the demo page's copy of the component state. It seeds the
    lines from the records of its `./list` module and reports each commit as a
    toast instead of calling back. */
module Demo {
  import opened Types
  import opened Utils
  import opened Keys
  import opened LineList

  /** message.success with what was committed, or message.warn for an empty value. */
  datatype Toast = Success(commit: Commit) | Warn

  class App {
    /** The records of the `./list` module, which no handler changes. */
    const response: seq<Record>

    var isInputShow: bool
    var lineList: seq<Leaf>
    var treeList: seq<Leaf>
    var expandedKeys: seq<int>
    var selectedKeys: seq<int>
    var autoExpandParent: bool

    /** The lines always carry exactly the seeded records (the tree shape is
        fixed), never hold two foci, the expanded keys never repeat, and the
        rendered tree is always the one built from the lines. */
    ghost predicate Valid()
      reads this
    {
      && Records(lineList) == response
      && WellFormed(lineList)
      && SingleFocus(lineList)
      && NoDup(expandedKeys)
      && treeList == Forest(lineList)
    }

    /** The initial state, then the seeding and tree effects. */
    constructor (response: seq<Record>)
      ensures Valid()
      ensures this.response == response && lineList == Lines(response) && NoFocus(lineList)
      ensures !isInputShow && expandedKeys == [] && selectedKeys == [] && autoExpandParent
    {
      this.response := response;
      isInputShow := false;
      lineList, treeList := [], [];
      expandedKeys, selectedKeys := [], [];
      autoExpandParent := true;
      new;
      lineList := Lines(response);
      RebuildTree();
    }

    /** The effect on `lineList`: the tree is rebuilt from a copy of the lines. */
    method RebuildTree()
      modifies this`treeList
      ensures treeList == Forest(lineList)
    {
      treeList := TranslateDataToTree(lineList);
    }

    /** toggleLeafEdit, as in the component. */
    method ToggleLeafEdit(key: int, isEdit: bool)
      requires Valid()
      modifies this`lineList, this`treeList, this`isInputShow
      ensures Valid()
      ensures lineList == EditFocus(old(lineList), key, isEdit)
      ensures isInputShow == isEdit
    {
      RewritesKeepLines(lineList, key, isEdit);
      lineList := EditFocus(lineList, key, isEdit);
      RebuildTree();
      isInputShow := isEdit;
    }

    /** toggleLeafCreate, as in the component; the key is added to the
        expanded keys, once. */
    method ToggleLeafCreate(key: int, isCreate: bool)
      requires Valid()
      modifies this`lineList, this`treeList, this`isInputShow, this`expandedKeys, this`autoExpandParent
      ensures Valid()
      ensures lineList == CreateFocus(old(lineList), key, isCreate)
      ensures isInputShow == isCreate
      ensures expandedKeys == if key in old(expandedKeys) then old(expandedKeys) else old(expandedKeys) + [key]
      ensures !autoExpandParent
    {
      var keys := expandedKeys + [key];
      AddKey(expandedKeys, key);
      RewritesKeepLines(lineList, key, isCreate);
      lineList := CreateFocus(lineList, key, isCreate);
      RebuildTree();
      isInputShow := isCreate;
      HandleExpand(keys);
    }

    /** handleLeafDelete: only reports the deletion. */
    method HandleLeafDelete(key: int) returns (toast: Toast)
      ensures toast == Success(Delete(key))
    {
      toast := Success(Delete(key));
    }

    /** handleEdit: warns on an empty value and reports the edit otherwise;
        either way the edit is closed. */
    method HandleEdit(value: string, key: int) returns (toast: Toast)
      requires Valid()
      modifies this`lineList, this`treeList, this`isInputShow
      ensures Valid() && NoFocus(lineList) && !isInputShow
      ensures lineList == EditFocus(old(lineList), key, false)
      ensures toast == if value == "" then Warn else Success(Edit(value, key))
    {
      toast := if value != "" then Success(Edit(value, key)) else Warn;
      ToggleLeafEdit(key, false);
    }

    /** handleCreate: warns on an empty value and reports the new child
        otherwise; either way the create is closed and the parent expanded. */
    method HandleCreate(value: string, parentId: int) returns (toast: Toast)
      requires Valid()
      modifies this`lineList, this`treeList, this`isInputShow, this`expandedKeys, this`autoExpandParent
      ensures Valid() && NoFocus(lineList) && !isInputShow
      ensures lineList == CreateFocus(old(lineList), parentId, false)
      ensures parentId in expandedKeys && !autoExpandParent
      ensures expandedKeys == if parentId in old(expandedKeys) then old(expandedKeys) else old(expandedKeys) + [parentId]
      ensures toast == if value == "" then Warn else Success(Create(value, parentId))
    {
      toast := if value != "" then Success(Create(value, parentId)) else Warn;
      ToggleLeafCreate(parentId, false);
    }

    /** handleTreeNodeSelect: takes the new selection as given, with no check
        of the click target. */
    method HandleTreeNodeSelect(keys: seq<int>)
      requires Valid()
      modifies this`selectedKeys
      ensures Valid()
      ensures selectedKeys == keys
    {
      selectedKeys := keys;
    }

    /** handleExpand: keeps each key once, at its first occurrence, and turns
        automatic parent expansion off for good. */
    method HandleExpand(keys: seq<int>)
      requires Valid()
      modifies this`expandedKeys, this`autoExpandParent
      ensures Valid()
      ensures expandedKeys == Distinct(keys) && NoDup(expandedKeys)
      ensures forall k :: k in expandedKeys <==> k in keys
      ensures !autoExpandParent
    {
      expandedKeys := Dedup(keys);
      autoExpandParent := false;
    }
  }
}
