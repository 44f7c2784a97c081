/**
 * The inline editor of `src/components/EntryList.tsx`: at most one row is
 * edited at a time, through `editingIndex` and `editValue`. `onEdit` is
 * reported as the call each handler makes (`None` when it is not called).
 */
module EntryList {
  import opened Wrappers

  /** A call `onEdit(index, newValue)`. */
  datatype EditCall = EditCall(index: nat, newValue: string)

  /** The keys the edit field reacts to. */
  datatype Key = Enter | Escape | OtherKey

  class EntryListState {
    var editingIndex: Option<nat>
    var editValue: string

    constructor ()
      ensures editingIndex == None && editValue == []
    {
      editingIndex := None;
      editValue := [];
    }

    /** The rows among `n` that render in edit mode: never more than one. */
    function EditingRows(n: nat): (rows: set<nat>)
      reads this
      ensures |rows| <= 1
      ensures forall i :: i in rows <==> i < n && editingIndex == Some(i)
    {
      if editingIndex.Some? && editingIndex.value < n then {editingIndex.value} else {}
    }

    /** `handleStartEdit(index)`, from the edit button of row `index`: edit that row, starting from its text. */
    method StartEdit(entries: seq<string>, index: nat)
      requires index < |entries|
      modifies this
      ensures editingIndex == Some(index) && editValue == entries[index]
    {
      editingIndex := Some(index);
      editValue := entries[index];
    }

    /** Typing into the edit field. */
    method SetEditValue(text: string)
      modifies this
      ensures editValue == text && editingIndex == old(editingIndex)
    {
      editValue := text;
    }

    /**
     * `handleSaveEdit`: while editing, calls `onEdit` once with the row and the
     * edited text as it stands (blank text included) and leaves edit mode;
     * otherwise does nothing.
     */
    method SaveEdit() returns (call: Option<EditCall>)
      modifies this
      ensures old(editingIndex).Some? ==>
                call == Some(EditCall(old(editingIndex).value, old(editValue))) && editingIndex == None
      ensures old(editingIndex).None? ==> call == None && editingIndex == None
      ensures editValue == old(editValue)
    {
      if editingIndex.Some? {
        call := Some(EditCall(editingIndex.value, editValue));
        editingIndex := None;
      } else {
        call := None;
      }
    }

    /** A key in the edit field: Enter saves, Escape leaves edit mode without calling `onEdit`. */
    method KeyDown(key: Key) returns (call: Option<EditCall>)
      modifies this
      ensures key == Enter ==>
                call == (if old(editingIndex).Some? then Some(EditCall(old(editingIndex).value, old(editValue))) else None)
                && editingIndex == None
      ensures key == Escape ==> call == None && editingIndex == None
      ensures key == OtherKey ==> call == None && editingIndex == old(editingIndex)
      ensures editValue == old(editValue)
    {
      call := None;
      if key == Enter {
        call := SaveEdit();
      }
      if key == Escape {
        editingIndex := None;
      }
    }
  }
}
