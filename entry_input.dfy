/**
 * The entry form of `src/components/EntryInput.tsx`: a single-entry field, and
 * a bulk text area behind a toggle. `onAdd` and `onBulkAdd` are reported as the
 * value each handler delivers (`None` when the callback is not called).
 */
module EntryInput {
  import opened Wrappers
  import opened Text
  import opened WheelUtils

  class EntryInputState {
    var entry: string
    var showBulkInput: bool
    var bulkEntries: string

    constructor ()
      ensures entry == [] && !showBulkInput && bulkEntries == []
    {
      entry := [];
      showBulkInput := false;
      bulkEntries := [];
    }

    /** The Add button is enabled when the field holds a valid entry: some character that is not whitespace. */
    function AddEnabled(): (enabled: bool)
      reads this
      ensures enabled <==> !AllWhitespace(entry)
    {
      IsValidEntry(entry)
    }

    /** The "Add All" button is enabled when the bulk text is not blank, and then the text holds an entry. */
    function AddAllEnabled(): (enabled: bool)
      reads this
      ensures enabled <==> !AllWhitespace(bulkEntries)
      ensures enabled ==> ParseEntriesFromText(bulkEntries) != []
    {
      NonBlankTextHasEntry(bulkEntries);
      Trim(bulkEntries) != []
    }

    /** Typing into the single-entry field. */
    method SetEntry(text: string)
      modifies this
      ensures entry == text && showBulkInput == old(showBulkInput) && bulkEntries == old(bulkEntries)
    {
      entry := text;
    }

    /** Typing into the bulk text area. */
    method SetBulkEntries(text: string)
      modifies this
      ensures bulkEntries == text && showBulkInput == old(showBulkInput) && entry == old(entry)
    {
      bulkEntries := text;
    }

    /** "Add Multiple Entries": opens the bulk panel. */
    method OpenBulkInput()
      modifies this
      ensures showBulkInput && entry == old(entry) && bulkEntries == old(bulkEntries)
    {
      showBulkInput := true;
    }

    /** Cancel: closes the bulk panel and keeps its text. */
    method Cancel()
      modifies this
      ensures !showBulkInput && entry == old(entry) && bulkEntries == old(bulkEntries)
    {
      showBulkInput := false;
    }

    /**
     * `handleAddEntry`: a valid entry is delivered trimmed and the field is
     * cleared; otherwise nothing is delivered and the field is kept.
     */
    method HandleAddEntry() returns (added: Option<string>)
      modifies this
      ensures old(AddEnabled()) ==> added == Some(Trim(old(entry))) && entry == []
      ensures !old(AddEnabled()) ==> added == None && entry == old(entry)
      ensures added.Some? ==> added.value != [] && Trim(added.value) == added.value
      ensures showBulkInput == old(showBulkInput) && bulkEntries == old(bulkEntries)
    {
      if IsValidEntry(entry) {
        added := Some(Trim(entry));
        TrimIdempotent(entry);
        entry := [];
      } else {
        added := None;
      }
    }

    /**
     * `handleBulkAdd`: the lines of the bulk text, trimmed, blank ones dropped.
     * If any remain they are delivered, the text is cleared and the panel
     * closed; otherwise nothing changes. When "Add All" is enabled something is
     * always delivered.
     */
    method HandleBulkAdd() returns (added: Option<seq<string>>)
      modifies this
      ensures added == if ParseEntriesFromText(old(bulkEntries)) == [] then None
                       else Some(ParseEntriesFromText(old(bulkEntries)))
      ensures added.Some? ==> bulkEntries == [] && !showBulkInput
      ensures added.None? ==> bulkEntries == old(bulkEntries) && showBulkInput == old(showBulkInput)
      ensures old(AddAllEnabled()) ==> added.Some?
      ensures entry == old(entry)
    {
      var text := bulkEntries;
      var entries := KeepValid(TrimAll(Split(text, '\n')));
      NonBlankTextHasEntry(text);
      if |entries| > 0 {
        added := Some(entries);
        bulkEntries := [];
        showBulkInput := false;
      } else {
        added := None;
      }
    }
  }
}
