/**
 * The entry-list handlers of `src/components/WheelSettings.tsx`: the
 * `setEntries(prev => ...)` updaters as sequence transforms, and the number
 * generator reading the Min and Max fields.
 */
module WheelSettings {
  import opened Wrappers
  import opened Text
  import opened WheelUtils

  /** `handleAddEntry`'s updater `[...prev, entry]`: the entry goes last, the others stay. */
  function AppendEntry(prev: seq<string>, entry: string): (r: seq<string>)
    ensures |r| == |prev| + 1 && r[..|prev|] == prev && r[|prev|] == entry
  {
    prev + [entry]
  }

  /** `handleBulkAddEntries`'s updater `[...prev, ...newEntries]`: the new entries follow the old, in order. */
  function AppendEntries(prev: seq<string>, newEntries: seq<string>): (r: seq<string>)
    ensures |r| == |prev| + |newEntries| && r[..|prev|] == prev && r[|prev|..] == newEntries
  {
    prev + newEntries
  }

  /** `prev.filter((_, i) => i !== index)` over the part of the list that starts at position `from`. */
  function KeepOtherPositions(part: seq<string>, index: int, from: int): seq<string> {
    if part == [] then []
    else (if from == index then [] else [part[0]]) + KeepOtherPositions(part[1..], index, from + 1)
  }

  lemma {:induction false} KeepOtherPositionsSpec(part: seq<string>, index: int, from: int)
    ensures from <= index < from + |part| ==>
              KeepOtherPositions(part, index, from) == part[..index - from] + part[index - from + 1..]
    ensures !(from <= index < from + |part|) ==> KeepOtherPositions(part, index, from) == part
  {
    if part != [] {
      KeepOtherPositionsSpec(part[1..], index, from + 1);
      if from == index {
        assert part[..0] + part[1..] == part[1..];
      } else if from < index < from + |part| {
        assert [part[0]] + (part[1..][..index - from - 1] + part[1..][index - from..])
               == part[..index - from] + part[index - from + 1..];
      } else {
        assert [part[0]] + part[1..] == part;
      }
    }
  }

  /**
   * `handleRemoveEntry`'s updater: an index within the list drops exactly that
   * entry and keeps the others in order; any other index changes nothing.
   */
  function RemoveEntry(prev: seq<string>, index: int): (r: seq<string>)
    ensures 0 <= index < |prev| ==> |r| == |prev| - 1 && r == prev[..index] + prev[index + 1..]
    ensures !(0 <= index < |prev|) ==> r == prev
  {
    KeepOtherPositionsSpec(prev, index, 0);
    KeepOtherPositions(prev, index, 0)
  }

  /**
   * `handleEditEntry`'s updater: copy, then assign at `index`. Within the list
   * only that position changes; at the length the value is appended; a negative
   * index names no element and changes nothing.
   */
  function ReplaceEntry(prev: seq<string>, index: int, newValue: string): (r: seq<string>)
    requires index <= |prev|
    ensures 0 <= index < |prev| ==>
              (|r| == |prev| && r[index] == newValue
               && forall k :: 0 <= k < |prev| && k != index ==> r[k] == prev[k])
    ensures index == |prev| ==> r == prev + [newValue]
    ensures index < 0 ==> r == prev
  {
    if index < 0 then prev
    else if index < |prev| then prev[index := newValue]
    else prev + [newValue]
  }

  /** The lower bound `parseInt(minNumber) || 0`: the field's value, or 0 when it is NaN. */
  function RangeMin(minNumber: string): (min: int)
    ensures min == 0 || ParseInt(minNumber) == Some(min)
  {
    match ParseInt(minNumber)
    case None => 0
    case Some(v) => if v == 0 then 0 else v
  }

  /** The upper bound `parseInt(maxNumber) || 36`: the field's value, or 36 when it is NaN or 0. */
  function RangeMax(maxNumber: string): (max: int)
    ensures max != 0
    ensures max == 36 || ParseInt(maxNumber) == Some(max)
  {
    match ParseInt(maxNumber)
    case None => 36
    case Some(v) => if v == 0 then 36 else v
  }

  /** The fallbacks, for every text: NaN gives 0 and 36, a parsed 0 gives 36 as upper bound, anything else is kept. */
  lemma RangeDefaults(s: string)
    ensures ParseInt(s).None? ==> RangeMin(s) == 0 && RangeMax(s) == 36
    ensures ParseInt(s) == Some(0) ==> RangeMin(s) == 0 && RangeMax(s) == 36
    ensures ParseInt(s).Some? && ParseInt(s).value != 0 ==>
              RangeMin(s) == ParseInt(s).value && RangeMax(s) == ParseInt(s).value
  {
  }

  /**
   * The guard of `generateNumbers`: rejected exactly when the range from min to
   * max would be empty or would reach above 99. There is no lower bound.
   */
  function RangeRejected(minNumber: string, maxNumber: string): (rejected: bool)
    ensures rejected <==> NumberRange(RangeMin(minNumber), RangeMax(maxNumber)) == [] || RangeMax(maxNumber) > 99
  {
    RangeMin(minNumber) > RangeMax(maxNumber) || RangeMax(maxNumber) > 99
  }

  /**
   * The entries after `generateNumbers`: a rejected range keeps them; otherwise
   * they are replaced, not extended, by the numerals from min to max.
   */
  function GeneratedEntries(prev: seq<string>, minNumber: string, maxNumber: string): (r: seq<string>)
    ensures RangeRejected(minNumber, maxNumber) ==> r == prev
    ensures !RangeRejected(minNumber, maxNumber) ==>
              |r| == RangeMax(maxNumber) - RangeMin(minNumber) + 1
              && forall k :: 0 <= k < |r| ==> r[k] == IntToString(RangeMin(minNumber) + k) && RangeMin(minNumber) + k <= 99
  {
    if RangeRejected(minNumber, maxNumber) then prev
    else NumberRange(RangeMin(minNumber), RangeMax(maxNumber))
  }

  /** With the fields as they start, "0" and "36", generating gives the roulette numbers. */
  lemma GenerateFromInitialFields(prev: seq<string>)
    ensures GeneratedEntries(prev, "0", "36") == DefaultRouletteNumbers()
  {
    assert ParseInt("0") == Some(0) by { ParseIntToString(0); }
    assert ParseInt("36") == Some(36) by {
      assert IntToString(36) == NatToString(3) + [DigitChar(6)];
      ParseIntToString(36);
    }
    assert GeneratedEntries(prev, "0", "36") == NumberRange(0, 36);
  }

  /** Blank fields fall back to 0 and 36, so they too give the roulette numbers. */
  lemma GenerateFromBlankFields(prev: seq<string>)
    ensures GeneratedEntries(prev, "", "") == DefaultRouletteNumbers()
  {
    assert ParseInt("") == None;
    assert GeneratedEntries(prev, "", "") == NumberRange(0, 36);
  }

  /** A maximum of 0 is read as 36, so "5" to "0" generates 5 to 36 rather than being rejected. */
  lemma ZeroMaxMeansThirtySix(prev: seq<string>)
    ensures RangeMax("0") == 36
    ensures GeneratedEntries(prev, "5", "0") == NumberRange(5, 36)
  {
    ParseIntToString(0);
    ParseIntToString(5);
    assert IntToString(5) == "5";
  }

  /** A negative minimum passes the guard: "-3" to "2" generates six numerals starting with "-3". */
  lemma NegativeMinAccepted(prev: seq<string>)
    ensures GeneratedEntries(prev, "-3", "2") == NumberRange(-3, 2)
    ensures |GeneratedEntries(prev, "-3", "2")| == 6 && GeneratedEntries(prev, "-3", "2")[0] == "-3"
  {
    assert IntToString(-3) == "-3";
    assert IntToString(2) == "2";
    ParseIntToString(-3);
    ParseIntToString(2);
    assert RangeMin("-3") == -3 && RangeMax("2") == 2;
    assert !RangeRejected("-3", "2");
    var r := GeneratedEntries(prev, "-3", "2");
    assert r == NumberRange(-3, 2);
    assert r[0] == IntToString(-3);
  }

  /** The settings panel's state: the entry list it edits and the text of its Min and Max fields. */
  class WheelSettingsState {
    var entries: seq<string>
    var minNumber: string
    var maxNumber: string

    constructor (entries: seq<string>)
      ensures this.entries == entries && minNumber == "0" && maxNumber == "36"
    {
      this.entries := entries;
      minNumber := "0";
      maxNumber := "36";
    }

    method HandleAddEntry(entry: string)
      modifies this
      ensures entries == AppendEntry(old(entries), entry)
      ensures minNumber == old(minNumber) && maxNumber == old(maxNumber)
    {
      entries := AppendEntry(entries, entry);
    }

    method HandleBulkAddEntries(newEntries: seq<string>)
      modifies this
      ensures entries == AppendEntries(old(entries), newEntries)
      ensures minNumber == old(minNumber) && maxNumber == old(maxNumber)
    {
      entries := AppendEntries(entries, newEntries);
    }

    method HandleRemoveEntry(index: int)
      modifies this
      ensures entries == RemoveEntry(old(entries), index)
      ensures minNumber == old(minNumber) && maxNumber == old(maxNumber)
    {
      entries := RemoveEntry(entries, index);
    }

    method HandleEditEntry(index: int, newValue: string)
      requires index <= |entries|
      modifies this
      ensures entries == ReplaceEntry(old(entries), index, newValue)
      ensures minNumber == old(minNumber) && maxNumber == old(maxNumber)
    {
      entries := ReplaceEntry(entries, index, newValue);
    }

    /** Typing into the Min field. */
    method SetMinNumber(text: string)
      modifies this
      ensures minNumber == text && entries == old(entries) && maxNumber == old(maxNumber)
    {
      minNumber := text;
    }

    /** Typing into the Max field. */
    method SetMaxNumber(text: string)
      modifies this
      ensures maxNumber == text && entries == old(entries) && minNumber == old(minNumber)
    {
      maxNumber := text;
    }

    /** `generateNumbers`: replace the entries by the range of the fields unless the guard rejects it. */
    method GenerateNumbers()
      modifies this
      ensures entries == GeneratedEntries(old(entries), minNumber, maxNumber)
      ensures minNumber == old(minNumber) && maxNumber == old(maxNumber)
    {
      var min := RangeMin(minNumber);
      var max := RangeMax(maxNumber);
      if min > max || max > 99 {
        return;
      }
      var range := GenerateNumberRange(min, max);
      entries := range;
    }

    /** `clearEntries`. */
    method ClearEntries()
      modifies this
      ensures entries == []
      ensures minNumber == old(minNumber) && maxNumber == old(maxNumber)
    {
      entries := [];
    }
  }
}
