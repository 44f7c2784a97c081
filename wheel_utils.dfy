/** The helpers of `src/utils/wheelUtils.ts`: segment colours, number ranges and entry parsing. */
module WheelUtils {
  import opened Wrappers
  import opened Text

  /** The fixed palette of segment colours, in drawing order. */
  const SegmentColors: seq<string> :=
    ["#ea384c", "#000000e6", "#66bb6a", "#1EAEDB", "#8B5CF6", "#F97316", "#D946EF"]

  /** `getSegmentColor(index)`: the palette entry at `index` modulo the palette size. */
  function SegmentColor(index: nat): (color: string)
    ensures color in SegmentColors
    ensures index < |SegmentColors| ==> color == SegmentColors[index]
  {
    SegmentColors[index % |SegmentColors|]
  }

  /** Colours repeat with the period of the palette. */
  lemma SegmentColorPeriodic(index: nat)
    ensures SegmentColor(index + |SegmentColors|) == SegmentColor(index)
  {
    assert (index + 7) % 7 == index % 7;
  }

  lemma PaletteDistinct(i: nat, j: nat)
    requires i < j < |SegmentColors|
    ensures SegmentColors[i] != SegmentColors[j]
  {
    assert SegmentColors[i][1] != SegmentColors[j][1] || SegmentColors[i][2] != SegmentColors[j][2];
  }

  /** Two neighbouring segments `i` and `i + 1` never share a colour. */
  lemma NeighbourColorsDiffer(i: nat)
    ensures SegmentColor(i) != SegmentColor(i + 1)
  {
    var a, b := i % 7, (i + 1) % 7;
    assert b == if a == 6 then 0 else a + 1;
    if a < b { PaletteDistinct(a, b); } else { PaletteDistinct(b, a); }
  }

  /**
   * On a wheel of `n >= 2` segments the last segment touches the first; the two
   * share a colour exactly when `n` leaves remainder 1 modulo the palette size.
   */
  lemma SeamColors(n: nat)
    requires n >= 2
    ensures SegmentColor(n - 1) == SegmentColor(0) <==> n % |SegmentColors| == 1
  {
    var a := (n - 1) % 7;
    assert a == 0 <==> n % 7 == 1;
    if a != 0 { PaletteDistinct(0, a); }
  }

  /** The list `generateNumberRange(start, end)` returns: the numerals of `start` to `end` inclusive. */
  function NumberRange(start: int, end: int): (r: seq<string>)
    ensures |r| == if start <= end then end - start + 1 else 0
    ensures forall k :: 0 <= k < |r| ==> r[k] == IntToString(start + k)
    decreases end - start
  {
    if start > end then [] else [IntToString(start)] + NumberRange(start + 1, end)
  }

  /** `generateNumberRange`: a counting loop that pushes each numeral onto a list. */
  method GenerateNumberRange(start: int, end: int) returns (range: seq<string>)
    ensures range == NumberRange(start, end)
  {
    range := [];
    var i := start;
    while i <= end
      invariant start <= i && (start <= end ==> i <= end + 1) && (start > end ==> i == start)
      invariant |range| == i - start
      invariant forall k :: 0 <= k < |range| ==> range[k] == IntToString(start + k)
      decreases end - i
    {
      range := range + [IntToString(i)];
      i := i + 1;
    }
  }

  /** The numerals of a range read back as the consecutive integers, so they are increasing and distinct. */
  lemma NumberRangeValues(start: int, end: int)
    ensures forall k :: 0 <= k < |NumberRange(start, end)| ==> ParseInt(NumberRange(start, end)[k]) == Some(start + k)
    ensures forall j, k :: 0 <= j < k < |NumberRange(start, end)| ==> NumberRange(start, end)[j] != NumberRange(start, end)[k]
  {
    var r := NumberRange(start, end);
    forall k | 0 <= k < |r| ensures ParseInt(r[k]) == Some(start + k) {
      ParseIntToString(start + k);
    }
    forall j, k | 0 <= j < k < |r| ensures r[j] != r[k] {
      if r[j] == r[k] {
        IntToStringInjective(start + j, start + k);
      }
    }
  }

  /** `getDefaultRouletteNumbers()`: the 37 numerals "0" to "36" of a roulette wheel. */
  function DefaultRouletteNumbers(): (r: seq<string>)
    ensures |r| == 37
    ensures forall k :: 0 <= k < 37 ==> r[k] == NatToString(k)
    ensures r[0] == "0" && r[36] == "36"
  {
    assert NatToString(36) == NatToString(3) + [DigitChar(6)];
    NumberRange(0, 36)
  }

  /** `isValidEntry(entry)`: false exactly for empty or all-whitespace text. */
  function IsValidEntry(entry: string): (valid: bool)
    ensures !valid <==> AllWhitespace(entry)
  {
    Trim(entry) != []
  }

  /** A non-empty string that is its own trim is a valid entry. */
  lemma TrimmedIsValid(s: string)
    requires s != [] && Trim(s) == s
    ensures IsValidEntry(s)
  {
    assert !IsWhitespace(Trim(s)[0]);
  }

  /** `xs` occurs in `ys` in the same order, possibly with gaps. */
  predicate IsSubsequence(xs: seq<string>, ys: seq<string>) {
    if xs == [] then true
    else if ys == [] then false
    else if xs[0] == ys[0] then IsSubsequence(xs[1..], ys[1..])
    else IsSubsequence(xs, ys[1..])
  }

  /** Each string of `lines`, trimmed. */
  function TrimAll(lines: seq<string>): (r: seq<string>)
    ensures |r| == |lines|
  {
    seq(|lines|, i requires 0 <= i < |lines| => Trim(lines[i]))
  }

  /** Every line `map(trim)` yields is already trimmed. */
  lemma TrimAllTrimmed(lines: seq<string>)
    ensures forall i :: 0 <= i < |TrimAll(lines)| ==> Trim(TrimAll(lines)[i]) == TrimAll(lines)[i]
  {
    forall i | 0 <= i < |lines|
      ensures Trim(TrimAll(lines)[i]) == TrimAll(lines)[i]
    {
      TrimIdempotent(lines[i]);
    }
  }

  /** Trimming a list line by line: the head's trim, then the tail's. */
  lemma TrimAllCons(line: string, rest: seq<string>)
    ensures TrimAll([line] + rest) == [Trim(line)] + TrimAll(rest)
  {
    var r := TrimAll([line] + rest);
    var q := [Trim(line)] + TrimAll(rest);
    forall i | 0 <= i < |r|
      ensures r[i] == q[i]
    {
      if i > 0 {
        assert ([line] + rest)[i] == rest[i - 1];
      }
    }
    assert r == q;
  }

  /** `filter(isValidEntry)`: the valid strings of `xs`, in their order. */
  function KeepValid(xs: seq<string>): (r: seq<string>)
    ensures |r| <= |xs|
    ensures forall i :: 0 <= i < |r| ==> IsValidEntry(r[i])
  {
    if xs == [] then []
    else if IsValidEntry(xs[0]) then [xs[0]] + KeepValid(xs[1..])
    else KeepValid(xs[1..])
  }

  /** The filter keeps the order of what it keeps. */
  lemma {:induction false} KeepValidIsSubsequence(xs: seq<string>)
    ensures IsSubsequence(KeepValid(xs), xs)
  {
    if xs != [] {
      var rest := KeepValid(xs[1..]);
      KeepValidIsSubsequence(xs[1..]);
      if IsValidEntry(xs[0]) {
        assert ([xs[0]] + rest)[1..] == rest;
      } else {
        assert rest != [] ==> IsValidEntry(rest[0]);
      }
    }
  }

  /** The filter drops no valid string. */
  lemma {:induction false} KeepValidKeeps(xs: seq<string>, i: nat)
    requires i < |xs| && IsValidEntry(xs[i])
    ensures xs[i] in KeepValid(xs)
  {
    if i > 0 {
      KeepValidKeeps(xs[1..], i - 1);
    }
  }

  /** A non-empty list is its head followed by its tail, also in front of another list. */
  lemma HeadTail<T>(xs: seq<T>, ys: seq<T>)
    requires xs != []
    ensures xs == [xs[0]] + xs[1..]
    ensures xs + ys == [xs[0]] + (xs[1..] + ys)
  {
  }

  /** Concatenation is associative. */
  lemma ConcatAssociative<T>(a: seq<T>, b: seq<T>, c: seq<T>)
    ensures a + (b + c) == (a + b) + c
  {
  }

  /** One step of the filter: the head is kept exactly when it is valid. */
  lemma KeepValidCons(x: string, rest: seq<string>)
    ensures KeepValid([x] + rest) == (if IsValidEntry(x) then [x] else []) + KeepValid(rest)
  {
    var xs := [x] + rest;
    assert xs[0] == x && xs[1..] == rest;
  }

  /** Filtering a concatenation filters each part: no occurrence of a valid string is lost. */
  lemma {:induction false} KeepValidAppend(xs: seq<string>, ys: seq<string>)
    ensures KeepValid(xs + ys) == KeepValid(xs) + KeepValid(ys)
  {
    if xs == [] {
      assert xs + ys == ys;
    } else {
      var head: seq<string> := if IsValidEntry(xs[0]) then [xs[0]] else [];
      KeepValidAppend(xs[1..], ys);
      HeadTail(xs, ys);
      KeepValidCons(xs[0], xs[1..] + ys);
      KeepValidCons(xs[0], xs[1..]);
      ConcatAssociative(head, KeepValid(xs[1..]), KeepValid(ys));
    }
  }

  /** The filter keeps every occurrence of a valid string and none of an invalid one. */
  lemma {:induction false} KeepValidCounts(xs: seq<string>, x: string)
    ensures multiset(KeepValid(xs))[x] == if IsValidEntry(x) then multiset(xs)[x] else 0
  {
    if xs != [] {
      var head: seq<string> := if IsValidEntry(xs[0]) then [xs[0]] else [];
      KeepValidCounts(xs[1..], x);
      HeadTail(xs, []);
      KeepValidCons(xs[0], xs[1..]);
      assert multiset(xs)[x] == multiset([xs[0]])[x] + multiset(xs[1..])[x];
      assert multiset(KeepValid(xs))[x] == multiset(head)[x] + multiset(KeepValid(xs[1..]))[x];
    }
  }

  /** A list of valid strings passes the filter unchanged. */
  lemma {:induction false} KeepValidOfValid(xs: seq<string>)
    requires forall i :: 0 <= i < |xs| ==> IsValidEntry(xs[i])
    ensures KeepValid(xs) == xs
  {
    if xs != [] {
      KeepValidOfValid(xs[1..]);
      assert [xs[0]] + xs[1..] == xs;
    }
  }

  /**
   * `parseEntriesFromText(text)`: split on newlines, trim each line, keep the
   * valid ones; at most one entry per line.
   */
  function ParseEntriesFromText(text: string): (entries: seq<string>)
    ensures |entries| <= Count(text, '\n') + 1
  {
    KeepValid(TrimAll(Split(text, '\n')))
  }

  /** Every parsed entry is non-empty, its own trim, and a single line. */
  lemma ParsedEntriesAreTrimmed(text: string)
    ensures forall i :: 0 <= i < |ParseEntriesFromText(text)| ==>
              ParseEntriesFromText(text)[i] != [] && Trim(ParseEntriesFromText(text)[i]) == ParseEntriesFromText(text)[i]
              && '\n' !in ParseEntriesFromText(text)[i]
  {
    var pieces := Split(text, '\n');
    var lines := TrimAll(pieces);
    var entries := KeepValid(lines);
    KeepValidIsSubsequence(lines);
    forall i | 0 <= i < |entries|
      ensures entries[i] != [] && Trim(entries[i]) == entries[i] && '\n' !in entries[i]
    {
      var k := InSubsequence(entries, lines, i);
      TrimIdempotent(pieces[k]);
      if '\n' in entries[i] {
        TrimKeepsCharacters(pieces[k], '\n');
      }
    }
  }

  /** The parsed entries are the trimmed lines in line order, with gaps only where lines were blank. */
  lemma ParseKeepsLineOrder(text: string)
    ensures IsSubsequence(ParseEntriesFromText(text), TrimAll(Split(text, '\n')))
    ensures forall k :: 0 <= k < |Split(text, '\n')| && IsValidEntry(Split(text, '\n')[k]) ==>
              Trim(Split(text, '\n')[k]) in ParseEntriesFromText(text)
  {
    var pieces := Split(text, '\n');
    KeepValidIsSubsequence(TrimAll(pieces));
    forall k | 0 <= k < |pieces| && IsValidEntry(pieces[k])
      ensures Trim(pieces[k]) in ParseEntriesFromText(text)
    {
      TrimIdempotent(pieces[k]);
      KeepValidKeeps(TrimAll(pieces), k);
    }
  }

  /**
   * Line by line: a first line `p` contributes its trim when it is a valid
   * entry and nothing otherwise, and the rest of the text is parsed on its own.
   */
  lemma ParseLineByLine(p: string, t: string)
    requires '\n' !in p
    ensures ParseEntriesFromText(p + "\n" + t) ==
              (if IsValidEntry(p) then [Trim(p)] else []) + ParseEntriesFromText(t)
  {
    SplitAfterPiece(p, t, '\n');
    var rest := Split(t, '\n');
    TrimAllCons(p, rest);
    KeepValidAppend([Trim(p)], TrimAll(rest));
    TrimIdempotent(p);
    assert IsValidEntry(Trim(p)) == IsValidEntry(p);
  }

  /** Every element of a subsequence is an element of the sequence. */
  lemma {:induction false} InSubsequence(xs: seq<string>, ys: seq<string>, i: nat) returns (k: nat)
    requires IsSubsequence(xs, ys) && i < |xs|
    ensures k < |ys| && ys[k] == xs[i]
    decreases |ys|
  {
    if xs[0] == ys[0] {
      if i == 0 {
        k := 0;
      } else {
        k := InSubsequence(xs[1..], ys[1..], i - 1);
        k := k + 1;
      }
    } else {
      k := InSubsequence(xs, ys[1..], i);
      k := k + 1;
    }
  }

  /** Empty text holds no entry. */
  lemma ParseEmptyText()
    ensures ParseEntriesFromText([]) == []
  {
    var lines := TrimAll(Split([], '\n'));
    assert lines == [[]];
    assert !IsValidEntry(lines[0]);
    assert KeepValid(lines) == KeepValid([]);
  }

  /** A list of trimmed, non-empty, single-line entries survives a join and a parse. */
  lemma {:induction false} ParseJoinOfEntries(entries: seq<string>)
    requires forall i :: 0 <= i < |entries| ==> entries[i] != [] && Trim(entries[i]) == entries[i] && '\n' !in entries[i]
    ensures ParseEntriesFromText(Join(entries, '\n')) == entries
  {
    if entries == [] {
      ParseEmptyText();
    } else {
      SplitJoin(entries, '\n');
      assert TrimAll(Split(Join(entries, '\n'), '\n')) == entries;
      forall i | 0 <= i < |entries| ensures IsValidEntry(entries[i]) {
        TrimmedIsValid(entries[i]);
      }
      KeepValidOfValid(entries);
    }
  }

  /** Parsing the newline-join of parsed entries gives the same entries back. */
  lemma {:induction false} ReparseJoined(text: string)
    ensures ParseEntriesFromText(Join(ParseEntriesFromText(text), '\n')) == ParseEntriesFromText(text)
  {
    ParsedEntriesAreTrimmed(text);
    ParseJoinOfEntries(ParseEntriesFromText(text));
  }

  /** Text that is not blank always yields at least one entry. */
  lemma NonBlankTextHasEntry(text: string)
    ensures Trim(text) != [] ==> ParseEntriesFromText(text) != []
  {
    if Trim(text) != [] {
      var i :| 0 <= i < |text| && !IsWhitespace(text[i]);
      var pieces := Split(text, '\n');
      SplitCoversText(text, '\n', i);
      var k :| 0 <= k < |pieces| && text[i] in pieces[k];
      var j :| 0 <= j < |pieces[k]| && pieces[k][j] == text[i];
      var line := TrimAll(pieces)[k];
      assert line == Trim(pieces[k]) != [];
      assert IsValidEntry(line) by { assert !IsWhitespace(line[0]); }
      KeepValidKeeps(TrimAll(pieces), k);
    }
  }
}
