/**
 * The blacklist filter of `filter_through_llm.py`: reading the blacklist
 * words, dropping every news row that mentions one of them, adding the
 * `Source` host column at index 2, naming the output file, and finding the
 * filtered file again in `read_csv_as_string`.
 *
 * The directory listing, the blacklist file's lines and the CSV reader are
 * parameters; a table is its column names and its rows of cells, a missing
 * cell (pandas' NaN) being `None`.
 */
module Blacklist {
  import opened Wrappers
  import opened Sequences

  // ---------------------------------------------------------------------
  // Text: str.strip() and str.lower()
  // ---------------------------------------------------------------------

  /**
   * The code point ranges Python's `str.isspace` accepts: tab to carriage
   * return, the four information separators and space, NEL, no-break space,
   * ogham space mark, en quad to hair space, line and paragraph separators,
   * narrow no-break space, medium mathematical space and ideographic space.
   */
  const SpaceRanges: seq<(char, char)> := [
    ('\t', '\r'), ('\U{001C}', ' '), ('\U{0085}', '\U{0085}'), ('\U{00A0}', '\U{00A0}'),
    ('\U{1680}', '\U{1680}'), ('\U{2000}', '\U{200A}'), ('\U{2028}', '\U{2029}'),
    ('\U{202F}', '\U{202F}'), ('\U{205F}', '\U{205F}'), ('\U{3000}', '\U{3000}')]

  /** `c` lies in one of the ranges from index `i` on. */
  predicate SpaceFrom(c: char, i: nat)
    decreases |SpaceRanges| - i
  {
    i < |SpaceRanges| && ((SpaceRanges[i].0 <= c <= SpaceRanges[i].1) || SpaceFrom(c, i + 1))
  }

  /** Python's `str.isspace` for one character. */
  predicate IsSpace(c: char) {
    SpaceFrom(c, 0)
  }

  /** CPython's forward scan in `strip()`: the first index from `i` on that is not whitespace, or `|s|`. */
  function SkipSpaces(s: string, i: nat): (j: nat)
    requires i <= |s|
    ensures i <= j <= |s|
    decreases |s| - i
  {
    if i < |s| && IsSpace(s[i]) then SkipSpaces(s, i + 1) else i
  }

  /** CPython's backward scan in `strip()`: from `j` back towards `lo`, past trailing whitespace. */
  function BackSpaces(s: string, lo: nat, j: nat): (k: nat)
    requires lo <= j <= |s|
    ensures lo <= k <= j
    decreases j
  {
    if lo < j && IsSpace(s[j - 1]) then BackSpaces(s, lo, j - 1) else j
  }

  /** `str.strip()`: `s` without the whitespace at both ends. */
  function Strip(s: string): string {
    var i := SkipSpaces(s, 0);
    s[i..BackSpaces(s, i, |s|)]
  }

  /** The forward scan passes whitespace only and stops at a non-space. */
  lemma {:induction false} SkipSpacesShape(s: string, i: nat)
    requires i <= |s|
    ensures var j := SkipSpaces(s, i);
            && (forall k :: i <= k < j ==> IsSpace(s[k]))
            && (j < |s| ==> !IsSpace(s[j]))
    decreases |s| - i
  {
    if i < |s| && IsSpace(s[i]) {
      SkipSpacesShape(s, i + 1);
    }
  }

  /** The backward scan passes whitespace only and stops after a non-space or at `lo`. */
  lemma {:induction false} BackSpacesShape(s: string, lo: nat, j: nat)
    requires lo <= j <= |s|
    ensures var k := BackSpaces(s, lo, j);
            && (forall m :: k <= m < j ==> IsSpace(s[m]))
            && (lo < k ==> !IsSpace(s[k - 1]))
    decreases j
  {
    if lo < j && IsSpace(s[j - 1]) {
      BackSpacesShape(s, lo, j - 1);
    }
  }

  /**
   * The stripped text is the slice `s[i..j]`, everything before `i` and from
   * `j` on is whitespace, and the slice neither starts nor ends with
   * whitespace.
   */
  lemma StripShape(s: string)
    ensures var i := SkipSpaces(s, 0);
            var j := BackSpaces(s, i, |s|);
            var r := Strip(s);
            && r == s[i..j]
            && (forall k :: 0 <= k < i ==> IsSpace(s[k]))
            && (forall k :: j <= k < |s| ==> IsSpace(s[k]))
            && (r == [] || (!IsSpace(r[0]) && !IsSpace(r[|r| - 1])))
  {
    var i := SkipSpaces(s, 0);
    SkipSpacesShape(s, 0);
    BackSpacesShape(s, i, |s|);
  }

  /** A line strips to nothing exactly when every character of it is whitespace. */
  lemma StripBlank(s: string)
    ensures Strip(s) == "" <==> forall k :: 0 <= k < |s| ==> IsSpace(s[k])
  {
    var i := SkipSpaces(s, 0);
    SkipSpacesShape(s, 0);
    BackSpacesShape(s, i, |s|);
    if i < |s| {
      assert !IsSpace(s[i]) && BackSpaces(s, i, |s|) > i;
    }
  }

  /** A string that neither starts nor ends with whitespace is its own strip. */
  lemma StripOfStripped(s: string)
    requires s == [] || (!IsSpace(s[0]) && !IsSpace(s[|s| - 1]))
    ensures Strip(s) == s
  {
    assert s[0..|s|] == s;
  }

  /** `str.lower()` on one character, for ASCII letters. */
  function LowerChar(c: char): char {
    if 'A' <= c <= 'Z' then (c as int + 32) as char else c
  }

  /** `str.lower()`: every character lowered, the length unchanged. */
  function Lower(s: string): (r: string)
    ensures |r| == |s| && forall i :: 0 <= i < |s| ==> r[i] == LowerChar(s[i])
  {
    seq(|s|, i requires 0 <= i < |s| => LowerChar(s[i]))
  }

  lemma LowerIdempotent(s: string)
    ensures Lower(Lower(s)) == Lower(s)
  {
  }

  /** Lowering a slice is slicing the lowered string. */
  lemma LowerSlice(s: string, i: nat, j: nat)
    requires i <= j <= |s|
    ensures Lower(s)[i..j] == Lower(s[i..j])
  {
    forall k | 0 <= k < j - i
      ensures Lower(s)[i..j][k] == Lower(s[i..j])[k]
    {
      assert Lower(s)[i..j][k] == Lower(s)[i + k] && s[i..j][k] == s[i + k];
    }
  }

  /** Lowering changes letters only, never whitespace. */
  lemma LowerKeepsSpace(c: char)
    ensures IsSpace(LowerChar(c)) == IsSpace(c)
  {
    LowerKeepsSpaceFrom(c, 0);
  }

  /** No range holds a letter, so lowering cannot move a character into or out of one. */
  lemma {:induction false} LowerKeepsSpaceFrom(c: char, i: nat)
    ensures SpaceFrom(LowerChar(c), i) == SpaceFrom(c, i)
    decreases |SpaceRanges| - i
  {
    if i < |SpaceRanges| {
      LowerKeepsSpaceFrom(c, i + 1);
    }
  }

  lemma {:induction false} SkipSpacesLower(s: string, i: nat)
    requires i <= |s|
    ensures SkipSpaces(Lower(s), i) == SkipSpaces(s, i)
    decreases |s| - i
  {
    if i < |s| {
      LowerKeepsSpace(s[i]);
      SkipSpacesLower(s, i + 1);
    }
  }

  lemma {:induction false} BackSpacesLower(s: string, lo: nat, j: nat)
    requires lo <= j <= |s|
    ensures BackSpaces(Lower(s), lo, j) == BackSpaces(s, lo, j)
    decreases j
  {
    if lo < j {
      LowerKeepsSpace(s[j - 1]);
      BackSpacesLower(s, lo, j - 1);
    }
  }

  /** Lowering never creates or removes whitespace, so it commutes with stripping. */
  lemma StripLower(s: string)
    ensures Strip(Lower(s)) == Lower(Strip(s))
  {
    var i := SkipSpaces(s, 0);
    SkipSpacesLower(s, 0);
    BackSpacesLower(s, i, |s|);
    LowerSlice(s, i, BackSpaces(s, i, |s|));
  }

  // ---------------------------------------------------------------------
  // The blacklist and the row filter
  // ---------------------------------------------------------------------

  /** The blacklist: every line that is not blank once stripped, stripped and lower-cased. */
  function BlacklistOf(lines: seq<string>): set<string> {
    set w | w in lines && Strip(w) != "" :: Lower(Strip(w))
  }

  /**
   * Every blacklist word is non-empty, lower-case and stripped; every
   * non-blank line contributes one.
   */
  lemma BlacklistWords(lines: seq<string>)
    ensures "" !in BlacklistOf(lines)
    ensures forall b :: b in BlacklistOf(lines) ==> Lower(b) == b && Strip(b) == b
    ensures forall w :: w in lines && Strip(w) != "" ==> Lower(Strip(w)) in BlacklistOf(lines)
  {
    forall b | b in BlacklistOf(lines)
      ensures b != "" && Lower(b) == b && Strip(b) == b
    {
      var w :| w in lines && Strip(w) != "" && b == Lower(Strip(w));
      LowerIdempotent(Strip(w));
      StripLower(Strip(w));
      StripShape(w);
      StripOfStripped(Strip(w));
    }
  }

  /** A line and its lower-cased copy give the same blacklist word, if any. */
  lemma LoweredLineWord(v: string)
    ensures (Strip(Lower(v)) != "") == (Strip(v) != "")
    ensures Lower(Strip(Lower(v))) == Lower(Strip(v))
  {
    StripLower(v);
    LowerIdempotent(Strip(v));
  }

  /** `lines` with every line lower-cased. */
  function LowerLines(lines: seq<string>): (r: seq<string>)
    ensures |r| == |lines| && forall i :: 0 <= i < |lines| ==> r[i] == Lower(lines[i])
  {
    seq(|lines|, i requires 0 <= i < |lines| => Lower(lines[i]))
  }

  /** The letter case of the blacklist file does not matter. */
  lemma BlacklistIgnoresCase(lines: seq<string>)
    ensures BlacklistOf(LowerLines(lines)) == BlacklistOf(lines)
  {
    LoweredBlacklistWithin(lines);
    BlacklistWithinLowered(lines);
  }

  lemma LoweredBlacklistWithin(lines: seq<string>)
    ensures BlacklistOf(LowerLines(lines)) <= BlacklistOf(lines)
  {
    var lowered := LowerLines(lines);
    forall b | b in BlacklistOf(lowered)
      ensures b in BlacklistOf(lines)
    {
      var w :| w in lowered && Strip(w) != "" && b == Lower(Strip(w));
      var i :| 0 <= i < |lines| && lowered[i] == w;
      LoweredLineWord(lines[i]);
      assert lines[i] in lines;
    }
  }

  lemma BlacklistWithinLowered(lines: seq<string>)
    ensures BlacklistOf(lines) <= BlacklistOf(LowerLines(lines))
  {
    var lowered := LowerLines(lines);
    forall b | b in BlacklistOf(lines)
      ensures b in BlacklistOf(lowered)
    {
      var w :| w in lines && Strip(w) != "" && b == Lower(Strip(w));
      var i :| 0 <= i < |lines| && lines[i] == w;
      LoweredLineWord(w);
      assert lowered[i] in lowered;
    }
  }

  /** One cell of a row; `None` is pandas' NaN. */
  type Cell = Option<string>

  /** `str(value)`: NaN prints as "nan". */
  function CellText(c: Cell): string {
    match c
    case None => "nan"
    case Some(s) => s
  }

  /** `row_contains_blacklist`: some word occurs in some lower-cased cell. */
  predicate RowContainsBlacklist(row: seq<Cell>, blacklist: set<string>) {
    exists w, j :: w in blacklist && 0 <= j < |row| && IsSubstring(w, Lower(CellText(row[j])))
  }

  /** The boolean-mask filter: the rows the row test rejects are dropped, the others kept in order. */
  function FilterRows(rows: seq<seq<Cell>>, blacklist: set<string>): seq<seq<Cell>> {
    if rows == [] then []
    else
      var init, last := rows[..|rows| - 1], rows[|rows| - 1];
      if RowContainsBlacklist(last, blacklist) then FilterRows(init, blacklist)
      else FilterRows(init, blacklist) + [last]
  }

  /**
   * The filter keeps every occurrence of a clean row and none of a row that
   * mentions a blacklist word.
   */
  lemma {:induction false} FilterRowsCount(rows: seq<seq<Cell>>, blacklist: set<string>, row: seq<Cell>)
    ensures multiset(FilterRows(rows, blacklist))[row] ==
            if RowContainsBlacklist(row, blacklist) then 0 else multiset(rows)[row]
  {
    if rows != [] {
      var init, last := rows[..|rows| - 1], rows[|rows| - 1];
      assert rows == init + [last];
      FilterRowsCount(init, blacklist, row);
    }
  }

  /** A row is kept exactly when it is in the input and mentions no blacklist word. */
  lemma FilterRowsMembers(rows: seq<seq<Cell>>, blacklist: set<string>)
    ensures forall r :: r in FilterRows(rows, blacklist) <==> r in rows && !RowContainsBlacklist(r, blacklist)
  {
    forall r {
      FilterRowsCount(rows, blacklist, r);
    }
  }

  /** The kept rows are in their original relative order. */
  lemma {:induction false} FilterRowsInOrder(rows: seq<seq<Cell>>, blacklist: set<string>)
    ensures IsSubsequence(FilterRows(rows, blacklist), rows)
  {
    if rows != [] {
      var init, last := rows[..|rows| - 1], rows[|rows| - 1];
      assert rows == init + [last];
      FilterRowsInOrder(init, blacklist);
      SubsequenceSnoc(FilterRows(init, blacklist), init, last);
    }
  }

  /** Filtering the filtered rows again removes nothing. */
  lemma {:induction false} FilterRowsIdempotent(rows: seq<seq<Cell>>, blacklist: set<string>)
    ensures FilterRows(FilterRows(rows, blacklist), blacklist) == FilterRows(rows, blacklist)
  {
    if rows != [] {
      var init, last := rows[..|rows| - 1], rows[|rows| - 1];
      var p := FilterRows(init, blacklist);
      FilterRowsIdempotent(init, blacklist);
      if !RowContainsBlacklist(last, blacklist) {
        assert (p + [last])[..|p|] == p;
      }
    }
  }

  /** With an empty blacklist every row is kept. */
  lemma {:induction false} EmptyBlacklistKeepsAll(rows: seq<seq<Cell>>)
    ensures FilterRows(rows, {}) == rows
  {
    if rows != [] {
      var init := rows[..|rows| - 1];
      EmptyBlacklistKeepsAll(init);
      assert rows == init + [rows[|rows| - 1]];
    }
  }

  /** The cells of a row, lower-cased. */
  function LowerRow(row: seq<Cell>): seq<Cell> {
    seq(|row|, j requires 0 <= j < |row| => if row[j].Some? then Some(Lower(row[j].value)) else None)
  }

  /** The letter case of the row's cells does not change whether it is dropped. */
  lemma RowTestIgnoresCase(row: seq<Cell>, blacklist: set<string>)
    ensures RowContainsBlacklist(LowerRow(row), blacklist) == RowContainsBlacklist(row, blacklist)
  {
    forall j | 0 <= j < |row|
      ensures Lower(CellText(LowerRow(row)[j])) == Lower(CellText(row[j]))
    {
      if row[j].Some? {
        LowerIdempotent(row[j].value);
      }
    }
  }

  /**
   * A row in which some cell contains, in any letter case, the stripped
   * text of a non-blank blacklist line is dropped.
   */
  lemma DropsMentioningRow(lines: seq<string>, rows: seq<seq<Cell>>, k: nat, i: nat, j: nat)
    requires k < |lines| && Strip(lines[k]) != ""
    requires i < |rows| && j < |rows[i]|
    requires IsSubstring(Lower(Strip(lines[k])), Lower(CellText(rows[i][j])))
    ensures rows[i] !in FilterRows(rows, BlacklistOf(lines))
  {
    assert Lower(Strip(lines[k])) in BlacklistOf(lines);
    FilterRowsMembers(rows, BlacklistOf(lines));
  }

  // ---------------------------------------------------------------------
  // The Source column: str.extract(r"//([^/]+)")
  // ---------------------------------------------------------------------

  /** Position `i` starts a match of `//[^/]`. */
  predicate SourceStart(s: string, i: int) {
    0 <= i && i + 2 < |s| && s[i] == '/' && s[i + 1] == '/' && s[i + 2] != '/'
  }

  /** The leftmost match position at or after `i`. */
  function FirstSourceStart(s: string, i: nat): (r: Option<nat>)
    requires i <= |s|
    ensures r.Some? ==> i <= r.value && SourceStart(s, r.value) &&
                        forall j :: i <= j < r.value ==> !SourceStart(s, j)
    ensures r.None? ==> forall j :: i <= j < |s| ==> !SourceStart(s, j)
    decreases |s| - i
  {
    if i == |s| then None
    else if SourceStart(s, i) then Some(i)
    else FirstSourceStart(s, i + 1)
  }

  /** The length of the run of non-`/` characters starting at `i`. */
  function SlashFreeRun(s: string, i: nat): (n: nat)
    requires i <= |s|
    ensures i + n <= |s| && (i + n == |s| || s[i + n] == '/')
    ensures forall k :: i <= k < i + n ==> s[k] != '/'
    decreases |s| - i
  {
    if i == |s| || s[i] == '/' then 0 else 1 + SlashFreeRun(s, i + 1)
  }

  /**
   * The host of a URL cell: the longest run of non-`/` characters right
   * after the leftmost `//` that is followed by one; absent for a missing
   * cell and when there is no such `//`.
   */
  function SourceOf(url: Cell): (r: Option<string>)
    ensures url.None? ==> r.None?
    ensures url.Some? ==> (r.None? <==> forall j :: 0 <= j < |url.value| ==> !SourceStart(url.value, j))
    ensures r.Some? ==>
              && url.Some?
              && r.value != []
              && (forall k :: 0 <= k < |r.value| ==> r.value[k] != '/')
              && exists i :: SourceStart(url.value, i) && (forall j :: 0 <= j < i ==> !SourceStart(url.value, j)) &&
                             i + 2 + |r.value| <= |url.value| && url.value[i + 2..i + 2 + |r.value|] == r.value &&
                             (i + 2 + |r.value| == |url.value| || url.value[i + 2 + |r.value|] == '/')
  {
    match url
    case None => None
    case Some(s) =>
      match FirstSourceStart(s, 0)
      case None => None
      case Some(i) =>
        var n := SlashFreeRun(s, i + 2);
        Some(s[i + 2..i + 2 + n])
  }

  // ---------------------------------------------------------------------
  // Tables and the in-place column operations
  // ---------------------------------------------------------------------

  datatype Table = Table(columns: seq<string>, rows: seq<seq<Cell>>)

  /** Column names are distinct and every row has one cell per column. */
  ghost predicate WellFormed(t: Table) {
    (forall i, j :: 0 <= i < j < |t.columns| ==> t.columns[i] != t.columns[j]) &&
    (forall i :: 0 <= i < |t.rows| ==> |t.rows[i]| == |t.columns|)
  }

  type Frame = t: Table | WellFormed(t) witness Table([], [])

  /** Column `k` overwritten with `values`. */
  function ReplaceColumn(t: Table, k: nat, values: seq<Cell>): (r: Table)
    requires WellFormed(t) && k < |t.columns| && |values| == |t.rows|
    ensures WellFormed(r) && r.columns == t.columns && |r.rows| == |t.rows|
    ensures forall i :: 0 <= i < |t.rows| ==> r.rows[i] == t.rows[i][k := values[i]]
  {
    Table(t.columns, seq(|t.rows|, i requires 0 <= i < |t.rows| => t.rows[i][k := values[i]]))
  }

  /** A new last column `name` holding `values`. */
  function AppendColumn(t: Table, name: string, values: seq<Cell>): (r: Table)
    requires WellFormed(t) && name !in t.columns && |values| == |t.rows|
    ensures WellFormed(r) && r.columns == t.columns + [name] && |r.rows| == |t.rows|
    ensures forall i :: 0 <= i < |t.rows| ==> r.rows[i] == t.rows[i] + [values[i]]
  {
    Table(t.columns + [name], seq(|t.rows|, i requires 0 <= i < |t.rows| => t.rows[i] + [values[i]]))
  }

  /** `df[name] = values`: overwrites the column in place, or appends it. */
  function WithColumn(t: Table, name: string, values: seq<Cell>): (r: Table)
    requires WellFormed(t) && |values| == |t.rows|
    ensures WellFormed(r) && |r.rows| == |t.rows| && name in r.columns
    ensures name in t.columns ==> r.columns == t.columns
    ensures name !in t.columns ==> r.columns == t.columns + [name]
  {
    if name in t.columns then ReplaceColumn(t, IndexOf(t.columns, name), values)
    else AppendColumn(t, name, values)
  }

  /** After the assignment, column `name` holds `values` and every other column is unchanged. */
  lemma WithColumnValues(t: Table, name: string, values: seq<Cell>)
    requires WellFormed(t) && |values| == |t.rows|
    ensures var r := WithColumn(t, name, values);
            var k := IndexOf(r.columns, name);
            && (forall i :: 0 <= i < |r.rows| ==> r.rows[i][k] == values[i])
            && (forall i, j :: 0 <= i < |r.rows| && 0 <= j < |t.columns| && j != k ==> r.rows[i][j] == t.rows[i][j])
  {
    if name !in t.columns {
      var r := WithColumn(t, name, values);
      assert r.columns[..|t.columns|] == t.columns;
      assert IndexOf(r.columns, name) == |t.columns|;
    }
  }

  /** The values of column `k`. */
  function ColumnValues(t: Table, k: nat): (values: seq<Cell>)
    requires WellFormed(t) && k < |t.columns|
    ensures |values| == |t.rows| && forall i :: 0 <= i < |t.rows| ==> values[i] == t.rows[i][k]
  {
    seq(|t.rows|, i requires 0 <= i < |t.rows| => t.rows[i][k])
  }

  /** The table without column `k`. */
  function WithoutColumn(t: Table, k: nat): (r: Table)
    requires WellFormed(t) && k < |t.columns|
    ensures WellFormed(r) && r.columns == RemoveAt(t.columns, k) && |r.rows| == |t.rows|
    ensures forall i :: 0 <= i < |t.rows| ==> r.rows[i] == RemoveAt(t.rows[i], k)
  {
    Table(RemoveAt(t.columns, k), seq(|t.rows|, i requires 0 <= i < |t.rows| => RemoveAt(t.rows[i], k)))
  }

  /** The table with column `name` holding `values` placed at index `loc`. */
  function InsertColumn(t: Table, loc: nat, name: string, values: seq<Cell>): (r: Table)
    requires WellFormed(t) && loc <= |t.columns| && name !in t.columns && |values| == |t.rows|
    ensures WellFormed(r) && r.columns == InsertAt(t.columns, loc, name) && |r.rows| == |t.rows|
    ensures forall i :: 0 <= i < |t.rows| ==> r.rows[i] == InsertAt(t.rows[i], loc, values[i])
  {
    var r := Table(InsertAt(t.columns, loc, name),
                   seq(|t.rows|, i requires 0 <= i < |t.rows| => InsertAt(t.rows[i], loc, values[i])));
    assert forall i :: 0 <= i < |r.columns| ==> r.columns[i] == if i < loc then t.columns[i] else if i == loc then name else t.columns[i - 1];
    r
  }

  /** A pandas DataFrame as updated in place by `filter_blacklisted_rows`. */
  class DataFrame {
    var columns: seq<string>
    var rows: seq<seq<Cell>>

    function View(): Table
      reads this
    {
      Table(columns, rows)
    }

    constructor (t: Frame)
      ensures View() == t
    {
      columns, rows := t.columns, t.rows;
    }

    /** `df[name] = values`. */
    method SetColumn(name: string, values: seq<Cell>)
      requires WellFormed(View()) && |values| == |rows|
      modifies this
      ensures View() == WithColumn(old(View()), name, values)
    {
      var t := WithColumn(View(), name, values);
      columns, rows := t.columns, t.rows;
    }

    /** `df.pop(name)`: removes the column and returns its values. */
    method Pop(name: string) returns (values: seq<Cell>)
      requires WellFormed(View()) && name in columns
      modifies this
      ensures values == ColumnValues(old(View()), IndexOf(old(columns), name))
      ensures View() == WithoutColumn(old(View()), IndexOf(old(columns), name))
    {
      var k := IndexOf(columns, name);
      values := ColumnValues(View(), k);
      var t := WithoutColumn(View(), k);
      columns, rows := t.columns, t.rows;
    }

    /** `df.insert(loc, name, values)`; false where pandas raises for `loc` past the last column. */
    method Insert(loc: nat, name: string, values: seq<Cell>) returns (ok: bool)
      requires WellFormed(View()) && name !in columns && |values| == |rows|
      modifies this
      ensures ok <==> loc <= |old(columns)|
      ensures ok ==> View() == InsertColumn(old(View()), loc, name, values)
      ensures !ok ==> View() == old(View())
    {
      ok := loc <= |columns|;
      if ok {
        var t := InsertColumn(View(), loc, name, values);
        columns, rows := t.columns, t.rows;
      }
    }
  }

  // ---------------------------------------------------------------------
  // File names
  // ---------------------------------------------------------------------

  const NewsFolder: string := "news"
  const CsvSuffix: string := ".csv"
  const BlacklistedSuffix: string := "_blacklisted.csv"

  /** `os.path.join(folder, name)`. */
  function Join(folder: string, name: string): string {
    if name != [] && name[0] == '/' then name
    else if folder == [] || folder[|folder| - 1] == '/' then folder + name
    else folder + "/" + name
  }

  /** The names of the listing that end with `.csv`, in listing order. */
  function CsvFiles(listing: seq<string>): (r: seq<string>)
    ensures forall f :: f in r <==> f in listing && EndsWith(f, CsvSuffix)
  {
    if listing == [] then []
    else
      var init, last := listing[..|listing| - 1], listing[|listing| - 1];
      assert listing == init + [last];
      if EndsWith(last, CsvSuffix) then CsvFiles(init) + [last] else CsvFiles(init)
  }

  /** The first name of the listing ending in `.csv` comes first. */
  lemma {:induction false} CsvFilesFirst(listing: seq<string>, k: nat)
    requires k < |listing| && EndsWith(listing[k], CsvSuffix)
    requires forall j :: 0 <= j < k ==> !EndsWith(listing[j], CsvSuffix)
    ensures CsvFiles(listing) != [] && CsvFiles(listing)[0] == listing[k]
  {
    if k < |listing| - 1 {
      var init := listing[..|listing| - 1];
      CsvFilesFirst(init, k);
    } else {
      var init := listing[..|listing| - 1];
      CsvFilesNone(init);
    }
  }

  lemma CsvFilesNone(listing: seq<string>)
    requires forall j :: 0 <= j < |listing| ==> !EndsWith(listing[j], CsvSuffix)
    ensures CsvFiles(listing) == []
  {
  }

  /** `s.replace(pattern, replacement)`: every non-overlapping occurrence, left to right. */
  function Replace(s: string, pat: string, rep: string): string
    requires pat != []
    decreases |s|
  {
    if |s| < |pat| then s
    else if pat <= s then rep + Replace(s[|pat|..], pat, rep)
    else [s[0]] + Replace(s[1..], pat, rep)
  }

  /** No proper prefix of `w` is also a suffix of it, so occurrences of `w` never overlap. */
  predicate NoBorder(w: string) {
    forall k :: 0 < k < |w| ==> w[..k] != w[|w| - k..]
  }

  /**
   * For a pattern whose occurrences cannot overlap, a string ending with it
   * has that last occurrence replaced.
   */
  lemma {:induction false} ReplaceKeepsSuffix(s: string, pat: string, rep: string)
    requires pat != [] && NoBorder(pat) && EndsWith(s, pat)
    ensures EndsWith(Replace(s, pat, rep), rep)
    decreases |s|
  {
    if pat <= s {
      var rest := s[|pat|..];
      if |rest| == 0 {
        assert Replace(rest, pat, rep) == [];
        AppendEmpty(rep);
      } else {
        if |rest| < |pat| {
          ShortOverlapIsBorder(s, pat);
        }
        EndsWithDrop(s, pat, |pat|);
        ReplaceKeepsSuffix(rest, pat, rep);
        EndsWithPrepend(rep, Replace(rest, pat, rep), rep);
      }
    } else {
      EndsWithDrop(s, pat, 1);
      ReplaceKeepsSuffix(s[1..], pat, rep);
      EndsWithPrepend([s[0]], Replace(s[1..], pat, rep), rep);
    }
  }

  lemma EndsWithDrop(s: string, suffix: string, n: nat)
    requires EndsWith(s, suffix) && n + |suffix| <= |s|
    ensures EndsWith(s[n..], suffix)
  {
    assert s[n..][|s| - n - |suffix|..] == s[|s| - |suffix|..];
  }

  lemma EndsWithPrepend(a: string, s: string, suffix: string)
    requires EndsWith(s, suffix)
    ensures EndsWith(a + s, suffix)
  {
    assert (a + s)[|a + s| - |suffix|..] == s[|s| - |suffix|..];
  }

  /** An occurrence at the start overlapping the one at the end gives `pat` a border. */
  lemma ShortOverlapIsBorder(s: string, pat: string)
    requires pat <= s && EndsWith(s, pat) && |pat| < |s| < 2 * |pat|
    ensures !NoBorder(pat)
  {
    var k := |s| - |pat|;
    assert pat[..|pat| - k] == s[k..|pat|] == pat[|pat| - (|pat| - k)..];
  }

  lemma CsvSuffixHasNoBorder()
    ensures NoBorder(CsvSuffix)
  {
    forall k | 0 < k < |CsvSuffix|
      ensures CsvSuffix[..k] != CsvSuffix[|CsvSuffix| - k..]
    {
      // '.' occurs only at the front
      assert CsvSuffix[..k][0] == '.' != CsvSuffix[|CsvSuffix| - k..][0];
    }
  }

  /** The output name of a `.csv` file ends with `_blacklisted.csv`. */
  lemma OutputNameIsBlacklisted(name: string)
    requires EndsWith(name, CsvSuffix)
    ensures EndsWith(Replace(name, CsvSuffix, BlacklistedSuffix), BlacklistedSuffix)
  {
    CsvSuffixHasNoBorder();
    ReplaceKeepsSuffix(name, CsvSuffix, BlacklistedSuffix);
  }

  // ---------------------------------------------------------------------
  // filter_blacklisted_rows
  // ---------------------------------------------------------------------

  datatype FilterError =
    | MissingUrlColumn   // KeyError from filtered_df["url"]
    | InsertOutOfBounds  // fewer than two columns besides Source for insert(2, ...)

  datatype FilterOutcome =
    | NoCsvFiles                          // prints a message and returns
    | Saved(path: string, table: Table)   // the table written by to_csv
    | Raised(error: FilterError)

  /** The rows of `t` that mention no blacklist word. */
  function FilterTable(t: Frame, blacklist: set<string>): (r: Frame)
    ensures r.columns == t.columns && r.rows == FilterRows(t.rows, blacklist)
  {
    var rows := FilterRows(t.rows, blacklist);
    FilterRowsMembers(t.rows, blacklist);
    forall i | 0 <= i < |rows|
      ensures |rows[i]| == |t.columns|
    {
      assert rows[i] in t.rows;
      var j :| 0 <= j < |t.rows| && t.rows[j] == rows[i];
    }
    Table(t.columns, rows)
  }

  /** The filtered table without a `Source` column it may already have. */
  function WithoutSource(t: Frame): (r: Frame)
    ensures "Source" !in r.columns && |r.rows| == |t.rows|
    ensures forall c :: c in r.columns <==> c in t.columns && c != "Source"
  {
    if "Source" in t.columns then
      var k := IndexOf(t.columns, "Source");
      var r := WithoutColumn(t, k);
      assert forall j :: 0 <= j < |r.columns| ==> r.columns[j] == t.columns[if j < k then j else j + 1];
      assert forall j :: 0 <= j < |t.columns| && j != k ==> t.columns[j] in r.columns by {
        forall j | 0 <= j < |t.columns| && j != k
          ensures t.columns[j] in r.columns
        {
          assert r.columns[if j < k then j else j - 1] == t.columns[j];
        }
      }
      r
    else t
  }

  /**
   * Assigning column `name` and popping it again gives back the values
   * assigned and the table without its old `name` column.
   */
  lemma SetThenPop(t: Frame, name: string, values: seq<Cell>)
    requires |values| == |t.rows|
    ensures var s := WithColumn(t, name, values);
            var k := IndexOf(s.columns, name);
            && ColumnValues(s, k) == values
            && WithoutColumn(s, k) == if name in t.columns then WithoutColumn(t, IndexOf(t.columns, name)) else t
  {
    WithColumnValues(t, name, values);
    if name in t.columns {
      SetThenPopExisting(t, name, values);
    } else {
      SetThenPopNew(t, name, values);
    }
  }

  lemma SetThenPopExisting(t: Frame, name: string, values: seq<Cell>)
    requires |values| == |t.rows| && name in t.columns
    ensures var s := WithColumn(t, name, values);
            var k := IndexOf(s.columns, name);
            WithoutColumn(s, k) == WithoutColumn(t, IndexOf(t.columns, name))
  {
    var s := WithColumn(t, name, values);
    var k := IndexOf(s.columns, name);
    var p := WithoutColumn(s, k);
    var q := WithoutColumn(t, IndexOf(t.columns, name));
    assert p.columns == q.columns;
    forall i | 0 <= i < |t.rows|
      ensures p.rows[i] == q.rows[i]
    {
      assert RemoveAt(t.rows[i][k := values[i]], k) == RemoveAt(t.rows[i], k);
    }
  }

  lemma SetThenPopNew(t: Frame, name: string, values: seq<Cell>)
    requires |values| == |t.rows| && name !in t.columns
    ensures var s := WithColumn(t, name, values);
            WithoutColumn(s, IndexOf(s.columns, name)) == t
  {
    var s := WithColumn(t, name, values);
    var k := IndexOf(s.columns, name);
    var p := WithoutColumn(s, k);
    assert s.columns[..|t.columns|] == t.columns;
    assert k == |t.columns|;
    assert p.columns == t.columns;
    forall i | 0 <= i < |t.rows|
      ensures p.rows[i] == t.rows[i]
    {
      assert s.rows[i] == t.rows[i] + [values[i]];
      assert RemoveAt(t.rows[i] + [values[i]], k) == t.rows[i];
    }
  }

  /** The `Source` values of the rows of `t`, from its `url` column. */
  function Sources(t: Frame): (values: seq<Option<string>>)
    requires "url" in t.columns
    ensures |values| == |t.rows|
  {
    var u := IndexOf(t.columns, "url");
    seq(|t.rows|, i requires 0 <= i < |t.rows| => SourceOf(t.rows[i][u]))
  }

  /** Adding the `Source` column and moving it to index 2. */
  function AddSource(t: Frame): Result<Table, FilterError> {
    if "url" !in t.columns then Failure(MissingUrlColumn)
    else
      var base := WithoutSource(t);
      if |base.columns| < 2 then Failure(InsertOutOfBounds)
      else Success(InsertColumn(base, 2, "Source", Sources(t)))
  }

  /** What `filter_blacklisted_rows(blacklist_filename)` does, given the folder listing and the files' contents. */
  function FilterResult(listing: seq<string>, lines: seq<string>, read: string -> Frame): FilterOutcome {
    var csv := CsvFiles(listing);
    if csv == [] then NoCsvFiles
    else
      var output := Join(NewsFolder, Replace(csv[0], CsvSuffix, BlacklistedSuffix));
      var t := FilterTable(read(Join(NewsFolder, csv[0])), BlacklistOf(lines));
      match AddSource(t)
      case Failure(e) => Raised(e)
      case Success(s) => Saved(output, s)
  }

  /**
   * `filter_blacklisted_rows`, with `os.listdir("news")`, the blacklist
   * file's lines and `pd.read_csv` as parameters.
   */
  method FilterBlacklistedRows(listing: seq<string>, lines: seq<string>, read: string -> Frame)
    returns (r: FilterOutcome)
    ensures r == FilterResult(listing, lines, read)
  {
    var csvFiles := CsvFiles(listing);
    if csvFiles == [] {
      return NoCsvFiles;
    }
    var inputName := Join(NewsFolder, csvFiles[0]);
    var outputName := Join(NewsFolder, Replace(csvFiles[0], CsvSuffix, BlacklistedSuffix));
    var blacklist := BlacklistOf(lines);
    var df := read(inputName);
    var filtered := new DataFrame(FilterTable(df, blacklist));
    var t := FilterTable(df, blacklist);
    if "url" !in filtered.columns {
      return Raised(MissingUrlColumn);
    }
    var sources := Sources(t);
    filtered.SetColumn("Source", sources);
    var moved := filtered.Pop("Source");
    SetThenPop(t, "Source", sources);
    var ok := filtered.Insert(2, "Source", moved);
    if !ok {
      return Raised(InsertOutOfBounds);
    }
    r := Saved(outputName, filtered.View());
  }

  /** The file read is `news/` joined with the first `.csv` name of the listing. */
  function InputTable(listing: seq<string>, read: string -> Frame): Frame
    requires CsvFiles(listing) != []
  {
    read(Join(NewsFolder, CsvFiles(listing)[0]))
  }

  /**
   * Joining a relative name gives the folder, then at most one separator,
   * then the name; the separator is there whenever the folder is non-empty.
   */
  lemma JoinPlacesName(folder: string, name: string)
    requires name == [] || name[0] != '/'
    ensures var p := Join(folder, name);
            && folder <= p
            && EndsWith(p, name)
            && |folder| + |name| <= |p| <= |folder| + |name| + 1
            && (folder != [] ==> p[|p| - |name| - 1] == '/')
  {
    var p := Join(folder, name);
    assert p[|p| - |name|..] == name;
  }

  /** A joined path ends with the file name joined. */
  lemma JoinEndsWith(folder: string, name: string, suffix: string)
    requires EndsWith(name, suffix)
    ensures EndsWith(Join(folder, name), suffix)
  {
    var p := Join(folder, name);
    assert p[|p| - |name|..] == name;
    assert p[|p| - |suffix|..] == name[|name| - |suffix|..];
  }

  /** Nothing is read or written when no listed name ends with `.csv`. */
  lemma NoCsvFilesIff(listing: seq<string>, lines: seq<string>, read: string -> Frame)
    ensures FilterResult(listing, lines, read) == NoCsvFiles <==>
            forall j :: 0 <= j < |listing| ==> !EndsWith(listing[j], CsvSuffix)
  {
    if forall j :: 0 <= j < |listing| ==> !EndsWith(listing[j], CsvSuffix) {
      CsvFilesNone(listing);
    } else {
      var j :| 0 <= j < |listing| && EndsWith(listing[j], CsvSuffix);
      assert listing[j] in CsvFiles(listing);
    }
  }

  /** `filtered_df["url"]` fails exactly when the file read has no `url` column. */
  lemma MissingUrlIff(listing: seq<string>, lines: seq<string>, read: string -> Frame)
    requires CsvFiles(listing) != []
    ensures FilterResult(listing, lines, read) == Raised(MissingUrlColumn) <==> "url" !in InputTable(listing, read).columns
  {
  }

  /**
   * `insert(2, ...)` fails exactly when the file read has a `url` column but
   * fewer than two columns other than `Source`.
   */
  lemma InsertOutOfBoundsIff(listing: seq<string>, lines: seq<string>, read: string -> Frame)
    requires CsvFiles(listing) != []
    ensures FilterResult(listing, lines, read) == Raised(InsertOutOfBounds) <==>
            var t := InputTable(listing, read);
            "url" in t.columns && |WithoutSource(t).columns| < 2
  {
  }

  /**
   * A saved result is written to a `_blacklisted.csv` file in `news`; its
   * rows are the rows of the file read that mention no blacklist word, in
   * their order, with the host of each row's `url` at index 2 and the other
   * columns, but an old `Source`, in their order around it.
   */
  lemma SavedTable(listing: seq<string>, lines: seq<string>, read: string -> Frame)
    requires FilterResult(listing, lines, read).Saved?
    ensures CsvFiles(listing) != []
    ensures var out := FilterResult(listing, lines, read);
            var t := FilterTable(InputTable(listing, read), BlacklistOf(lines));
            && EndsWith(out.path, BlacklistedSuffix)
            && "url" in t.columns
            && |out.table.columns| >= 3 && out.table.columns[2] == "Source"
            && RemoveAt(out.table.columns, 2) == WithoutSource(t).columns
            && |out.table.rows| == |t.rows| == |FilterRows(InputTable(listing, read).rows, BlacklistOf(lines))|
            && forall i :: 0 <= i < |t.rows| ==>
                 out.table.rows[i][2] == SourceOf(t.rows[i][IndexOf(t.columns, "url")]) &&
                 RemoveAt(out.table.rows[i], 2) == WithoutSource(t).rows[i]
  {
    var csv := CsvFiles(listing);
    OutputNameIsBlacklisted(csv[0]);
    JoinEndsWith(NewsFolder, Replace(csv[0], CsvSuffix, BlacklistedSuffix), BlacklistedSuffix);
  }

  // ---------------------------------------------------------------------
  // read_csv_as_string
  // ---------------------------------------------------------------------

  datatype ReadError = FileNotFound

  /**
   * `read_csv_as_string(folder)`: the CSV text of the first listed file
   * whose name ends with `_blacklisted.csv`; `render` stands for
   * `pd.read_csv(path).to_csv(index=False)`.
   */
  method ReadCsvAsString(folder: string, listing: seq<string>, render: string -> string)
    returns (r: Result<string, ReadError>)
    ensures r.Failure? <==> forall i :: 0 <= i < |listing| ==> !EndsWith(listing[i], BlacklistedSuffix)
    ensures r.Success? ==>
              exists k :: 0 <= k < |listing| && EndsWith(listing[k], BlacklistedSuffix) &&
                          (forall j :: 0 <= j < k ==> !EndsWith(listing[j], BlacklistedSuffix)) &&
                          r.value == render(Join(folder, listing[k]))
  {
    for i := 0 to |listing|
      invariant forall j :: 0 <= j < i ==> !EndsWith(listing[j], BlacklistedSuffix)
    {
      if EndsWith(listing[i], BlacklistedSuffix) {
        return Success(render(Join(folder, listing[i])));
      }
    }
    return Failure(FileNotFound);
  }
}
