/**
 * The list and string logic of the `Table` page object: which header texts `getColumns`
 * reports, whether a column is visible, the steps of `enableColumn`, and the row `getRow`
 * picks. The page's DOM reads (header texts, list items, checkbox states, row texts) are inputs.
 */
module Table {
  import opened Wrappers
  import opened Text

  const RowSelectLabel := "Row select"
  const DetailsLabel := "Details"
  const ConcernsInfoLabel := "More information on concerns"

  /**
   * The first filter of `getColumns`: a header whose text is present, not blank once trimmed,
   * and contains neither `Row select` nor `Details`.
   */
  predicate HeaderKept(text: Option<string>) {
    text.Some? && Trim(text.value) != [] && !Contains(text.value, RowSelectLabel) && !Contains(text.value, DetailsLabel)
  }

  /** `xs.filter(keep)`. */
  function Filter<T>(xs: seq<T>, keep: T -> bool): (kept: seq<T>)
    ensures |kept| <= |xs|
  {
    if xs == [] then [] else (if keep(xs[0]) then [xs[0]] else []) + Filter(xs[1..], keep)
  }

  /** `xs.map(f)`. */
  function Map<T, U>(xs: seq<T>, f: T -> U): (ys: seq<U>)
    ensures |ys| == |xs| && forall i :: 0 <= i < |xs| ==> ys[i] == f(xs[i])
  {
    seq(|xs|, i requires 0 <= i < |xs| => f(xs[i]))
  }

  /** The values present in a sequence of optional values, in order. */
  function Present<T>(xs: seq<Option<T>>): (values: seq<T>)
    ensures |values| <= |xs|
  {
    if xs == [] then [] else (if xs[0].Some? then [xs[0].value] else []) + Present(xs[1..])
  }

  /** The outcome for one element of a filter, a map and a filter in a row. */
  function Through<T, U>(x: T, keep: T -> bool, f: T -> U, keepAfter: U -> bool): Option<U> {
    if keep(x) && keepAfter(f(x)) then Some(f(x)) else None
  }

  /** A filter, a map and a filter in a row decide element by element, in order. */
  lemma {:induction false} FilterMapFilter<T, U>(xs: seq<T>, keep: T -> bool, f: T -> U, keepAfter: U -> bool)
    ensures Filter(Map(Filter(xs, keep), f), keepAfter)
         == Present(Map(xs, x => Through(x, keep, f, keepAfter)))
  {
    if xs != [] {
      var x, rest := xs[0], xs[1..];
      FilterMapFilter(rest, keep, f, keepAfter);
      var head := if keep(x) then [x] else [];
      assert Filter(xs, keep) == head + Filter(rest, keep);
      MapAppend(head, Filter(rest, keep), f);
      FilterAppend(Map(head, f), Map(Filter(rest, keep), f), keepAfter);
      var each := Map(xs, y => Through(y, keep, f, keepAfter));
      assert each == [Through(x, keep, f, keepAfter)] + Map(rest, y => Through(y, keep, f, keepAfter));
      if keep(x) {
        assert Map(head, f) == [f(x)];
        assert Filter([f(x)], keepAfter) == if keepAfter(f(x)) then [f(x)] else [] by {
          assert [f(x)][1..] == [];
        }
      } else {
        assert Map(head, f) == [];
      }
    }
  }

  lemma MapAppend<T, U>(a: seq<T>, b: seq<T>, f: T -> U)
    ensures Map(a + b, f) == Map(a, f) + Map(b, f)
  {
  }

  lemma {:induction false} FilterAppend<T>(a: seq<T>, b: seq<T>, keep: T -> bool)
    ensures Filter(a + b, keep) == Filter(a, keep) + Filter(b, keep)
  {
    if a == [] {
      assert a + b == b;
    } else {
      var head := if keep(a[0]) then [a[0]] else [];
      assert (a + b)[0] == a[0] && (a + b)[1..] == a[1..] + b;
      assert Filter(a + b, keep) == head + Filter(a[1..] + b, keep);
      FilterAppend(a[1..], b, keep);
      assert Filter(a, keep) == head + Filter(a[1..], keep);
    }
  }

  lemma {:induction false} PresentAppend<T>(xs: seq<Option<T>>, ys: seq<Option<T>>)
    ensures Present(xs + ys) == Present(xs) + Present(ys)
  {
    if xs != [] {
      assert (xs + ys)[1..] == xs[1..] + ys;
      PresentAppend(xs[1..], ys);
    } else {
      assert xs + ys == ys;
    }
  }

  /** A value is present exactly when some entry holds it. */
  lemma {:induction false} InPresent<T>(xs: seq<Option<T>>, v: T)
    ensures v in Present(xs) <==> exists i :: 0 <= i < |xs| && xs[i] == Some(v)
  {
    if xs != [] {
      var rest := xs[1..];
      InPresent(rest, v);
      if v in Present(rest) {
        var i :| 0 <= i < |rest| && rest[i] == Some(v);
        assert xs[i + 1] == rest[i];
      }
      if i :| 1 <= i < |xs| && xs[i] == Some(v) {
        assert rest[i - 1] == xs[i];
      }
    }
  }

  /** `text!.replace(/\s+/g, ' ').trim()`; it is applied only to headers that are present. */
  function CleanHeader(text: Option<string>): string {
    NormalizeSpace(text.GetOr(""))
  }

  /** The last filter: a cleaned text is kept when it is non-empty and not the concerns label. */
  predicate ColumnKept(cleanText: string) {
    cleanText != "" && cleanText != ConcernsInfoLabel
  }

  /** `getColumns`: the header texts through the two filters and the normalisation between. */
  function GetColumns(headers: seq<Option<string>>): seq<string> {
    Filter(Map(Filter(headers, HeaderKept), CleanHeader), ColumnKept)
  }

  /** The column a single header yields, if any. */
  function HeaderColumn(text: Option<string>): Option<string> {
    Through(text, HeaderKept, CleanHeader, ColumnKept)
  }

  /**
   * The `cleanText` emptiness test of the last filter never removes anything: a header that
   * passes the first filter is not blank, so it does not normalise to `''`.
   */
  lemma CleanTextNeverEmpty(text: Option<string>)
    requires HeaderKept(text)
    ensures CleanHeader(text) != ""
  {
    TrimEmptyIffAllSpace(text.value);
  }

  /** What each header yields, in header order. */
  function HeaderColumns(headers: seq<Option<string>>): (each: seq<Option<string>>)
    ensures |each| == |headers| && forall i :: 0 <= i < |headers| ==> each[i] == HeaderColumn(headers[i])
  {
    Map(headers, HeaderColumn)
  }

  /** The filter/map/filter chain yields exactly the columns header by header. */
  lemma GetColumnsByHeader(headers: seq<Option<string>>)
    ensures GetColumns(headers) == Present(HeaderColumns(headers))
  {
    FilterMapFilter(headers, HeaderKept, CleanHeader, ColumnKept);
    assert Map(headers, x => Through(x, HeaderKept, CleanHeader, ColumnKept)) == HeaderColumns(headers);
  }

  /** `getColumns` takes the headers one at a time, in order: it maps concatenation to concatenation. */
  lemma GetColumnsAppend(a: seq<Option<string>>, b: seq<Option<string>>)
    ensures GetColumns(a + b) == GetColumns(a) + GetColumns(b)
  {
    GetColumnsByHeader(a);
    GetColumnsByHeader(b);
    GetColumnsByHeader(a + b);
    MapAppend(a, b, HeaderColumn);
    PresentAppend(HeaderColumns(a), HeaderColumns(b));
  }

  /** `isColumnVisible`: some header's text, filtered and normalised, is exactly the name. */
  function IsColumnVisible(headers: seq<Option<string>>, columnName: string): (visible: bool)
    ensures visible <==> exists i :: 0 <= i < |headers| && HeaderColumn(headers[i]) == Some(columnName)
  {
    GetColumnsByHeader(headers);
    InPresent(HeaderColumns(headers), columnName);
    columnName in GetColumns(headers)
  }

  /**
   * What `getColumns` returns: every column is white-space normalised, never empty and never
   * the concerns label, and there are at most as many columns as headers.
   */
  lemma GetColumnsShape(headers: seq<Option<string>>)
    ensures |GetColumns(headers)| <= |headers|
    ensures forall i :: 0 <= i < |GetColumns(headers)| ==>
              IsNormalized(GetColumns(headers)[i]) && ColumnKept(GetColumns(headers)[i])
  {
    GetColumnsByHeader(headers);
    var each := HeaderColumns(headers);
    var columns := Present(each);
    forall i | 0 <= i < |columns| ensures IsNormalized(columns[i]) && ColumnKept(columns[i]) {
      InPresent(each, columns[i]);
      var j :| 0 <= j < |each| && each[j] == Some(columns[i]);
    }
  }

  /** A checkbox of the Manage columns dialog, as the page reports it. */
  datatype Checkbox = Checkbox(checked: bool, disabled: bool)

  /** A list item of the Manage columns dialog: its text and the checkboxes inside it. */
  datatype ListItem = ListItem(text: string, checkboxes: seq<Checkbox>)

  /** The clicks `enableColumn` makes, in order. */
  datatype UiStep = OpenManageColumns | CheckColumn | ClickSave | ClickCancel

  datatype TableError =
    | ColumnNotFound(columnName: string)
    /** A checkbox locator that resolves to several elements cannot be read. */
    | StrictModeViolation(count: nat)

  /** The list items whose whole text is the column name, in order. */
  function MatchingItems(items: seq<ListItem>, columnName: string): (matched: seq<ListItem>)
    ensures |matched| <= |items|
    ensures forall i :: 0 <= i < |matched| ==> matched[i] in items && matched[i].text == columnName
    ensures matched == [] <==> forall i :: 0 <= i < |items| ==> items[i].text != columnName
    ensures forall it :: it in matched <==> it in items && it.text == columnName
  {
    if items == [] then []
    else
      var rest := MatchingItems(items[1..], columnName);
      assert forall i :: 1 <= i < |items| ==> items[i] == items[1..][i - 1];
      assert forall it :: it in items <==> it == items[0] || it in items[1..];
      if items[0].text == columnName then [items[0]] + rest else rest
  }

  /** Matching is the filter on the item text. */
  lemma {:induction false} MatchingItemsIsFilter(items: seq<ListItem>, columnName: string)
    ensures MatchingItems(items, columnName) == Filter(items, (it: ListItem) => it.text == columnName)
  {
    if items != [] {
      MatchingItemsIsFilter(items[1..], columnName);
    }
  }

  /** The items are matched one at a time, in order. */
  lemma MatchingItemsAppend(a: seq<ListItem>, b: seq<ListItem>, columnName: string)
    ensures MatchingItems(a + b, columnName) == MatchingItems(a, columnName) + MatchingItems(b, columnName)
  {
    var named := (it: ListItem) => it.text == columnName;
    MatchingItemsIsFilter(a, columnName);
    MatchingItemsIsFilter(b, columnName);
    MatchingItemsIsFilter(a + b, columnName);
    FilterAppend(a, b, named);
  }

  /** A single item matches when its text is the name. */
  lemma MatchingItemsSingle(it: ListItem, columnName: string)
    ensures MatchingItems([it], columnName) == if it.text == columnName then [it] else []
  {
    assert [it][1..] == [];
  }

  /** The checkboxes inside the given list items, in document order. */
  function CheckboxesOf(items: seq<ListItem>): (boxes: seq<Checkbox>)
    ensures items == [] ==> boxes == []
  {
    if items == [] then [] else items[0].checkboxes + CheckboxesOf(items[1..])
  }

  /**
   * The dialog part of `enableColumn`, after the dialog is opened: with no list item named
   * exactly like the column, the dialog is cancelled and the call fails. Otherwise the single
   * checkbox of the named item, if there is one, is checked when it is neither disabled nor
   * already checked, and the dialog is saved; several checkboxes cannot be read.
   */
  method ManageColumns(columnName: string, items: seq<ListItem>) returns (steps: seq<UiStep>, outcome: Result<(), TableError>)
    ensures MatchingItems(items, columnName) == [] <==> outcome == Failure(ColumnNotFound(columnName))
    ensures MatchingItems(items, columnName) == [] ==> steps == [ClickCancel]
    ensures var boxes := CheckboxesOf(MatchingItems(items, columnName));
              CheckColumn in steps <==>
                MatchingItems(items, columnName) != [] && |boxes| == 1 && !boxes[0].disabled && !boxes[0].checked
    ensures var boxes := CheckboxesOf(MatchingItems(items, columnName));
              outcome.Failure? && outcome.error.StrictModeViolation? <==>
                MatchingItems(items, columnName) != [] && |boxes| > 1
    ensures outcome.Success? <==> steps != [] && steps[|steps| - 1] == ClickSave
    ensures var boxes := CheckboxesOf(MatchingItems(items, columnName));
              outcome.Success? <==> MatchingItems(items, columnName) != [] && |boxes| <= 1
    ensures var boxes := CheckboxesOf(MatchingItems(items, columnName));
              outcome.Success? ==>
                steps == (if |boxes| == 1 && !boxes[0].disabled && !boxes[0].checked then [CheckColumn] else []) + [ClickSave]
    ensures var boxes := CheckboxesOf(MatchingItems(items, columnName));
              outcome.Failure? && outcome.error.StrictModeViolation? ==>
                steps == [] && outcome == Failure(StrictModeViolation(|boxes|))
  {
    var target := MatchingItems(items, columnName);
    if |target| == 0 {
      return [ClickCancel], Failure(ColumnNotFound(columnName));
    }
    steps := [];
    var boxes := CheckboxesOf(target);
    if |boxes| > 0 {
      if |boxes| > 1 {
        return steps, Failure(StrictModeViolation(|boxes|));
      }
      var isChecked := boxes[0].checked;
      var isDisabled := boxes[0].disabled;
      if !isDisabled && !isChecked {
        steps := steps + [CheckColumn];
      }
    }
    steps := steps + [ClickSave];
    outcome := Success(());
  }

  /**
   * `enableColumn`: nothing happens when the column is already visible; otherwise the Manage
   * columns dialog is opened and handled as `ManageColumns` says.
   */
  method EnableColumn(columnName: string, headers: seq<Option<string>>, items: seq<ListItem>)
    returns (steps: seq<UiStep>, outcome: Result<(), TableError>)
    ensures IsColumnVisible(headers, columnName) ==> steps == [] && outcome == Success(())
    ensures !IsColumnVisible(headers, columnName) ==>
              |steps| >= 1 && steps[0] == OpenManageColumns && (outcome.Success? <==> steps[|steps| - 1] == ClickSave)
    ensures outcome == Failure(ColumnNotFound(columnName)) <==>
              !IsColumnVisible(headers, columnName) && MatchingItems(items, columnName) == []
    ensures outcome == Failure(ColumnNotFound(columnName)) ==> steps == [OpenManageColumns, ClickCancel]
    ensures var boxes := CheckboxesOf(MatchingItems(items, columnName));
              CheckColumn in steps <==>
                !IsColumnVisible(headers, columnName) && MatchingItems(items, columnName) != []
                && |boxes| == 1 && !boxes[0].disabled && !boxes[0].checked
    ensures var boxes := CheckboxesOf(MatchingItems(items, columnName));
              outcome.Success? <==>
                IsColumnVisible(headers, columnName) || (MatchingItems(items, columnName) != [] && |boxes| <= 1)
    ensures var boxes := CheckboxesOf(MatchingItems(items, columnName));
              !IsColumnVisible(headers, columnName) && outcome.Success? ==>
                steps == [OpenManageColumns]
                         + (if |boxes| == 1 && !boxes[0].disabled && !boxes[0].checked then [CheckColumn] else [])
                         + [ClickSave]
    ensures var boxes := CheckboxesOf(MatchingItems(items, columnName));
              outcome.Failure? && outcome.error.StrictModeViolation? ==>
                steps == [OpenManageColumns] && outcome == Failure(StrictModeViolation(|boxes|))
  {
    if IsColumnVisible(headers, columnName) {
      return [], Success(());
    }
    var dialogSteps;
    dialogSteps, outcome := ManageColumns(columnName, items);
    steps := [OpenManageColumns] + dialogSteps;
    assert CheckColumn in steps <==> CheckColumn in dialogSteps;
  }

  /**
   * Playwright's `hasText` with a string: the row's text, white space normalised, contains the
   * expected text, white space normalised, ignoring case.
   */
  predicate HasText(rowText: string, expected: string) {
    Contains(ToLower(NormalizeSpace(rowText)), ToLower(NormalizeSpace(expected)))
  }

  /** A text match: Playwright's `hasText` is `HasText`. */
  type TextMatch = (string, string) -> bool

  /** A row's text has every expected value of the options. */
  predicate MatchesAll(hasText: TextMatch, rowText: string, options: seq<(string, string)>) {
    forall k :: 0 <= k < |options| ==> hasText(rowText, options[k].1)
  }

  /** The first row from `from` on whose text has every expected value. */
  function FirstMatch(hasText: TextMatch, rows: seq<string>, options: seq<(string, string)>, from: nat): (r: Option<nat>)
    decreases |rows| - from
    ensures r.Some? ==> from <= r.value < |rows| && MatchesAll(hasText, rows[r.value], options)
    ensures r.Some? ==> forall j :: from <= j < r.value ==> !MatchesAll(hasText, rows[j], options)
    ensures r.None? ==> forall j :: from <= j < |rows| ==> !MatchesAll(hasText, rows[j], options)
  {
    if from >= |rows| then None
    else if MatchesAll(hasText, rows[from], options) then Some(from)
    else FirstMatch(hasText, rows, options, from + 1)
  }

  predicate Increasing(s: seq<nat>) {
    forall a, b :: 0 <= a < b < |s| ==> s[a] < s[b]
  }

  /** `rows.filter({ hasText: expected })` on the row indices still selected. */
  function KeepWithText(hasText: TextMatch, rows: seq<string>, selected: seq<nat>, expected: string): (kept: seq<nat>)
    ensures forall i :: i in kept <==> i in selected && i < |rows| && hasText(rows[i], expected)
    ensures Increasing(selected) ==> Increasing(kept)
  {
    if selected == [] then []
    else
      var rest := KeepWithText(hasText, rows, selected[1..], expected);
      assert forall i :: i in selected <==> i == selected[0] || i in selected[1..];
      if selected[0] < |rows| && hasText(rows[selected[0]], expected) then
        var kept := [selected[0]] + rest;
        assert Increasing(selected) ==> Increasing(kept) by {
          if Increasing(selected) {
            assert Increasing(selected[1..]);
            forall i | i in rest ensures selected[0] < i {
              var j :| 0 <= j < |selected| - 1 && selected[1..][j] == i;
              assert selected[j + 1] == i;
            }
            forall a, b | 0 <= a < b < |kept| ensures kept[a] < kept[b] {
              assert kept[b] == rest[b - 1] && kept[b] in rest;
              if a > 0 {
                assert kept[a] == rest[a - 1];
              }
            }
          }
        }
        kept
      else rest
  }

  /** The locator `tbody tr`: every row index, in order. */
  function AllRows(count: nat): (selected: seq<nat>)
    ensures Increasing(selected)
    ensures forall i: nat :: i in selected <==> i < count
  {
    var selected := seq(count, i requires 0 <= i < count => i);
    forall i: nat | i < count ensures i in selected {
      assert selected[i] == i;
    }
    selected
  }

  /** One more option narrows the rows by one more expected value. */
  lemma MatchesAllExtend(hasText: TextMatch, rowText: string, options: seq<(string, string)>, k: nat)
    requires k < |options|
    ensures MatchesAll(hasText, rowText, options[..k + 1]) <==>
              MatchesAll(hasText, rowText, options[..k]) && hasText(rowText, options[k].1)
  {
    assert forall j :: 0 <= j < k ==> options[..k + 1][j] == options[..k][j];
    assert options[..k + 1][k] == options[k];
  }

  /** `first()` of an increasing selection holding exactly the matching rows is the first match. */
  lemma FirstSelected(hasText: TextMatch, rows: seq<string>, options: seq<(string, string)>, selected: seq<nat>)
    requires Increasing(selected)
    requires forall i: nat :: i in selected <==> i < |rows| && MatchesAll(hasText, rows[i], options)
    ensures FirstMatch(hasText, rows, options, 0) == if selected == [] then None else Some(selected[0])
  {
    var m := FirstMatch(hasText, rows, options, 0);
    if m.Some? {
      assert m.value in selected;
    }
    if selected != [] {
      assert selected[0] in selected;
    }
  }

  /**
   * `getRow`: starting from every body row, each option narrows the selection to the rows
   * whose text has its expected value by `hasText`; the result is the first row left, if any.
   */
  method GetRow(hasText: TextMatch, rows: seq<string>, options: seq<(string, string)>) returns (row: Option<nat>)
    ensures row == FirstMatch(hasText, rows, options, 0)
  {
    var selected := AllRows(|rows|);
    assert forall t :: MatchesAll(hasText, t, options[..0]);
    for k := 0 to |options|
      invariant Increasing(selected)
      invariant forall i: nat :: i in selected <==> i < |rows| && MatchesAll(hasText, rows[i], options[..k])
    {
      forall t {
        MatchesAllExtend(hasText, t, options, k);
      }
      selected := KeepWithText(hasText, rows, selected, options[k].1);
    }
    assert options[..|options|] == options;
    FirstSelected(hasText, rows, options, selected);
    row := if |selected| == 0 then None else Some(selected[0]);
  }

  /** `getRow` with Playwright's text match. */
  method GetRowByText(rows: seq<string>, options: seq<(string, string)>) returns (row: Option<nat>)
    ensures row == FirstMatch(HasText, rows, options, 0)
  {
    row := GetRow(HasText, rows, options);
  }

  /** The values the options ask for, whatever their column names and order. */
  function OptionValues(options: seq<(string, string)>): (values: set<string>)
    ensures forall k :: 0 <= k < |options| ==> options[k].1 in values
    ensures forall v :: v in values ==> exists k :: 0 <= k < |options| && options[k].1 == v
  {
    set k | 0 <= k < |options| :: options[k].1
  }

  lemma MatchesAllByValues(hasText: TextMatch, rowText: string, a: seq<(string, string)>, b: seq<(string, string)>)
    requires OptionValues(a) == OptionValues(b)
    ensures MatchesAll(hasText, rowText, a) <==> MatchesAll(hasText, rowText, b)
  {
    if MatchesAll(hasText, rowText, a) {
      forall k | 0 <= k < |b| ensures hasText(rowText, b[k].1) {
        var j :| 0 <= j < |a| && a[j].1 == b[k].1;
      }
    }
    if MatchesAll(hasText, rowText, b) {
      forall k | 0 <= k < |a| ensures hasText(rowText, a[k].1) {
        var j :| 0 <= j < |b| && b[j].1 == a[k].1;
      }
    }
  }

  /** The order of the options, and their column names, do not change the row `getRow` picks. */
  lemma {:induction false} FirstMatchOrderFree(hasText: TextMatch, rows: seq<string>, a: seq<(string, string)>, b: seq<(string, string)>, from: nat)
    requires OptionValues(a) == OptionValues(b)
    decreases |rows| - from
    ensures FirstMatch(hasText, rows, a, from) == FirstMatch(hasText, rows, b, from)
  {
    if from < |rows| {
      MatchesAllByValues(hasText, rows[from], a, b);
      FirstMatchOrderFree(hasText, rows, a, b, from + 1);
    }
  }
}
