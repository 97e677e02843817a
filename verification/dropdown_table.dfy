/**
 * The dropdown-table page (`profile/user/dashboard/dropdown-table/page.tsx`):
 * a dropdown chooses one of three canned tables, whose rows can then be
 * extended and deleted through a `CustomDataTable`, beside a file-name field
 * and a free text input.
 */
module DropdownTable {
  import opened Wrappers
  import opened Rows
  import GlobalDropdown

  /** The keys of `tableData`, in their declaration order. */
  const TableKeys: seq<string> := ["Table 1", "Table 2", "Table 3"]

  /** `tableData`. */
  const TableData: map<string, seq<Row>> := map[
    "Table 1" := [Row("1", "Item A", "Active"), Row("2", "Item B", "Inactive")],
    "Table 2" := [Row("3", "Item C", "Pending"), Row("4", "Item D", "Active")],
    "Table 3" := [Row("5", "Item E", "Inactive"), Row("6", "Item F", "Pending")]
  ]

  /** `["None", ...Object.keys(tableData)]`: the dropdown's items. */
  const DropdownItems: seq<string> := ["None"] + TableKeys

  /** The items are "None" followed by exactly the keys of `tableData`, each once. */
  lemma ItemsAreNoneThenKeys()
    ensures DropdownItems[0] == "None" && "None" !in TableData
    ensures forall k :: k in DropdownItems[1..] <==> k in TableData
    ensures forall i, j :: 0 <= i < j < |DropdownItems| ==> DropdownItems[i] != DropdownItems[j]
  {
  }

  /**
   * The values `handleTableChange` receives: `null`, `""`, `"None"` or a key
   * of `tableData`, which is everything the dropdown can forward.
   */
  predicate Accepted(item: Option<string>) {
    item.None? || item.value == "" || item.value == "None" || item.value in TableData
  }

  /** The pair of state cells `handleTableChange` sets. */
  datatype Choice = Choice(selectedTable: string, rows: seq<Row>)

  /**
   * `handleTableChange(selectedItem)`: `"None"`, `null` and `""` clear the
   * choice and the rows; a table key selects that table's rows.
   */
  function TableChange(item: Option<string>): (r: Choice)
    requires Accepted(item)
    ensures item.None? || item.value in {"", "None"} ==> r == Choice("", [])
    ensures item.Some? && item.value in TableData ==> r == Choice(item.value, TableData[item.value])
  {
    if item == Some("None") then Choice("", [])
    else Choice(item.GetOr(""), if item.Some? && item.value != "" then TableData[item.value] else [])
  }

  /** `{selectedTable && <CustomDataTable …/>}`. */
  predicate TableShown(selectedTable: string) {
    selectedTable != ""
  }

  /** The table is shown after a change exactly when a table key was chosen. */
  lemma ShownIffTableChosen(item: Option<string>)
    requires Accepted(item)
    ensures TableShown(TableChange(item).selectedTable) <==> item.Some? && item.value in TableData
  {
  }

  /** Whatever the dropdown forwards from its items is accepted by `handleTableChange`. */
  lemma DropdownFeedsTableChange(chosen: Option<string>)
    requires chosen.Some? ==> chosen.value in GlobalDropdown.FormattedItems(GlobalDropdown.Strings(DropdownItems))
    ensures Accepted(Some(GlobalDropdown.Forwarded(chosen)))
  {
  }

  /**
   * Derived ids collide: choosing "Table 2" and adding a row yields a second
   * row "3", and a second "Item C" as well.
   */
  lemma Table2AddRepeatsId()
    ensures var r := AddLettered(TableChange(Some("Table 2")).rows);
      r == [Row("3", "Item C", "Pending"), Row("4", "Item D", "Active"), Row("3", "Item C", "Active")] &&
      !IdsDistinct(r)
  {
    var rows := TableChange(Some("Table 2")).rows;
    assert |rows| == 2;
    assert NatToString(3) == "3";
    assert FromCharCode(67) == 'C';
    assert LetteredRow(2) == Row("3", "Item " + "C", "Active") == Row("3", "Item C", "Active");
    var r := AddLettered(rows);
    assert r[0].id == r[2].id;
  }

  class DropdownTablePage {
    var selectedTable: string
    var rows: seq<Row>
    var textInput: string
    var formValues: map<string, string>

    constructor ()
      ensures selectedTable == "" && rows == [] && textInput == ""
      ensures formValues == map["fileName" := ""]
    {
      selectedTable := "";
      rows := [];
      textInput := "";
      formValues := map["fileName" := ""];
    }

    /** `handleChange(field, value)`: only that key of `formValues` changes. */
    method HandleChange(field: string, value: string)
      modifies this
      ensures formValues == old(formValues)[field := value]
      ensures selectedTable == old(selectedTable) && rows == old(rows) && textInput == old(textInput)
    {
      formValues := formValues[field := value];
    }

    /** The text input's `onChange`. */
    method SetTextInput(value: string)
      modifies this
      ensures textInput == value
      ensures selectedTable == old(selectedTable) && rows == old(rows) && formValues == old(formValues)
    {
      textInput := value;
    }

    /** `handleTableChange(selectedItem)`. */
    method HandleTableChange(item: Option<string>)
      requires Accepted(item)
      modifies this
      ensures Choice(selectedTable, rows) == TableChange(item)
      ensures textInput == old(textInput) && formValues == old(formValues)
    {
      var choice := TableChange(item);
      selectedTable, rows := choice.selectedTable, choice.rows;
    }

    /** `handleAddRow`. */
    method HandleAddRow()
      modifies this
      ensures rows == AddLettered(old(rows))
      ensures selectedTable == old(selectedTable) && textInput == old(textInput) && formValues == old(formValues)
    {
      rows := AddLettered(rows);
    }

    /** The `onDeleteRows` callback, given the selected rows' ids. */
    method DeleteRows(selectedIds: seq<string>)
      modifies this
      ensures rows == WithoutIds(old(rows), selectedIds)
      ensures selectedTable == old(selectedTable) && textInput == old(textInput) && formValues == old(formValues)
    {
      rows := WithoutIds(rows, selectedIds);
    }
  }
}
