/**
 * Row lists shared by the table pages: the row record, the decimal rendering
 * of a row count (`n.toString()`), appending a row derived from the current
 * length, and deleting the rows whose id is selected (`filter` with
 * `includes`/`some` on the selected ids).
 */
module Rows {

  /** `{ id, name, status }`. */
  datatype Row = Row(id: string, name: string, status: string)

  // ---------------------------------------------------------------------
  // Decimal rendering of a count

  function DigitChar(d: nat): (c: char)
    requires d < 10
    ensures '0' <= c <= '9'
  {
    ('0' as int + d) as char
  }

  function DigitValue(c: char): nat {
    if '0' <= c <= '9' then c as int - '0' as int else 0
  }

  /** `n.toString()` for a non-negative integer: its decimal digits, most significant first. */
  function NatToString(n: nat): (s: string)
    ensures |s| > 0
    ensures forall i :: 0 <= i < |s| ==> '0' <= s[i] <= '9'
    ensures n >= 10 ==> |s| >= 2
    ensures s[0] != '0' || n == 0
  {
    if n < 10 then [DigitChar(n)] else NatToString(n / 10) + [DigitChar(n % 10)]
  }

  /** Reads decimal digits back, most significant first. */
  function ParseNat(s: string): nat {
    if s == [] then 0 else ParseNat(s[..|s| - 1]) * 10 + DigitValue(s[|s| - 1])
  }

  /** Round trip: the decimal rendering of a count reads back as that count. */
  lemma {:induction false} ParseNatToString(n: nat)
    ensures ParseNat(NatToString(n)) == n
  {
    var s := NatToString(n);
    if n < 10 {
      assert s[..0] == [];
    } else {
      assert s[..|s| - 1] == NatToString(n / 10);
      ParseNatToString(n / 10);
    }
  }

  /** Different counts render as different strings. */
  lemma NatToStringInjective(m: nat, n: nat)
    ensures NatToString(m) == NatToString(n) ==> m == n
  {
    ParseNatToString(m);
    ParseNatToString(n);
  }

  // ---------------------------------------------------------------------
  // Appending a row derived from the current length

  /** The row the ArchiveTable pages' `addNewRow` creates when the list has `n` rows. */
  function NumberedRow(n: nat): Row {
    Row(NatToString(n + 1), "Item " + NatToString(n + 1), "Active")
  }

  /** `setRows([...rows, newRow])` with the numbered row: one row appended, the prefix kept. */
  function AddNumbered(rows: seq<Row>): (r: seq<Row>)
    ensures |r| == |rows| + 1 && r[..|rows|] == rows
    ensures r[|rows|].id == NatToString(|rows| + 1) && r[|rows|].status == "Active"
    ensures r[|rows|].name == "Item " + r[|rows|].id
  {
    rows + [NumberedRow(|rows|)]
  }

  /**
   * `String.fromCharCode(u)`: the UTF-16 code unit `u` modulo 2^16. A code
   * unit in the surrogate range has no `char` of its own here and becomes
   * U+FFFD.
   */
  function FromCharCode(u: nat): (c: char)
    ensures !(0xD800 <= u % 0x1_0000 < 0xE000) ==> c as int == u % 0x1_0000
    ensures u < 0xD800 ==> c as int == u
  {
    var unit := u % 0x1_0000;
    if 0xD800 <= unit < 0xE000 then '\U{FFFD}' else unit as char
  }

  /** The row the dropdown-table page's `handleAddRow` creates when the list has `n` rows. */
  function LetteredRow(n: nat): Row {
    Row(NatToString(n + 1), "Item " + [FromCharCode(65 + n)], "Active")
  }

  /** `handleAddRow`: one lettered row appended, the prefix kept. */
  function AddLettered(rows: seq<Row>): (r: seq<Row>)
    ensures |r| == |rows| + 1 && r[..|rows|] == rows
    ensures r[|rows|].id == NatToString(|rows| + 1) && r[|rows|].status == "Active"
    ensures r[|rows|].name == "Item " + [FromCharCode(65 + |rows|)]
    ensures |rows| < 26 ==> r[|rows|].name == "Item " + [('A' as int + |rows|) as char]
  {
    rows + [LetteredRow(|rows|)]
  }

  // ---------------------------------------------------------------------
  // Deleting the selected rows

  /** `a` is `b` with some elements left out, the rest in their order. */
  predicate IsSubsequence<T(==)>(a: seq<T>, b: seq<T>) {
    a == [] || (b != [] && ((a[0] == b[0] && IsSubsequence(a[1..], b[1..])) || IsSubsequence(a, b[1..])))
  }

  /** The number of rows whose id is among `ids`. */
  function SelectedCount(rows: seq<Row>, ids: seq<string>): nat {
    if rows == [] then 0
    else (if rows[0].id in ids then 1 else 0) + SelectedCount(rows[1..], ids)
  }

  /**
   * `rows.filter(row => !selectedIds.includes(row.id))`: the rows whose id
   * is not selected, in their original order, and no others.
   */
  function WithoutIds(rows: seq<Row>, ids: seq<string>): (r: seq<Row>)
    ensures forall x :: x in r <==> x in rows && x.id !in ids
    ensures IsSubsequence(r, rows)
    ensures |r| == |rows| - SelectedCount(rows, ids)
  {
    if rows == [] then []
    else if rows[0].id in ids then WithoutIds(rows[1..], ids)
    else [rows[0]] + WithoutIds(rows[1..], ids)
  }

  /** Deleting with an empty selection changes nothing. */
  lemma {:induction false} DeleteNothing(rows: seq<Row>)
    ensures WithoutIds(rows, []) == rows
  {
    if rows != [] {
      DeleteNothing(rows[1..]);
      assert [rows[0]] + rows[1..] == rows;
    }
  }

  /** Deleting a selection twice is deleting it once. */
  lemma {:induction false} DeleteIdempotent(rows: seq<Row>, ids: seq<string>)
    ensures WithoutIds(WithoutIds(rows, ids), ids) == WithoutIds(rows, ids)
  {
    if rows != [] {
      DeleteIdempotent(rows[1..], ids);
      if rows[0].id !in ids {
        var rest := WithoutIds(rows[1..], ids);
        assert ([rows[0]] + rest)[1..] == rest;
      }
    }
  }

  /** Deleting a selection none of whose ids occurs in the list changes nothing. */
  lemma {:induction false} DeleteAbsentIds(rows: seq<Row>, ids: seq<string>)
    requires forall x :: x in rows ==> x.id !in ids
    ensures WithoutIds(rows, ids) == rows
  {
    if rows != [] {
      DeleteAbsentIds(rows[1..], ids);
      assert [rows[0]] + rows[1..] == rows;
    }
  }

  // ---------------------------------------------------------------------
  // Ids derived from the length

  /** The three rows both ArchiveTable pages start with. */
  const ArchiveInitialRows: seq<Row> := [
    Row("1", "Item 1", "Active"),
    Row("2", "Item 2", "Inactive"),
    Row("3", "Item 3", "Pending")
  ]

  /** Row `i` carries the id `i + 1`, as rows created only by `addNewRow` do. */
  predicate Numbered(rows: seq<Row>) {
    forall i :: 0 <= i < |rows| ==> rows[i].id == NatToString(i + 1)
  }

  predicate IdsDistinct(rows: seq<Row>) {
    forall i, j :: 0 <= i < j < |rows| ==> rows[i].id != rows[j].id
  }

  /** The initial rows are numbered, and appending keeps a numbered list numbered. */
  lemma NumberedByAppending(rows: seq<Row>)
    ensures Numbered(ArchiveInitialRows)
    ensures Numbered(rows) ==> Numbered(AddNumbered(rows))
  {
  }

  /** In a numbered list no two rows share an id. */
  lemma NumberedIdsDistinct(rows: seq<Row>)
    requires Numbered(rows)
    ensures IdsDistinct(rows)
  {
    forall i, j | 0 <= i < j < |rows|
      ensures rows[i].id != rows[j].id
    {
      NatToStringInjective(i + 1, j + 1);
    }
  }

  /**
   * Ids are not kept unique: deleting row "1" from the initial rows and then
   * adding a row creates a second row "3".
   */
  lemma DeleteThenAddRepeatsId()
    ensures var r := AddNumbered(WithoutIds(ArchiveInitialRows, ["1"]));
      r == [Row("2", "Item 2", "Inactive"), Row("3", "Item 3", "Pending"), Row("3", "Item 3", "Active")] &&
      !IdsDistinct(r)
  {
    var rows := ArchiveInitialRows;
    assert rows[1..][1..][1..] == [];
    assert WithoutIds(rows[1..][1..], ["1"]) == [rows[2]];
    assert WithoutIds(rows[1..], ["1"]) == [rows[1], rows[2]];
    assert WithoutIds(rows, ["1"]) == [rows[1], rows[2]];
    assert NatToString(3) == "3";
    assert NumberedRow(2) == Row("3", "Item " + "3", "Active") == Row("3", "Item 3", "Active");
    var r := AddNumbered(WithoutIds(rows, ["1"]));
    assert r[1].id == r[2].id;
  }
}
