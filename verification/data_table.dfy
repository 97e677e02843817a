/**
 * `CustomDataTable.tsx`: the table component's own state (the modal flag and
 * the rows captured for deletion) and the two callbacks it invokes. The rows
 * it shows are a prop; the component never changes them, so they are not
 * part of its state here.
 */
module DataTable {
  import opened Wrappers
  import opened DeleteModal

  /** A call of one of the component's callbacks: `onDeleteRows(ids)` or `onAddRow()`. */
  datatype Request = DeleteRows(ids: seq<string>) | AddRow

  class CustomDataTable {
    var isModalOpen: bool
    var rowsToDelete: seq<string>
    /** The callback calls made so far, in order. */
    var requests: seq<Request>

    function State(): Modal
      reads this
    {
      Modal(isModalOpen, rowsToDelete)
    }

    /** Mounting: the modal is closed, nothing is captured, no callback has run. */
    constructor ()
      ensures State() == Closed && requests == []
    {
      isModalOpen := false;
      rowsToDelete := [];
      requests := [];
    }

    /** `handleDeleteClick(selectedRows)`: capture and open, without deleting. */
    method HandleDeleteClick(selectedRows: seq<string>)
      modifies this
      ensures isModalOpen && rowsToDelete == selectedRows
      ensures State() == Step(old(State()), DeleteClick(selectedRows)).next
      ensures requests == old(requests)
    {
      rowsToDelete := selectedRows;
      isModalOpen := true;
    }

    /** `confirmDelete`: one `onDeleteRows` call with the captured rows, then close. */
    method ConfirmDelete() returns (handed: seq<string>)
      modifies this
      ensures handed == old(rowsToDelete)
      ensures Step(old(State()), Confirm) == Outcome(State(), Some(handed))
      ensures !isModalOpen && rowsToDelete == old(rowsToDelete)
      ensures requests == old(requests) + [DeleteRows(handed)]
    {
      handed := rowsToDelete;
      requests := requests + [DeleteRows(handed)];
      isModalOpen := false;
    }

    /** `onRequestClose` and `onSecondarySubmit`: close, and nothing else. */
    method CloseModal()
      modifies this
      ensures !isModalOpen && rowsToDelete == old(rowsToDelete)
      ensures State() == Step(old(State()), Cancel).next
      ensures requests == old(requests)
    {
      isModalOpen := false;
    }

    /** The "Add new" button: forwards to `onAddRow`. */
    method AddNew()
      modifies this
      ensures State() == old(State())
      ensures requests == old(requests) + [AddRow]
    {
      requests := requests + [AddRow];
    }
  }
}
