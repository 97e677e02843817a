/**
 * The standalone archive page (`src/app/ArchiveTable/page.tsx`): the rows and
 * its own confirm-before-delete modal, kept in three state cells.
 */
module ArchiveTable {
  import opened Wrappers
  import opened Rows
  import opened DeleteModal

  class ArchivePage {
    var rows: seq<Row>
    var isDeleteModalOpen: bool
    var selectedRowsToDelete: seq<string>

    function ModalState(): Modal
      reads this
    {
      Modal(isDeleteModalOpen, selectedRowsToDelete)
    }

    constructor ()
      ensures rows == ArchiveInitialRows && ModalState() == Closed
    {
      rows := ArchiveInitialRows;
      isDeleteModalOpen := false;
      selectedRowsToDelete := [];
    }

    /** `addNewRow`: the modal is untouched. */
    method AddNewRow()
      modifies this
      ensures rows == AddNumbered(old(rows))
      ensures ModalState() == old(ModalState())
    {
      rows := AddNumbered(rows);
    }

    /** `openDeleteModal(selectedRows)`, given the selected rows' ids: rows are untouched. */
    method OpenDeleteModal(selectedIds: seq<string>)
      modifies this
      ensures ModalState() == Step(old(ModalState()), DeleteClick(selectedIds)).next
      ensures rows == old(rows)
    {
      selectedRowsToDelete := selectedIds;
      isDeleteModalOpen := true;
    }

    /**
     * `confirmDelete`: the rows whose id was recorded are removed and the
     * modal closes; the recorded selection stays.
     */
    method ConfirmDelete()
      modifies this
      ensures Step(old(ModalState()), Confirm) == Outcome(ModalState(), Some(old(selectedRowsToDelete)))
      ensures selectedRowsToDelete == old(selectedRowsToDelete)
      ensures rows == WithoutIds(old(rows), selectedRowsToDelete)
    {
      rows := WithoutIds(rows, selectedRowsToDelete);
      isDeleteModalOpen := false;
    }

    /** `onClose` of the modal and `onRequestClose` of its footer: only the flag changes. */
    method CloseModal()
      modifies this
      ensures ModalState() == Step(old(ModalState()), Cancel).next
      ensures rows == old(rows)
    {
      isDeleteModalOpen := false;
    }
  }

  /** Confirming a second time, with the selection still recorded, leaves the rows as the first confirm did. */
  method ConfirmTwice(page: ArchivePage)
    modifies page
    ensures page.rows == WithoutIds(old(page.rows), old(page.selectedRowsToDelete))
    ensures !page.isDeleteModalOpen
  {
    page.ConfirmDelete();
    page.ConfirmDelete();
    DeleteIdempotent(old(page.rows), page.selectedRowsToDelete);
  }
}
