/**
 * The dashboard archive page (`profile/user/dashboard/ArchiveTable/page.tsx`):
 * a `rows` state cell changed by `addNewRow` and `deleteSelectedRows`, which
 * it hands to a `CustomDataTable` as `onAddRow` and `onDeleteRows`.
 */
module DashboardArchiveTable {
  import opened Rows
  import opened DataTable
  import DeleteModal

  class DashboardArchivePage {
    var rows: seq<Row>
    const table: CustomDataTable

    constructor ()
      ensures rows == ArchiveInitialRows
      ensures fresh(table) && table.State() == DeleteModal.Closed && table.requests == []
    {
      rows := ArchiveInitialRows;
      table := new CustomDataTable();
    }

    /** `addNewRow`. */
    method AddNewRow()
      modifies this
      ensures rows == AddNumbered(old(rows))
    {
      rows := AddNumbered(rows);
    }

    /** `deleteSelectedRows(selectedRows)`, given the selected rows' ids. */
    method DeleteSelectedRows(selectedIds: seq<string>)
      modifies this
      ensures rows == WithoutIds(old(rows), selectedIds)
    {
      rows := WithoutIds(rows, selectedIds);
    }

    /** The table's "Add new" button, which runs `onAddRow = addNewRow`. */
    method AddNewClicked()
      modifies this, table
      ensures table.requests == old(table.requests) + [AddRow]
      ensures table.State() == old(table.State())
      ensures rows == AddNumbered(old(rows))
    {
      table.AddNew();
      AddNewRow();
    }

    /** The table's confirm button, which runs `onDeleteRows = deleteSelectedRows` on the captured rows. */
    method DeleteConfirmed()
      modifies this, table
      ensures table.requests == old(table.requests) + [DeleteRows(old(table.rowsToDelete))]
      ensures !table.isModalOpen && table.rowsToDelete == old(table.rowsToDelete)
      ensures rows == WithoutIds(old(rows), old(table.rowsToDelete))
    {
      var handed := table.ConfirmDelete();
      DeleteSelectedRows(handed);
    }
  }
}
