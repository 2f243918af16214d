/**
 * The browser page's mutable state: the form and its mode flag, the
 * confirmation dialog with its pending action, the theme and the table.
 */
module Page {
  import opened Wrappers
  import opened Decimal
  import opened Entity
  import opened Validation
  import opened Theme
  import opened Commands

  const PrimaryClass := "btn btn-primary"
  const DangerClass := "btn btn-danger"

  /** One rendered table row: the visible cells and the arguments its two triggers pass. */
  datatype Row = Row(
    idCell: string, nameCell: string, emailCell: string, departmentCell: string,
    editId: string, deleteId: string, deleteName: string)

  /** Text placed through textContent, where null becomes the empty string. */
  function CellText(f: Option<string>): string {
    f.GetOr("")
  }

  /** An input's value after assigning a nullable number: null becomes the empty string. */
  function IdFieldValue(id: Option<int>): (v: string)
    ensures id.Some? ==> v != "" && ParseDecimal(v) == id
    ensures id.None? ==> v == ""
  {
    match id
    case None => ""
    case Some(n) => DecimalRoundTrip(n); DecimalText(n)
  }

  /** The row for one record; ids are interpolated into the template as text. */
  function RowOf(s: StudentData): (r: Row)
    ensures r.idCell == "#" + r.editId
    ensures r.nameCell == CellText(s.name) && r.emailCell == CellText(s.email)
    ensures r.departmentCell == CellText(s.department)
    ensures r.editId == r.deleteId && r.deleteName == r.nameCell
    ensures s.id.Some? ==> ParseDecimal(r.editId) == s.id
    ensures s.id.None? ==> r.editId == "null"
  {
    if s.id.Some? then DecimalRoundTrip(s.id.value); RowBuilt(s) else RowBuilt(s)
  }

  function RowBuilt(s: StudentData): Row {
    Row("#" + IdText(s.id), CellText(s.name), CellText(s.email), CellText(s.department),
        IdText(s.id), IdText(s.id), CellText(s.name))
  }

  class StudentPage {
    // the form
    var idField: string
    var nameField: string
    var emailField: string
    var departmentField: string
    var isEditMode: bool
    var cancelVisible: bool
    // the confirmation dialog
    var pendingAction: Option<Command>
    var modalVisible: bool
    var scrollLocked: bool
    var confirmClass: string
    var confirmLabel: string
    // the theme: the applied attribute and the stored preference
    var appliedTheme: Option<string>
    var savedTheme: Option<string>
    // the table
    var rows: seq<Row>
    var shownCount: nat
    var tableVisible: bool
    var emptyStateVisible: bool

    /**
     * The dialog is open exactly while an action is pending and scrolling is
     * locked; the cancel button shows exactly in edit mode; outside edit mode
     * the id field is empty; an applied theme is the one the stored
     * preference gives.
     */
    ghost predicate Valid()
      reads this
    {
      && (pendingAction.Some? <==> modalVisible)
      && (modalVisible <==> scrollLocked)
      && (isEditMode <==> cancelVisible)
      && (!isEditMode ==> idField == "")
      && (appliedTheme.None? || appliedTheme == Some(InitialTheme(savedTheme)))
    }

    /** Exactly one of the table and the empty-state placeholder is showing. */
    ghost predicate OneOfTableOrEmpty()
      reads this
    {
      tableVisible != emptyStateVisible
    }

    /** The page as loaded, before any handler ran; the markup decides the table's visibility. */
    constructor (savedTheme: Option<string>, tableVisible: bool, emptyStateVisible: bool)
      ensures Valid()
      ensures idField == "" && nameField == "" && emailField == "" && departmentField == ""
      ensures !isEditMode && pendingAction.None? && !modalVisible
      ensures appliedTheme.None? && this.savedTheme == savedTheme
      ensures rows == [] && this.tableVisible == tableVisible && this.emptyStateVisible == emptyStateVisible
    {
      idField, nameField, emailField, departmentField := "", "", "", "";
      isEditMode, cancelVisible := false, false;
      pendingAction, modalVisible, scrollLocked := None, false, false;
      confirmClass, confirmLabel := PrimaryClass, "Confirm";
      appliedTheme, this.savedTheme := None, savedTheme;
      rows, shownCount := [], 0;
      this.tableVisible, this.emptyStateVisible := tableVisible, emptyStateVisible;
    }

    /** The user types into the three text inputs. */
    method FillForm(name: string, email: string, department: string)
      modifies this`nameField, this`emailField, this`departmentField
      ensures nameField == name && emailField == email && departmentField == department
    {
      nameField, emailField, departmentField := name, email, department;
    }

    // -------------------------------------------------------------------------
    // Theme

    method InitializeTheme()
      requires Valid()
      modifies this`appliedTheme
      ensures Valid()
      ensures appliedTheme == Some(InitialTheme(savedTheme))
    {
      appliedTheme := Some(InitialTheme(savedTheme));
    }

    method ToggleTheme()
      requires Valid()
      modifies this`appliedTheme, this`savedTheme
      ensures Valid()
      ensures appliedTheme == Some(Toggled(old(appliedTheme)))
      ensures savedTheme == appliedTheme
    {
      var t := Toggled(appliedTheme);
      appliedTheme := Some(t);
      savedTheme := Some(t);
    }

    // -------------------------------------------------------------------------
    // Confirmation dialog

    method ShowModal(action: Command, isDanger: bool)
      requires Valid()
      modifies this`pendingAction, this`modalVisible, this`scrollLocked, this`confirmClass, this`confirmLabel
      ensures Valid()
      ensures pendingAction == Some(action) && modalVisible && scrollLocked
      ensures confirmClass == (if isDanger then DangerClass else PrimaryClass)
      ensures confirmLabel == (if isDanger then "Delete" else "Confirm")
    {
      pendingAction := Some(action);
      confirmClass := if isDanger then DangerClass else PrimaryClass;
      confirmLabel := if isDanger then "Delete" else "Confirm";
      modalVisible := true;
      scrollLocked := true;
    }

    /** Closes the dialog; the result does not depend on the dialog's earlier state, so closing twice is closing once. */
    method HideModal()
      requires Valid()
      modifies this`pendingAction, this`modalVisible, this`scrollLocked
      ensures Valid()
      ensures pendingAction.None? && !modalVisible && !scrollLocked
    {
      modalVisible := false;
      scrollLocked := false;
      pendingAction := None;
    }

    /** Runs the pending action, if any, once, then closes the dialog. */
    method ConfirmAction() returns (sent: Option<Request>)
      requires Valid()
      modifies this`pendingAction, this`modalVisible, this`scrollLocked
      ensures Valid()
      ensures sent == (if old(pendingAction).Some? then Some(Invoke(old(pendingAction).value, idField)) else None)
      ensures pendingAction.None? && !modalVisible && !scrollLocked
    {
      sent := None;
      if pendingAction.Some? {
        sent := Some(Invoke(pendingAction.value, idField));
      }
      HideModal();
    }

    /** A click on the dialog's backdrop closes it; a click inside its content does not. */
    method OverlayClicked(onBackdrop: bool)
      requires Valid()
      modifies this`pendingAction, this`modalVisible, this`scrollLocked
      ensures Valid()
      ensures onBackdrop ==> pendingAction.None? && !modalVisible && !scrollLocked
      ensures !onBackdrop ==> pendingAction == old(pendingAction) && modalVisible == old(modalVisible)
    {
      if onBackdrop {
        HideModal();
      }
    }

    /** Escape closes an open dialog; any other key, or Escape with no dialog, changes nothing. */
    method KeyDown(key: string)
      requires Valid()
      modifies this`pendingAction, this`modalVisible, this`scrollLocked
      ensures Valid()
      ensures key == "Escape" ==> pendingAction.None? && !modalVisible && !scrollLocked
      ensures key != "Escape" ==> pendingAction == old(pendingAction) && modalVisible == old(modalVisible)
    {
      if key == "Escape" && modalVisible {
        HideModal();
      }
    }

    // -------------------------------------------------------------------------
    // Form

    /**
     * Validates the trimmed fields; on a failure only a warning is returned,
     * otherwise the dialog asks to confirm an update (edit mode) or a
     * creation of the trimmed draft.
     */
    method HandleFormSubmit() returns (notice: Option<Notice>)
      requires Valid()
      modifies this`pendingAction, this`modalVisible, this`scrollLocked, this`confirmClass, this`confirmLabel
      ensures Valid()
      ensures var v := Validate(old(nameField), old(emailField), old(departmentField));
        && (v == MissingField ==> notice == Some(Notice(Warning, "Validation Error")))
        && (v == InvalidEmail ==> notice == Some(Notice(Warning, "Invalid Email")))
        && (!v.Accepted? ==>
              && pendingAction == old(pendingAction) && modalVisible == old(modalVisible)
              && confirmClass == old(confirmClass) && confirmLabel == old(confirmLabel))
        && (v.Accepted? ==>
              && notice.None? && modalVisible && confirmClass == PrimaryClass && confirmLabel == "Confirm"
              && pendingAction == Some(if isEditMode then Update(v.draft) else Create(v.draft)))
    {
      notice := Dispatch(Validate(nameField, emailField, departmentField));
    }

    /** The submit handler's reaction to a verdict: a warning, or a request for confirmation. */
    method Dispatch(v: Verdict) returns (notice: Option<Notice>)
      requires Valid()
      modifies this`pendingAction, this`modalVisible, this`scrollLocked, this`confirmClass, this`confirmLabel
      ensures Valid()
      ensures v == MissingField ==> notice == Some(Notice(Warning, "Validation Error"))
      ensures v == InvalidEmail ==> notice == Some(Notice(Warning, "Invalid Email"))
      ensures !v.Accepted? ==>
        && pendingAction == old(pendingAction) && modalVisible == old(modalVisible)
        && confirmClass == old(confirmClass) && confirmLabel == old(confirmLabel)
      ensures v.Accepted? ==>
        && notice.None? && modalVisible && confirmClass == PrimaryClass && confirmLabel == "Confirm"
        && pendingAction == Some(if isEditMode then Update(v.draft) else Create(v.draft))
    {
      match v
      case MissingField =>
        notice := Some(Notice(Warning, "Validation Error"));
      case InvalidEmail =>
        notice := Some(Notice(Warning, "Invalid Email"));
      case Accepted(d) =>
        if isEditMode {
          ShowModal(Update(d), false);
        } else {
          ShowModal(Create(d), false);
        }
        notice := None;
    }

    /** Returns to create mode with an empty form. */
    method ResetForm()
      requires Valid()
      modifies this`idField, this`nameField, this`emailField, this`departmentField, this`isEditMode, this`cancelVisible
      ensures Valid()
      ensures idField == "" && nameField == "" && emailField == "" && departmentField == ""
      ensures !isEditMode && !cancelVisible
    {
      nameField, emailField, departmentField := "", "", "";
      idField := "";
      isEditMode := false;
      cancelVisible := false;
    }

    /**
     * The fetch for editing has completed: a fetched record fills all four
     * fields and enters edit mode; a failed fetch changes nothing.
     */
    method EditStudentLoaded(fetched: Option<StudentData>) returns (notice: Notice)
      requires Valid()
      modifies this`idField, this`nameField, this`emailField, this`departmentField, this`isEditMode, this`cancelVisible
      ensures Valid()
      ensures fetched.Some? ==>
        var s := fetched.value;
        && isEditMode && cancelVisible && notice == Notice(Info, "Edit Mode")
        && idField == IdFieldValue(s.id) && nameField == CellText(s.name)
        && emailField == CellText(s.email) && departmentField == CellText(s.department)
      ensures fetched.Some? && fetched.value.id.Some? ==> idField != ""
      ensures fetched.None? ==>
        && notice == Notice(Error, "Error") && isEditMode == old(isEditMode)
        && idField == old(idField) && nameField == old(nameField)
        && emailField == old(emailField) && departmentField == old(departmentField)
    {
      match fetched
      case Some(s) =>
        idField := IdFieldValue(s.id);
        nameField := CellText(s.name);
        emailField := CellText(s.email);
        departmentField := CellText(s.department);
        isEditMode := true;
        cancelVisible := true;
        notice := Notice(Info, "Edit Mode");
      case None =>
        notice := Notice(Error, "Error");
    }

    /** A row's delete trigger: asks, in danger style, to confirm deleting that row's record. */
    method ConfirmDeleteStudent(id: string, name: string)
      requires Valid()
      modifies this`pendingAction, this`modalVisible, this`scrollLocked, this`confirmClass, this`confirmLabel
      ensures Valid()
      ensures pendingAction == Some(Delete(id, name)) && modalVisible
      ensures confirmClass == DangerClass && confirmLabel == "Delete"
    {
      ShowModal(Delete(id, name), true);
    }

    /**
     * A confirmed action's request has completed.  A successful create or
     * update resets the form; every success issues the list fetch again.
     */
    method ActionCompleted(c: Command, succeeded: bool) returns (notice: Notice, reload: Option<Request>)
      requires Valid()
      modifies this`idField, this`nameField, this`emailField, this`departmentField, this`isEditMode, this`cancelVisible
      ensures Valid()
      ensures reload == (if succeeded then Some(LoadRequest) else None)
      ensures !succeeded ==> notice == Notice(Error, "Error")
      ensures !(succeeded && !c.Delete?) ==>
        && isEditMode == old(isEditMode) && idField == old(idField) && nameField == old(nameField)
        && emailField == old(emailField) && departmentField == old(departmentField)
      ensures succeeded && !c.Delete? ==>
        && !isEditMode && idField == "" && nameField == "" && emailField == "" && departmentField == ""
        && notice == Notice(Success, if c.Create? then "Student Added" else "Student Updated")
      ensures succeeded && c.Delete? ==> notice == Notice(Success, "Student Deleted")
    {
      if !succeeded {
        return Notice(Error, "Error"), None;
      }
      reload := Some(LoadRequest);
      match c
      case Create(_) =>
        notice := Notice(Success, "Student Added");
        ResetForm();
      case Update(_) =>
        notice := Notice(Success, "Student Updated");
        ResetForm();
      case Delete(_, _) =>
        notice := Notice(Success, "Student Deleted");
    }

    // -------------------------------------------------------------------------
    // Table

    method ToggleTableVisibility(hasData: bool)
      modifies this`tableVisible, this`emptyStateVisible
      ensures OneOfTableOrEmpty()
      ensures tableVisible == hasData
    {
      if hasData {
        tableVisible := true;
        emptyStateVisible := false;
      } else {
        tableVisible := false;
        emptyStateVisible := true;
      }
    }

    /** Replaces the rows with one row per record, in the order received. */
    method RenderStudents(students: seq<StudentData>)
      modifies this`rows
      ensures |rows| == |students|
      ensures forall i :: 0 <= i < |students| ==> rows[i] == RowOf(students[i])
    {
      rows := [];
      var i := 0;
      while i < |students|
        invariant 0 <= i <= |students| && |rows| == i
        invariant forall k :: 0 <= k < i ==> rows[k] == RowOf(students[k])
      {
        rows := rows + [RowOf(students[i])];
        i := i + 1;
      }
    }

    /**
     * The list fetch has completed.  A fetched list replaces the rows and the
     * count and shows the table iff the list is non-empty; a failure shows
     * the empty state and leaves the rows and the count as they were.
     */
    method LoadStudentsCompleted(fetched: Option<seq<StudentData>>) returns (notice: Option<Notice>)
      modifies this`rows, this`shownCount, this`tableVisible, this`emptyStateVisible
      ensures OneOfTableOrEmpty()
      ensures fetched.Some? ==>
        && |rows| == |fetched.value| && shownCount == |fetched.value|
        && (forall i :: 0 <= i < |rows| ==> rows[i] == RowOf(fetched.value[i]))
        && tableVisible == (|fetched.value| > 0) && notice.None?
      ensures fetched.None? ==>
        && rows == old(rows) && shownCount == old(shownCount)
        && !tableVisible && emptyStateVisible && notice == Some(Notice(Error, "Error"))
    {
      match fetched
      case Some(students) =>
        RenderStudents(students);
        shownCount := |students|;
        ToggleTableVisibility(|students| > 0);
        notice := None;
      case None =>
        notice := Some(Notice(Error, "Error"));
        ToggleTableVisibility(false);
    }
  }
}
