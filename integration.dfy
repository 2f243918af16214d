/**
 * How the page's requests meet the controller's routes: the paths the page
 * builds from a record's id resolve to that id on the server.
 */
module Integration {
  import opened Wrappers
  import opened Decimal
  import opened Entity
  import opened Validation
  import Commands
  import Controller
  import Page

  /** An update confirmed after loading record n for editing targets record n. */
  lemma EditedUpdateTargetsLoadedRecord(n: int, d: Draft)
    ensures Controller.RouteId(Commands.Invoke(Commands.Update(d), Page.IdFieldValue(Some(n))).path) == Some(n)
  {
    Controller.RouteRoundTrip(n);
  }

  /** A row's edit and delete triggers both target that row's record. */
  lemma RowTriggersTargetRecord(s: StudentData, n: int, idField: string)
    requires s.id == Some(n)
    ensures Controller.RouteId(Commands.FetchOneRequest(Page.RowOf(s).editId).path) == Some(n)
    ensures var row := Page.RowOf(s);
      Controller.RouteId(Commands.Invoke(Commands.Delete(row.deleteId, row.deleteName), idField).path) == Some(n)
  {
    Controller.RouteRoundTrip(n);
  }

  /** A record without an id renders triggers whose path names no id at all. */
  lemma RowWithoutIdTargetsNothing(s: StudentData, idField: string)
    requires s.id.None?
    ensures Controller.RouteId(Commands.FetchOneRequest(Page.RowOf(s).editId).path).None?
    ensures var row := Page.RowOf(s);
      Controller.RouteId(Commands.Invoke(Commands.Delete(row.deleteId, row.deleteName), idField).path).None?
  {
    var path := Commands.FetchOneRequest(Page.RowOf(s).editId).path;
    assert path[|Controller.ApiUrl| + 1..] == "null";
    assert !IsDigit("null"[0]);
  }
}
