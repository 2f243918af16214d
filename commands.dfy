/**
 * The actions that wait for confirmation, as tagged commands, and the HTTP
 * request each one issues when it is invoked.
 */
module Commands {
  import opened Wrappers
  import opened Validation

  const ApiUrl := "/students"

  /**
   * A pending action.  An update carries only the draft: the id it targets is
   * read from the form's id field when the action runs.
   */
  datatype Command = Create(draft: Draft) | Update(draft: Draft) | Delete(id: string, name: string)

  datatype Verb = GET | POST | PUT | DELETE

  datatype Request = Request(verb: Verb, path: string, body: Option<Draft>)

  /** The request a command issues, given the id field's value at that moment. */
  function Invoke(c: Command, idField: string): (r: Request)
    ensures r.verb == POST <==> c.Create?
    ensures r.verb == PUT <==> c.Update?
    ensures r.verb == DELETE <==> c.Delete?
    ensures r.body == (if c.Delete? then None else Some(c.draft))
    ensures c.Create? ==> r.path == ApiUrl
    ensures !c.Create? ==> r.path == ApiUrl + "/" + (if c.Update? then idField else c.id)
  {
    match c
    case Create(d) => Request(POST, ApiUrl, Some(d))
    case Update(d) => Request(PUT, ApiUrl + "/" + idField, Some(d))
    case Delete(id, _) => Request(DELETE, ApiUrl + "/" + id, None)
  }

  /** Only an update reads the id field, and the path it targets ends with that field. */
  lemma OnlyUpdateReadsIdField(c: Command, f1: string, f2: string)
    ensures !c.Update? ==> Invoke(c, f1) == Invoke(c, f2)
    ensures c.Update? ==> (Invoke(c, f1) == Invoke(c, f2) <==> f1 == f2)
  {
    if c.Update? && Invoke(c, f1) == Invoke(c, f2) {
      var p1, p2 := Invoke(c, f1).path, Invoke(c, f2).path;
      assert f1 == p1[|ApiUrl| + 1..] && f2 == p2[|ApiUrl| + 1..];
    }
  }

  /** GET /students, the list fetch that (re)loads the table. */
  const LoadRequest := Request(GET, ApiUrl, None)

  /** GET /students/{id}, issued by a row's edit trigger: it reads the resource a delete of that id removes. */
  function FetchOneRequest(id: string): (r: Request)
    ensures r.verb == GET && r.body.None?
    ensures forall name :: r.path == Invoke(Delete(id, name), "").path
  {
    Request(GET, ApiUrl + "/" + id, None)
  }

  datatype Severity = Info | Success | Warning | Error

  /** A notification, by severity and title. */
  datatype Notice = Notice(severity: Severity, title: string)
}
