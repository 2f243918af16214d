/**
 * The REST controller at /students: each handler calls the service and turns
 * its result into a status and a body.
 */
module Controller {
  import opened Wrappers
  import opened Decimal
  import opened Entity
  import opened Store
  import opened Service

  const ApiUrl := "/students"

  datatype Status = Ok | Created | NoContent | NotFound

  function StatusCode(s: Status): int {
    match s
    case Ok => 200
    case Created => 201
    case NoContent => 204
    case NotFound => 404
  }

  /** A status in the 2xx range: what a browser reports as `response.ok`. */
  predicate IsSuccess(code: int) {
    200 <= code <= 299
  }

  datatype Body = NoBody | One(student: StudentData) | Many(students: seq<StudentData>)

  datatype Response = Response(status: Status, body: Body)

  /** POST: always 201 with the created student. */
  function CreatedResponse(created: StudentData): (r: Response)
    ensures StatusCode(r.status) == 201 && r.body == One(created)
  {
    Response(Created, One(created))
  }

  /** GET on the collection: always 200 with the whole list. */
  function ListResponse(all: seq<StudentData>): (r: Response)
    ensures StatusCode(r.status) == 200 && r.body == Many(all)
  {
    Response(Ok, Many(all))
  }

  /** GET by id and PUT: 200 with the record when there is one, 404 with no body otherwise. */
  function FoundResponse(found: Option<StudentData>): (r: Response)
    ensures StatusCode(r.status) == 200 <==> found.Some?
    ensures StatusCode(r.status) == 404 <==> found.None?
    ensures found.Some? ==> r.body == One(found.value)
    ensures found.None? ==> r.body == NoBody
  {
    match found
    case Some(s) => Response(Ok, One(s))
    case None => Response(NotFound, NoBody)
  }

  /** DELETE: 204 when the service deleted, 404 otherwise; never a body. */
  function DeletedResponse(deleted: bool): (r: Response)
    ensures StatusCode(r.status) == 204 <==> deleted
    ensures StatusCode(r.status) == 404 <==> !deleted
    ensures r.body == NoBody
  {
    if deleted then Response(NoContent, NoBody) else Response(NotFound, NoBody)
  }

  /** The id in a path /students/{id}, read as an integer. */
  function RouteId(path: string): (r: Option<int>)
    ensures r.Some? ==> path == ApiUrl + "/" + DecimalText(r.value)
  {
    if ApiUrl + "/" <= path then
      var t := path[|ApiUrl| + 1..];
      match ParseDecimal(t)
      case Some(n) => ParseDecimalIff(t, n); Some(n)
      case None => None
    else None
  }

  /** The path built from an id's decimal text routes back to that id. */
  lemma RouteRoundTrip(n: int)
    ensures RouteId(ApiUrl + "/" + DecimalText(n)) == Some(n)
  {
    var path := ApiUrl + "/" + DecimalText(n);
    assert path[|ApiUrl| + 1..] == DecimalText(n);
    DecimalRoundTrip(n);
  }

  /** A client that tests `response.ok` sees success exactly when the service found or did what was asked. */
  lemma SuccessMeansFound(created: StudentData, all: seq<StudentData>, found: Option<StudentData>, deleted: bool)
    ensures IsSuccess(StatusCode(CreatedResponse(created).status))
    ensures IsSuccess(StatusCode(ListResponse(all).status))
    ensures IsSuccess(StatusCode(FoundResponse(found).status)) <==> found.Some?
    ensures IsSuccess(StatusCode(DeletedResponse(deleted).status)) <==> deleted
  {
  }

  class StudentController {
    const service: StudentService

    constructor (service: StudentService)
      ensures this.service == service
    {
      this.service := service;
    }

    method CreateStudent(student: Student) returns (r: Response)
      requires service.repository.Valid() && student.id.None?
      modifies service.repository`rows, service.repository`nextId, student`id
      ensures service.repository.Valid()
      ensures student.id == Some(old(service.repository.nextId))
      ensures service.repository.rows == old(service.repository.rows)[student.id.value := student.Data()]
      ensures r == Response(Created, One(student.Data()))
    {
      var created := service.CreateStudent(student);
      r := CreatedResponse(created.Data());
    }

    method GetAllStudents() returns (r: Response)
      requires service.repository.Valid()
      ensures r.status == Ok && r.body.Many?
      ensures service.repository.ListsAll(r.body.students)
    {
      var all := service.GetAllStudents();
      r := ListResponse(all);
    }

    method GetStudentById(id: int) returns (r: Response)
      ensures r.status == Ok <==> id in service.repository.rows
      ensures r.status == NotFound <==> id !in service.repository.rows
      ensures r.body == (if id in service.repository.rows then One(service.repository.rows[id]) else NoBody)
    {
      var found := service.GetStudentById(id);
      r := FoundResponse(if found.Some? then Some(found.value.Data()) else None);
    }

    method UpdateStudent(id: int, student: Student) returns (r: Response)
      requires service.repository.Valid()
      modifies service.repository`rows, service.repository`nextId
      ensures service.repository.Valid()
      ensures r.status == Ok <==> id in old(service.repository.rows)
      ensures r.status == NotFound <==> id !in old(service.repository.rows)
      ensures service.repository.nextId == old(service.repository.nextId)
      ensures r.status == NotFound ==> r.body == NoBody && service.repository.rows == old(service.repository.rows)
      ensures r.status == Ok ==>
        var stored := StudentData(Some(id), student.name, student.email, student.department);
        r.body == One(stored) && service.repository.rows == old(service.repository.rows)[id := stored]
    {
      var updated := service.UpdateStudent(id, student);
      r := FoundResponse(if updated.Some? then Some(updated.value.Data()) else None);
    }

    method DeleteStudent(id: int) returns (r: Response)
      requires service.repository.Valid()
      modifies service.repository`rows
      ensures service.repository.Valid()
      ensures r.status == NoContent <==> id in old(service.repository.rows)
      ensures r.status == NotFound <==> id !in old(service.repository.rows)
      ensures r.body == NoBody
      ensures service.repository.rows == old(service.repository.rows) - {id}
    {
      var deleted := service.DeleteStudent(id);
      r := DeletedResponse(deleted);
    }
  }
}
