/** The business rules of the student service, over the repository. */
module Service {
  import opened Wrappers
  import opened Entity
  import opened Store

  class StudentService {
    const repository: Repository

    constructor (repository: Repository)
      ensures this.repository == repository
    {
      this.repository := repository;
    }

    /** Every stored record, and nothing changes. */
    method GetAllStudents() returns (all: seq<StudentData>)
      requires repository.Valid()
      ensures repository.ListsAll(all)
    {
      all := repository.FindAll();
    }

    /** The stored record when the id is present, empty otherwise. */
    method GetStudentById(id: int) returns (found: Option<Student>)
      ensures found.Some? <==> id in repository.rows
      ensures found.Some? ==> fresh(found.value) && found.value.Data() == repository.rows[id]
    {
      found := repository.FindById(id);
    }

    /** Saves the new student; the same entity comes back carrying its generated id. */
    method CreateStudent(student: Student) returns (saved: Student)
      requires repository.Valid() && student.id.None?
      modifies repository`rows, repository`nextId, student`id
      ensures repository.Valid() && saved == student
      ensures saved.id == Some(old(repository.nextId)) && old(repository.nextId) !in old(repository.rows)
      ensures saved.Data() == old(student.Data()).(id := saved.id)
      ensures repository.rows == old(repository.rows)[saved.id.value := saved.Data()]
    {
      saved := repository.Save(student);
    }

    /**
     * Copies name, email and department from the incoming body onto the stored
     * entity, keeping its id, and saves it; a missing id changes nothing.
     */
    method UpdateStudent(id: int, student: Student) returns (updated: Option<Student>)
      requires repository.Valid()
      modifies repository`rows, repository`nextId
      ensures repository.Valid() && repository.nextId == old(repository.nextId)
      ensures updated.Some? <==> id in old(repository.rows)
      ensures updated.None? ==> repository.rows == old(repository.rows)
      ensures updated.Some? ==>
        && fresh(updated.value)
        && updated.value.Data() == StudentData(Some(id), student.name, student.email, student.department)
        && repository.rows == old(repository.rows)[id := updated.value.Data()]
    {
      var existing := repository.FindById(id);
      match existing
      case None =>
        updated := None;
      case Some(e) =>
        e.SetName(student.GetName());
        e.SetEmail(student.GetEmail());
        e.SetDepartment(student.GetDepartment());
        var saved := repository.Save(e);
        updated := Some(saved);
    }

    /** Deletes when present; reports whether the id existed. */
    method DeleteStudent(id: int) returns (deleted: bool)
      requires repository.Valid()
      modifies repository`rows
      ensures repository.Valid()
      ensures deleted == (id in old(repository.rows))
      ensures id !in repository.rows
      ensures repository.rows == old(repository.rows) - {id}
    {
      if repository.ExistsById(id) {
        repository.DeleteById(id);
        return true;
      }
      return false;
    }
  }
}
