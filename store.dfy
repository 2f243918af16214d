/**
 * The persistence layer the service talks to, as an abstract finite map from
 * id to stored record with an identity counter for generated ids.  Loading a
 * record materialises a fresh entity; saving writes an entity's fields back.
 */
module Store {
  import opened Wrappers
  import opened Entity

  /** True when the ids of xs increase strictly from left to right. */
  ghost predicate IdsIncreasing(xs: seq<StudentData>) {
    (forall i :: 0 <= i < |xs| ==> xs[i].id.Some?) &&
    forall i, j :: 0 <= i < j < |xs| ==> xs[i].id.value < xs[j].id.value
  }

  class Repository {
    var rows: map<int, StudentData>
    var nextId: int

    /** Every stored record carries its own key as id; generated ids are fresh. */
    ghost predicate Valid()
      reads this
    {
      nextId >= 1 &&
      forall k :: k in rows ==> 1 <= k < nextId && rows[k].id == Some(k)
    }

    /** True when xs lists exactly the stored records, in ascending id order. */
    ghost predicate ListsAll(xs: seq<StudentData>)
      reads this
    {
      IdsIncreasing(xs) &&
      (forall i :: 0 <= i < |xs| ==> xs[i].id.value in rows && rows[xs[i].id.value] == xs[i]) &&
      (forall k :: k in rows ==> rows[k] in xs)
    }

    constructor ()
      ensures Valid() && rows == map[] && nextId == 1
    {
      rows := map[];
      nextId := 1;
    }

    /** Whether a record is stored under id: in a valid store, whether some stored record carries that id. */
    function ExistsById(id: int): (r: bool)
      reads this
      ensures Valid() ==> (r <==> exists k :: k in rows && rows[k].id == Some(id))
    {
      id in rows
    }

    method FindById(id: int) returns (found: Option<Student>)
      ensures found.Some? <==> id in rows
      ensures found.Some? ==> fresh(found.value) && found.value.Data() == rows[id]
    {
      if id in rows {
        var r := rows[id];
        var s := new Student.WithId(r.id, r.name, r.email, r.department);
        found := Some(s);
      } else {
        found := None;
      }
    }

    /** A scan of the table in ascending id order. */
    method FindAll() returns (all: seq<StudentData>)
      requires Valid()
      ensures ListsAll(all)
    {
      all := [];
      for k := 1 to nextId
        invariant forall i :: 0 <= i < |all| ==> all[i].id.Some? && 1 <= all[i].id.value < k
        invariant forall i :: 0 <= i < |all| ==> all[i].id.value in rows && rows[all[i].id.value] == all[i]
        invariant forall i, j :: 0 <= i < j < |all| ==> all[i].id.value < all[j].id.value
        invariant forall j :: j in rows && j < k ==> rows[j] in all
      {
        if k in rows {
          all := all + [rows[k]];
        }
      }
    }

    /**
     * Saves an entity: one without an id is inserted under a newly generated
     * id, which is written into the entity; one whose id is stored replaces
     * that record.  Merging an entity whose id is not stored is not modelled.
     */
    method Save(s: Student) returns (saved: Student)
      requires Valid()
      requires s.id.None? || s.id.value in rows
      modifies this`rows, this`nextId, s`id
      ensures Valid() && saved == s
      ensures old(s.id).None? ==>
        && s.id == Some(old(nextId)) && old(nextId) !in old(rows)
        && rows == old(rows)[old(nextId) := s.Data()] && nextId == old(nextId) + 1
      ensures old(s.id).Some? ==>
        s.id == old(s.id) && rows == old(rows)[s.id.value := s.Data()] && nextId == old(nextId)
    {
      if s.id.None? {
        s.id := Some(nextId);
        nextId := nextId + 1;
      }
      rows := rows[s.id.value := s.Data()];
      saved := s;
    }

    method DeleteById(id: int)
      requires Valid()
      modifies this`rows
      ensures Valid()
      ensures rows == old(rows) - {id}
    {
      rows := rows - {id};
    }
  }
}
