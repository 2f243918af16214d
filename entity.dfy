/**
 * The Student record: an entity with a nullable integer id and three nullable
 * text fields, updated in place by setters, and its fixed toString format.
 */
module Entity {
  import opened Wrappers
  import opened Decimal
  import opened Strings

  /** The values of a Student's four fields; None stands for Java's null. */
  datatype StudentData = StudentData(
    id: Option<int>,
    name: Option<string>,
    email: Option<string>,
    department: Option<string>)

  class Student {
    var id: Option<int>
    var name: Option<string>
    var email: Option<string>
    var department: Option<string>

    /** The no-argument constructor: every field stays null. */
    constructor ()
      ensures Data() == StudentData(None, None, None, None)
    {
      id, name, email, department := None, None, None, None;
    }

    /** Name, email and department are stored; the id stays null. */
    constructor Of(name: Option<string>, email: Option<string>, department: Option<string>)
      ensures Data() == StudentData(None, name, email, department)
    {
      this.id := None;
      this.name := name;
      this.email := email;
      this.department := department;
    }

    /** All four values are stored unchanged. */
    constructor WithId(id: Option<int>, name: Option<string>, email: Option<string>, department: Option<string>)
      ensures Data() == StudentData(id, name, email, department)
    {
      this.id := id;
      this.name := name;
      this.email := email;
      this.department := department;
    }

    /** The current field values. */
    function Data(): StudentData
      reads this
    {
      StudentData(id, name, email, department)
    }

    /** Each getter reads one component of the record the fields hold. */
    function GetId(): (r: Option<int>)
      reads this
      ensures r == Data().id
    {
      id
    }

    function GetName(): (r: Option<string>)
      reads this
      ensures r == Data().name
    {
      name
    }

    function GetEmail(): (r: Option<string>)
      reads this
      ensures r == Data().email
    {
      email
    }

    function GetDepartment(): (r: Option<string>)
      reads this
      ensures r == Data().department
    {
      department
    }

    method SetId(id: Option<int>)
      modifies this`id
      ensures GetId() == id
      ensures Data() == old(Data()).(id := id)
    {
      this.id := id;
    }

    method SetName(name: Option<string>)
      modifies this`name
      ensures GetName() == name
      ensures Data() == old(Data()).(name := name)
    {
      this.name := name;
    }

    method SetEmail(email: Option<string>)
      modifies this`email
      ensures GetEmail() == email
      ensures Data() == old(Data()).(email := email)
    {
      this.email := email;
    }

    method SetDepartment(department: Option<string>)
      modifies this`department
      ensures GetDepartment() == department
      ensures Data() == old(Data()).(department := department)
    {
      this.department := department;
    }

    /** The description, which reads back to the fields whenever the format is unambiguous. */
    function ToString(): (r: string)
      reads this
      ensures "Student{id=" <= r
      ensures Unambiguous(Data()) ==> ParseDescription(r) == Some(Data())
    {
      var d := Data();
      if Unambiguous(d) then DescribeRoundTrip(d); Describe(d) else Describe(d)
    }
  }

  /** Java's string conversion of a nullable Integer. */
  function IdText(id: Option<int>): string {
    match id
    case None => "null"
    case Some(n) => DecimalText(n)
  }

  /** Java's string conversion of a nullable String. */
  function FieldText(f: Option<string>): string {
    f.GetOr("null")
  }

  /** Student{id=<id>, name='<name>', email='<email>', department='<department>'} */
  function Describe(s: StudentData): (r: string)
    ensures "Student{id=" <= r
    ensures |r| >= 46 + |IdText(s.id)| && r[|r| - 2..] == "'}"
    ensures r[11..11 + |IdText(s.id)|] == IdText(s.id)
  {
    "Student{id=" + (IdText(s.id) + (", name='" + (FieldText(s.name)
      + ("', email='" + (FieldText(s.email) + ("', department='" + (FieldText(s.department) + "'}")))))))
  }

  // ---------------------------------------------------------------------------
  // Reading a description back: the partner of Describe.

  function ParseId(t: string): Option<Option<int>> {
    if t == "null" then Some(None)
    else match ParseDecimal(t)
      case Some(n) => Some(Some(n))
      case None => None
  }

  /** After the literal opener, the text up to the next single quote, and the rest from that quote. */
  function Quoted(s: string, opener: string): Option<(string, string)> {
    var r :- Expect(s, opener);
    TakeTo(r, '\'')
  }

  /** Reads a text in the toString format back into field values. */
  function ParseDescription(t: string): Option<StudentData> {
    var r1 :- Expect(t, "Student{id=");
    var (idText, r2) :- TakeTo(r1, ',');
    var id :- ParseId(idText);
    var (name, r4) :- Quoted(r2, ", name='");
    var (email, r6) :- Quoted(r4, "', email='");
    var (department, r8) :- Quoted(r6, "', department='");
    if r8 == "'}" then Some(StudentData(id, Some(name), Some(email), Some(department))) else None
  }

  lemma QuotedConcat(opener: string, v: string, rest: string)
    requires '\'' !in v && |rest| > 0 && rest[0] == '\''
    ensures Quoted(opener + (v + rest), opener) == Some((v, rest))
  {
    var s := opener + (v + rest);
    assert s[|opener|..] == v + rest;
    assert Expect(s, opener) == Some(v + rest);
    TakeToConcat(v, rest, '\'');
  }

  /** The decimal text of an id holds no comma, and reads back as the id. */
  lemma IdTextReads(id: Option<int>)
    ensures ',' !in IdText(id)
    ensures ParseId(IdText(id)) == Some(id)
  {
    match id
    case None =>
    case Some(n) =>
      DecimalRoundTrip(n);
  }

  /** The text fields are set and hold no single quote, so each quoted field ends at the next quote. */
  predicate Unambiguous(s: StudentData) {
    && s.name.Some? && s.email.Some? && s.department.Some?
    && '\'' !in s.name.value && '\'' !in s.email.value && '\'' !in s.department.value
  }

  /**
   * toString is read back exactly, for records whose text fields are set and
   * hold no single quote (a quote inside a field makes the format ambiguous).
   */
  lemma DescribeRoundTrip(s: StudentData)
    requires Unambiguous(s)
    ensures ParseDescription(Describe(s)) == Some(s)
  {
    var idText, name, email, department := IdText(s.id), s.name.value, s.email.value, s.department.value;
    var r8 := "'}";
    var r6 := "', department='" + (department + r8);
    var r4 := "', email='" + (email + r6);
    var r2 := ", name='" + (name + r4);
    var r1 := idText + r2;
    var t := Describe(s);
    assert t[11..] == r1;
    assert Expect(t, "Student{id=") == Some(r1);
    IdTextReads(s.id);
    TakeToConcat(idText, r2, ',');
    QuotedConcat(", name='", name, r4);
    QuotedConcat("', email='", email, r6);
    QuotedConcat("', department='", department, r8);
  }
}
