/**
 * The student management system: a registry of students kept in a list in
 * insertion order, with unique ids, and the checks applied to what the user
 * types in. Console messages and prompts are not modelled; each operation
 * returns which outcome it reports.
 */
module Sms {
  import opened Wrappers
  import opened PyStr

  datatype Student = Student(studentId: int, name: string, age: int, grade: string)

  predicate HasId(students: seq<Student>, id: int) {
    exists j | 0 <= j < |students| :: students[j].studentId == id
  }

  predicate DistinctIds(students: seq<Student>) {
    forall i, j | 0 <= i < j < |students| :: students[i].studentId != students[j].studentId
  }

  /** The position of the first student with `id`, or the length when there is none. */
  function IndexOfId(students: seq<Student>, id: int): (k: nat)
    ensures k <= |students|
    ensures forall j | 0 <= j < k :: students[j].studentId != id
    ensures k < |students| ==> students[k].studentId == id
  {
    if students == [] then 0
    else if students[0].studentId == id then 0
    else 1 + IndexOfId(students[1..], id)
  }

  /** The list after `add_student`: unchanged when the id is taken, else the student at the end. */
  function Added(students: seq<Student>, s: Student): seq<Student> {
    if HasId(students, s.studentId) then students else students + [s]
  }

  /** The list after `remove_student`: the first student with the id taken out. */
  function Removed(students: seq<Student>, id: int): seq<Student> {
    var k := IndexOfId(students, id);
    if k < |students| then students[..k] + students[k + 1..] else students
  }

  class StudentManagementSystem {
    var students: seq<Student>

    predicate Valid()
      reads this
    {
      DistinctIds(students)
    }

    constructor ()
      ensures students == [] && Valid()
    {
      students := [];
    }

    /** `add_student`; `added` tells whether it reports success or a duplicate id. */
    method AddStudent(student: Student) returns (added: bool)
      requires Valid()
      modifies this
      ensures Valid()
      ensures added <==> !HasId(old(students), student.studentId)
      ensures students == Added(old(students), student)
    {
      var i := 0;
      while i < |students|
        invariant 0 <= i <= |students|
        invariant forall j | 0 <= j < i :: students[j].studentId != student.studentId
      {
        if students[i].studentId == student.studentId {
          return false;
        }
        i := i + 1;
      }
      AddedKeepsIdsDistinct(students, student);
      students := students + [student];
      added := true;
    }

    /** `remove_student`: the student taken out, or None for "Student not found.". */
    method RemoveStudent(id: int) returns (removed: Option<Student>)
      requires Valid()
      modifies this
      ensures Valid()
      ensures removed.Some? <==> HasId(old(students), id)
      ensures removed.Some? ==> removed.value == old(students)[IndexOfId(old(students), id)]
      ensures students == Removed(old(students), id)
    {
      var i := 0;
      while i < |students|
        invariant 0 <= i <= |students|
        invariant forall j | 0 <= j < i :: students[j].studentId != id
      {
        if students[i].studentId == id {
          removed := Some(students[i]);
          RemovedKeepsIdsDistinct(students, id);
          students := students[..i] + students[i + 1..];
          return;
        }
        i := i + 1;
      }
      removed := None;
    }

    /** `search_student`: the student with the id, or None for "Student not found.". */
    method SearchStudent(id: int) returns (found: Option<Student>)
      ensures found.Some? <==> HasId(students, id)
      ensures found.Some? ==> found.value in students && found.value.studentId == id
    {
      for i := 0 to |students|
        invariant forall j | 0 <= j < i :: students[j].studentId != id
      {
        if students[i].studentId == id {
          return Some(students[i]);
        }
      }
      return None;
    }
  }

  /** Adding keeps the ids pairwise distinct. */
  lemma AddedKeepsIdsDistinct(students: seq<Student>, s: Student)
    requires DistinctIds(students)
    ensures DistinctIds(Added(students, s))
  {
  }

  /** Removing keeps the ids pairwise distinct. */
  lemma RemovedKeepsIdsDistinct(students: seq<Student>, id: int)
    requires DistinctIds(students)
    ensures DistinctIds(Removed(students, id))
  {
    var k := IndexOfId(students, id);
    if k < |students| {
      var r := Removed(students, id);
      forall i, j | 0 <= i < j < |r| ensures r[i].studentId != r[j].studentId {
        var i' := if i < k then i else i + 1;
        var j' := if j < k then j else j + 1;
        assert r[i] == students[i'] && r[j] == students[j'];
      }
    }
  }

  /**
   * With distinct ids, removing takes out exactly the student with that id:
   * it is gone, and every other student stays, in the same order.
   */
  lemma RemovedSpec(students: seq<Student>, id: int)
    requires DistinctIds(students)
    ensures !HasId(Removed(students, id), id)
    ensures |Removed(students, id)| == |students| - (if HasId(students, id) then 1 else 0)
    ensures forall s | s in students && s.studentId != id :: s in Removed(students, id)
  {
    var k := IndexOfId(students, id);
    var r := Removed(students, id);
    if k < |students| {
      forall j | 0 <= j < |r| ensures r[j].studentId != id {
        var j' := if j < k then j else j + 1;
        assert r[j] == students[j'];
      }
      forall s | s in students && s.studentId != id ensures s in r {
        var j :| 0 <= j < |students| && students[j] == s;
        if j < k {
          assert r[j] == s;
        } else {
          assert j != k;
          assert r[j - 1] == s;
        }
      }
    }
  }

  /** Adding a new student and removing that id gives back the list. */
  lemma AddThenRemove(students: seq<Student>, s: Student)
    requires !HasId(students, s.studentId)
    ensures Removed(Added(students, s), s.studentId) == students
  {
    var l := students + [s];
    assert IndexOfId(l, s.studentId) == |students| by {
      assert l[|students|] == s;
      assert forall j | 0 <= j < |students| :: l[j] == students[j];
    }
    assert l[..|students|] == students;
  }

  /** A student just added, or already listed under its id, is found by `search_student`. */
  lemma SearchMatchesAdd(students: seq<Student>, s: Student)
    ensures HasId(Added(students, s), s.studentId)
  {
    if !HasId(students, s.studentId) {
      assert Added(students, s)[|students|] == s;
    }
  }

  // ---------------------------------------------------------------------
  // Input checks

  /** `get_valid_id`'s test on one line: an integer above zero. */
  function AcceptedId(line: string): (r: Option<int>)
    ensures r.Some? <==> ParseInt(line).Some? && ParseInt(line).value > 0
    ensures r.Some? ==> r == ParseInt(line)
  {
    match ParseInt(line)
    case Some(n) => if n > 0 then Some(n) else None
    case None => None
  }

  const MinAge: int := 1
  const MaxAge: int := 120

  /** `get_valid_age`'s test on one line: an integer from 1 to 120. */
  function AcceptedAge(line: string): (r: Option<int>)
    ensures r.Some? <==> ParseInt(line).Some? && MinAge <= ParseInt(line).value <= MaxAge
    ensures r.Some? ==> r == ParseInt(line)
  {
    match ParseInt(line)
    case Some(n) => if MinAge <= n <= MaxAge then Some(n) else None
    case None => None
  }

  const Grades: seq<string> := ["A", "B", "C", "D", "F"]

  /** `get_valid_grade`'s test on one line: after stripping and upper-casing, one of A, B, C, D, F. */
  function AcceptedGrade(line: string): (r: Option<string>)
    ensures r.Some? <==> Upper(Strip(line)) in Grades
    ensures r.Some? ==> r.value == Upper(Strip(line)) && r.value in Grades
  {
    var g := Upper(Strip(line));
    if g in Grades then Some(g) else None
  }

  /** Two instances of the grade check: a lower-case grade with surrounding blanks is accepted upper-cased, and a letter outside the list is refused. */
  lemma GradeIgnoresCase()
    ensures AcceptedGrade(" b ") == Some("B")
    ensures AcceptedGrade("E") == None
  {
    assert Strip(" b ") == "b" by {
      assert LStrip(" b ") == "b ";
      assert RStrip("b ") == "b";
    }
    assert Upper("b") == "B";
    assert Upper(Strip("E")) == "E" by {
      StripNoSpaceEnds("E");
    }
  }

  /**
   * The input loops: the first line a check accepts, with its position; every
   * line before it is refused. None when no line is accepted.
   */
  method FirstAccepted<T>(lines: seq<string>, accept: string -> Option<T>) returns (r: Option<(nat, T)>)
    ensures r.Some? ==> r.value.0 < |lines| && accept(lines[r.value.0]) == Some(r.value.1)
    ensures r.Some? ==> forall j | 0 <= j < r.value.0 :: accept(lines[j]).None?
    ensures r.None? ==> forall j | 0 <= j < |lines| :: accept(lines[j]).None?
  {
    for i := 0 to |lines|
      invariant forall j | 0 <= j < i :: accept(lines[j]).None?
    {
      var v := accept(lines[i]);
      if v.Some? {
        return Some((i, v.value));
      }
    }
    return None;
  }

  /** Menu option 1's record: refused ("Name cannot be empty.") when the stripped name is empty. */
  function NewStudent(id: int, nameLine: string, age: int, grade: string): (r: Option<Student>)
    ensures r.Some? <==> !IsBlank(nameLine)
    ensures r.Some? ==> r.value == Student(id, Strip(nameLine), age, grade) && r.value.name != ""
  {
    StripEmptyIff(nameLine);
    var name := Strip(nameLine);
    if name == "" then None else Some(Student(id, name, age, grade))
  }
}
