/** Homework endpoints: a class's teacher sets homework (a problem with a due
    date) for the class; the teacher and the class's members may view it;
    only the teacher may delete it; a student lists the homework set for a
    problem in the classes they belong to; the submissions for a homework
    are the solutions linked to it.

    The tables are the Class, Membership, Problem (only titles are needed),
    Homework and Solution tables. A value `Tables` carries them for the
    read-only endpoints; the class `School` holds them and performs the
    writes. */
module Homeworks {
  import opened Common

  datatype Class = Class(name: string, teacher: UserId)
  datatype Membership = Membership(student: UserId, classId: int)
  datatype Homework = Homework(classId: int, problemId: int, dueDate: string)
  /** A solution; `homework` is the nullable link to the homework it answers. */
  datatype Solution = Solution(
    problemId: int, user: UserId, homework: Option<int>, code: string, languageId: int, percentagePassed: int)

  /** HomeworkSchema. */
  datatype HomeworkOut = HomeworkOut(id: int, classId: int, problemId: int, dueDate: string)
  /** HomeworkDetailSchema. */
  datatype HomeworkDetail = HomeworkDetail(
    id: int, classId: int, problemId: int, dueDate: string, className: string, problemTitle: string)
  /** SolutionSchema (without `created_at`). */
  datatype SolutionOut = SolutionOut(
    id: int, problemId: int, userId: UserId, code: string, languageId: int, percentagePassed: int)

  datatype Tables = Tables(
    classes: map<int, Class>,
    memberships: set<Membership>,
    problemTitles: map<int, string>,
    homeworks: map<int, Homework>,
    solutions: map<int, Solution>)
  {
    /** Every homework points at an existing class and problem (both
        foreign keys cascade on delete). */
    ghost predicate Linked() {
      forall id :: id in homeworks ==>
        homeworks[id].classId in classes && homeworks[id].problemId in problemTitles
    }

    predicate IsTeacher(classId: int, user: UserId)
      requires classId in classes
    {
      classes[classId].teacher == user
    }

    predicate IsMember(classId: int, user: UserId) {
      Membership(user, classId) in memberships
    }

    /** The permission the read endpoints check: the class's teacher or a
        member of the class. */
    predicate MayView(classId: int, user: UserId)
      requires classId in classes
    {
      IsTeacher(classId, user) || IsMember(classId, user)
    }
  }

  const AddError := "Only the teacher of the class can add homework"
  const ViewError := "You do not have permission to view this homework"
  const DeleteError := "Only the teacher of the class can delete the homework"
  const ClassViewError := "You do not have permission to view this class's homeworks"
  const UserViewError := "You do not have permission to view this user's homeworks"
  const SubmissionsViewError := "You do not have permission to view these submissions"

  function OutOf(id: int, h: Homework): HomeworkOut {
    HomeworkOut(id, h.classId, h.problemId, h.dueDate)
  }

  function DetailOf(t: Tables, id: int): HomeworkDetail
    requires t.Linked() && id in t.homeworks
  {
    var h := t.homeworks[id];
    HomeworkDetail(id, h.classId, h.problemId, h.dueDate, t.classes[h.classId].name, t.problemTitles[h.problemId])
  }

  function SolutionOutOf(id: int, s: Solution): SolutionOut {
    SolutionOut(id, s.problemId, s.user, s.code, s.languageId, s.percentagePassed)
  }

  // ---------------------------------------------------------------------
  // Read endpoints
  // ---------------------------------------------------------------------

  /** `get_homework`: 404 for an unknown homework, 400 unless the caller
      teaches or belongs to its class, else the detail. */
  function GetHomework(t: Tables, caller: UserId, id: int): (r: Reply<HomeworkDetail>)
    requires t.Linked()
    ensures r == NotFound <==> id !in t.homeworks
    ensures r.Ok? <==> id in t.homeworks && t.MayView(t.homeworks[id].classId, caller)
    ensures r.BadRequest? ==> r.error == ViewError
    ensures r.Ok? ==>
      && r.code == 200 && r.body.id == id
      && r.body.classId == t.homeworks[id].classId
      && r.body.problemId == t.homeworks[id].problemId
      && r.body.dueDate == t.homeworks[id].dueDate
      && r.body.className == t.classes[t.homeworks[id].classId].name
      && r.body.problemTitle == t.problemTitles[t.homeworks[id].problemId]
  {
    if id !in t.homeworks then NotFound
    else if !t.MayView(t.homeworks[id].classId, caller) then BadRequest(ViewError)
    else Ok(200, DetailOf(t, id))
  }

  /** The homeworks of class `classId`. */
  function ClassHomeworks(t: Tables, classId: int): (hs: set<HomeworkOut>)
    ensures forall o :: o in hs ==>
      && o.id in t.homeworks && t.homeworks[o.id].classId == classId
      && o == OutOf(o.id, t.homeworks[o.id])
    ensures forall id :: id in t.homeworks && t.homeworks[id].classId == classId ==> OutOf(id, t.homeworks[id]) in hs
  {
    set id | id in t.homeworks && t.homeworks[id].classId == classId :: OutOf(id, t.homeworks[id])
  }

  /** `get_class_homeworks`: 404 for an unknown class, 400 unless the caller
      teaches or belongs to it, else exactly the class's homeworks (the query
      has no ordering, so the list is a set). */
  function GetClassHomeworks(t: Tables, caller: UserId, classId: int): (r: Reply<set<HomeworkOut>>)
    ensures r == NotFound <==> classId !in t.classes
    ensures r.Ok? <==> classId in t.classes && t.MayView(classId, caller)
    ensures r.BadRequest? ==> r.error == ClassViewError
    ensures r.Ok? ==> r == Ok(200, ClassHomeworks(t, classId))
  {
    if classId !in t.classes then NotFound
    else if !t.MayView(classId, caller) then BadRequest(ClassViewError)
    else Ok(200, ClassHomeworks(t, classId))
  }

  /** The homeworks for `problemId` set in classes `user` is a member of,
      each once. */
  function MemberHomeworks(t: Tables, user: UserId, problemId: int): (ds: set<HomeworkDetail>)
    requires t.Linked()
    ensures forall d :: d in ds ==>
      && d.id in t.homeworks && t.homeworks[d.id].problemId == problemId
      && t.IsMember(t.homeworks[d.id].classId, user) && d == DetailOf(t, d.id)
    ensures forall id ::
      (id in t.homeworks && t.homeworks[id].problemId == problemId && t.IsMember(t.homeworks[id].classId, user))
      ==> DetailOf(t, id) in ds
  {
    set id | id in t.homeworks && t.homeworks[id].problemId == problemId
      && t.IsMember(t.homeworks[id].classId, user) :: DetailOf(t, id)
  }

  /** `get_user_homeworks_for_problem`: 400 when the caller asks about
      another user; membership, not teaching, makes a homework count. */
  function GetUserHomeworksForProblem(t: Tables, caller: UserId, userId: int, problemId: int)
    : (r: Reply<set<HomeworkDetail>>)
    requires t.Linked()
    ensures r.BadRequest? <==> caller != userId
    ensures r.BadRequest? ==> r.error == UserViewError
    ensures r.Ok? ==> r == Ok(200, MemberHomeworks(t, caller, problemId))
    ensures r != NotFound
  {
    if caller != userId then BadRequest(UserViewError)
    else Ok(200, MemberHomeworks(t, caller, problemId))
  }

  /** The solutions linked to homework `id` for its problem. */
  function Submissions(t: Tables, h: Homework, id: int): (ss: set<SolutionOut>)
    ensures forall o :: o in ss ==>
      && o.id in t.solutions
      && t.solutions[o.id].problemId == h.problemId && t.solutions[o.id].homework == Some(id)
      && o == SolutionOutOf(o.id, t.solutions[o.id])
    ensures forall s ::
      (s in t.solutions && t.solutions[s].problemId == h.problemId && t.solutions[s].homework == Some(id))
      ==> SolutionOutOf(s, t.solutions[s]) in ss
  {
    set s | s in t.solutions && t.solutions[s].problemId == h.problemId && t.solutions[s].homework == Some(id)
      :: SolutionOutOf(s, t.solutions[s])
  }

  /** `get_homework_submissions`: 404 for an unknown homework, 400 unless
      the caller teaches or belongs to its class, else its submissions. */
  function GetHomeworkSubmissions(t: Tables, caller: UserId, id: int): (r: Reply<set<SolutionOut>>)
    requires t.Linked()
    ensures r == NotFound <==> id !in t.homeworks
    ensures r.Ok? <==> id in t.homeworks && t.MayView(t.homeworks[id].classId, caller)
    ensures r.BadRequest? ==> r.error == SubmissionsViewError
    ensures r.Ok? ==> r == Ok(200, Submissions(t, t.homeworks[id], id))
  {
    if id !in t.homeworks then NotFound
    else if !t.MayView(t.homeworks[id].classId, caller) then BadRequest(SubmissionsViewError)
    else Ok(200, Submissions(t, t.homeworks[id], id))
  }

  // ---------------------------------------------------------------------
  // Writes
  // ---------------------------------------------------------------------

  /** The solutions after homework `id` is deleted: links to it are cleared
      (the foreign key is SET_NULL), nothing else changes. */
  function Unlink(solutions: map<int, Solution>, id: int): (r: map<int, Solution>)
    ensures r.Keys == solutions.Keys
    ensures forall s :: s in r ==> r[s].homework != Some(id)
    ensures forall s :: s in r && solutions[s].homework != Some(id) ==> r[s] == solutions[s]
    ensures forall s :: s in r ==> r[s] == solutions[s].(homework := r[s].homework)
  {
    map s | s in solutions :: if solutions[s].homework == Some(id) then solutions[s].(homework := None) else solutions[s]
  }

  /** The database as the endpoints see it. */
  class School {
    var tables: Tables
    var nextHomeworkId: int

    ghost predicate Valid()
      reads this
    {
      && tables.Linked()
      && 1 <= nextHomeworkId
      && forall id :: id in tables.homeworks ==> 1 <= id < nextHomeworkId
    }

    /** `create_homework`: looks up the class (404), checks the caller
        teaches it (400), looks up the problem (404), then inserts the
        homework with exactly the given class, problem and due date. */
    method CreateHomework(caller: UserId, classId: int, problemId: int, dueDate: string)
      returns (reply: Reply<HomeworkOut>)
      requires Valid()
      modifies this
      ensures Valid()
      ensures tables.classes == old(tables.classes) && tables.memberships == old(tables.memberships)
      ensures tables.problemTitles == old(tables.problemTitles) && tables.solutions == old(tables.solutions)
      ensures classId !in tables.classes ==> reply == NotFound && tables == old(tables)
      ensures classId in tables.classes && !tables.IsTeacher(classId, caller) ==>
        reply == BadRequest(AddError) && tables == old(tables)
      ensures classId in tables.classes && tables.IsTeacher(classId, caller) && problemId !in tables.problemTitles ==>
        reply == NotFound && tables == old(tables)
      ensures classId in tables.classes && tables.IsTeacher(classId, caller) && problemId in tables.problemTitles ==>
        && old(nextHomeworkId) !in old(tables.homeworks)
        && tables.homeworks == old(tables.homeworks)[old(nextHomeworkId) := Homework(classId, problemId, dueDate)]
        && reply == Ok(201, HomeworkOut(old(nextHomeworkId), classId, problemId, dueDate))
    {
      if classId !in tables.classes {
        return NotFound;
      }
      if tables.classes[classId].teacher != caller {
        return BadRequest(AddError);
      }
      if problemId !in tables.problemTitles {
        return NotFound;
      }
      var id := nextHomeworkId;
      var h := Homework(classId, problemId, dueDate);
      tables := tables.(homeworks := tables.homeworks[id := h]);
      nextHomeworkId := nextHomeworkId + 1;
      reply := Ok(201, OutOf(id, h));
    }

    /** `delete_homework`: 404 for an unknown homework, 400 unless the
        caller teaches its class; otherwise exactly that homework is removed
        and the solutions linked to it are unlinked. */
    method DeleteHomework(caller: UserId, id: int) returns (reply: Reply<()>)
      requires Valid()
      modifies this
      ensures Valid()
      ensures nextHomeworkId == old(nextHomeworkId)
      ensures tables.classes == old(tables.classes) && tables.memberships == old(tables.memberships)
      ensures tables.problemTitles == old(tables.problemTitles)
      ensures id !in old(tables.homeworks) ==> reply == NotFound && tables == old(tables)
      ensures id in old(tables.homeworks) && !old(tables).IsTeacher(old(tables.homeworks)[id].classId, caller) ==>
        reply == BadRequest(DeleteError) && tables == old(tables)
      ensures id in old(tables.homeworks) && old(tables).IsTeacher(old(tables.homeworks)[id].classId, caller) ==>
        && reply == Ok(204, ())
        && tables.homeworks == old(tables.homeworks) - {id}
        && tables.solutions == Unlink(old(tables.solutions), id)
    {
      if id !in tables.homeworks {
        return NotFound;
      }
      if tables.classes[tables.homeworks[id].classId].teacher != caller {
        return BadRequest(DeleteError);
      }
      tables := tables.(homeworks := tables.homeworks - {id}, solutions := Unlink(tables.solutions, id));
      reply := Ok(204, ());
    }
  }

  // ---------------------------------------------------------------------
  // How the endpoints relate
  // ---------------------------------------------------------------------

  /** The tables after a successful `create_homework`. */
  function Created(t: Tables, id: int, classId: int, problemId: int, dueDate: string): Tables {
    t.(homeworks := t.homeworks[id := Homework(classId, problemId, dueDate)])
  }

  /** A homework the teacher just created is visible to the teacher and to
      every member of the class with the given fields, and listed among the
      class's homeworks. */
  lemma CreatedIsVisible(t: Tables, id: int, classId: int, problemId: int, dueDate: string, viewer: UserId)
    requires t.Linked() && classId in t.classes && problemId in t.problemTitles
    requires t.MayView(classId, viewer)
    ensures Created(t, id, classId, problemId, dueDate).Linked()
    ensures GetHomework(Created(t, id, classId, problemId, dueDate), viewer, id) ==
      Ok(200, HomeworkDetail(id, classId, problemId, dueDate, t.classes[classId].name, t.problemTitles[problemId]))
    ensures HomeworkOut(id, classId, problemId, dueDate) in
      GetClassHomeworks(Created(t, id, classId, problemId, dueDate), viewer, classId).body
  {
  }

  /** The tables after a successful `delete_homework`. */
  function Deleted(t: Tables, id: int): Tables {
    t.(homeworks := t.homeworks - {id}, solutions := Unlink(t.solutions, id))
  }

  /** After deletion the homework is gone for everyone, no solution still
      points at it, and every other homework reads as before. */
  lemma DeletedIsGone(t: Tables, id: int, other: int, caller: UserId)
    requires t.Linked() && id in t.homeworks && other != id
    ensures Deleted(t, id).Linked()
    ensures GetHomework(Deleted(t, id), caller, id) == NotFound
    ensures GetHomeworkSubmissions(Deleted(t, id), caller, id) == NotFound
    ensures forall s :: s in Deleted(t, id).solutions ==> Deleted(t, id).solutions[s].homework != Some(id)
    ensures GetHomework(Deleted(t, id), caller, other) == GetHomework(t, caller, other)
  {
  }

  /** Only a member sees homework through `get_user_homeworks_for_problem`:
      a class's teacher who is not a member of it gets none of its homework. */
  lemma TeacherAloneSeesNothing(t: Tables, caller: UserId, problemId: int, id: int)
    requires t.Linked() && id in t.homeworks
    requires !t.IsMember(t.homeworks[id].classId, caller)
    ensures forall d :: d in GetUserHomeworksForProblem(t, caller, caller, problemId).body ==> d.id != id
  {
  }
}
