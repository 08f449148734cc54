/** Problems: the input validators of the create-problem schema and the
    output formatters of the problem schema, creation (always pending), the
    admin's bulk accept/reject actions, and the `post_save` receiver that
    notifies a problem's creator when the problem is saved as accepted or
    rejected. */
module Problems {
  import opened Common
  import Notifications

  // ---------------------------------------------------------------------
  // Choices and validators
  // ---------------------------------------------------------------------

  /** The model's `DIFFICULTIES` choices (value, label). */
  const Difficulties: seq<(string, string)> := [("easy", "Easy"), ("medium", "Medium"), ("hard", "Hard")]

  /** The model's `CATEGORIES` choices (value, label). */
  const Categories: seq<(string, string)> := [
    ("arrays", "Arrays"), ("linked_lists", "Linked Lists"), ("sorting", "Sorting"),
    ("searching", "Searching"), ("trees", "Trees"), ("graphs", "Graphs"),
    ("dynamic_programming", "Dynamic Programming"), ("recursion", "Recursion"),
    ("backtracking", "Backtracking"), ("bit_manipulation", "Bit Manipulation"),
    ("greedy", "Greedy"), ("math", "Math"), ("geometry", "Geometry"),
    ("combinatorics", "Combinatorics"), ("probability", "Probability"),
    ("game_theory", "Game Theory"), ("puzzles", "Puzzles"), ("miscellaneous", "Miscellaneous")]

  /** The model's `GRADES` choices (value, label). */
  const Grades: seq<(int, string)> := [(9, "9th"), (10, "10th"), (11, "11th"), (12, "12th")]

  /** The lists the validators test against. */
  const ValidDifficulties: seq<string> := ["easy", "medium", "hard"]
  const ValidGrades: seq<int> := [9, 10, 11, 12]
  const ValidCategories: seq<string> := [
    "arrays", "linked_lists", "sorting", "searching", "trees", "graphs",
    "dynamic_programming", "recursion", "backtracking", "bit_manipulation",
    "greedy", "math", "geometry", "combinatorics", "probability",
    "game_theory", "puzzles", "miscellaneous"]

  /** A validator's verdict: the value, or the text of the ValueError it raises. */
  datatype Checked<+T> = Valid(value: T) | Invalid(error: string)

  /** Python's `str()` of a list of strings: `['a', 'b']`. */
  function StrListRepr(xs: seq<string>): string {
    "[" + QuotedJoin(xs) + "]"
  }

  function QuotedJoin(xs: seq<string>): string {
    if xs == [] then ""
    else if |xs| == 1 then "'" + xs[0] + "'"
    else "'" + xs[0] + "', " + QuotedJoin(xs[1..])
  }

  /** `validate_difficulty`. */
  function ValidateDifficulty(value: string): (r: Checked<string>)
    ensures r.Valid? <==> value in ValidDifficulties
    ensures r.Valid? ==> r.value == value
    ensures r.Invalid? ==> r.error == "difficulty must be one of " + StrListRepr(ValidDifficulties)
  {
    if value !in ValidDifficulties then Invalid("difficulty must be one of " + StrListRepr(ValidDifficulties))
    else Valid(value)
  }

  /** `validate_grade`; the list prints as "[9, 10, 11, 12]". */
  function ValidateGrade(value: int): (r: Checked<int>)
    ensures r.Valid? <==> value in ValidGrades
    ensures r.Valid? ==> r.value == value
    ensures r.Invalid? ==> r.error == "grade must be one of [9, 10, 11, 12]"
  {
    if value !in ValidGrades then Invalid("grade must be one of [9, 10, 11, 12]")
    else Valid(value)
  }

  /** `validate_category`. */
  function ValidateCategory(value: string): (r: Checked<string>)
    ensures r.Valid? <==> value in ValidCategories
    ensures r.Valid? ==> r.value == value
    ensures r.Invalid? ==> r.error == "category must be one of " + StrListRepr(ValidCategories)
  {
    if value !in ValidCategories then Invalid("category must be one of " + StrListRepr(ValidCategories))
    else Valid(value)
  }

  /** The difficulty list prints as Python prints it. */
  lemma DifficultyListText()
    ensures StrListRepr(ValidDifficulties) == "['easy', " + "'medium', " + "'hard']"
  {
    assert ["medium", "hard"][1..] == ["hard"];
    assert ValidDifficulties[1..] == ["medium", "hard"];
    assert QuotedJoin(ValidDifficulties) == "'easy', " + ("'medium', " + "'hard'");
  }

  /** The error for a bad difficulty names the accepted values. */
  lemma DifficultyErrorText()
    ensures ValidateDifficulty("extreme") == Invalid("difficulty must be one of " + "['easy', " + "'medium', " + "'hard']")
  {
    DifficultyListText();
    assert "extreme" != "easy" && "extreme" != "medium" && "extreme" != "hard" by {
      assert "extreme"[1] != "easy"[1];
      assert |"extreme"| != |"medium"|;
      assert "extreme"[0] != "hard"[0];
    }
  }

  /** The difficulties the validator accepts are exactly the stored values
      of the model's choices; likewise for grades and categories below. */
  lemma DifficultiesMatchChoices()
    ensures (set v | v in ValidDifficulties) == (set i | 0 <= i < |Difficulties| :: Difficulties[i].0)
  {
    var d := set i | 0 <= i < |Difficulties| :: Difficulties[i].0;
    assert Difficulties[0].0 in d && Difficulties[1].0 in d && Difficulties[2].0 in d;
  }

  lemma GradesMatchChoices()
    ensures (set v | v in ValidGrades) == (set i | 0 <= i < |Grades| :: Grades[i].0)
  {
    var g := set i | 0 <= i < |Grades| :: Grades[i].0;
    assert Grades[0].0 in g && Grades[1].0 in g && Grades[2].0 in g && Grades[3].0 in g;
  }

  lemma CategoriesMatchChoices()
    ensures (set v | v in ValidCategories) == (set i | 0 <= i < |Categories| :: Categories[i].0)
  {
    var c := set i | 0 <= i < |Categories| :: Categories[i].0;
    forall v | v in ValidCategories
      ensures v in c
    {
      var k :| 0 <= k < |ValidCategories| && ValidCategories[k] == v;
      assert Categories[k].0 == v;
    }
  }

  /** What pydantic reports for a create payload: one error per invalid
      field and none for a valid one, in field order (difficulty, grade,
      category), each with its validator's text. */
  function PayloadErrors(difficulty: string, grade: int, category: string): (errors: seq<string>)
    ensures errors == [] <==>
      difficulty in ValidDifficulties && grade in ValidGrades && category in ValidCategories
    ensures |errors| ==
      (if difficulty in ValidDifficulties then 0 else 1)
      + (if grade in ValidGrades then 0 else 1)
      + (if category in ValidCategories then 0 else 1)
  {
    var d := ValidateDifficulty(difficulty);
    var g := ValidateGrade(grade);
    var c := ValidateCategory(category);
    var ds := if d.Invalid? then [d.error] else [];
    var gs := if g.Invalid? then [g.error] else [];
    var cs := if c.Invalid? then [c.error] else [];
    ds + gs + cs
  }

  /** Each invalid field's error is its validator's message, at its place
      in field order: difficulty first, then grade, then category last. */
  lemma PayloadErrorTexts(difficulty: string, grade: int, category: string)
    ensures difficulty !in ValidDifficulties ==>
      PayloadErrors(difficulty, grade, category)[0] == "difficulty must be one of " + StrListRepr(ValidDifficulties)
    ensures grade !in ValidGrades ==>
      PayloadErrors(difficulty, grade, category)[if difficulty in ValidDifficulties then 0 else 1]
        == "grade must be one of [9, 10, 11, 12]"
    ensures category !in ValidCategories ==>
      var errors := PayloadErrors(difficulty, grade, category);
      errors[|errors| - 1] == "category must be one of " + StrListRepr(ValidCategories)
  {
  }

  // ---------------------------------------------------------------------
  // Output formatters
  // ---------------------------------------------------------------------

  /** A value handed to a ProblemSchema field before validation: a string,
      a datetime (carried with its ISO form) or a User (carried with its
      username). */
  datatype FieldValue = Text(text: string) | DateTime(isoformat: string) | UserValue(username: string)

  /** `format_datetime`: a datetime becomes its ISO form; anything else
      passes through unchanged. */
  function FormatDatetime(v: FieldValue): (r: FieldValue)
    ensures !v.DateTime? ==> r == v
    ensures v.DateTime? ==> r == Text(v.isoformat)
  {
    match v
    case DateTime(iso) => Text(iso)
    case _ => v
  }

  /** `format_created_by`: a User becomes its username; anything else
      passes through unchanged. */
  function FormatCreatedBy(v: FieldValue): (r: FieldValue)
    ensures !v.UserValue? ==> r == v
    ensures v.UserValue? ==> r == Text(v.username)
  {
    match v
    case UserValue(name) => Text(name)
    case _ => v
  }

  // ---------------------------------------------------------------------
  // The post_save receiver
  // ---------------------------------------------------------------------

  /** A row of the Problem table (the free-text fields other than the
      title, and the timestamps, are left out). */
  datatype Problem = Problem(
    title: string,
    createdBy: UserId,
    difficulty: string,
    grade: int,
    category: string,
    status: Status)

  /** The opening of both messages, naming the problem. */
  function MessageLead(title: string): string {
    "Problema ta \"" + title + "\" a fost "
  }

  /** The message the receiver sends for a problem saved with `status`:
      none for a pending problem, otherwise one naming the problem's title. */
  function StatusMessage(title: string, status: Status): (m: Option<string>)
    ensures m.None? <==> status == Pending
    ensures m.Some? ==> MessageLead(title) <= m.value
  {
    match status
    case Rejected => Some(MessageLead(title) + "respinsă.")
    case Accepted => Some(MessageLead(title) + "acceptată.")
    case Pending => None
  }

  /** The rows the receiver inserts when problem `p` is saved: one unread
      notification for its creator when it is accepted or rejected, none
      otherwise, whatever the status was before. */
  function SaveNotes(p: Problem): (notes: seq<Notifications.Notification>)
    ensures |notes| == if p.status == Pending then 0 else 1
    ensures forall k :: 0 <= k < |notes| ==>
      && notes[k].user == p.createdBy
      && !notes[k].isRead
      && Some(notes[k].message) == StatusMessage(p.title, p.status)
  {
    match StatusMessage(p.title, p.status)
    case Some(m) => [Notifications.Notification(p.createdBy, m, false)]
    case None => []
  }

  /** The `post_save` receiver, run on every save of `instance`: it inserts
      the notifications of `SaveNotes` for the problem as saved. */
  method PostStatusUpdate(instance: Problem, inbox: Notifications.Inbox)
    modifies inbox
    ensures inbox.rows == old(inbox.rows) + SaveNotes(instance)
  {
    if instance.status == Rejected || instance.status == Accepted {
      var message := StatusMessage(instance.title, instance.status);
      var _ := inbox.Create(instance.createdBy, message.value);
    }
  }

  // ---------------------------------------------------------------------
  // Bulk moderation
  // ---------------------------------------------------------------------

  /** The table after the loop of an admin action has set `status` on the
      first n problems of `selection`, one after the other. */
  function SetStatusFirst(rows: map<nat, Problem>, selection: seq<nat>, n: nat, status: Status): (r: map<nat, Problem>)
    requires n <= |selection|
    requires forall i :: 0 <= i < |selection| ==> selection[i] in rows
    ensures r.Keys == rows.Keys
  {
    if n == 0 then rows
    else
      var before := SetStatusFirst(rows, selection, n - 1, status);
      before[selection[n - 1] := before[selection[n - 1]].(status := status)]
  }

  /** The table after the whole action: a selected problem takes `status`
      and keeps everything else; an unselected one is unchanged. */
  function SetStatus(rows: map<nat, Problem>, selection: seq<nat>, status: Status): (r: map<nat, Problem>)
    requires forall i :: 0 <= i < |selection| ==> selection[i] in rows
    ensures r.Keys == rows.Keys
    ensures forall id :: id in rows ==>
      r[id] == if id in selection then rows[id].(status := status) else rows[id]
  {
    assert selection[..|selection|] == selection;
    assert forall id :: id in rows ==>
      SetStatusFirst(rows, selection, |selection|, status)[id] ==
        if id in selection then rows[id].(status := status) else rows[id]
    by {
      forall id | id in rows
        ensures SetStatusFirst(rows, selection, |selection|, status)[id] ==
          if id in selection then rows[id].(status := status) else rows[id]
      {
        SetStatusFirstAt(rows, selection, |selection|, status, id);
      }
    }
    SetStatusFirst(rows, selection, |selection|, status)
  }

  /** After n steps, a problem among the first n selected takes `status` and
      keeps everything else; any other problem is unchanged. */
  lemma {:induction false} SetStatusFirstAt(rows: map<nat, Problem>, selection: seq<nat>, n: nat, status: Status, id: nat)
    requires n <= |selection|
    requires forall i :: 0 <= i < |selection| ==> selection[i] in rows
    requires id in rows
    ensures SetStatusFirst(rows, selection, n, status)[id] ==
      if id in selection[..n] then rows[id].(status := status) else rows[id]
  {
    if n > 0 {
      SetStatusFirstAt(rows, selection, n - 1, status, id);
      assert selection[..n] == selection[..n - 1] + [selection[n - 1]];
    }
  }

  /** Of two actions on the same selection the later one decides. */
  lemma LastActionWins(rows: map<nat, Problem>, selection: seq<nat>, first: Status, second: Status)
    requires forall i :: 0 <= i < |selection| ==> selection[i] in rows
    ensures SetStatus(SetStatus(rows, selection, first), selection, second) == SetStatus(rows, selection, second)
  {
    var once := SetStatus(rows, selection, first);
    assert forall i :: 0 <= i < |selection| ==> selection[i] in once;
    var twice := SetStatus(once, selection, second);
    var direct := SetStatus(rows, selection, second);
    forall id | id in rows
      ensures twice[id] == direct[id]
    {
      assert id in once;
      if id in selection {
        assert twice[id] == once[id].(status := second);
        assert once[id] == rows[id].(status := first);
      } else {
        assert twice[id] == once[id] == rows[id];
      }
    }
    assert twice.Keys == direct.Keys;
    assert twice == direct;
  }

  /** Applying the same action twice is applying it once. */
  lemma ActionIdempotent(rows: map<nat, Problem>, selection: seq<nat>, status: Status)
    requires forall i :: 0 <= i < |selection| ==> selection[i] in rows
    ensures SetStatus(SetStatus(rows, selection, status), selection, status) == SetStatus(rows, selection, status)
  {
    LastActionWins(rows, selection, status, status);
  }

  /** The notifications the saves of the first n steps insert, in selection
      order; each save sees its problem as it stands after its own step. */
  function ActionNotesFirst(rows: map<nat, Problem>, selection: seq<nat>, n: nat, status: Status): seq<Notifications.Notification>
    requires n <= |selection|
    requires forall i :: 0 <= i < |selection| ==> selection[i] in rows
  {
    if n == 0 then []
    else
      ActionNotesFirst(rows, selection, n - 1, status)
        + SaveNotes(SetStatusFirst(rows, selection, n, status)[selection[n - 1]])
  }

  /** The notifications the saves of the whole action insert: accepting
      (or rejecting) n problems inserts n notifications, the i-th one for
      the creator of the i-th selected problem, carrying its title. */
  function ActionNotes(rows: map<nat, Problem>, selection: seq<nat>, status: Status): (notes: seq<Notifications.Notification>)
    requires forall i :: 0 <= i < |selection| ==> selection[i] in rows
    ensures status != Pending ==> |notes| == |selection|
    ensures status != Pending ==> forall i :: 0 <= i < |selection| ==>
      notes[i] == Notifications.Notification(rows[selection[i]].createdBy,
        StatusMessage(rows[selection[i]].title, status).value, false)
  {
    var notes := ActionNotesFirst(rows, selection, |selection|, status);
    assert status != Pending ==> |notes| == |selection| && forall i :: 0 <= i < |selection| ==>
      notes[i] == Notifications.Notification(rows[selection[i]].createdBy,
        StatusMessage(rows[selection[i]].title, status).value, false)
    by {
      if status != Pending {
        ActionNotesFirstLength(rows, selection, |selection|, status);
        forall i | 0 <= i < |selection|
          ensures notes[i] == Notifications.Notification(rows[selection[i]].createdBy,
            StatusMessage(rows[selection[i]].title, status).value, false)
        {
          ActionNoteAt(rows, selection, |selection|, status, i);
        }
      }
    }
    notes
  }

  /** Step i + 1 of an action saves the i-th selected problem with the new
      status and adds that save's notifications. */
  lemma ModerationStep(rows: map<nat, Problem>, selection: seq<nat>, i: nat, status: Status,
                        earlier: seq<Notifications.Notification>)
    requires i < |selection|
    requires forall j :: 0 <= j < |selection| ==> selection[j] in rows
    ensures var before := SetStatusFirst(rows, selection, i, status);
      var saved := before[selection[i]].(status := status);
      && SetStatusFirst(rows, selection, i + 1, status) == before[selection[i] := saved]
      && ActionNotesFirst(rows, selection, i + 1, status) ==
           ActionNotesFirst(rows, selection, i, status) + SaveNotes(saved)
      && earlier + ActionNotesFirst(rows, selection, i + 1, status) ==
           earlier + ActionNotesFirst(rows, selection, i, status) + SaveNotes(saved)
  {
    var before := SetStatusFirst(rows, selection, i, status);
    AppendAssoc(earlier, ActionNotesFirst(rows, selection, i, status), SaveNotes(before[selection[i]].(status := status)));
  }

  /** Each step of an accept or reject action adds one notification. */
  lemma {:induction false} ActionNotesFirstLength(rows: map<nat, Problem>, selection: seq<nat>, n: nat, status: Status)
    requires n <= |selection|
    requires forall i :: 0 <= i < |selection| ==> selection[i] in rows
    requires status != Pending
    ensures |ActionNotesFirst(rows, selection, n, status)| == n
  {
    if n > 0 {
      ActionNotesFirstLength(rows, selection, n - 1, status);
    }
  }

  /** The i-th notification of the first n steps is the one for the i-th
      selected problem. */
  lemma {:induction false} ActionNoteAt(rows: map<nat, Problem>, selection: seq<nat>, n: nat, status: Status, i: nat)
    requires i < n <= |selection|
    requires forall j :: 0 <= j < |selection| ==> selection[j] in rows
    requires status != Pending
    ensures |ActionNotesFirst(rows, selection, n, status)| == n
    ensures ActionNotesFirst(rows, selection, n, status)[i] ==
      Notifications.Notification(rows[selection[i]].createdBy,
        StatusMessage(rows[selection[i]].title, status).value, false)
  {
    ActionNotesFirstLength(rows, selection, n, status);
    ActionNotesFirstLength(rows, selection, n - 1, status);
    if i < n - 1 {
      ActionNoteAt(rows, selection, n - 1, status, i);
    } else {
      SetStatusFirstAt(rows, selection, n, status, selection[i]);
      assert selection[i] in selection[..n];
    }
  }

  // ---------------------------------------------------------------------
  // The Problem table
  // ---------------------------------------------------------------------

  /** `ProblemSchema` of a problem, without the free-text fields the rows
      leave out. */
  datatype ProblemOut = ProblemOut(
    id: nat,
    title: string,
    difficulty: string,
    createdAt: string,
    updatedAt: string,
    createdBy: string,
    grade: int,
    category: string)

  /** `ProblemSchema.from_orm(problem)` for row `p` under `id`: the ORM hands
      the two timestamps over as datetimes and `created_by` as a User, and
      the schema's formatters turn them into the ISO texts and the username. */
  function ProblemOutOf(id: nat, p: Problem, createdAt: string, updatedAt: string, creatorName: string): (o: ProblemOut)
    ensures o.id == id && o.title == p.title && o.difficulty == p.difficulty
    ensures o.grade == p.grade && o.category == p.category
    ensures o.createdAt == createdAt && o.updatedAt == updatedAt && o.createdBy == creatorName
  {
    ProblemOut(id, p.title, p.difficulty,
      FormatDatetime(DateTime(createdAt)).text, FormatDatetime(DateTime(updatedAt)).text,
      FormatCreatedBy(UserValue(creatorName)).text, p.grade, p.category)
  }

  /** What `create_problem` answers: 201 with the new problem, or the
      validation errors (HTTP 422) when the payload is refused. */
  datatype CreateReply = Created(problem: ProblemOut) | Unprocessable(errors: seq<string>)

  class ProblemTable {
    var problems: map<nat, Problem>
    var nextId: nat

    /** Ids are handed out in increasing order from 1. */
    ghost predicate Valid()
      reads this
    {
      1 <= nextId && forall id :: id in problems ==> 1 <= id < nextId
    }

    constructor()
      ensures Valid() && problems == map[]
    {
      problems := map[];
      nextId := 1;
    }

    /** `create_problem`: a payload the validators refuse is answered with
        their errors and changes nothing; otherwise the problem is inserted
        with the default status PENDING, so its save notifies nobody, and
        the answer is the new problem as `ProblemSchema` shows it. The
        creator's username and the timestamps the database sets are
        parameters. */
    method CreateProblem(createdBy: UserId, creatorName: string, title: string, difficulty: string, grade: int,
                         category: string, createdAt: string, updatedAt: string, inbox: Notifications.Inbox)
      returns (reply: CreateReply)
      requires Valid()
      modifies this, inbox
      ensures Valid()
      ensures inbox.rows == old(inbox.rows)
      ensures PayloadErrors(difficulty, grade, category) != [] ==>
        reply == Unprocessable(PayloadErrors(difficulty, grade, category))
        && problems == old(problems) && nextId == old(nextId)
      ensures PayloadErrors(difficulty, grade, category) == [] ==>
        && old(nextId) !in old(problems)
        && problems == old(problems)[old(nextId) := Problem(title, createdBy, difficulty, grade, category, Pending)]
        && reply == Created(ProblemOutOf(old(nextId), problems[old(nextId)], createdAt, updatedAt, creatorName))
    {
      var errors := PayloadErrors(difficulty, grade, category);
      if errors != [] {
        return Unprocessable(errors);
      }
      var id := nextId;
      problems := problems[id := Problem(title, createdBy, difficulty, grade, category, Pending)];
      nextId := nextId + 1;
      PostStatusUpdate(problems[id], inbox);
      reply := Created(ProblemOutOf(id, problems[id], createdAt, updatedAt, creatorName));
    }

    /** `accept_problems`: every selected problem is set to ACCEPTED and saved. */
    method AcceptProblems(selection: seq<nat>, inbox: Notifications.Inbox)
      requires Valid()
      requires forall i :: 0 <= i < |selection| ==> selection[i] in problems
      modifies this, inbox
      ensures Valid()
      ensures nextId == old(nextId)
      ensures problems == SetStatus(old(problems), selection, Accepted)
      ensures inbox.rows == old(inbox.rows) + ActionNotes(old(problems), selection, Accepted)
    {
      Moderate(selection, Accepted, inbox);
    }

    /** `reject_problems`: every selected problem is set to REJECTED and saved. */
    method RejectProblems(selection: seq<nat>, inbox: Notifications.Inbox)
      requires Valid()
      requires forall i :: 0 <= i < |selection| ==> selection[i] in problems
      modifies this, inbox
      ensures Valid()
      ensures nextId == old(nextId)
      ensures problems == SetStatus(old(problems), selection, Rejected)
      ensures inbox.rows == old(inbox.rows) + ActionNotes(old(problems), selection, Rejected)
    {
      Moderate(selection, Rejected, inbox);
    }

    /** One step of an action: `problem.status = status; problem.save()`. The
        row takes the new status and the post_save receiver runs on it. */
    method SetStatusAndSave(id: nat, status: Status, inbox: Notifications.Inbox)
      requires id in problems
      modifies this, inbox
      ensures nextId == old(nextId)
      ensures problems == old(problems)[id := old(problems)[id].(status := status)]
      ensures inbox.rows == old(inbox.rows) + SaveNotes(old(problems)[id].(status := status))
    {
      var updated := problems[id].(status := status);
      problems := problems[id := updated];
      PostStatusUpdate(updated, inbox);
    }

    /** Step i + 1 of an action: after the first i selected problems were
        saved, saving the i-th one gives the state after i + 1 steps. */
    method ModerateNext(selection: seq<nat>, i: nat, status: Status, inbox: Notifications.Inbox,
                        ghost rows0: map<nat, Problem>, ghost notes0: seq<Notifications.Notification>)
      requires i < |selection|
      requires forall j :: 0 <= j < |selection| ==> selection[j] in rows0
      requires problems == SetStatusFirst(rows0, selection, i, status)
      requires inbox.rows == notes0 + ActionNotesFirst(rows0, selection, i, status)
      modifies this, inbox
      ensures nextId == old(nextId)
      ensures problems == SetStatusFirst(rows0, selection, i + 1, status)
      ensures inbox.rows == notes0 + ActionNotesFirst(rows0, selection, i + 1, status)
    {
      ModerationStep(rows0, selection, i, status, notes0);
      SetStatusAndSave(selection[i], status, inbox);
    }

    /** The loop both actions share: for each selected problem in order,
        set the status and save. */
    method Moderate(selection: seq<nat>, status: Status, inbox: Notifications.Inbox)
      requires forall i :: 0 <= i < |selection| ==> selection[i] in problems
      modifies this, inbox
      ensures nextId == old(nextId)
      ensures problems == SetStatusFirst(old(problems), selection, |selection|, status)
      ensures inbox.rows == old(inbox.rows) + ActionNotesFirst(old(problems), selection, |selection|, status)
    {
      ghost var rows0, notes0 := problems, inbox.rows;
      var i := 0;
      while i < |selection|
        invariant 0 <= i <= |selection|
        invariant nextId == old(nextId)
        invariant problems == SetStatusFirst(rows0, selection, i, status)
        invariant inbox.rows == notes0 + ActionNotesFirst(rows0, selection, i, status)
      {
        ModerateNext(selection, i, status, inbox, rows0, notes0);
        i := i + 1;
      }
    }
  }
}
