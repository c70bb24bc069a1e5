/**
 * The record store behind the routes: the task, note and user tables, each
 * route a method that takes the caller's subject id and reports its outcome.
 * Each call is one atomic update of the tables.
 */
module App {
  import opened Text
  import opened Schema

  /**
   * What a route reports. `Ok` covers the silent skip of a non-owner's
   * mutation, which redirects exactly as a success does.
   */
  datatype Outcome =
    | Ok
    | NotFound     // get_or_404 found no row with that id
    | Rejected     // note content empty after stripping; nothing stored
    | BadRequest   // a required form field is missing
    | Conflict     // a unique column (email, fs_uniquifier) would repeat

  /** No user other than `caller` sees any difference in their tasks or notes. */
  ghost predicate OthersUnaffected(
    tasks0: map<nat, Task>, notes0: map<nat, Note>,
    tasks1: map<nat, Task>, notes1: map<nat, Note>, caller: SubjectId)
  {
    forall u :: u != caller ==> TasksOf(tasks1, u) == TasksOf(tasks0, u) && NotesOf(notes1, u) == NotesOf(notes0, u)
  }

  /** `request.form.get("content", "")`: the submitted note text, empty when absent. */
  function SubmittedContent(form: Form): string {
    if "content" in form then form["content"] else ""
  }

  class Store {
    var tasks: map<nat, Task>
    var notes: map<nat, Note>
    var users: map<nat, User>
    // the row id the database hands out next, per table
    var nextTaskId: nat
    var nextNoteId: nat
    var nextUserId: nat

    ghost predicate Valid()
      reads this
    {
      && (forall id :: id in tasks ==> id < nextTaskId)
      && (forall id :: id in notes ==> id < nextNoteId)
      && (forall id :: id in users ==> id < nextUserId)
      && UniqueAccounts(users)
    }

    /** An empty database; row ids start at 1. */
    constructor ()
      ensures Valid()
      ensures tasks == map[] && notes == map[] && users == map[]
    {
      tasks, notes, users := map[], map[], map[];
      nextTaskId, nextNoteId, nextUserId := 1, 1, 1;
    }

    /**
     * POST /add-task: a new task titled with the raw `item_text` value, not
     * completed, owned by the caller, under a fresh id. Without `item_text`
     * the request fails and nothing is written.
     */
    method AddTask(caller: SubjectId, form: Form) returns (outcome: Outcome, id: nat)
      requires Valid()
      modifies this`tasks, this`nextTaskId
      ensures Valid()
      ensures outcome == (if "item_text" in form then Ok else BadRequest)
      ensures outcome == Ok ==> id !in old(tasks) && tasks == old(tasks)[id := Task(form["item_text"], false, caller)]
      ensures outcome != Ok ==> tasks == old(tasks)
      ensures outcome == Ok ==> TasksOf(tasks, caller) == old(TasksOf(tasks, caller))[id := Task(form["item_text"], false, caller)]
      ensures OthersUnaffected(old(tasks), notes, tasks, notes, caller)
    {
      id := nextTaskId;
      if "item_text" !in form {
        outcome := BadRequest;
        return;
      }
      var t := Task(form["item_text"], false, caller);
      forall u ensures TasksOf(tasks[id := t], u) == if u == caller then TasksOf(tasks, u)[id := t] else TasksOf(tasks, u) - {id} {
        TasksOfWrite(tasks, id, t, u);
      }
      tasks := tasks[id := t];
      nextTaskId := nextTaskId + 1;
      outcome := Ok;
    }

    /**
     * POST /toggle-status/<id>: NotFound when no task has that id, whoever
     * asks. The owner sets `completed` to whether the form has a `completed`
     * field; anyone else gets the same Ok and nothing changes.
     */
    method ToggleStatus(caller: SubjectId, taskId: nat, form: Form) returns (outcome: Outcome)
      requires Valid()
      modifies this`tasks
      ensures Valid()
      ensures outcome == (if taskId in old(tasks) then Ok else NotFound)
      ensures taskId in old(tasks) && old(tasks)[taskId].owner == caller ==>
                tasks == old(tasks)[taskId := old(tasks)[taskId].(completed := "completed" in form)]
      ensures taskId !in old(tasks) || old(tasks)[taskId].owner != caller ==> tasks == old(tasks)
      ensures taskId in tasks ==> tasks[taskId].completed == ("completed" in form) || old(tasks)[taskId].owner != caller
      ensures OthersUnaffected(old(tasks), notes, tasks, notes, caller)
    {
      if taskId !in tasks {
        return NotFound;
      }
      var t := tasks[taskId];
      if t.owner == caller {
        var t' := t.(completed := "completed" in form);
        forall u | u != caller ensures TasksOf(tasks[taskId := t'], u) == TasksOf(tasks, u) {
          TasksOfWrite(tasks, taskId, t', u);
        }
        tasks := tasks[taskId := t'];
      }
      outcome := Ok;
    }

    /**
     * POST /delete-task/<id>: NotFound when no task has that id; the owner
     * removes exactly that row; anyone else gets Ok and nothing changes.
     */
    method DeleteTask(caller: SubjectId, taskId: nat) returns (outcome: Outcome)
      requires Valid()
      modifies this`tasks
      ensures Valid()
      ensures outcome == (if taskId in old(tasks) then Ok else NotFound)
      ensures taskId in old(tasks) && old(tasks)[taskId].owner == caller ==> tasks == old(tasks) - {taskId}
      ensures taskId !in old(tasks) || old(tasks)[taskId].owner != caller ==> tasks == old(tasks)
      ensures OthersUnaffected(old(tasks), notes, tasks, notes, caller)
    {
      if taskId !in tasks {
        return NotFound;
      }
      if tasks[taskId].owner == caller {
        forall u | u != caller ensures TasksOf(tasks - {taskId}, u) == TasksOf(tasks, u) {
          TasksOfRemove(tasks, taskId, u);
        }
        tasks := tasks - {taskId};
      }
      outcome := Ok;
    }

    /**
     * POST /delete-note/<id>: the task rule on the note table: NotFound, the
     * owner's removal of exactly that note, or a silent skip.
     */
    method DeleteNote(caller: SubjectId, noteId: nat) returns (outcome: Outcome)
      requires Valid()
      modifies this`notes
      ensures Valid()
      ensures outcome == (if noteId in old(notes) then Ok else NotFound)
      ensures noteId in old(notes) && old(notes)[noteId].owner == caller ==> notes == old(notes) - {noteId}
      ensures noteId !in old(notes) || old(notes)[noteId].owner != caller ==> notes == old(notes)
      ensures OthersUnaffected(tasks, old(notes), tasks, notes, caller)
    {
      if noteId !in notes {
        return NotFound;
      }
      if notes[noteId].owner == caller {
        forall u | u != caller ensures NotesOf(notes - {noteId}, u) == NotesOf(notes, u) {
          NotesOfRemove(notes, noteId, u);
        }
        notes := notes - {noteId};
      }
      outcome := Ok;
    }

    /**
     * POST /notatnik: the `content` field (empty when absent) is stripped; an
     * empty result is rejected and nothing is written, otherwise one note with
     * the stripped text, owned by the caller, is added under a fresh id. The
     * page then lists `NotesOf(notes, caller)`.
     */
    method PostNote(caller: SubjectId, form: Form) returns (outcome: Outcome, id: nat)
      requires Valid()
      modifies this`notes, this`nextNoteId
      ensures Valid()
      ensures outcome == (if Blank(SubmittedContent(form)) then Rejected else Ok)
      ensures outcome == Ok ==>
                && id !in old(notes)
                && notes == old(notes)[id := Note(Strip(SubmittedContent(form)), caller)]
                && NotesOf(notes, caller) == old(NotesOf(notes, caller))[id := Note(Strip(SubmittedContent(form)), caller)]
      ensures outcome != Ok ==> notes == old(notes)
      ensures OthersUnaffected(tasks, old(notes), tasks, notes, caller)
    {
      id := nextNoteId;
      var content := Strip(SubmittedContent(form));
      StripEmptyIffBlank(SubmittedContent(form));
      if content == "" {
        outcome := Rejected;
        return;
      }
      var n := Note(content, caller);
      forall u ensures NotesOf(notes[id := n], u) == if u == caller then NotesOf(notes, u)[id := n] else NotesOf(notes, u) - {id} {
        NotesOfWrite(notes, id, n, u);
      }
      notes := notes[id := n];
      nextNoteId := nextNoteId + 1;
      outcome := Ok;
    }

    /**
     * Storing a newly built user: Conflict, and nothing written, when the
     * email or the resulting subject id is already taken; otherwise the user
     * is added under a fresh id.
     */
    method RegisterUser(email: string, password: string, subject: Option<SubjectId>, generated: string)
      returns (outcome: Outcome, id: nat)
      requires Valid()
      requires UuidText(generated)
      modifies this`users, this`nextUserId
      ensures Valid()
      ensures var u := NewUser(email, password, subject, generated);
        && outcome == (if EmailTaken(old(users), email) || SubjectTaken(old(users), u.subject) then Conflict else Ok)
        && (outcome == Ok ==> id !in old(users) && users == old(users)[id := u])
      ensures outcome != Ok ==> users == old(users)
    {
      id := nextUserId;
      var u := NewUser(email, password, subject, generated);
      if EmailTaken(users, email) || SubjectTaken(users, u.subject) {
        outcome := Conflict;
        return;
      }
      InsertKeepsAccountsUnique(users, id, u);
      users := users[id := u];
      nextUserId := nextUserId + 1;
      outcome := Ok;
    }
  }
}
