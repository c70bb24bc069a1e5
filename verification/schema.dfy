/**
 * The rows of the to-do application and the owner-scoped queries over them.
 * Every task and note carries its owner's subject id (the user's
 * `fs_uniquifier`), and every listing filters on that key.
 */
module Schema {

  /** A user's stable opaque identifier, the join key of owned rows. */
  type SubjectId = string

  /** A submitted form: field name to (first) submitted value. */
  type Form = map<string, string>

  datatype Option<T> = None | Some(value: T)

  /** A to-do item; `completed` is false when the row is created. */
  datatype Task = Task(title: string, completed: bool, owner: SubjectId)

  /** A free-text note. */
  datatype Note = Note(content: string, owner: SubjectId)

  /** A user account; `subject` is the `fs_uniquifier` column. */
  datatype User = User(email: string, password: string, active: bool, subject: SubjectId)

  /** The caller's view of the task table: exactly the rows they own. */
  function TasksOf(tasks: map<nat, Task>, u: SubjectId): (r: map<nat, Task>)
    ensures r.Keys <= tasks.Keys
    ensures forall id :: id in r ==> r[id] == tasks[id] && r[id].owner == u
    ensures forall id :: id in tasks && tasks[id].owner == u ==> id in r
  {
    map id | id in tasks && tasks[id].owner == u :: tasks[id]
  }

  /** The caller's view of the note table: exactly the rows they own. */
  function NotesOf(notes: map<nat, Note>, u: SubjectId): (r: map<nat, Note>)
    ensures r.Keys <= notes.Keys
    ensures forall id :: id in r ==> r[id] == notes[id] && r[id].owner == u
    ensures forall id :: id in notes && notes[id].owner == u ==> id in r
  {
    map id | id in notes && notes[id].owner == u :: notes[id]
  }

  /**
   * Writing row `id` changes a user's view only at `id`: the owner of the new
   * row sees it there, everybody else no longer sees anything there.
   */
  lemma TasksOfWrite(tasks: map<nat, Task>, id: nat, t: Task, u: SubjectId)
    ensures TasksOf(tasks[id := t], u)
         == if t.owner == u then TasksOf(tasks, u)[id := t] else TasksOf(tasks, u) - {id}
  {
  }

  /** Removing row `id` removes it from every user's view and nothing else. */
  lemma TasksOfRemove(tasks: map<nat, Task>, id: nat, u: SubjectId)
    ensures TasksOf(tasks - {id}, u) == TasksOf(tasks, u) - {id}
  {
  }

  lemma NotesOfWrite(notes: map<nat, Note>, id: nat, n: Note, u: SubjectId)
    ensures NotesOf(notes[id := n], u)
         == if n.owner == u then NotesOf(notes, u)[id := n] else NotesOf(notes, u) - {id}
  {
  }

  lemma NotesOfRemove(notes: map<nat, Note>, id: nat, u: SubjectId)
    ensures NotesOf(notes - {id}, u) == NotesOf(notes, u) - {id}
  {
  }

  /** The text form of a version-4 UUID: 36 characters, dashes at 8, 13, 18 and 23. */
  predicate UuidText(g: string) {
    |g| == 36 && g[8] == '-' && g[13] == '-' && g[18] == '-' && g[23] == '-'
  }

  /**
   * Building a user: a supplied subject id that Python considers true (present
   * and non-empty) is kept; otherwise the freshly generated UUID text is used.
   * `active` takes its column default.
   */
  function NewUser(email: string, password: string, subject: Option<SubjectId>, generated: string): (r: User)
    requires UuidText(generated)
    ensures r.email == email && r.password == password && r.active
    ensures r.subject != ""
    ensures subject.Some? && subject.value != "" ==> r.subject == subject.value
    ensures subject == None || subject == Some("") ==> r.subject == generated
  {
    var kept := if subject.Some? then subject.value else "";
    User(email, password, true, if kept != "" then kept else generated)
  }

  /** The columns `email` and `fs_uniquifier` are unique and the latter never empty. */
  ghost predicate UniqueAccounts(users: map<nat, User>) {
    && (forall id :: id in users ==> users[id].subject != "")
    && (forall a, b :: a in users && b in users && a != b ==>
          users[a].subject != users[b].subject && users[a].email != users[b].email)
  }

  /** Some stored user already has this email. */
  predicate EmailTaken(users: map<nat, User>, email: string) {
    exists id :: id in users && users[id].email == email
  }

  /** Some stored user already has this subject id. */
  predicate SubjectTaken(users: map<nat, User>, subject: SubjectId) {
    exists id :: id in users && users[id].subject == subject
  }

  /** Adding a user whose email and subject id are both new keeps the columns unique. */
  lemma InsertKeepsAccountsUnique(users: map<nat, User>, id: nat, u: User)
    requires UniqueAccounts(users)
    requires id !in users && u.subject != ""
    requires !EmailTaken(users, u.email) && !SubjectTaken(users, u.subject)
    ensures UniqueAccounts(users[id := u])
  {
  }
}
