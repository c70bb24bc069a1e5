# Owner-scoped task and note store

A Dafny model of the record store behind a small Flask to-do application
(`main.py`). Each user has tasks and notes. Every row carries its owner's
subject id, the user's `fs_uniquifier` string. Every route takes the
logged-in caller's subject id and lists or changes only rows with that
owner.

- `text.dfy`, module `Text`: Python's `str.strip()` with no argument,
  which the notebook route applies to submitted note content. It is built
  from the longest whitespace prefix and the longest whitespace suffix.
  The module proves that the result is empty exactly when the input is
  all whitespace. It also proves that stripping twice is stripping once,
  and that `Strip` is the only slice with whitespace only around it and
  none at its own ends.
- `schema.dfy`, module `Schema`: the `Task`, `Note` and `User` rows and
  the two listing queries, `TasksOf` (`index`) and `NotesOf` (the
  notebook page). Lemmas say how a listing changes when one row is
  written or removed. The module also holds the `User` constructor's
  subject-id defaulting and the unique `email` and `fs_uniquifier`
  columns.
- `store.dfy`, module `App`: class `Store` holds the `task`, `note` and
  `user` tables as `map`s from row id to row. Each route is a method that
  updates those tables in one step and returns an `Outcome`:
  - `Ok`
  - `NotFound` (`get_or_404`)
  - `Rejected` (empty note)
  - `BadRequest` (missing form field)
  - `Conflict` (a unique column would repeat)

  Each mutating method states the whole new table in terms of the old
  one. It also states `OthersUnaffected`: every user other than the
  caller lists exactly the same tasks and notes as before.

A submitted form is a `map<string, string>` from field name to value.
`'completed' in request.form` becomes `"completed" in form`.
`request.form["item_text"]` is defined only when the key is present and
otherwise fails with `BadRequest`. `request.form.get("content", "")` is
`SubmittedContent`.

Points where the model keeps `main.py`'s behaviour exactly as written:
- `add` does not check the title. An empty title is stored as it is. A
  missing `item_text` field is a failed request (Flask answers 400), not
  a validation message.
- The task listing is one list, not split into completed and open tasks.
- A non-owner's toggle or delete is answered `Ok` with nothing changed,
  exactly as the code's silent redirect does.

## Model

| member | source | states |
|---|---|---|
| `Text.Strip` | main.py:157 | The result has no whitespace at either end. It is the slice of the input that starts right after the leading whitespace, and only whitespace follows it. |
| `Text.StripEmptyIffBlank` | main.py:157-158 | The stripped content is empty exactly when the submitted text is whitespace only (or empty), so `if content:` rejects exactly those inputs. |
| `Text.StripKeepsTrimmed` | main.py:157 | Content with no whitespace at either end is stored exactly as submitted. |
| `Text.StripIdempotent` | main.py:157 | Stripping the stored note content again changes nothing. |
| `Text.StripCharacterized` | main.py:157 | Any slice with only whitespace before and after it and none at its own ends equals `Strip`. `Strip` is therefore the unique maximal trimmed slice. |
| `Schema.TasksOf` | main.py:85 | The index listing holds exactly the tasks whose `user_id` is the caller, with unchanged contents. It never holds another user's row. |
| `Schema.NotesOf` | main.py:166 | The notebook listing holds exactly the notes whose `user_id` is the caller, with unchanged contents. It never holds another user's row. |
| `Schema.TasksOfWrite` | main.py:91-96 | Writing task row `id` changes each user's listing only at `id`. The row's owner now sees the new row there; every other user sees nothing there. |
| `Schema.TasksOfRemove` | main.py:119 | Deleting task row `id` removes it from every listing and changes nothing else in any listing. |
| `Schema.NotesOfWrite` | main.py:159-160 | Adding note row `id` changes each user's note listing only at `id`, and only the owner sees the new note. |
| `Schema.NotesOfRemove` | main.py:128 | Deleting note row `id` removes it from every note listing and changes nothing else. |
| `Schema.NewUser` | main.py:57-61 | A supplied non-empty subject id is kept. A missing or empty one is replaced by the generated UUID text. Either way the subject id is non-empty, and email and password are kept. |
| `Schema.InsertKeepsAccountsUnique` | main.py:50-54 | Inserting a user whose email and subject id are both unused keeps both columns unique and every subject id non-empty. |
| `App.Store.AddTask` | main.py:88-97 | With `item_text` present, exactly one task is added under a fresh id, with the raw text as title, `completed` false and the caller as owner. The caller's listing gains exactly that row. Without `item_text` the result is `BadRequest` and nothing changes. Notes and users are never touched, and other users' listings are unchanged. |
| `App.Store.ToggleStatus` | main.py:105-112 | A missing id gives `NotFound` whoever the caller is. The owner's toggle sets `completed` to whether the form has `completed` and changes nothing else. A non-owner gets `Ok` and the store is unchanged. Other users' listings never change. |
| `App.Store.DeleteTask` | main.py:114-121 | A missing id gives `NotFound`. The owner removes exactly that task. A non-owner gets `Ok` and nothing changes. Notes are untouched and other users' listings are unchanged. |
| `App.Store.DeleteNote` | main.py:123-130 | The same rule on the note table: `NotFound` for a missing id, removal of exactly that note for its owner, and a silent `Ok` with no change for anyone else. |
| `App.Store.PostNote` | main.py:153-164 | Content that is missing, empty or whitespace only gives `Rejected`, and nothing is written. Otherwise exactly one note is added under a fresh id, with the stripped text and the caller as owner. The caller's listing gains exactly that note, and other users' listings are unchanged. |
| `App.Store.RegisterUser` | main.py:50-61 | The user is built by `NewUser`. If the email or the resulting subject id is already stored, the result is `Conflict` and nothing changes. Otherwise the user is added under a fresh id, and emails and subject ids stay unique. |

## Left out

- Flask routing, redirects, `render_template` and `flash` messages are presentation. The routes' outcome is modelled, not the page.
- Authentication (`login_required`, `current_user`, `logout`, password hashing, sessions, `custom_security_render_template`) belongs to Flask-Security. The caller's subject id is a method parameter, and the unauthenticated path is not modelled.
- SQLAlchemy sessions, `commit` and the SQLite configuration are left out. Each method is one atomic update of the tables.
- Row ids come from a per-table counter, so a new row's id is always fresh. SQLite's choice of id (one more than the current largest, which can reuse an id after the newest row is deleted) is not modelled.
- `uuid.uuid4()` is random. The generated text is a parameter of `NewUser` and `RegisterUser`, required only to have the shape of UUID text. Two generated UUIDs can in principle collide. The model does not assume they never do: the unique constraint turns such a collision into `Conflict`.
- `App.Store.RegisterUser`: registration itself runs inside Flask-Security. The model covers only building the `User` and inserting it under the unique columns. A unique-constraint failure is reported as `Conflict`, whereas the application raises an `IntegrityError`.
- `Role`, the `roles_users` table and `User.roles` are stored but never consulted, so they are not modelled. Neither are `confirmed_at` and password hashing; `password` is an opaque string.
- `TestForm`, the routes `form`, `user` and `kot`, and `__main__` are template demos and server start-up with no store logic.
- Column length limits (`String(100)` and others) are left out, because SQLite does not enforce them and the code does not check them.
- The foreign key from a row's owner to `user.fs_uniquifier` is not an invariant of the model. SQLite does not enforce foreign keys by default, and no route depends on the owner being a stored user. A row with a NULL owner cannot be created by any route, so the owner is a plain string.
- Listings are maps from row id to row, so the order in which the database returns rows is not modelled.
- A form field submitted several times is modelled by one value, the one `request.form[...]` returns.
