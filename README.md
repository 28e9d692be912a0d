# Task manager client: status labels and the session state machine

This project models the browser client of a small task tracker
(`frontend/script.js`). The client renders a list of tasks fetched from a REST
service. It lets the user create, edit, filter and delete tasks. Two parts of
the script have behaviour that can be stated exactly, and these are what the
model covers:

- **Status labels** (`formatStatus`, module `StatusLabel`). A status such as
  `in-progress` is split on `-`. Each piece gets its first character
  upper-cased, and the pieces are joined with single spaces, giving
  `In Progress`. The model proves a character-by-character description of the
  result (`LabelAt`). From it follow the length, the absence of `-` and
  idempotence. `Split` and `Join` are proved inverse to each other in both
  directions.
- **The session** (module `TaskSession`, class `Session`). The script's
  module-level state is `currentFilter` and `editingTaskId`. The class also
  holds the DOM state the handlers write:
  - the submit button's text;
  - whether the cancel button is shown;
  - the primary form's values;
  - the `active` class of each filter button;
  - the content of the task list.

  Each handler is a method. Network results (`Outcome`, `Reply`) and the
  answer to the delete confirmation are parameters. Each handler returns the
  request it issues and the list reload it triggers, if any. The object
  invariant `Valid()` says that the submit button reads "Update Task" and the
  cancel button is shown exactly when an edit id is recorded.
- **Routing** (module `TaskApi`). These are the URLs the handlers use. Distinct
  filters give distinct list URLs. Distinct ids give distinct task URLs. A list
  URL is never a task URL.
- **The list view** (module `TaskView`). `displayTasks` produces either the
  empty-state placeholder or one card per task, in the order received. Card
  text is carried as opaque strings.

`loadTasks` is `async`, so it is modelled in two steps. `Session.LoadTasks` is
the synchronous part: it shows the loading placeholder and returns the GET.
`Session.ReceiveTasks` is the continuation that renders the reply.

Behaviour of the code worth noting:

- `handleTaskSubmit` tests `if (editingTaskId)`, which is JavaScript
  truthiness (`TaskApi.InEditMode`). An edit id equal to the empty string
  therefore leads to a POST. A successful POST then resets the form but leaves
  `editingTaskId` and the "Update Task" text as they were. The contract of
  `Session.HandleTaskSubmit` states exactly this. Edit mode is cleared after a
  successful submit only when it was truthy, which is always the case for the
  non-empty ids the service assigns.
- In the create path, resetting the form does not touch `editingTaskId`.
  Within `handleTaskSubmit`, `cancelEdit` runs only after a successful update
  (frontend/script.js:101). It is also the Cancel button's click handler
  (frontend/script.js:23), which is why `Session.CancelEdit` may be called in
  any state.
- `handleEditSubmit` puts `editingTaskId` into the URL with a template
  literal. Outside edit mode the PUT therefore goes to `<API_URL>/null`. It
  never clears the edit state.
- The filter value comes from the clicked element's `data-filter` attribute
  (`e.target.dataset.filter`). `HandleFilterClick` takes the index of the
  filter button that was clicked.

## Model

| member | source | states |
|---|---|---|
| `StatusLabel.ToUpper` | frontend/script.js:231 | The character changes exactly when it is `a`..`z`, and then becomes the upper-case letter at the same position in the alphabet. No result is a lower-case ASCII letter. |
| `StatusLabel.Split` | frontend/script.js:230 | `split("-")` gives at least one piece, and no piece contains the separator. |
| `StatusLabel.Capitalize` | frontend/script.js:231 | `charAt(0).toUpperCase() + slice(1)`: same length, first character upper-cased, all others unchanged. |
| `StatusLabel.CapitalizeAll` | frontend/script.js:231 | `.map(...)` gives one word per piece, and the `k`-th word is the `k`-th piece capitalized. |
| `StatusLabel.Join` | frontend/script.js:232 | `join(sep)` of no pieces is the empty string, and of one piece is that piece. |
| `StatusLabel.JoinLength` | frontend/script.js:232 | A join is as long as its pieces together plus one separator between each two of them. |
| `StatusLabel.SplitThenJoin` | frontend/script.js:229-232 | Joining the pieces of `split(sep)` with `sep` gives back the original string. |
| `StatusLabel.JoinThenSplit` | frontend/script.js:229-232 | Splitting a `sep`-join of separator-free pieces gives back the same pieces. |
| `StatusLabel.FormatStatus` | frontend/script.js:228-233 | `formatStatus(s)` has the length of `s`, so the empty status gives the empty label. Character by character (`LabelAt`): each `-` becomes a space, the first character of `s` and each character right after a `-` is upper-cased, and every other character is kept. |
| `StatusLabel.FormatStatusHasNoDash` | frontend/script.js:229-232 | No label contains `-`. |
| `StatusLabel.FormatStatusIdempotent` | frontend/script.js:228-233 | Formatting a label a second time leaves it unchanged. |
| `StatusLabel.InProgressLabel` | frontend/script.js:66 | The status `in-progress` is shown as `In Progress`. |
| `TaskApi.ListUrl` | frontend/script.js:35-36 | The list URL is the bare collection address exactly when the filter is `all`. Otherwise it is the address, then `?status=`, then the filter. |
| `TaskApi.TaskUrl` | frontend/script.js:133 | A task URL starts with the collection address, then has `/`, then the id unchanged, and nothing else. |
| `TaskApi.ListRequest` | frontend/script.js:35-38 | `loadTasks` sends a GET with no body to the list URL of the filter, and that URL is never the URL of a single task. |
| `TaskApi.InEditMode` | frontend/script.js:88 | `if (editingTaskId)` is false for `null` and for the empty id, and true for every recorded non-empty id. When it holds, the id interpolates to itself. |
| `TaskApi.Interpolated` | frontend/script.js:174 | A recorded id appears in the URL as it is; `null` appears as the text `null`. |
| `TaskApi.ListUrlInjective` | frontend/script.js:35-36 | Two filters that fetch the same URL are the same filter. |
| `TaskApi.TaskUrlInjective` | frontend/script.js:133 | Two ids that address the same task URL are the same id. |
| `TaskApi.ListUrlIsNeverTaskUrl` | frontend/script.js:35-36 | No list URL equals the task URL of any id. |
| `TaskView.CardOf` | frontend/script.js:62-73 | A card carries its task's title, description, id and creation time unchanged and uses the raw status as its CSS class. Its visible label is `formatStatus` of the status, so it is as long as the status and has no `-`. |
| `TaskView.Display` | frontend/script.js:53-76 | The empty-state placeholder appears exactly when there are no tasks. Otherwise there is one card per task, in input order, carrying that task's id. |
| `TaskView.DisplayedCards` | frontend/script.js:60-75 | Each card keeps its task's title, description, status class and creation time unchanged. Its status label is `formatStatus` of the task's status, has no `-` and is as long as the status. |
| `TaskSession.ModeText` | frontend/script.js:143-161 | The submit button reads either "Add Task" or "Update Task", and "Update Task" exactly when an edit id is recorded. |
| `TaskSession.Session.constructor` | frontend/script.js:3-4 | The session starts with filter `all` and no edit id. The submit button reads "Add Task" and the cancel button is hidden, which assumes the page markup starts that way. The form values, the `active` flags and the list are as the markup has them. |
| `TaskSession.Session.Fill` | frontend/script.js:81-85 | The form values a submit reads are whatever the user last typed. |
| `TaskSession.Session.LoadTasks` | frontend/script.js:31-38 | The list shows the loading placeholder, and the request is the GET for the current filter. |
| `TaskSession.Session.ReceiveTasks` | frontend/script.js:41-50 | A successful reply is rendered by `Display`. Any failure shows the failure placeholder. |
| `TaskSession.Session.CancelEdit` | frontend/script.js:157-162 | The edit id is cleared, the form reset, the button reverts to "Add Task" and the cancel button is hidden. |
| `TaskSession.Session.HandleTaskSubmit` | frontend/script.js:78-129 | Exactly one write per submit: a PUT of the form to the edited task in edit mode, otherwise a POST to the collection. On success the form is reset, edit mode cleared and the list reloaded. On failure nothing changes and there is no reload. |
| `TaskSession.Session.EditTask` | frontend/script.js:131-155 | GETs the task. On success its title, description and status fill the form, the edit id becomes `id` and the button reads "Update Task". On failure the state is unchanged. |
| `TaskSession.Session.HandleEditSubmit` | frontend/script.js:164-195 | PUTs the modal's values to the interpolated edit id, which is `/null` outside edit mode. On success the list is reloaded. The edit state is left alone. |
| `TaskSession.Session.DeleteTask` | frontend/script.js:197-219 | Without confirmation there is no request and no change. With confirmation there is one DELETE for `id`, followed by a reload only on success. |
| `TaskSession.Session.HandleFilterClick` | frontend/script.js:221-226 | Only the clicked button is active. Its filter becomes current and the list is reloaded for it. The edit id and the form are untouched. |

## Left out

- The `fetch` call, `response.json()` and envelope parsing are left out because they are network I/O. Each handler receives the result as an `Outcome` or `Reply`. A transport error and an envelope with `success: false` are both `Failure`/`Failed`, because the script handles them alike.
- `TaskSession.Session.ReceiveTasks`: a reply whose `data` holds a task with a non-string `status` is not modelled, because every status here is a string. In the script, `status.split` would throw inside `displayTasks` (frontend/script.js:229), and the `catch` of `loadTasks` would show the failure placeholder (frontend/script.js:46-49). The model renders every successful reply.
- Error messages and `showNotification` are left out because they are UI and timers. This includes the text of each message (including the service's `error` field), the colours and the auto-dismissal.
- `escapeHtml` is left out because it relies on the browser's `textContent`/`innerHTML` serialisation. Card titles and descriptions are kept as the raw text the page is given.
- `formatDate` is left out because it relies on `Date` parsing and locale formatting. `createdAt` is carried as an opaque string.
- The modal's show/hide, `scrollTo`, the cancel button's CSS `display` value beyond shown/hidden, the style injection and the event-listener wiring are left out because they are UI plumbing.
- Async interleaving is left out. Overlapping `loadTasks` calls can finish in any order, and the last reply wins. The model handles one handler call at a time, and `ReceiveTasks` renders whichever reply it is given.
- `StatusLabel.ToUpper`: ASCII upper-casing only is modelled. JavaScript's `toUpperCase` also maps non-ASCII letters, some of them to more than one character, so for such statuses the length and idempotence results are not claimed.
- `TaskSession.Session.constructor`: the page markup is not part of this model. The initial `active` flags and form values are parameters. The submit button's text "Add Task" and the hidden cancel button are assumed, because `Valid()` requires them while no edit id is recorded. "Exactly one active filter button" is therefore proved after a filter click, not at load time.
- `TaskSession.Session.HandleFilterClick`: the script takes the filter from `e.target`, the innermost element clicked. The model assumes this is the filter button itself, identified by its index. A click on an element nested inside a button is not modelled.
