/** The page session: the module-level state of the client script and the
    event handlers that change it. Network results and the answer to the
    delete confirmation are inputs; each handler returns the request it issues
    and the list reload it triggers, if any. */
module TaskSession {
  import opened TaskApi
  import opened TaskView

  const ADD_TEXT: string := "Add Task"
  const UPDATE_TEXT: string := "Update Task"

  /** The submit button's text for an edit state. */
  function ModeText(editingTaskId: Option<string>): (text: string)
    ensures text == ADD_TEXT || text == UPDATE_TEXT
    ensures text == UPDATE_TEXT <==> editingTaskId.Some?
  {
    if editingTaskId.Some? then UPDATE_TEXT else ADD_TEXT
  }

  class Session {
    /** The `data-filter` value of each filter button, in document order. */
    const filterValues: seq<string>
    /** The values `taskForm.reset()` puts back into the primary form. */
    const defaults: TaskFields

    var currentFilter: string
    var editingTaskId: Option<string>
    /** Text of the primary form's submit button. */
    var submitText: string
    /** Whether the cancel-edit button is displayed. */
    var cancelShown: bool
    /** The values the primary form's inputs hold. */
    var form: TaskFields
    /** Whether each filter button carries the `active` class. */
    var active: array<bool>
    /** The content of the task list. */
    var list: ListView

    /** The submit button and the cancel button always agree with the edit
        state, and there is one `active` flag per filter button. */
    ghost predicate Valid()
      reads this
    {
      && active.Length == |filterValues|
      && submitText == ModeText(editingTaskId)
      && cancelShown == editingTaskId.Some?
    }

    /** The state when the page has loaded, before any handler ran: filter
        `all`, no edit, the form and the buttons as the markup has them. */
    constructor (filterValues: seq<string>, markupActive: seq<bool>, defaults: TaskFields)
      requires |markupActive| == |filterValues|
      ensures Valid() && fresh(active)
      ensures this.filterValues == filterValues && this.defaults == defaults
      ensures currentFilter == "all" && editingTaskId == None
      ensures submitText == ADD_TEXT && !cancelShown
      ensures form == defaults && active[..] == markupActive && list == Markup
    {
      this.filterValues := filterValues;
      this.defaults := defaults;
      currentFilter := "all";
      editingTaskId := None;
      submitText := ADD_TEXT;
      cancelShown := false;
      form := defaults;
      active := new bool[|markupActive|](i requires 0 <= i < |markupActive| => markupActive[i]);
      list := Markup;
    }

    /** The user types into the primary form's inputs. */
    method Fill(values: TaskFields)
      requires Valid()
      modifies this`form
      ensures Valid() && form == values
    {
      form := values;
    }

    /** `loadTasks`, up to the fetch: the list shows the loading placeholder and
        the collection for the current filter is requested. */
    method LoadTasks() returns (request: Request)
      requires Valid()
      modifies this`list
      ensures Valid() && list == Loading
      ensures request == ListRequest(currentFilter)
    {
      list := Loading;
      request := ListRequest(currentFilter);
    }

    /** `loadTasks`, after the fetch: the tasks are displayed, or the failure
        placeholder is shown. */
    method ReceiveTasks(reply: Reply<seq<Task>>)
      requires Valid()
      modifies this`list
      ensures Valid()
      ensures reply.Ok? ==> list == Display(reply.data)
      ensures reply.Failed? ==> list == LoadFailed
    {
      match reply
      case Ok(tasks) => list := Display(tasks);
      case Failed => list := LoadFailed;
    }

    /** `cancelEdit`: leaves edit mode, resets the form and reverts both buttons. */
    method CancelEdit()
      requires Valid()
      modifies this`editingTaskId, this`form, this`submitText, this`cancelShown
      ensures Valid()
      ensures editingTaskId == None && form == defaults
      ensures submitText == ADD_TEXT && !cancelShown
    {
      editingTaskId := None;
      form := defaults;
      submitText := ADD_TEXT;
      cancelShown := false;
    }

    /** `handleTaskSubmit`: exactly one write, a PUT of the form to the edited
        task in edit mode and a POST to the collection otherwise. Only a
        success resets the form, leaves edit mode and reloads the list; a
        failure changes nothing. */
    method HandleTaskSubmit(outcome: Outcome) returns (write: Request, reload: Option<Request>)
      requires Valid()
      modifies this`editingTaskId, this`form, this`submitText, this`cancelShown, this`list
      ensures Valid()
      ensures InEditMode(old(editingTaskId)) ==>
        write == Request(PUT, TaskUrl(old(editingTaskId).value), Some(old(form)))
      ensures !InEditMode(old(editingTaskId)) ==>
        write == Request(POST, API_URL, Some(old(form)))
      ensures outcome == Failure ==> reload == None && unchanged(this)
      ensures outcome == Success ==>
        && reload == Some(ListRequest(currentFilter)) && list == Loading
        && form == defaults
        && editingTaskId == (if InEditMode(old(editingTaskId)) then None else old(editingTaskId))
    {
      var body := Some(form);
      if InEditMode(editingTaskId) {
        write := Request(PUT, TaskUrl(editingTaskId.value), body);
        if outcome == Success {
          CancelEdit();
        }
      } else {
        write := Request(POST, API_URL, body);
        if outcome == Success {
          form := defaults;
        }
      }
      if outcome == Success {
        var r := LoadTasks();
        reload := Some(r);
      } else {
        reload := None;
      }
    }

    /** `editTask`: fetches the task; only on success is its text loaded into
        the form and edit mode entered for `id`. */
    method EditTask(id: string, reply: Reply<Task>) returns (request: Request)
      requires Valid()
      modifies this`editingTaskId, this`form, this`submitText, this`cancelShown
      ensures Valid()
      ensures request == Request(GET, TaskUrl(id), None)
      ensures reply.Failed? ==> unchanged(this)
      ensures reply.Ok? ==>
        && form == TaskFields(reply.data.title, reply.data.description, reply.data.status)
        && editingTaskId == Some(id) && submitText == UPDATE_TEXT && cancelShown
    {
      request := Request(GET, TaskUrl(id), None);
      if reply.Ok? {
        var task := reply.data;
        form := TaskFields(task.title, task.description, task.status);
        editingTaskId := Some(id);
        submitText := UPDATE_TEXT;
        cancelShown := true;
      }
    }

    /** `handleEditSubmit`: PUTs the modal form's values to the task named by
        `editingTaskId` as a template literal writes it, so outside edit mode
        the target is `/null`; a success reloads the list, and the edit state
        is left as it is either way. */
    method HandleEditSubmit(modal: TaskFields, outcome: Outcome) returns (write: Request, reload: Option<Request>)
      requires Valid()
      modifies this`list
      ensures Valid()
      ensures write == Request(PUT, TaskUrl(Interpolated(editingTaskId)), Some(modal))
      ensures editingTaskId == None ==> write.url == API_URL + "/null"
      ensures outcome == Failure ==> reload == None && unchanged(this)
      ensures outcome == Success ==> reload == Some(ListRequest(currentFilter)) && list == Loading
    {
      write := Request(PUT, TaskUrl(Interpolated(editingTaskId)), Some(modal));
      if outcome == Success {
        var r := LoadTasks();
        reload := Some(r);
      } else {
        reload := None;
      }
    }

    /** `deleteTask`: nothing at all unless the user confirms; then one DELETE
        for `id`, and a reload only on success. The session state is untouched. */
    method DeleteTask(id: string, confirmed: bool, outcome: Outcome) returns (write: Option<Request>, reload: Option<Request>)
      requires Valid()
      modifies this`list
      ensures Valid()
      ensures !confirmed ==> write == None && reload == None && unchanged(this)
      ensures confirmed ==> write == Some(Request(DELETE, TaskUrl(id), None))
      ensures confirmed && outcome == Failure ==> reload == None && unchanged(this)
      ensures confirmed && outcome == Success ==> reload == Some(ListRequest(currentFilter)) && list == Loading
    {
      if !confirmed {
        return None, None;
      }
      write := Some(Request(DELETE, TaskUrl(id), None));
      if outcome == Success {
        var r := LoadTasks();
        reload := Some(r);
      } else {
        reload := None;
      }
    }

    /** `handleFilterClick` on the `clicked`-th filter button: every button
        loses `active`, the clicked one gains it, its `data-filter` becomes the
        current filter, and the list is reloaded for it. The edit state and the
        form are not touched. */
    method HandleFilterClick(clicked: nat) returns (reload: Request)
      requires Valid()
      requires clicked < |filterValues|
      modifies this`currentFilter, this`list, active
      ensures Valid()
      ensures forall j :: 0 <= j < active.Length ==> active[j] == (j == clicked)
      ensures currentFilter == filterValues[clicked]
      ensures reload == ListRequest(filterValues[clicked]) && list == Loading
      ensures editingTaskId == old(editingTaskId) && form == old(form)
    {
      var i := 0;
      while i < active.Length
        invariant 0 <= i <= active.Length
        invariant forall j :: 0 <= j < i ==> !active[j]
      {
        active[i] := false;
        i := i + 1;
      }
      active[clicked] := true;
      currentFilter := filterValues[clicked];
      reload := LoadTasks();
    }
  }
}
