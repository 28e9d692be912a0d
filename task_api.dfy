/** The REST resource the client talks to: its base address, the requests the
    handlers issue, and the shapes of what is sent and received. */
module TaskApi {

  datatype Option<T> = None | Some(value: T)

  /** The fixed base address of the task collection. */
  const API_URL: string := "https://task-manager-backend-k6f5.onrender.com/api/tasks"

  /** The query that narrows the collection to one status. */
  const STATUS_QUERY: string := "?status="

  datatype Verb = GET | POST | PUT | DELETE

  /** The three values a form submits for a create or an update. */
  datatype TaskFields = TaskFields(title: string, description: string, status: string)

  /** A task as the service returns it; `id` and `createdAt` are assigned by the service. */
  datatype Task = Task(id: string, title: string, description: string, status: string, createdAt: string)

  /** One HTTP request: its method, its URL and, for writes, the JSON body. */
  datatype Request = Request(verb: Verb, url: string, body: Option<TaskFields>)

  /** What became of a write: `Success` is an envelope with `success: true`;
      `Failure` is a transport error or an envelope with `success: false`. */
  datatype Outcome = Success | Failure

  /** What became of a read: the envelope's `data`, or a failure of either kind. */
  datatype Reply<T> = Ok(data: T) | Failed

  /** The URL `loadTasks` fetches for a filter: the whole collection for `all`,
      the collection narrowed to that status otherwise. */
  function ListUrl(filter: string): (url: string)
    ensures url == API_URL <==> filter == "all"
    ensures filter != "all" ==> url == API_URL + STATUS_QUERY + filter
  {
    if filter == "all" then API_URL else API_URL + STATUS_QUERY + filter
  }

  /** The URL of one task: the collection address, a `/`, and the id as it is. */
  function TaskUrl(id: string): (url: string)
    ensures |url| == |API_URL| + 1 + |id|
    ensures url[..|API_URL|] == API_URL
    ensures url[|API_URL|] == '/' && url[|API_URL| + 1..] == id
  {
    API_URL + "/" + id
  }

  /** The request `loadTasks` issues: a read of the list URL of the filter,
      which is never the URL of a single task. */
  function ListRequest(filter: string): (r: Request)
    ensures r.verb == GET && r.body == None
    ensures r.url == ListUrl(filter)
    ensures forall id :: r.url != TaskUrl(id)
  {
    ListUrlIsNeverTaskUrl(filter);
    Request(GET, ListUrl(filter), None)
  }

  /** `if (editingTaskId)`: JavaScript truthiness, so `null` and the empty
      string both mean "not editing". */
  predicate InEditMode(editingTaskId: Option<string>): (editing: bool)
    ensures editingTaskId == None ==> !editing
    ensures editingTaskId == Some("") ==> !editing
    ensures editingTaskId.Some? && editingTaskId.value != "" ==> editing
    ensures editing ==> editingTaskId.Some? && Interpolated(editingTaskId) == editingTaskId.value
  {
    editingTaskId.Some? && editingTaskId.value != ""
  }

  /** `${editingTaskId}` in a template literal: `null` is written as `null`. */
  function Interpolated(editingTaskId: Option<string>): (text: string)
    ensures editingTaskId.Some? ==> text == editingTaskId.value
    ensures editingTaskId.None? ==> text == "null"
  {
    if editingTaskId.Some? then editingTaskId.value else "null"
  }

  /** Different filters fetch different URLs, so a list request names the
      filter it was made for. */
  lemma ListUrlInjective(f: string, g: string)
    requires ListUrl(f) == ListUrl(g)
    ensures f == g
  {
    if f != "all" && g != "all" {
      var n := |API_URL + STATUS_QUERY|;
      assert f == ListUrl(f)[n..];
      assert g == ListUrl(g)[n..];
    }
  }

  /** Different ids give different task URLs. */
  lemma TaskUrlInjective(a: string, b: string)
    requires TaskUrl(a) == TaskUrl(b)
    ensures a == b
  {
  }

  /** A list request and a single-task request never share a URL: the
      character after the base address is `?` in one and `/` in the other, and
      the unfiltered list URL is shorter than every task URL. */
  lemma ListUrlIsNeverTaskUrl(filter: string)
    ensures forall id :: ListUrl(filter) != TaskUrl(id)
  {
    forall id
      ensures ListUrl(filter) != TaskUrl(id)
    {
      if filter != "all" {
        assert ListUrl(filter)[|API_URL|] == '?';
      }
    }
  }
}
