/** What the task list shows: a placeholder, or one card per task. */
module TaskView {
  import opened TaskApi
  import opened StatusLabel

  /** One task card. `title`, `description` and `createdAt` are kept as the raw
      text the page is given; `statusClass` is the CSS class, `statusLabel` the
      visible status, and both buttons act on `taskId`. */
  datatype Card = Card(
    title: string,
    description: string,
    statusClass: string,
    statusLabel: string,
    taskId: string,
    createdAt: string)

  /** The content of the task list: whatever the page markup holds before the
      first load, the loading and failure placeholders, the empty-state
      placeholder, or the cards. */
  datatype ListView = Markup | Loading | LoadFailed | NoTasks | Cards(cards: seq<Card>)

  /** The card `displayTasks` writes for one task: the text fields and the id
      as they are, the raw status as the CSS class, and the formatted status,
      which never contains `-`, as the visible label. */
  function CardOf(t: Task): (c: Card)
    ensures c.title == t.title && c.description == t.description
    ensures c.taskId == t.id && c.createdAt == t.createdAt
    ensures c.statusClass == t.status
    ensures c.statusLabel == FormatStatus(t.status)
    ensures |c.statusLabel| == |t.status| && '-' !in c.statusLabel
  {
    FormatStatusHasNoDash(t.status);
    Card(t.title, t.description, t.status, FormatStatus(t.status), t.id, t.createdAt)
  }

  /** `displayTasks`: the empty-state placeholder exactly when there are no
      tasks, otherwise one card per task in the order the service sent them. */
  function Display(tasks: seq<Task>): (view: ListView)
    ensures view == NoTasks <==> tasks == []
    ensures tasks != [] ==> view.Cards? && |view.cards| == |tasks|
    ensures tasks != [] ==> forall i :: 0 <= i < |tasks| ==> view.cards[i].taskId == tasks[i].id
  {
    if |tasks| == 0 then NoTasks
    else Cards(seq(|tasks|, i requires 0 <= i < |tasks| => CardOf(tasks[i])))
  }

  /** Every card shows its task's text and status class unchanged, and a status
      label without `-` of the status's own length. */
  lemma DisplayedCards(tasks: seq<Task>, i: nat)
    requires i < |tasks|
    ensures Display(tasks).Cards?
    ensures var c := Display(tasks).cards[i];
      c.title == tasks[i].title && c.description == tasks[i].description &&
      c.statusClass == tasks[i].status && c.createdAt == tasks[i].createdAt &&
      c.statusLabel == FormatStatus(tasks[i].status) &&
      '-' !in c.statusLabel && |c.statusLabel| == |tasks[i].status|
  {
    FormatStatusHasNoDash(tasks[i].status);
  }
}
