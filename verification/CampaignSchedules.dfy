/** Campaign schedules, their audit log and the background publish tasks:
    app/services/campaign_scheduler.py.

    User operations and queued tasks interleave in any order; each is one step. A task may be
    run at any time after it was queued, and publishing may succeed or fail: it fails when anything
    awaited before the success is logged raises. The clock and the campaign's own row are arguments. */
module CampaignSchedules {
  import opened Results

  datatype Status = Scheduled | Published | Failed | Paused | Cancelled

  datatype Schedule = Schedule(workspace: nat, publishDate: int, status: Status, retryCount: nat, error: Option<string>)

  datatype Action =
    | CreateSchedule | UpdateSchedule | TriggerPublish | PauseSchedule | ResumeSchedule
    | CancelSchedule | RetryPublish | PublishSuccess | PublishFailed

  datatype Entry = Entry(campaign: nat, action: Action)

  datatype Task = Task(campaign: nat, workspace: nat)

  datatype Book = Book(schedules: map<nat, Schedule>, log: seq<Entry>, tasks: seq<Task>)

  datatype Error = NotFound | BadRequest | Conflict

  type Step = Result<Book, Error>

  datatype CampaignState = Missing | Open | Closed

  datatype Publishing = Succeeds | Fails(message: string)

  // ----- The operations

  function Find(b: Book, campaign: nat, workspace: nat): Option<Schedule> {
    if campaign in b.schedules && b.schedules[campaign].workspace == workspace then Some(b.schedules[campaign])
    else None
  }

  function Write(b: Book, campaign: nat, s: Schedule, a: Action): Book {
    b.(schedules := b.schedules[campaign := s], log := b.log + [Entry(campaign, a)])
  }

  function Queue(b: Book, campaign: nat, workspace: nat): Book {
    b.(tasks := b.tasks + [Task(campaign, workspace)])
  }

  /** A campaign has one schedule; a second row for it violates the unique constraint. */
  function ScheduleStep(b: Book, campaign: nat, workspace: nat, date: int, now: int, state: CampaignState): Step {
    if date < now then Err(BadRequest)
    else if state == Missing then Err(NotFound)
    else if state == Closed then Err(BadRequest)
    else
      match Find(b, campaign, workspace)
      case Some(s) =>
        if s.status == Published then Err(BadRequest)
        else Ok(Write(b, campaign, s.(publishDate := date, status := Scheduled, error := None), UpdateSchedule))
      case None =>
        if campaign in b.schedules then Err(Conflict)
        else Ok(Write(b, campaign, Schedule(workspace, date, Scheduled, 0, None), CreateSchedule))
  }

  function PublishStep(b: Book, campaign: nat, workspace: nat, now: int, campaignExists: bool): Step {
    match Find(b, campaign, workspace)
    case Some(s) =>
      if s.status == Published then Err(BadRequest)
      else Ok(Queue(Write(b, campaign, s.(status := Scheduled), TriggerPublish), campaign, workspace))
    case None =>
      if campaign in b.schedules || !campaignExists then Err(Conflict)
      else
        var s := Schedule(workspace, now, Scheduled, 0, None);
        Ok(Queue(Write(b, campaign, s, TriggerPublish), campaign, workspace))
  }

  function PauseStep(b: Book, campaign: nat, workspace: nat): Step {
    match Find(b, campaign, workspace)
    case None => Err(NotFound)
    case Some(s) =>
      if s.status != Scheduled then Err(BadRequest) else Ok(Write(b, campaign, s.(status := Paused), PauseSchedule))
  }

  function ResumeStep(b: Book, campaign: nat, workspace: nat): Step {
    match Find(b, campaign, workspace)
    case None => Err(NotFound)
    case Some(s) =>
      if s.status != Paused then Err(BadRequest) else Ok(Write(b, campaign, s.(status := Scheduled), ResumeSchedule))
  }

  function CancelStep(b: Book, campaign: nat, workspace: nat): Step {
    match Find(b, campaign, workspace)
    case None => Err(NotFound)
    case Some(s) =>
      if s.status == Published || s.status == Cancelled then Err(BadRequest)
      else Ok(Write(b, campaign, s.(status := Cancelled), CancelSchedule))
  }

  function RetryStep(b: Book, campaign: nat, workspace: nat): Step {
    match Find(b, campaign, workspace)
    case None => Err(NotFound)
    case Some(s) =>
      if s.status != Failed then Err(BadRequest)
      else
        var retried := s.(status := Scheduled, retryCount := s.retryCount + 1);
        Ok(Queue(Write(b, campaign, retried, RetryPublish), campaign, workspace))
  }

  function MarkFailed(b: Book, t: Task, message: string): Book {
    match Find(b, t.campaign, t.workspace)
    case None => b
    case Some(s) => Write(b, t.campaign, s.(status := Failed, error := Some(message)), PublishFailed)
  }

  function Without(tasks: seq<Task>, i: nat): seq<Task>
    requires i < |tasks|
  {
    tasks[..i] + tasks[i + 1..]
  }

  /** `execute_publish` for the i-th queued task: if the success notification raises, the `except` branch still runs. */
  function ExecutePublish(b: Book, i: nat, outcome: Publishing, notificationRaises: bool): Book
    requires i < |b.tasks|
  {
    var t, taken := b.tasks[i], b.(tasks := Without(b.tasks, i));
    match outcome
    case Fails(message) => MarkFailed(taken, t, message)
    case Succeeds =>
      match Find(taken, t.campaign, t.workspace)
      case None => taken
      case Some(s) =>
        var done := Write(taken, t.campaign, s.(status := Published, error := None), PublishSuccess);
        if notificationRaises then MarkFailed(done, t, "notification") else done
  }

  class CampaignScheduler {
    var schedules: map<nat, Schedule>
    var log: seq<Entry>
    var tasks: seq<Task>

    function State(): Book
      reads this
    {
      Book(schedules, log, tasks)
    }

    ghost predicate Is(before: Book, error: Option<Error>, s: Step)
      reads this
    {
      match s
      case Ok(b) => error == None && State() == b
      case Err(e) => error == Some(e) && State() == before
    }

    constructor ()
      ensures State() == Book(map[], [], [])
    {
      schedules, log, tasks := map[], [], [];
    }

    method Save(campaign: nat, s: Schedule, a: Action)
      modifies this`schedules, this`log
      ensures State() == Write(old(State()), campaign, s, a)
    {
      schedules := schedules[campaign := s];
      log := log + [Entry(campaign, a)];
    }

    method AddTask(campaign: nat, workspace: nat)
      modifies this`tasks
      ensures State() == Queue(old(State()), campaign, workspace)
    {
      tasks := tasks + [Task(campaign, workspace)];
    }

    method ScheduleCampaign(campaign: nat, workspace: nat, date: int, now: int, state: CampaignState)
      returns (error: Option<Error>)
      modifies this
      ensures Is(old(State()), error, ScheduleStep(old(State()), campaign, workspace, date, now, state))
    {
      if date < now {
        return Some(BadRequest);
      }
      if state == Missing {
        return Some(NotFound);
      }
      if state == Closed {
        return Some(BadRequest);
      }
      var existing := Find(State(), campaign, workspace);
      if existing.Some? {
        var s := existing.value;
        if s.status == Published {
          return Some(BadRequest);
        }
        Save(campaign, s.(publishDate := date, status := Scheduled, error := None), UpdateSchedule);
        return None;
      }
      if campaign in schedules {
        return Some(Conflict);
      }
      Save(campaign, Schedule(workspace, date, Scheduled, 0, None), CreateSchedule);
      return None;
    }

    method PublishImmediately(campaign: nat, workspace: nat, now: int, campaignExists: bool)
      returns (error: Option<Error>)
      modifies this
      ensures Is(old(State()), error, PublishStep(old(State()), campaign, workspace, now, campaignExists))
    {
      var existing := Find(State(), campaign, workspace);
      if existing.Some? && existing.value.status == Published {
        return Some(BadRequest);
      }
      var s;
      if existing.Some? {
        s := existing.value;
      } else {
        if campaign in schedules || !campaignExists {
          return Some(Conflict);
        }
        s := Schedule(workspace, now, Scheduled, 0, None);
      }
      Save(campaign, s.(status := Scheduled), TriggerPublish);
      AddTask(campaign, workspace);
      return None;
    }

    method PauseSchedule(campaign: nat, workspace: nat) returns (error: Option<Error>)
      modifies this
      ensures Is(old(State()), error, PauseStep(old(State()), campaign, workspace))
    {
      var existing := Find(State(), campaign, workspace);
      if existing.None? {
        return Some(NotFound);
      }
      if existing.value.status != Scheduled {
        return Some(BadRequest);
      }
      Save(campaign, existing.value.(status := Paused), Action.PauseSchedule);
      return None;
    }

    method ResumeSchedule(campaign: nat, workspace: nat) returns (error: Option<Error>)
      modifies this
      ensures Is(old(State()), error, ResumeStep(old(State()), campaign, workspace))
    {
      var existing := Find(State(), campaign, workspace);
      if existing.None? {
        return Some(NotFound);
      }
      if existing.value.status != Paused {
        return Some(BadRequest);
      }
      Save(campaign, existing.value.(status := Scheduled), Action.ResumeSchedule);
      return None;
    }

    method CancelSchedule(campaign: nat, workspace: nat) returns (error: Option<Error>)
      modifies this
      ensures Is(old(State()), error, CancelStep(old(State()), campaign, workspace))
    {
      var existing := Find(State(), campaign, workspace);
      if existing.None? {
        return Some(NotFound);
      }
      if existing.value.status == Published || existing.value.status == Cancelled {
        return Some(BadRequest);
      }
      Save(campaign, existing.value.(status := Cancelled), Action.CancelSchedule);
      return None;
    }

    method RetryFailedPublishing(campaign: nat, workspace: nat) returns (error: Option<Error>)
      modifies this
      ensures Is(old(State()), error, RetryStep(old(State()), campaign, workspace))
    {
      var existing := Find(State(), campaign, workspace);
      if existing.None? {
        return Some(NotFound);
      }
      var s := existing.value;
      if s.status != Failed {
        return Some(BadRequest);
      }
      Save(campaign, s.(status := Scheduled, retryCount := s.retryCount + 1), RetryPublish);
      AddTask(campaign, workspace);
      return None;
    }

    /** Runs one queued task. */
    method RunTask(i: nat, outcome: Publishing, notificationRaises: bool)
      requires i < |tasks|
      modifies this
      ensures State() == ExecutePublish(old(State()), i, outcome, notificationRaises)
    {
      var t := tasks[i];
      tasks := Without(tasks, i);
      var raised := None;
      match outcome {
        case Fails(message) => raised := Some(message);
        case Succeeds =>
          var existing := Find(State(), t.campaign, t.workspace);
          if existing.Some? {
            Save(t.campaign, existing.value.(status := Published, error := None), PublishSuccess);
            if notificationRaises {
              raised := Some("notification");
            }
          }
      }
      if raised.Some? {
        var existing := Find(State(), t.campaign, t.workspace);
        if existing.Some? {
          Save(t.campaign, existing.value.(status := Failed, error := raised), PublishFailed);
        }
      }
    }
  }

  // ----- Runs

  datatype Call =
    | CallSchedule(campaign: nat, workspace: nat, date: int, now: int, state: CampaignState)
    | CallPublish(campaign: nat, workspace: nat, now: int, campaignExists: bool)
    | CallPause(campaign: nat, workspace: nat)
    | CallResume(campaign: nat, workspace: nat)
    | CallCancel(campaign: nat, workspace: nat)
    | CallRetry(campaign: nat, workspace: nat)
    | RunTask(i: nat, outcome: Publishing, notificationRaises: bool)

  function Apply(b: Book, c: Call): Step {
    match c
    case CallSchedule(campaign, workspace, date, now, state) => ScheduleStep(b, campaign, workspace, date, now, state)
    case CallPublish(campaign, workspace, now, campaignExists) =>
      PublishStep(b, campaign, workspace, now, campaignExists)
    case CallPause(campaign, workspace) => PauseStep(b, campaign, workspace)
    case CallResume(campaign, workspace) => ResumeStep(b, campaign, workspace)
    case CallCancel(campaign, workspace) => CancelStep(b, campaign, workspace)
    case CallRetry(campaign, workspace) => RetryStep(b, campaign, workspace)
    case RunTask(i, outcome, notificationRaises) =>
      if i < |b.tasks| then Ok(ExecutePublish(b, i, outcome, notificationRaises)) else Ok(b)
  }

  function Next(b: Book, c: Call): Book {
    var s := Apply(b, c);
    if s.Ok? then s.value else b
  }

  const EMPTY := Book(map[], [], [])

  function Continue(b: Book, calls: seq<Call>): Book {
    if calls == [] then b else Next(Continue(b, calls[..|calls| - 1]), calls[|calls| - 1])
  }

  function Reached(calls: seq<Call>): Book {
    Continue(EMPTY, calls)
  }

  /** One user operation, or one queued task if there is one in that place. */
  method Perform(scheduler: CampaignScheduler, c: Call) returns (error: Option<Error>)
    modifies scheduler
    ensures scheduler.Is(old(scheduler.State()), error, Apply(old(scheduler.State()), c))
  {
    match c {
      case CallSchedule(campaign, workspace, date, now, state) =>
        error := scheduler.ScheduleCampaign(campaign, workspace, date, now, state);
      case CallPublish(campaign, workspace, now, campaignExists) =>
        error := scheduler.PublishImmediately(campaign, workspace, now, campaignExists);
      case CallPause(campaign, workspace) => error := scheduler.PauseSchedule(campaign, workspace);
      case CallResume(campaign, workspace) => error := scheduler.ResumeSchedule(campaign, workspace);
      case CallCancel(campaign, workspace) => error := scheduler.CancelSchedule(campaign, workspace);
      case CallRetry(campaign, workspace) => error := scheduler.RetryFailedPublishing(campaign, workspace);
      case RunTask(i, outcome, notificationRaises) =>
        if i < |scheduler.tasks| {
          scheduler.RunTask(i, outcome, notificationRaises);
        }
        error := None;
    }
  }

  /** Any interleaving on a fresh scheduler leaves the book of the run theorems. */
  method PerformAll(calls: seq<Call>) returns (scheduler: CampaignScheduler)
    ensures fresh(scheduler) && scheduler.State() == Reached(calls)
  {
    scheduler := new CampaignScheduler();
    for i := 0 to |calls|
      invariant fresh(scheduler) && scheduler.State() == Reached(calls[..i])
    {
      assert calls[..i + 1][..i] == calls[..i];
      var error := Perform(scheduler, calls[i]);
    }
    assert calls[..|calls|] == calls;
  }

  // ----- What one call does

  /** Nothing but the campaign's row, its log and, if asked, its tasks changed. */
  ghost predicate OnlyFor(b: Book, u: Book, campaign: nat, a: Action, queued: bool) {
    && campaign in u.schedules && u.schedules.Keys == b.schedules.Keys + {campaign}
    && (forall k | k in b.schedules && k != campaign :: u.schedules[k] == b.schedules[k])
    && u.log == b.log + [Entry(campaign, a)]
    && u.tasks == if queued then b.tasks + [Task(campaign, u.schedules[campaign].workspace)] else b.tasks
  }

  /** The row of the campaign in the workspace. */
  predicate RowIn(b: Book, campaign: nat, workspace: nat) {
    campaign in b.schedules && b.schedules[campaign].workspace == workspace
  }

  /** A campaign can be scheduled for no earlier than now, while it is open and not published. */
  lemma ScheduleSucceedsExactly(b: Book, campaign: nat, workspace: nat, date: int, now: int, state: CampaignState)
    ensures ScheduleStep(b, campaign, workspace, date, now, state).Ok?
       <==> && date >= now && state == Open
            && (campaign in b.schedules ==>
                  b.schedules[campaign].workspace == workspace && b.schedules[campaign].status != Published)
    ensures ScheduleStep(b, campaign, workspace, date, now, state) == Err(NotFound) <==> date >= now && state == Missing
    ensures ScheduleStep(b, campaign, workspace, date, now, state) == Err(BadRequest)
       <==> || date < now || state == Closed
            || (state == Open && RowIn(b, campaign, workspace) && b.schedules[campaign].status == Published)
  {
  }

  /** The row has the new date, is SCHEDULED and has no error; the retries it had are kept. */
  lemma ScheduleSetsDate(b: Book, campaign: nat, workspace: nat, date: int, now: int, state: CampaignState)
    requires ScheduleStep(b, campaign, workspace, date, now, state).Ok?
    ensures var u, was := ScheduleStep(b, campaign, workspace, date, now, state).value, Row(b, campaign);
            && OnlyFor(b, u, campaign, if was.Some? then UpdateSchedule else CreateSchedule, false)
            && u.schedules[campaign]
               == Schedule(workspace, date, Scheduled, if was.Some? then was.value.retryCount else 0, None)
  {
  }

  /** Publishing now needs no open campaign and keeps the planned date; a campaign without a row gets one
      for now. */
  lemma PublishQueues(b: Book, campaign: nat, workspace: nat, now: int, campaignExists: bool)
    ensures PublishStep(b, campaign, workspace, now, campaignExists).Ok?
       <==> if campaign in b.schedules then
              b.schedules[campaign].workspace == workspace && b.schedules[campaign].status != Published
            else campaignExists
    ensures PublishStep(b, campaign, workspace, now, campaignExists) == Err(BadRequest)
       <==> RowIn(b, campaign, workspace) && b.schedules[campaign].status == Published
    ensures PublishStep(b, campaign, workspace, now, campaignExists).Err?
        ==> PublishStep(b, campaign, workspace, now, campaignExists).error in {BadRequest, Conflict}
    ensures PublishStep(b, campaign, workspace, now, campaignExists).Ok? ==>
              var u, was := PublishStep(b, campaign, workspace, now, campaignExists).value, Row(b, campaign);
              && OnlyFor(b, u, campaign, TriggerPublish, true)
              && u.schedules[campaign].status == Scheduled && u.schedules[campaign].workspace == workspace
              && (was.Some? ==> u.schedules[campaign] == was.value.(status := Scheduled))
              && (was.None? ==> u.schedules[campaign] == Schedule(workspace, now, Scheduled, 0, None))
  {
  }

  /** Pausing and resuming, which need a SCHEDULED and a PAUSED row, undo each other. */
  lemma PauseResumeRestores(b: Book, campaign: nat, workspace: nat)
    ensures PauseStep(b, campaign, workspace).Ok?
       <==> RowIn(b, campaign, workspace) && b.schedules[campaign].status == Scheduled
    ensures ResumeStep(b, campaign, workspace).Ok?
       <==> RowIn(b, campaign, workspace) && b.schedules[campaign].status == Paused
    ensures PauseStep(b, campaign, workspace).Ok? ==>
              var u := PauseStep(b, campaign, workspace).value;
              && OnlyFor(b, u, campaign, PauseSchedule, false) && u.schedules[campaign].status == Paused
              && ResumeStep(u, campaign, workspace).Ok?
              && ResumeStep(u, campaign, workspace).value.schedules == b.schedules
              && OnlyFor(u, ResumeStep(u, campaign, workspace).value, campaign, ResumeSchedule, false)
  {
    if PauseStep(b, campaign, workspace).Ok? {
      var u := PauseStep(b, campaign, workspace).value;
      assert ResumeStep(u, campaign, workspace).value.schedules == b.schedules;
    }
  }

  /** Cancelling and retrying: which rows allow it, and what becomes of them. */
  lemma CancelAndRetryEffects(b: Book, campaign: nat, workspace: nat)
    ensures CancelStep(b, campaign, workspace).Ok?
       <==> RowIn(b, campaign, workspace) && b.schedules[campaign].status !in {Published, Cancelled}
    ensures CancelStep(b, campaign, workspace).Ok? ==>
              var u := CancelStep(b, campaign, workspace).value;
              && OnlyFor(b, u, campaign, CancelSchedule, false)
              && u.schedules[campaign] == b.schedules[campaign].(status := Cancelled)
    ensures RetryStep(b, campaign, workspace).Ok?
       <==> RowIn(b, campaign, workspace) && b.schedules[campaign].status == Failed
    ensures RetryStep(b, campaign, workspace).Ok? ==>
              var u := RetryStep(b, campaign, workspace).value;
              && OnlyFor(b, u, campaign, RetryPublish, true)
              && u.schedules[campaign].status == Scheduled
              && u.schedules[campaign].retryCount == b.schedules[campaign].retryCount + 1
              && u.schedules[campaign].publishDate == b.schedules[campaign].publishDate
  {
  }

  /** When pausing, resuming, cancelling or retrying is refused: a campaign without a row in the workspace
      is not found, and a row in the wrong status is a bad request. */
  lemma RefusalsTellWhy(b: Book, campaign: nat, workspace: nat, s: Step)
    requires s in {PauseStep(b, campaign, workspace), ResumeStep(b, campaign, workspace),
                   CancelStep(b, campaign, workspace), RetryStep(b, campaign, workspace)}
    ensures s.Err? ==> s.error == if RowIn(b, campaign, workspace) then BadRequest else NotFound
  {
  }

  /** A task leaves the queue. It publishes its campaign and clears the error, or records why it failed. */
  lemma TaskRecordsOutcome(b: Book, i: nat, outcome: Publishing, notificationRaises: bool, k: nat)
    requires i < |b.tasks| && RowIn(b, b.tasks[i].campaign, b.tasks[i].workspace)
    ensures var u, c := ExecutePublish(b, i, outcome, notificationRaises), b.tasks[i].campaign;
            && u.tasks == b.tasks[..i] + b.tasks[i + 1..] && u.schedules.Keys == b.schedules.Keys
            && (k in b.schedules && k != c ==> u.schedules[k] == b.schedules[k])
            && (outcome.Succeeds? && !notificationRaises ==>
                  u.schedules[c].status == Published && u.schedules[c].error == None)
            && (outcome.Fails? ==> u.schedules[c].status == Failed && u.schedules[c].error == Some(outcome.message))
            && u.schedules[c].publishDate == b.schedules[c].publishDate
            && u.schedules[c].retryCount == b.schedules[c].retryCount
  {
  }

  // ----- What the log says

  /** `get_history`, oldest first: the actions logged for one campaign. */
  function History(log: seq<Entry>, campaign: nat): seq<Action> {
    if log == [] then []
    else
      var k := |log| - 1;
      var before := History(log[..k], campaign);
      if log[k].campaign == campaign then before + [log[k].action] else before
  }

  function Effect(a: Action): Status {
    match a
    case PauseSchedule => Paused
    case CancelSchedule => Cancelled
    case PublishSuccess => Published
    case PublishFailed => Failed
    case _ => Scheduled
  }

  function Count(h: seq<Action>, a: Action): nat {
    if h == [] then 0 else Count(h[..|h| - 1], a) + (if h[|h| - 1] == a then 1 else 0)
  }

  /** Every retry answers the failure logged just before it. */
  ghost predicate RetriesFollowFailures(h: seq<Action>) {
    forall i | 0 <= i < |h| && h[i] == RetryPublish :: i > 0 && h[i - 1] == PublishFailed
  }

  function Waiting(tasks: seq<Task>, t: Task): nat {
    if tasks == [] then 0
    else Waiting(tasks[..|tasks| - 1], t) + (if tasks[|tasks| - 1] == t then 1 else 0)
  }

  /** Publish tasks of a campaign that have not run. */
  function Pending(b: Book, campaign: nat): nat {
    if campaign in b.schedules then Waiting(b.tasks, Task(campaign, b.schedules[campaign].workspace)) else 0
  }

  ghost predicate TasksHaveSchedules(b: Book) {
    forall i | 0 <= i < |b.tasks| :: Find(b, b.tasks[i].campaign, b.tasks[i].workspace).Some?
  }

  function Row(b: Book, campaign: nat): Option<Schedule> {
    if campaign in b.schedules then Some(b.schedules[campaign]) else None
  }

  /** A history tells whether there is a schedule, its status and its retry count. */
  ghost predicate Tells(h: seq<Action>, row: Option<Schedule>) {
    && RetriesFollowFailures(h)
    && (row.Some? <==> h != [])
    && (row.Some? ==> row.value.status == Effect(h[|h| - 1]) && row.value.retryCount == Count(h, RetryPublish))
  }

  ghost predicate Determined(b: Book, campaign: nat) {
    Tells(History(b.log, campaign), Row(b, campaign))
  }

  lemma OneMoreWaiting(tasks: seq<Task>, u: Task, t: Task)
    ensures Waiting(tasks + [u], t) == Waiting(tasks, t) + (if u == t then 1 else 0)
  {
    assert (tasks + [u])[..|tasks|] == tasks;
  }

  lemma {:induction false} OneLessWaiting(tasks: seq<Task>, i: nat, t: Task)
    requires i < |tasks|
    ensures Waiting(tasks, t) == Waiting(Without(tasks, i), t) + (if tasks[i] == t then 1 else 0)
    decreases |tasks|
  {
    var k := |tasks| - 1;
    if i == k {
      assert Without(tasks, i) == tasks[..k];
    } else {
      OneLessWaiting(tasks[..k], i, t);
      assert Without(tasks, i) == Without(tasks[..k], i) + [tasks[k]];
      OneMoreWaiting(Without(tasks[..k], i), tasks[k], t);
    }
  }

  lemma {:induction false} NoneWaiting(tasks: seq<Task>, t: Task)
    requires forall i | 0 <= i < |tasks| :: tasks[i] != t
    ensures Waiting(tasks, t) == 0
    decreases |tasks|
  {
    if tasks != [] {
      NoneWaiting(tasks[..|tasks| - 1], t);
    }
  }

  lemma LogOneMore(log: seq<Entry>, e: Entry, campaign: nat)
    ensures History(log + [e], campaign) == History(log, campaign) + (if e.campaign == campaign then [e.action] else [])
  {
    assert (log + [e])[..|log|] == log;
  }

  lemma CountOneMore(h: seq<Action>, a: Action, x: Action)
    ensures Count(h + [a], x) == Count(h, x) + (if a == x then 1 else 0)
  {
    assert (h + [a])[..|h|] == h;
  }

  ghost predicate LogDetermines(b: Book) {
    forall c :: Determined(b, c)
  }

  /** A logged write: the status it stores is the effect it logs, the retry count goes up with a
      retry alone, only failures are retried, and the workspace stays. */
  predicate Honest(row: Option<Schedule>, s: Schedule, a: Action) {
    && s.status == Effect(a)
    && s.retryCount == (if row.Some? then row.value.retryCount else 0) + (if a == RetryPublish then 1 else 0)
    && (a == RetryPublish ==> row.Some? && row.value.status == Failed)
    && (row.Some? ==> row.value.workspace == s.workspace)
  }

  predicate HonestWrite(b: Book, campaign: nat, s: Schedule, a: Action) {
    Honest(Row(b, campaign), s, a)
  }

  lemma HonestEntryTells(h: seq<Action>, row: Option<Schedule>, s: Schedule, a: Action)
    requires Tells(h, row) && Honest(row, s, a)
    ensures Tells(h + [a], Some(s))
  {
    CountOneMore(h, a, RetryPublish);
    assert h == [] ==> Count(h, RetryPublish) == 0;
    if a == RetryPublish {
      assert h[|h| - 1] == PublishFailed;
    }
  }

  lemma WriteDetermines(b: Book, campaign: nat, s: Schedule, a: Action)
    requires LogDetermines(b) && HonestWrite(b, campaign, s, a)
    ensures LogDetermines(Write(b, campaign, s, a))
  {
    forall c ensures Determined(Write(b, campaign, s, a), c) {
      assert Determined(b, c);
      LogOneMore(b.log, Entry(campaign, a), c);
      if c == campaign {
        HonestEntryTells(History(b.log, c), Row(b, c), s, a);
      }
    }
  }

  lemma TasksDoNotMatter(b: Book, tasks: seq<Task>)
    requires LogDetermines(b)
    ensures LogDetermines(b.(tasks := tasks))
  {
    forall c ensures Determined(b.(tasks := tasks), c) {
      assert Determined(b, c);
    }
  }

  predicate Queues(a: Action) {
    a == TriggerPublish || a == RetryPublish
  }

  /** One logged write, with the task it queues if it logs a trigger or a retry. */
  function WriteAndQueue(b: Book, campaign: nat, s: Schedule, a: Action): Book {
    var w := Write(b, campaign, s, a);
    if Queues(a) then Queue(w, campaign, s.workspace) else w
  }

  /** A user operation that succeeds is one honest write, never over a published schedule. */
  lemma UserCallWrites(b: Book, c: Call) returns (campaign: nat, s: Schedule, a: Action)
    requires !c.RunTask? && Apply(b, c).Ok?
    ensures campaign == c.campaign
    ensures HonestWrite(b, campaign, s, a) && a != PublishSuccess && a != PublishFailed
    ensures Row(b, campaign).Some? ==> Row(b, campaign).value.status != Published
    ensures Next(b, c) == WriteAndQueue(b, campaign, s, a)
  {
    campaign := c.campaign;
    s := Next(b, c).schedules[campaign];
    a := Next(b, c).log[|b.log|].action;
  }

  lemma CallDetermines(b: Book, c: Call)
    requires LogDetermines(b)
    ensures LogDetermines(Next(b, c))
  {
    match c {
      case RunTask(i, outcome, _) =>
        if i < |b.tasks| && Find(b, b.tasks[i].campaign, b.tasks[i].workspace).Some? {
          var t, taken := b.tasks[i], b.(tasks := Without(b.tasks, i));
          TasksDoNotMatter(b, taken.tasks);
          var existing := Find(taken, t.campaign, t.workspace);
          var done := taken;
          if outcome.Succeeds? {
            var s := existing.value.(status := Published, error := None);
            WriteDetermines(taken, t.campaign, s, PublishSuccess);
            done := Write(taken, t.campaign, s, PublishSuccess);
          }
          var message := if outcome.Fails? then outcome.message else "notification";
          var failed := done.schedules[t.campaign].(status := Failed, error := Some(message));
          WriteDetermines(done, t.campaign, failed, PublishFailed);
        } else if i < |b.tasks| {
          TasksDoNotMatter(b, Without(b.tasks, i));
        }
      case _ =>
        if Apply(b, c).Ok? {
          var campaign, s, a := UserCallWrites(b, c);
          WriteDetermines(b, campaign, s, a);
          var w := Write(b, campaign, s, a);
          TasksDoNotMatter(w, w.tasks + [Task(campaign, s.workspace)]);
        }
    }
  }

  /** Main result. After every run of user operations and tasks, the audit log of each campaign
      determines its schedule: whether there is one, its status and its retry count. */
  lemma {:induction false} LogDeterminesSchedules(calls: seq<Call>)
    ensures LogDetermines(Reached(calls))
  {
    if calls != [] {
      LogDeterminesSchedules(calls[..|calls| - 1]);
      CallDetermines(Reached(calls[..|calls| - 1]), calls[|calls| - 1]);
    }
  }

  /** There are never more retries than failures. */
  lemma {:induction false} RetriesAreBounded(h: seq<Action>)
    requires RetriesFollowFailures(h)
    ensures Count(h, RetryPublish) + (if h != [] && h[|h| - 1] == PublishFailed then 1 else 0)
         <= Count(h, PublishFailed)
    decreases |h|
  {
    if h != [] {
      RetriesAreBounded(h[..|h| - 1]);
    }
  }

  // ----- Conservation of tasks

  function Weight(a: Action): int {
    match a
    case TriggerPublish => 1
    case RetryPublish => 1
    case PublishSuccess => -1
    case PublishFailed => -1
    case _ => 0
  }

  function Outstanding(h: seq<Action>): int {
    Count(h, TriggerPublish) + Count(h, RetryPublish) - Count(h, PublishSuccess) - Count(h, PublishFailed)
  }

  /** Every task queued has run and logged its outcome, or is waiting. */
  predicate Balanced(b: Book, campaign: nat) {
    Outstanding(History(b.log, campaign)) == Pending(b, campaign)
  }

  ghost predicate TasksConserved(b: Book) {
    TasksHaveSchedules(b) && forall c :: Balanced(b, c)
  }

  lemma OutstandingOneMore(h: seq<Action>, a: Action)
    ensures Outstanding(h + [a]) == Outstanding(h) + Weight(a)
  {
    CountOneMore(h, a, TriggerPublish);
    CountOneMore(h, a, RetryPublish);
    CountOneMore(h, a, PublishSuccess);
    CountOneMore(h, a, PublishFailed);
  }

  lemma WriteOutstanding(b: Book, campaign: nat, s: Schedule, a: Action, c: nat)
    ensures Outstanding(History(Write(b, campaign, s, a).log, c))
         == Outstanding(History(b.log, c)) + (if c == campaign then Weight(a) else 0)
  {
    LogOneMore(b.log, Entry(campaign, a), c);
    OutstandingOneMore(History(b.log, c), a);
  }

  lemma WriteKeepsPending(b: Book, campaign: nat, s: Schedule, a: Action, k: nat)
    requires TasksHaveSchedules(b) && HonestWrite(b, campaign, s, a)
    ensures TasksHaveSchedules(Write(b, campaign, s, a))
    ensures Pending(Write(b, campaign, s, a), k) == Pending(b, k)
  {
    var w, own := Write(b, campaign, s, a), Task(campaign, s.workspace);
    forall i | 0 <= i < |w.tasks| ensures Find(w, w.tasks[i].campaign, w.tasks[i].workspace).Some? {
      assert Find(b, b.tasks[i].campaign, b.tasks[i].workspace).Some?;
    }
    if campaign !in b.schedules {
      assert forall i | 0 <= i < |b.tasks| :: Find(b, b.tasks[i].campaign, b.tasks[i].workspace).Some?;
      NoneWaiting(b.tasks, own);
    }
  }

  lemma QueuePending(b: Book, campaign: nat, workspace: nat, k: nat)
    requires TasksHaveSchedules(b) && Find(b, campaign, workspace).Some?
    ensures TasksHaveSchedules(Queue(b, campaign, workspace))
    ensures Pending(Queue(b, campaign, workspace), k) == Pending(b, k) + (if k == campaign then 1 else 0)
  {
    if k in b.schedules {
      OneMoreWaiting(b.tasks, Task(campaign, workspace), Task(k, b.schedules[k].workspace));
    }
  }

  lemma WriteAndQueueOutstanding(b: Book, campaign: nat, s: Schedule, a: Action, k: nat)
    requires a != PublishSuccess && a != PublishFailed
    ensures Outstanding(History(WriteAndQueue(b, campaign, s, a).log, k))
         == Outstanding(History(b.log, k)) + (if k == campaign && Queues(a) then 1 else 0)
  {
    WriteOutstanding(b, campaign, s, a, k);
    assert Weight(a) == if Queues(a) then 1 else 0;
  }

  lemma WriteAndQueuePending(b: Book, campaign: nat, s: Schedule, a: Action, k: nat)
    requires TasksHaveSchedules(b) && HonestWrite(b, campaign, s, a)
    ensures TasksHaveSchedules(WriteAndQueue(b, campaign, s, a))
    ensures Pending(WriteAndQueue(b, campaign, s, a), k)
         == Pending(b, k) + (if k == campaign && Queues(a) then 1 else 0)
  {
    WriteKeepsPending(b, campaign, s, a, k);
    if Queues(a) {
      QueuePending(Write(b, campaign, s, a), campaign, s.workspace, k);
    }
  }

  /** What the first half of a task leaves: the task taken and its first outcome logged. */
  lemma FirstOutcome(b: Book, i: nat, s: Schedule, a: Action, k: nat)
    requires TasksHaveSchedules(b) && i < |b.tasks| && (a == PublishSuccess || a == PublishFailed)
    requires HonestWrite(b, b.tasks[i].campaign, s, a)
    ensures var t, done := b.tasks[i], Write(b.(tasks := Without(b.tasks, i)), b.tasks[i].campaign, s, a);
            && TasksHaveSchedules(done)
            && Outstanding(History(done.log, k)) == Outstanding(History(b.log, k)) - (if k == t.campaign then 1 else 0)
            && Pending(done, k) == Pending(b, k) - (if k == t.campaign then 1 else 0)
  {
    var t, taken := b.tasks[i], b.(tasks := Without(b.tasks, i));
    assert Find(b, t.campaign, t.workspace).Some?;
    WithoutKeepsSchedules(b, i);
    WriteOutstanding(taken, t.campaign, s, a, k);
    WriteKeepsPending(taken, t.campaign, s, a, k);
    if k in b.schedules {
      OneLessWaiting(b.tasks, i, Task(k, b.schedules[k].workspace));
    }
  }

  /** A task that runs is one waiting task less and one logged outcome more; two, if the success
      notification raises after a successful publish. */
  lemma TaskOutstanding(b: Book, i: nat, outcome: Publishing, notificationRaises: bool, k: nat)
    requires TasksHaveSchedules(b) && i < |b.tasks|
    ensures TasksHaveSchedules(ExecutePublish(b, i, outcome, notificationRaises))
    ensures var after := ExecutePublish(b, i, outcome, notificationRaises);
            var logged := if outcome.Succeeds? && notificationRaises then 2 else 1;
            && Outstanding(History(after.log, k))
               == Outstanding(History(b.log, k)) - (if k == b.tasks[i].campaign then logged else 0)
            && Pending(after, k) == Pending(b, k) - (if k == b.tasks[i].campaign then 1 else 0)
  {
    var t, taken := b.tasks[i], b.(tasks := Without(b.tasks, i));
    assert Find(b, t.campaign, t.workspace).Some?;
    var s := b.schedules[t.campaign];
    match outcome {
      case Fails(message) =>
        FirstOutcome(b, i, s.(status := Failed, error := Some(message)), PublishFailed, k);
      case Succeeds =>
        var s1 := s.(status := Published, error := None);
        FirstOutcome(b, i, s1, PublishSuccess, k);
        if notificationRaises {
          var done := Write(taken, t.campaign, s1, PublishSuccess);
          var s2 := s1.(status := Failed, error := Some("notification"));
          WriteOutstanding(done, t.campaign, s2, PublishFailed, k);
          WriteKeepsPending(done, t.campaign, s2, PublishFailed, k);
        }
    }
  }

  lemma WithoutKeepsSchedules(b: Book, i: nat)
    requires TasksHaveSchedules(b) && i < |b.tasks|
    ensures TasksHaveSchedules(b.(tasks := Without(b.tasks, i)))
  {
    var rest := Without(b.tasks, i);
    forall j | 0 <= j < |rest| ensures Find(b, rest[j].campaign, rest[j].workspace).Some? {
      assert rest[j] == b.tasks[if j < i then j else j + 1];
    }
  }

  lemma TaskBalance(b: Book, i: nat, outcome: Publishing, notificationRaises: bool, k: nat)
    requires TasksHaveSchedules(b) && Balanced(b, k) && i < |b.tasks|
    ensures Balanced(ExecutePublish(b, i, outcome, notificationRaises), k)
       <==> k != b.tasks[i].campaign || !(outcome.Succeeds? && notificationRaises)
  {
    TaskOutstanding(b, i, outcome, notificationRaises, k);
  }

  /** Running a task keeps the balance exactly when its success notification does not raise. */
  lemma TaskConservesExactly(b: Book, i: nat, outcome: Publishing, notificationRaises: bool)
    requires TasksConserved(b) && i < |b.tasks|
    ensures TasksConserved(ExecutePublish(b, i, outcome, notificationRaises))
       <==> !(outcome.Succeeds? && notificationRaises)
  {
    TaskOutstanding(b, i, outcome, notificationRaises, b.tasks[i].campaign);
    TaskBalance(b, i, outcome, notificationRaises, b.tasks[i].campaign);
    if !(outcome.Succeeds? && notificationRaises) {
      forall k ensures Balanced(ExecutePublish(b, i, outcome, notificationRaises), k) {
        TaskBalance(b, i, outcome, notificationRaises, k);
      }
    }
  }

  /** The call runs a task of the campaign that succeeds and whose success notification raises. */
  predicate LogsTwice(b: Book, campaign: nat, c: Call) {
    && c.RunTask? && c.i < |b.tasks| && b.tasks[c.i].campaign == campaign
    && c.outcome.Succeeds? && c.notificationRaises
  }

  lemma CallAccounts(b: Book, campaign: nat, c: Call)
    requires TasksHaveSchedules(b)
    ensures TasksHaveSchedules(Next(b, c))
    ensures Outstanding(History(Next(b, c).log, campaign)) - Pending(Next(b, c), campaign)
         == Outstanding(History(b.log, campaign)) - Pending(b, campaign) - (if LogsTwice(b, campaign, c) then 1 else 0)
  {
    if c.RunTask? {
      if c.i < |b.tasks| {
        TaskOutstanding(b, c.i, c.outcome, c.notificationRaises, campaign);
      }
    } else if Apply(b, c).Ok? {
      var k, s, a := UserCallWrites(b, c);
      WriteAndQueueOutstanding(b, k, s, a, campaign);
      WriteAndQueuePending(b, k, s, a, campaign);
    }
  }

  /** How many calls of a run log two outcomes for the campaign. */
  function LoggedTwice(calls: seq<Call>, campaign: nat): nat {
    if calls == [] then 0
    else
      var before, c := calls[..|calls| - 1], calls[|calls| - 1];
      LoggedTwice(before, campaign) + (if LogsTwice(Reached(before), campaign, c) then 1 else 0)
  }

  /** Main result: over every run, triggers plus retries plus the outcomes logged in excess equal
      waiting tasks plus successes plus failures. */
  lemma {:induction false} TasksAreAccounted(calls: seq<Call>, campaign: nat)
    ensures TasksHaveSchedules(Reached(calls))
    ensures Outstanding(History(Reached(calls).log, campaign)) + LoggedTwice(calls, campaign)
         == Pending(Reached(calls), campaign)
  {
    if calls != [] {
      TasksAreAccounted(calls[..|calls| - 1], campaign);
      CallAccounts(Reached(calls[..|calls| - 1]), campaign, calls[|calls| - 1]);
    }
  }

  /** So the balance holds at the end of a run if and only if no success notification raised in it. */
  lemma BalancedExactly(calls: seq<Call>, campaign: nat)
    ensures Balanced(Reached(calls), campaign) <==> LoggedTwice(calls, campaign) == 0
  {
    TasksAreAccounted(calls, campaign);
  }

  /** The notifier of a published campaign raising once is enough to lose the balance. */
  lemma RaisingNotificationLosesBalance(campaign: nat, workspace: nat, now: int)
    ensures !Balanced(Reached([CallPublish(campaign, workspace, now, true), RunTask(0, Succeeds, true)]), campaign)
  {
    var publish, run := CallPublish(campaign, workspace, now, true), RunTask(0, Succeeds, true);
    FirstTwoCalls(publish, run);
    assert [publish, run][..1] == [publish];
    assert LoggedTwice([publish, run], campaign) > 0 by {
      assert Reached([publish]).tasks == [Task(campaign, workspace)];
    }
    BalancedExactly([publish, run], campaign);
  }

  lemma NextCall(b: Book, calls: seq<Call>, c: Call)
    ensures Continue(b, calls + [c]) == Next(Continue(b, calls), c)
  {
    assert (calls + [c])[..|calls|] == calls;
  }

  lemma FirstTwoCalls(c: Call, d: Call)
    ensures Reached([c]) == Next(EMPTY, c)
    ensures Reached([c, d]) == Next(Next(EMPTY, c), d)
  {
    NextCall(EMPTY, [], c);
    NextCall(EMPTY, [c], d);
    assert [c] + [d] == [c, d];
  }

  // ----- Who can leave PUBLISHED

  predicate IsPublished(b: Book, campaign: nat) {
    campaign in b.schedules && b.schedules[campaign].status == Published
  }

  /** No user operation changes the row or the history of a published campaign, or queues a task
      for it. */
  lemma UsersCannotUnpublish(b: Book, campaign: nat, c: Call)
    requires IsPublished(b, campaign) && !c.RunTask?
    ensures Row(Next(b, c), campaign) == Row(b, campaign)
    ensures History(Next(b, c).log, campaign) == History(b.log, campaign)
    ensures Pending(Next(b, c), campaign) == Pending(b, campaign)
  {
    if Apply(b, c).Ok? {
      var k, s, a := UserCallWrites(b, c);
      LogOneMore(b.log, Entry(k, a), campaign);
      OneMoreWaiting(b.tasks, Task(k, s.workspace), Task(campaign, b.schedules[campaign].workspace));
    }
  }

  /** The call runs a task of the campaign that logs a failure. */
  predicate RunsFailing(b: Book, campaign: nat, c: Call)
    requires campaign in b.schedules
  {
    && c.RunTask? && c.i < |b.tasks| && b.tasks[c.i] == Task(campaign, b.schedules[campaign].workspace)
    && (c.outcome.Fails? || c.notificationRaises)
  }

  /** One call takes a campaign out of PUBLISHED exactly when it runs one of its tasks and that task
      fails or its notification raises. */
  lemma CallUnpublishesExactly(b: Book, campaign: nat, c: Call)
    requires IsPublished(b, campaign)
    ensures !IsPublished(Next(b, c), campaign) <==> RunsFailing(b, campaign, c)
  {
    if !c.RunTask? {
      UsersCannotUnpublish(b, campaign, c);
    }
  }

  lemma IdleCampaignStaysIdle(b: Book, campaign: nat, c: Call)
    requires IsPublished(b, campaign) && Pending(b, campaign) == 0
    ensures IsPublished(Next(b, c), campaign) && Pending(Next(b, c), campaign) == 0
  {
    if !c.RunTask? {
      UsersCannotUnpublish(b, campaign, c);
    } else if c.i < |b.tasks| {
      OneLessWaiting(b.tasks, c.i, Task(campaign, b.schedules[campaign].workspace));
      CallUnpublishesExactly(b, campaign, c);
      TaskKeepsWorkspace(b, c.i, c.outcome, c.notificationRaises, campaign);
    }
  }

  lemma TaskKeepsWorkspace(b: Book, i: nat, outcome: Publishing, notificationRaises: bool, campaign: nat)
    requires i < |b.tasks| && campaign in b.schedules
    ensures var after := ExecutePublish(b, i, outcome, notificationRaises);
            && after.tasks == Without(b.tasks, i) && campaign in after.schedules
            && after.schedules[campaign].workspace == b.schedules[campaign].workspace
  {
  }

  lemma {:induction false} IdleCampaignStaysPublished(b: Book, campaign: nat, calls: seq<Call>)
    requires IsPublished(b, campaign) && Pending(b, campaign) == 0
    ensures IsPublished(Continue(b, calls), campaign) && Pending(Continue(b, calls), campaign) == 0
  {
    if calls != [] {
      IdleCampaignStaysPublished(b, campaign, calls[..|calls| - 1]);
      IdleCampaignStaysIdle(Continue(b, calls[..|calls| - 1]), campaign, calls[|calls| - 1]);
    }
  }

  lemma {:induction false} FindWaiting(tasks: seq<Task>, t: Task) returns (i: nat)
    requires Waiting(tasks, t) > 0
    ensures i < |tasks| && tasks[i] == t
  {
    if tasks[|tasks| - 1] == t {
      i := |tasks| - 1;
    } else {
      i := FindWaiting(tasks[..|tasks| - 1], t);
    }
  }

  /** Main result: a published campaign stays published through every continuation if and only if
      none of its tasks is waiting. */
  lemma StaysPublishedExactly(b: Book, campaign: nat)
    requires IsPublished(b, campaign)
    ensures (forall calls: seq<Call> :: IsPublished(Continue(b, calls), campaign)) <==> Pending(b, campaign) == 0
  {
    if Pending(b, campaign) == 0 {
      forall calls: seq<Call> ensures IsPublished(Continue(b, calls), campaign) {
        IdleCampaignStaysPublished(b, campaign, calls);
      }
    } else {
      var i := FindWaiting(b.tasks, Task(campaign, b.schedules[campaign].workspace));
      var run := RunTask(i, Fails("refused"), false);
      CallUnpublishesExactly(b, campaign, run);
      NextCall(b, [], run);
      assert [] + [run] == [run];
    }
  }

  /** Published twice, the first task succeeds and the second fails. */
  lemma TaskCanUnpublish(campaign: nat, workspace: nat, now: int, message: string)
    ensures var publish := CallPublish(campaign, workspace, now, true);
            var b := Reached([publish, publish, RunTask(0, Succeeds, false)]);
            && IsPublished(b, campaign)
            && campaign in Next(b, RunTask(0, Fails(message), false)).schedules
            && Next(b, RunTask(0, Fails(message), false)).schedules[campaign].status == Failed
  {
    var publish, run := CallPublish(campaign, workspace, now, true), RunTask(0, Succeeds, false);
    FirstTwoCalls(publish, publish);
    NextCall(EMPTY, [publish, publish], run);
    assert [publish, publish] + [run] == [publish, publish, run];
    var b1, b2, t := Reached([publish]), Reached([publish, publish]), Task(campaign, workspace);
    assert b1.tasks == [t] && Row(b1, campaign) == Some(Schedule(workspace, now, Scheduled, 0, None));
    assert b2.tasks == [t, t] && Row(b2, campaign) == Row(b1, campaign);
    assert Without([t, t], 0) == [t];
  }

  // ----- Who can still become PUBLISHED

  /** A task, or a user operation on another campaign. */
  predicate LeavesAlone(campaign: nat, c: Call) {
    c.RunTask? || c.campaign != campaign
  }

  ghost predicate AllLeaveAlone(campaign: nat, calls: seq<Call>) {
    forall i | 0 <= i < |calls| :: LeavesAlone(campaign, calls[i])
  }

  lemma OthersDoNotMatter(b: Book, campaign: nat, c: Call)
    requires campaign in b.schedules && !c.RunTask? && c.campaign != campaign
    ensures Row(Next(b, c), campaign) == Row(b, campaign) && Pending(Next(b, c), campaign) == Pending(b, campaign)
  {
    if Apply(b, c).Ok? {
      var k, s, a := UserCallWrites(b, c);
      OneMoreWaiting(b.tasks, Task(k, s.workspace), Task(campaign, b.schedules[campaign].workspace));
    }
  }

  /** Without a waiting task, nothing but its users moves a campaign's row. */
  lemma IdleRowStands(b: Book, campaign: nat, c: Call)
    requires campaign in b.schedules && Pending(b, campaign) == 0 && LeavesAlone(campaign, c)
    ensures Row(Next(b, c), campaign) == Row(b, campaign) && Pending(Next(b, c), campaign) == 0
  {
    if !c.RunTask? {
      OthersDoNotMatter(b, campaign, c);
    } else if c.i < |b.tasks| {
      OneLessWaiting(b.tasks, c.i, Task(campaign, b.schedules[campaign].workspace));
      TaskKeepsWorkspace(b, c.i, c.outcome, c.notificationRaises, campaign);
      OtherTaskKeepsRow(b, c.i, c.outcome, c.notificationRaises, campaign);
    }
  }

  lemma OtherTaskKeepsRow(b: Book, i: nat, outcome: Publishing, notificationRaises: bool, campaign: nat)
    requires i < |b.tasks| && campaign in b.schedules
    requires b.tasks[i] != Task(campaign, b.schedules[campaign].workspace)
    ensures Row(ExecutePublish(b, i, outcome, notificationRaises), campaign) == Row(b, campaign)
  {
  }

  lemma {:induction false} IdleRowStandsThroughout(b: Book, campaign: nat, calls: seq<Call>)
    requires campaign in b.schedules && Pending(b, campaign) == 0 && AllLeaveAlone(campaign, calls)
    ensures Row(Continue(b, calls), campaign) == Row(b, campaign) && Pending(Continue(b, calls), campaign) == 0
  {
    if calls != [] {
      IdleRowStandsThroughout(b, campaign, calls[..|calls| - 1]);
      IdleRowStands(Continue(b, calls[..|calls| - 1]), campaign, calls[|calls| - 1]);
    }
  }

  /** Main result: a task does not look at the status, so a campaign that its users paused, cancelled
      or left alone stays unpublished whatever else happens if and only if none of its tasks is
      waiting. */
  lemma StaysUnpublishedExactly(b: Book, campaign: nat)
    requires campaign in b.schedules && !IsPublished(b, campaign)
    ensures (forall calls: seq<Call> | AllLeaveAlone(campaign, calls) :: !IsPublished(Continue(b, calls), campaign))
       <==> Pending(b, campaign) == 0
  {
    if Pending(b, campaign) == 0 {
      forall calls: seq<Call> | AllLeaveAlone(campaign, calls) ensures !IsPublished(Continue(b, calls), campaign) {
        IdleRowStandsThroughout(b, campaign, calls);
      }
    } else {
      var i := FindWaiting(b.tasks, Task(campaign, b.schedules[campaign].workspace));
      var run := RunTask(i, Succeeds, false);
      NextCall(b, [], run);
      assert [] + [run] == [run];
      assert AllLeaveAlone(campaign, [run]);
      assert IsPublished(Continue(b, [run]), campaign);
    }
  }

  /** Published and cancelled at once: the cancellation succeeds, and the task publishes all the same. */
  lemma CancelledCampaignIsPublished(campaign: nat, workspace: nat, now: int)
    ensures var publish, cancel := CallPublish(campaign, workspace, now, true), CallCancel(campaign, workspace);
            var b := Reached([publish, cancel]);
            && campaign in b.schedules && b.schedules[campaign].status == Cancelled
            && IsPublished(Next(b, RunTask(0, Succeeds, false)), campaign)
  {
    FirstTwoCalls(CallPublish(campaign, workspace, now, true), CallCancel(campaign, workspace));
  }
}
