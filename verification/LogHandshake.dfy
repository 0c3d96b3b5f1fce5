/**
 Waking the page: producers on any thread queue entries under a lock and post one message; the page's
 own thread turns the message into a timer, and the timer into flushes of one batch each.  Posting
 and arming the timer can fail.
 */
module LogHandshake {
  import opened LogQueue

  /** Where the page's thread is; producers can run between any two of its steps. */
  datatype Ui =
    | Idle
    | TimerRefused                 // arming failed, not yet reported to the queue
    | Flushing                     // the timer is off, the batch not yet taken
    | Appended(hasMore: bool)      // the batch is taken
    | Clearing                     // the queue is cleared, the timer not yet off

  datatype Page<T> = Page(queue: State<T>, messages: nat, timer: bool, ui: Ui, shown: seq<T>)

  datatype Event<T> =
    | Produce(value: T, posts: bool)   // on any thread, under the lock
    | Dispatch(arms: bool)             // the posted message
    | ReportRefusal
    | Fire                             // the timer
    | TakeBatch
    | Continue(arms: bool)             // the end of a flush
    | BeginClear
    | EndClear

  predicate Enabled<T>(p: Page<T>, e: Event<T>) {
    match e
    case Produce(_, _) => true
    case Dispatch(_) => p.ui.Idle? && p.messages > 0
    case ReportRefusal => p.ui.TimerRefused?
    case Fire => p.ui.Idle? && p.timer
    case TakeBatch => p.ui.Flushing?
    case Continue(_) => p.ui.Appended?
    case BeginClear => p.ui.Idle?
    case EndClear => p.ui.Clearing?
  }

  /** One notification starts one timer. */
  function Schedule<T>(p: Page<T>, arms: bool): Page<T> {
    if p.timer then p.(ui := Idle)
    else if arms then p.(timer := true, ui := Idle)
    else p.(ui := TimerRefused)
  }

  function Next<T>(p: Page<T>, e: Event<T>, capacity: nat, batchSize: nat): Page<T>
    requires capacity > 0 && Enabled(p, e)
  {
    match e
    case Produce(v, posts) =>
      var pushed := Push(p.queue, v, capacity);
      if !pushed.notify then p.(queue := pushed.state)
      else if posts then p.(queue := pushed.state, messages := p.messages + 1)
      else p.(queue := PostFailed(pushed.state))
    case Dispatch(arms) => Schedule(p.(messages := p.messages - 1), arms)
    case ReportRefusal => p.(queue := PostFailed(p.queue), ui := Idle)
    case Fire => p.(timer := false, ui := Flushing)
    case TakeBatch =>
      var taken := Take(p.queue, batchSize);
      p.(queue := taken.state, ui := Appended(taken.batch.hasMore), shown := p.shown + taken.batch.entries)
    case Continue(arms) => if p.ui.hasMore then Schedule(p, arms) else p.(ui := Idle)
    case BeginClear => p.(queue := Empty(), ui := Clearing)
    case EndClear => p.(timer := false, ui := Idle, shown := [])
  }

  /** Something is on its way that will flush the queue. */
  predicate Awake<T>(p: Page<T>) {
    || p.messages > 0
    || (p.timer && !p.ui.Clearing?)
    || p.ui.Flushing?
    || (p.ui.Appended? && p.ui.hasMore)
  }

  /** While a notification counts as pending, a flush is on its way or a refusal is about to be reported. */
  predicate NoLostWakeup<T>(p: Page<T>) {
    && (p.queue.notificationPending ==> Awake(p) || p.ui.TimerRefused?)
    && (p.ui.TimerRefused? || p.ui.Flushing? || p.ui.Appended? ==> !p.timer)
    && (p.ui.Appended? && !p.ui.hasMore && p.queue.notificationPending ==> p.messages > 0)
  }

  function Start<T>(): Page<T> {
    Page(Empty(), 0, false, Idle, [])
  }

  lemma StepKeepsWakeup<T>(p: Page<T>, e: Event<T>, capacity: nat, batchSize: nat)
    requires capacity > 0 && batchSize > 0 && Enabled(p, e) && NoLostWakeup(p)
    ensures NoLostWakeup(Next(p, e, capacity, batchSize))
  {
  }

  // ---- Every interleaving ----

  /** A run: each event is enabled where it happens. */
  predicate IsRun<T>(p: Page<T>, events: seq<Event<T>>, capacity: nat, batchSize: nat)
    requires capacity > 0
    decreases |events|
  {
    events == [] ||
    (Enabled(p, events[0]) && IsRun(Next(p, events[0], capacity, batchSize), events[1..], capacity, batchSize))
  }

  function After<T>(p: Page<T>, events: seq<Event<T>>, capacity: nat, batchSize: nat): Page<T>
    requires capacity > 0 && IsRun(p, events, capacity, batchSize)
    decreases |events|
  {
    if events == [] then p else After(Next(p, events[0], capacity, batchSize), events[1..], capacity, batchSize)
  }

  /** In every interleaving of producers with the page, clears and failures included, no wakeup is lost. */
  lemma {:induction false} RunKeepsWakeup<T>(p: Page<T>, events: seq<Event<T>>, capacity: nat, batchSize: nat)
    requires capacity > 0 && batchSize > 0 && IsRun(p, events, capacity, batchSize) && NoLostWakeup(p)
    ensures NoLostWakeup(After(p, events, capacity, batchSize))
    decreases |events|
  {
    if events != [] {
      StepKeepsWakeup(p, events[0], capacity, batchSize);
      RunKeepsWakeup(Next(p, events[0], capacity, batchSize), events[1..], capacity, batchSize);
    }
  }

  lemma FreshPageKeepsWakeup<T>(events: seq<Event<T>>, capacity: nat, batchSize: nat)
    requires capacity > 0 && batchSize > 0 && IsRun(Start<T>(), events, capacity, batchSize)
    ensures NoLostWakeup(After(Start<T>(), events, capacity, batchSize))
  {
    RunKeepsWakeup(Start<T>(), events, capacity, batchSize);
  }

  /** Entries are queued and nobody has been told. */
  predicate Stranded<T>(p: Page<T>) {
    p.queue.entries != [] && !p.queue.notificationPending
  }

  /** A failed post or a refused timer is reported to the queue while entries are in it. */
  predicate Fails<T>(p: Page<T>, e: Event<T>) {
    (e.Produce? && !e.posts && !p.queue.notificationPending) || (e.ReportRefusal? && p.queue.entries != [])
  }

  /** A message is posted after all, or the queue is emptied. */
  predicate Relieves<T>(p: Page<T>, e: Event<T>, batchSize: nat) {
    (e.Produce? && e.posts) || e.BeginClear? || (e.TakeBatch? && |p.queue.entries| <= batchSize)
  }

  /** Entries become stranded exactly by a reported failure, and stay so until they are relieved. */
  lemma StrandedByStep<T>(p: Page<T>, e: Event<T>, capacity: nat, batchSize: nat)
    requires capacity > 0 && batchSize > 0 && Enabled(p, e)
    ensures Stranded(Next(p, e, capacity, batchSize)) <==> Fails(p, e) || (Stranded(p) && !Relieves(p, e, batchSize))
  {
  }

  /** The page after the first i events of a run. */
  function StateAt<T>(p: Page<T>, events: seq<Event<T>>, i: nat, capacity: nat, batchSize: nat): Page<T>
    requires capacity > 0 && IsRun(p, events, capacity, batchSize) && i <= |events|
    decreases i
  {
    if i == 0 then p else StateAt(Next(p, events[0], capacity, batchSize), events[1..], i - 1, capacity, batchSize)
  }

  /** Nothing from the i-th event on relieves the entries. */
  ghost predicate UnrelievedFrom<T>(p: Page<T>, events: seq<Event<T>>, i: nat, capacity: nat, batchSize: nat)
    requires capacity > 0 && IsRun(p, events, capacity, batchSize)
  {
    forall j :: i <= j < |events| ==> !Relieves(StateAt(p, events, j, capacity, batchSize), events[j], batchSize)
  }

  /** The run has a reported failure that nothing has made up for: no clear, no post and no flush that empties the queue. */
  ghost predicate FailedForGood<T>(p: Page<T>, events: seq<Event<T>>, capacity: nat, batchSize: nat)
    requires capacity > 0 && IsRun(p, events, capacity, batchSize)
  {
    exists i :: 0 <= i < |events| && Fails(StateAt(p, events, i, capacity, batchSize), events[i]) &&
      UnrelievedFrom(p, events, i + 1, capacity, batchSize)
  }

  lemma UnrelievedStep<T>(p: Page<T>, events: seq<Event<T>>, i: nat, capacity: nat, batchSize: nat)
    requires capacity > 0 && IsRun(p, events, capacity, batchSize) && events != []
    ensures var q := Next(p, events[0], capacity, batchSize);
            && (UnrelievedFrom(p, events, i + 1, capacity, batchSize) <==> UnrelievedFrom(q, events[1..], i, capacity, batchSize))
            && (UnrelievedFrom(p, events, 0, capacity, batchSize) <==>
                !Relieves(p, events[0], batchSize) && UnrelievedFrom(q, events[1..], 0, capacity, batchSize))
  {
    hide Next, Enabled, Relieves;
    var q, rest := Next(p, events[0], capacity, batchSize), events[1..];
    forall j | 0 <= j < |rest|
      ensures StateAt(p, events, j + 1, capacity, batchSize) == StateAt(q, rest, j, capacity, batchSize) && events[j + 1] == rest[j]
    {
    }
    assert StateAt(p, events, 0, capacity, batchSize) == p;
  }

  lemma {:induction false} StrandedByRun<T>(p: Page<T>, events: seq<Event<T>>, capacity: nat, batchSize: nat)
    requires capacity > 0 && batchSize > 0 && IsRun(p, events, capacity, batchSize)
    ensures Stranded(After(p, events, capacity, batchSize)) <==>
      FailedForGood(p, events, capacity, batchSize) || (Stranded(p) && UnrelievedFrom(p, events, 0, capacity, batchSize))
    decreases |events|
  {
    if events != [] {
      StrandedByStep(p, events[0], capacity, batchSize);
      hide Next, Enabled, Relieves, Fails, Stranded;
      var q := Next(p, events[0], capacity, batchSize);
      StrandedByRun(q, events[1..], capacity, batchSize);
      UnrelievedStep(p, events, 0, capacity, batchSize);
      FailedStep(p, events, capacity, batchSize);
    }
  }

  lemma FailedStep<T>(p: Page<T>, events: seq<Event<T>>, capacity: nat, batchSize: nat)
    requires capacity > 0 && IsRun(p, events, capacity, batchSize) && events != []
    ensures var q := Next(p, events[0], capacity, batchSize);
            FailedForGood(p, events, capacity, batchSize) <==>
            FailedForGood(q, events[1..], capacity, batchSize) ||
            (Fails(p, events[0]) && UnrelievedFrom(q, events[1..], 0, capacity, batchSize))
  {
    hide Next, Enabled, Relieves, Fails, UnrelievedFrom;
    var q, rest := Next(p, events[0], capacity, batchSize), events[1..];
    forall i: nat | i < |events|
      ensures UnrelievedFrom(p, events, i + 1, capacity, batchSize) <==> UnrelievedFrom(q, rest, i, capacity, batchSize)
    {
      UnrelievedStep(p, events, i, capacity, batchSize);
    }
    if FailedForGood(p, events, capacity, batchSize) {
      var i :| 0 <= i < |events| && Fails(StateAt(p, events, i, capacity, batchSize), events[i]) &&
        UnrelievedFrom(p, events, i + 1, capacity, batchSize);
      if i > 0 {
        assert Fails(StateAt(q, rest, i - 1, capacity, batchSize), rest[i - 1]);
      }
    }
    if FailedForGood(q, rest, capacity, batchSize) {
      var i :| 0 <= i < |rest| && Fails(StateAt(q, rest, i, capacity, batchSize), rest[i]) &&
        UnrelievedFrom(q, rest, i + 1, capacity, batchSize);
      assert Fails(StateAt(p, events, i + 1, capacity, batchSize), events[i + 1]);
    }
    assert StateAt(p, events, 0, capacity, batchSize) == p;
  }

  /**
   However producers, flushes, clears and failures interleave on a new page, entries are stranded in
   the end exactly if a failure has been reported that nothing since has made up for.
   */
  lemma StrandedOnlyByFailure<T>(events: seq<Event<T>>, capacity: nat, batchSize: nat)
    requires capacity > 0 && batchSize > 0 && IsRun(Start<T>(), events, capacity, batchSize)
    ensures Stranded(After(Start<T>(), events, capacity, batchSize)) <==> FailedForGood(Start<T>(), events, capacity, batchSize)
  {
    StrandedByRun(Start<T>(), events, capacity, batchSize);
  }

  /** The next entry after a failure asks for a notification again. */
  lemma NextPushPostsAgain<T>(p: Page<T>, value: T, capacity: nat, batchSize: nat)
    requires capacity > 0 && !p.queue.notificationPending
    ensures var q := Next(p, Produce(value, true), capacity, batchSize);
            q.messages == p.messages + 1 && q.queue.notificationPending && Awake(q)
  {
  }

  // ---- Left alone, the page delivers everything ----

  /** The page's next own step when nothing fails; none when it has nothing to do. */
  function OwnStep<T>(p: Page<T>): (e: Event<T>)
    requires !Quiet(p)
    ensures Enabled(p, e)
  {
    match p.ui
    case Idle => if p.messages > 0 then Dispatch(true) else Fire
    case TimerRefused => ReportRefusal
    case Flushing => TakeBatch
    case Appended(_) => Continue(true)
    case Clearing => EndClear
  }

  predicate Quiet<T>(p: Page<T>) {
    p.ui.Idle? && p.messages == 0 && !p.timer
  }

  function Rank<T>(p: Page<T>): nat {
    6 * |p.queue.entries| + 4 * p.messages + (if p.timer then 3 else 0) +
    match p.ui
    case Idle => 0
    case TimerRefused => 1
    case Flushing => 2
    case Appended(hasMore) => if hasMore then 4 else 1
    case Clearing => 1
  }

  lemma OwnStepDescends<T>(p: Page<T>, capacity: nat, batchSize: nat)
    requires capacity > 0 && batchSize > 0 && !Quiet(p)
    ensures Rank(Next(p, OwnStep(p), capacity, batchSize)) < Rank(p)
  {
  }

  /** The page after it has done all it can do by itself. */
  function Settle<T>(p: Page<T>, capacity: nat, batchSize: nat): Page<T>
    requires capacity > 0 && batchSize > 0
    decreases Rank(p)
  {
    if Quiet(p) then p
    else
      OwnStepDescends(p, capacity, batchSize);
      Settle(Next(p, OwnStep(p), capacity, batchSize), capacity, batchSize)
  }

  /** What is shown in the end: everything shown or queued before, unless a clear was still to erase it. */
  function Expected<T>(p: Page<T>): seq<T> {
    (if p.ui.Clearing? then [] else p.shown) + (if Awake(p) then p.queue.entries else [])
  }

  /**
   Left alone and without failures, the page comes to rest; the queue is emptied and its entries are
   shown in order exactly when something was on its way or nothing was queued.
   */
  lemma {:induction false} SettleDelivers<T>(p: Page<T>, capacity: nat, batchSize: nat)
    requires capacity > 0 && batchSize > 0 && NoLostWakeup(p)
    ensures var q := Settle(p, capacity, batchSize);
            && Quiet(q)
            && q.shown == Expected(p)
            && (q.queue.entries == [] <==> Awake(p) || p.queue.entries == [])
    decreases Rank(p)
  {
    if Quiet(p) {
      assert p.shown + [] == p.shown;
    } else {
      var next := Next(p, OwnStep(p), capacity, batchSize);
      OwnStepDescends(p, capacity, batchSize);
      StepKeepsWakeup(p, OwnStep(p), capacity, batchSize);
      SettleDelivers(next, capacity, batchSize);
      if p.ui.Flushing? {
        var taken := Take(p.queue, batchSize);
        assert p.queue.entries == taken.batch.entries + taken.state.entries;
        assert p.shown + taken.batch.entries + taken.state.entries == p.shown + p.queue.entries;
        assert taken.state.entries == [] ==> taken.batch.entries == p.queue.entries;
      }
    }
  }

  /** Pending means it will be shown: nothing that was announced stays in the queue. */
  lemma PendingIsDelivered<T>(p: Page<T>, capacity: nat, batchSize: nat)
    requires capacity > 0 && batchSize > 0 && NoLostWakeup(p)
    requires p.queue.notificationPending && !p.ui.TimerRefused? && !p.ui.Clearing?
    ensures Settle(p, capacity, batchSize).shown == p.shown + p.queue.entries
    ensures Settle(p, capacity, batchSize).queue.entries == []
  {
    SettleDelivers(p, capacity, batchSize);
  }
}
