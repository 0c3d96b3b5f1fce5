/** Ending all processes of a kind within one budget of time, until none has been seen for a while. */
module ExitProcessCleanup {
  import opened TickClock
  import opened ProcessWorld
  import opened ProcessActions

  /** `Running` stands for a loop that has not ended yet. */
  datatype Status = Completed | TimedOut | WasCancelled | Failed | Running

  const QUIET_MS: nat := 500

  lemma SinceAtMost(start: nat, now: nat)
    requires start <= now
    ensures Since(Tick(now), Tick(start)) <= now - start
  {
    SinceIsElapsed(start, now);
  }

  ghost predicate Empty(event: Event) {
    event.Looked? && event.processes == []
  }

  /** From the i-th event on nothing but empty snapshots. */
  ghost predicate QuietFrom(events: seq<Event>, i: nat) {
    i < |events| && forall k :: i <= k < |events| ==> Empty(events[k])
  }

  /** Empty snapshots without interruption, the first and the last at least 500 milliseconds apart. */
  ghost predicate QuietEnd(events: seq<Event>) {
    exists i: nat :: QuietFrom(events, i) && events[|events| - 1].time - events[i].time >= QUIET_MS
  }

  /** Each batch is given exactly what is left of the budget. */
  ghost predicate SharesBudget(events: seq<Event>, began: nat, budget: nat) {
    forall i :: 0 <= i < |events| && events[i].Batch? ==>
      0 < events[i].ms <= budget && Since(Tick(events[i].time), Tick(began)) + events[i].ms == budget
  }

  /** The latest snapshot before the i-th event lists the process. */
  ghost predicate Listed(events: seq<Event>, i: nat, process: Process) {
    exists j :: 0 <= j < i <= |events| && events[j].Looked? && process in events[j].processes &&
      forall k :: j < k < i ==> !events[k].Looked?
  }

  ghost predicate OnlyListedKilled(world: World, events: seq<Event>) {
    forall i :: 0 <= i < |events| && events[i].Terminated? ==> Listed(events, i, events[i].process) && world.Permitted(events[i].process)
  }

  lemma ListedLonger(events: seq<Event>, more: seq<Event>, i: nat, process: Process)
    requires Listed(events, i, process)
    ensures Listed(events + more, i, process)
  {
    var j :| 0 <= j < i <= |events| && events[j].Looked? && process in events[j].processes &&
      forall k :: j < k < i ==> !events[k].Looked?;
    var all := events + more;
    assert all[j] == events[j] && forall k :: j < k < i ==> all[k] == events[k];
  }

  /** A snapshot and a batch that terminates only what it lists. */
  lemma RoundListed(world: World, events: seq<Event>, looked: Event, rest: seq<Event>)
    requires OnlyListedKilled(world, events) && looked.Looked?
    requires forall e :: e in rest ==> !e.Looked? && (e.Terminated? ==> world.Permitted(e.process) && e.process in looked.processes)
    ensures OnlyListedKilled(world, events + [looked] + rest)
  {
    var all := events + [looked] + rest;
    forall i | 0 <= i < |all| && all[i].Terminated?
      ensures Listed(all, i, all[i].process) && world.Permitted(all[i].process)
    {
      if i < |events| {
        ListedLonger(events, [looked] + rest, i, all[i].process);
        assert all == events + ([looked] + rest);
      } else {
        assert all[i] in rest && all[|events|] == looked;
        assert forall k :: |events| < k < i ==> all[k] in rest;
      }
    }
  }

  lemma BudgetShared(events: seq<Event>, more: seq<Event>, began: nat, budget: nat)
    requires SharesBudget(events, began, budget) && SharesBudget(more, began, budget)
    ensures SharesBudget(events + more, began, budget)
  {
  }

  /** What the loop keeps of its events. */
  ghost predicate Sound(world: World, events: seq<Event>, began: nat, budget: nat) {
    SharesBudget(events, began, budget) && OnlyListedKilled(world, events)
  }

  lemma SoundRound(world: World, events: seq<Event>, looked: Event, rest: seq<Event>, began: nat, budget: nat)
    requires Sound(world, events, began, budget) && looked.Looked? && SharesBudget(rest, began, budget)
    requires forall e :: e in rest ==> !e.Looked? && (e.Terminated? ==> world.Permitted(e.process) && e.process in looked.processes)
    ensures Sound(world, events + [looked] + rest, began, budget)
  {
    RoundListed(world, events, looked, rest);
    BudgetShared(events, [looked], began, budget);
    BudgetShared(events + [looked], rest, began, budget);
  }

  lemma SoundLook(world: World, events: seq<Event>, looked: Event, began: nat, budget: nat)
    requires Sound(world, events, began, budget) && looked.Looked?
    ensures Sound(world, events + [looked], began, budget)
  {
    SoundRound(world, events, looked, [], began, budget);
    assert events + [looked] + [] == events + [looked];
  }

  /** The snapshots have been empty since then, and the one of the i-th event was the first. */
  ghost predicate QuietSince(events: seq<Event>, i: nat, since: nat) {
    QuietFrom(events, i) && events[i].time == since
  }

  lemma QuietGrows(events: seq<Event>, wasEmpty: bool, i: nat, since: nat, looked: Event)
    requires Empty(looked) && (wasEmpty ==> QuietSince(events, i, since))
    ensures if wasEmpty then QuietSince(events + [looked], i, since) else QuietSince(events + [looked], |events|, looked.time)
    ensures wasEmpty && looked.time - since >= QUIET_MS ==> QuietEnd(events + [looked])
  {
    var now := events + [looked];
    assert now[|now| - 1] == looked;
    assert wasEmpty ==> QuietFrom(now, i) && now[i].time == since;
  }

  /** Nothing but processes that are over or still running. */
  predicate AllMinor(errors: seq<Error>) {
    forall i | 0 <= i < |errors| :: errors[i] in {Success, Timeout}
  }

  /** The errors decide: the first that is more than a process still running ends the loop. */
  function Judge(errors: seq<Error>): (status: Status)
    ensures status in {WasCancelled, Failed, Running}
    ensures status == Running <==> forall i :: 0 <= i < |errors| ==> errors[i] in {Success, Timeout}
    ensures status == WasCancelled <==> exists i :: 0 <= i < |errors| && errors[i] == Cancelled && AllMinor(errors[..i])
  {
    if errors == [] then Running
    else if errors[0] == Cancelled then WasCancelled
    else if errors[0] != Success && errors[0] != Timeout then Failed
    else
      FirstIsMinor(errors);
      Judge(errors[1..])
  }

  lemma FirstIsMinor(errors: seq<Error>)
    requires errors != [] && errors[0] in {Success, Timeout}
    ensures (exists i :: 0 <= i < |errors| && errors[i] == Cancelled && AllMinor(errors[..i])) <==>
      exists i :: 0 <= i < |errors[1..]| && errors[1..][i] == Cancelled && AllMinor(errors[1..][..i])
  {
    forall i | 0 <= i < |errors| - 1 ensures AllMinor(errors[..i + 1]) <==> AllMinor(errors[1..][..i]) {
      assert errors[..i + 1] == [errors[0]] + errors[1..][..i];
    }
    if i :| 0 <= i < |errors| && errors[i] == Cancelled && AllMinor(errors[..i]) {
      assert errors[1..][i - 1] == Cancelled && AllMinor(errors[1..][..i - 1]);
    }
  }

  /** Terminates what a snapshot lists, in what is left of the budget. */
  method RunBatch(world: World, processes: seq<Process>, started: nat, budget: nat, ghost began: nat)
      returns (status: Status, errors: seq<Error>, ghost events: seq<Event>)
    requires began <= world.time && started == Tick(began) && budget < WRAP
    modifies world
    ensures world.time >= old(world.time)
    ensures world.log == old(world.log) + events && SharesBudget(events, began, budget)
    ensures forall e :: e in events ==> !e.Looked? && (e.Terminated? ==> world.Permitted(e.process) && e.process in processes)
    ensures status != TimedOut ==> |errors| == |processes| && status == Judge(errors)
    ensures status != TimedOut ==> forall i :: 0 <= i < |errors| && errors[i] == Success ==> SeenGone(events, processes[i])
    ensures status == TimedOut ==> world.time - began >= budget
  {
    errors, events := [], [];
    world.Pass();
    var tick := world.GetTickCount();
    var beforeBatch := Since(tick, started);
    if beforeBatch >= budget {
      SinceAtMost(began, world.time);
      return TimedOut, errors, events;
    }
    var waitMs: nat := budget - beforeBatch;
    ghost var at := world.time;
    world.BeginBatch(waitMs);
    ghost var batch, from;
    errors, batch, from := TerminateExactProcesses(world, processes, waitMs);
    OrderlyKills(world, batch, processes, from, waitMs, world.time);
    events := [Batch(at, waitMs)] + batch;
    forall i | 0 <= i < |errors| && errors[i] == Success ensures SeenGone(events, processes[i]) {
      SeenGoneAfter([Batch(at, waitMs)], batch, processes[i]);
    }
    hide Orderly;
    for i := 0 to |errors|
      invariant Judge(errors) == Judge(errors[i..])
    {
      assert errors[i..][1..] == errors[i + 1..];
      if errors[i] == Cancelled {
        return WasCancelled, errors, events;
      }
      if errors[i] != Success && errors[i] != Timeout {
        return Failed, errors, events;
      }
    }
    status := Running;
  }

  // ---- How long the loop goes on ----

  /** The moments at which the loop has taken its snapshots. */
  ghost function Looks(events: seq<Event>): (times: seq<nat>)
    decreases |events|
  {
    if events == [] then []
    else
      var last := events[|events| - 1];
      Looks(events[..|events| - 1]) + if last.Looked? then [last.time] else []
  }

  lemma {:induction false} LooksConcat(a: seq<Event>, b: seq<Event>)
    ensures Looks(a + b) == Looks(a) + Looks(b)
    decreases |b|
  {
    if b == [] {
      assert a + b == a;
    } else {
      LooksConcat(a, b[..|b| - 1]);
      assert (a + b)[..|a + b| - 1] == a + b[..|b| - 1];
    }
  }

  lemma {:induction false} NoLooks(events: seq<Event>)
    requires forall e :: e in events ==> !e.Looked?
    ensures Looks(events) == []
    decreases |events|
  {
    if events != [] {
      NoLooks(events[..|events| - 1]);
    }
  }

  /** Within the budget, as the clock tells it. */
  ghost predicate AllWithin(times: seq<nat>, began: nat, budget: nat) {
    forall i :: 0 <= i < |times| ==> began <= times[i] && Since(Tick(times[i]), Tick(began)) < budget
  }

  /** When the round before this one has looked. */
  ghost function RoundBefore(times: seq<nat>, began: nat, i: nat): nat
    requires i <= |times|
  {
    if i == 0 then began else times[i - 1]
  }

  /** Every round takes some time, and none more than this. */
  ghost predicate Paced(times: seq<nat>, began: nat, gap: nat) {
    forall i :: 0 <= i < |times| ==>
      (i > 0 ==> RoundBefore(times, began, i) < times[i]) && times[i] <= RoundBefore(times, began, i) + gap
  }

  lemma {:induction false} PacedTimes(times: seq<nat>, began: nat, budget: nat, gap: nat, i: nat)
    requires AllWithin(times, began, budget) && Paced(times, began, gap) && gap + budget <= WRAP && i < |times|
    ensures i <= times[i] - began < budget
    decreases i
  {
    hide Since, Tick;
    if i > 0 {
      PacedTimes(times, began, budget, gap, i - 1);
    }
    assert times[i] <= RoundBefore(times, began, i) + gap;
    SinceIsElapsed(began, times[i]);
  }

  /** A paced loop cannot go on for more rounds than the budget has milliseconds. */
  lemma PacedLoopEnds(times: seq<nat>, began: nat, budget: nat, gap: nat)
    requires AllWithin(times, began, budget) && Paced(times, began, gap) && gap + budget <= WRAP
    ensures |times| <= budget
  {
    if times != [] {
      PacedTimes(times, began, budget, gap, |times| - 1);
    }
  }

  /** The longest round that the clock cannot hide is a turn of the clock without the budget, to the millisecond. */
  lemma PacingIsExact(began: nat, budget: nat, gap: nat)
    requires 0 < budget < WRAP
    ensures (forall times :: AllWithin(times, began, budget) && Paced(times, began, gap) ==> |times| <= budget) <==>
      gap + budget <= WRAP
  {
    if gap + budget <= WRAP {
      forall times | AllWithin(times, began, budget) && Paced(times, began, gap) ensures |times| <= budget {
        PacedLoopEnds(times, began, budget, gap);
      }
    } else {
      var times := seq(budget, i => began + i) + [began + WRAP];
      forall i | 0 <= i < |times| ensures began <= times[i] && Since(Tick(times[i]), Tick(began)) < budget {
        SinceIsElapsed(began, times[i]);
      }
      assert AllWithin(times, began, budget) && Paced(times, began, gap) && |times| == budget + 1;
    }
  }

  /** With a clock that stands still the loop can go on for any number of rounds. */
  lemma StandingClockGoesOn(world: World, began: nat, budget: nat, rounds: nat)
    requires budget > 0
    ensures var events := seq(rounds, _ => Looked(began, []));
            && Sound(world, events, began, budget) && !QuietEnd(events)
            && Looks(events) == seq(rounds, _ => began) && AllWithin(Looks(events), began, budget)
  {
    SinceIsElapsed(began, began);
    StandingLooks(began, rounds);
  }

  lemma {:induction false} StandingLooks(began: nat, rounds: nat)
    ensures Looks(seq(rounds, _ => Looked(began, []))) == seq(rounds, _ => began)
    decreases rounds
  {
    if rounds > 0 {
      var events := seq(rounds, _ => Looked(began, []));
      assert events[..rounds - 1] == seq(rounds - 1, _ => Looked(began, []));
      StandingLooks(began, rounds - 1);
    }
  }

  /**
   The loop, for so many rounds at most. It is complete only after a quiet time, it gives up only when
   the one budget is spent, it terminates only what its latest snapshot lists, and it does end if every
   round takes some time and none so much that the clock hides it.
   */
  method Run(world: World, budget: nat, rounds: nat)
      returns (status: Status, processes: seq<Process>, errors: seq<Error>, ghost events: seq<Event>)
    requires budget < WRAP
    modifies world
    ensures world.log == old(world.log) + events && old(world.time) <= world.time
    ensures status == Completed ==> processes == [] && errors == [] && QuietEnd(events)
    ensures status == TimedOut ==> world.time - old(world.time) >= budget
    ensures status == WasCancelled ==> world.cancelSeen || Judge(errors) == WasCancelled
    ensures status == Failed ==> |errors| == |processes| && Judge(errors) == Failed
    ensures Sound(world, events, old(world.time), budget)
    ensures status == Running ==> |Looks(events)| == rounds && AllWithin(Looks(events), old(world.time), budget)
    ensures status == Running && rounds > budget ==> !Paced(Looks(events), old(world.time), WRAP - budget)
  {
    processes, errors, events := [], [], [];
    ghost var began, start := world.time, world.log;
    var started := world.GetTickCount();
    var emptySince, wasEmpty := started, false;
    ghost var first: nat, since: nat := 0, began;
    assert Looks(events) == [] && AllWithin(Looks(events), began, budget) && Sound(world, events, began, budget);
    hide Sound, QuietSince, QuietEnd, SharesBudget, OnlyListedKilled, Judge, Since, Tick, Looks, AllWithin, Paced;
    for round := 0 to rounds
      invariant world.log == start + events && began <= world.time
      invariant wasEmpty ==> QuietSince(events, first, since) && emptySince == Tick(since)
      invariant errors == [] && since <= world.time && Sound(world, events, began, budget)
      invariant |Looks(events)| == round && AllWithin(Looks(events), began, budget)
    {
      var cancelled := world.IsCancelled();
      if cancelled {
        return WasCancelled, processes, errors, events;
      }
      var now, spent;
      ghost var before := events;
      processes, now, spent, events := Look(world, started, budget, began, start, events);
      if spent {
        return TimedOut, processes, errors, events;
      }
      if processes == [] {
        var complete;
        emptySince, complete, first, since := Settle(now, emptySince, wasEmpty, before, Looked(world.time, processes), first, since);
        wasEmpty := true;
        if complete {
          return Completed, processes, errors, events;
        }
        world.Pass();
      } else {
        wasEmpty := false;
        status, errors, events := EndProcesses(world, processes, started, budget, began, start, before, events);
        if status != Running {
          return status, processes, errors, events;
        }
        errors := [];
      }
    }
    status := Running;
    if rounds > budget && Paced(Looks(events), began, WRAP - budget) {
      PacedLoopEnds(Looks(events), began, budget, WRAP - budget);
    }
  }

  /** Counts the quiet time from the first empty snapshot. */
  method Settle(now: nat, emptySince: nat, wasEmpty: bool, ghost before: seq<Event>, ghost looked: Event, ghost first: nat, ghost since: nat)
      returns (emptyNow: nat, complete: bool, ghost firstNow: nat, ghost sinceNow: nat)
    requires Empty(looked) && now == Tick(looked.time) && since <= looked.time
    requires wasEmpty ==> QuietSince(before, first, since) && emptySince == Tick(since)
    ensures sinceNow <= looked.time && QuietSince(before + [looked], firstNow, sinceNow) && emptyNow == Tick(sinceNow)
    ensures complete ==> QuietEnd(before + [looked])
    ensures !wasEmpty ==> sinceNow == looked.time
    ensures Since(now, emptyNow) >= QUIET_MS <==> complete
  {
    hide QuietSince, QuietEnd;
    QuietGrows(before, wasEmpty, first, since, looked);
    emptyNow, firstNow, sinceNow := emptySince, first, since;
    if !wasEmpty {
      emptyNow, firstNow, sinceNow := now, |before|, looked.time;
    }
    SinceAtMost(sinceNow, looked.time);
    complete := Since(now, emptyNow) >= QUIET_MS;
  }

  /** Takes a snapshot and looks at the clock. */
  method Look(world: World, started: nat, budget: nat, ghost began: nat, ghost start: seq<Event>, ghost events: seq<Event>)
      returns (processes: seq<Process>, now: nat, spent: bool, ghost more: seq<Event>)
    requires began <= world.time && started == Tick(began) && world.log == start + events
    requires Sound(world, events, began, budget) && AllWithin(Looks(events), began, budget)
    modifies world`time, world`reading, world`log
    ensures world.time >= old(world.time) && now == Tick(world.time)
    ensures world.log == start + more && more == events + [Looked(world.time, processes)]
    ensures Sound(world, more, began, budget)
    ensures spent ==> world.time - began >= budget
    ensures !spent ==> |Looks(more)| == |Looks(events)| + 1 && AllWithin(Looks(more), began, budget)
  {
    hide Sound, Looks, AllWithin;
    processes := world.Snapshot();
    now := world.GetTickCount();
    ghost var looked := Looked(world.time, processes);
    more := events + [looked];
    SoundLook(world, events, looked, began, budget);
    spent := Since(now, started) >= budget;
    if spent {
      SinceAtMost(began, world.time);
    } else {
      OneMoreLook(events, looked, began, budget);
    }
  }

  /** The batch for what the last snapshot lists. */
  method EndProcesses(world: World, processes: seq<Process>, started: nat, budget: nat, ghost began: nat,
      ghost start: seq<Event>, ghost before: seq<Event>, ghost events: seq<Event>)
      returns (status: Status, errors: seq<Error>, ghost more: seq<Event>)
    requires began <= world.time && started == Tick(began) && budget < WRAP && world.log == start + events
    requires events == before + [Looked(world.time, processes)] && Sound(world, before, began, budget)
    modifies world
    ensures world.time >= old(world.time) && world.log == start + more
    ensures Sound(world, more, began, budget) && Looks(more) == Looks(events)
    ensures status != TimedOut ==> |errors| == |processes| && status == Judge(errors)
    ensures status == TimedOut ==> world.time - began >= budget
  {
    hide Sound, Looks, Judge, SharesBudget;
    ghost var looked := Looked(world.time, processes);
    ghost var rest;
    status, errors, rest := RunBatch(world, processes, started, budget, began);
    SoundRound(world, before, looked, rest, began, budget);
    NoMoreLooks(events, rest);
    more := events + rest;
  }

  lemma OneMoreLook(events: seq<Event>, looked: Event, began: nat, budget: nat)
    requires AllWithin(Looks(events), began, budget) && looked.Looked? && began <= looked.time
    requires Since(Tick(looked.time), Tick(began)) < budget
    ensures |Looks(events + [looked])| == |Looks(events)| + 1 && AllWithin(Looks(events + [looked]), began, budget)
  {
    assert (events + [looked])[..|events|] == events;
  }

  lemma NoMoreLooks(events: seq<Event>, more: seq<Event>)
    requires forall e :: e in more ==> !e.Looked?
    ensures Looks(events + more) == Looks(events)
  {
    LooksConcat(events, more);
    NoLooks(more);
  }
}
