/** Terminating exactly the given processes. */
module ProcessActions {
  import opened Text
  import opened TickClock
  import opened ProcessWorld

  // ---- Opening one process ----

  /** Events of looking at processes without touching them. */
  ghost predicate Looking(events: seq<Event>) {
    forall i :: 0 <= i < |events| ==> events[i].Opened? || events[i].Absent? || events[i].Past? || events[i].Signalled?
  }

  /** Opens whatever process has the number, if need be with fewer rights. */
  method OpenWithFewerRights(world: World, pid: Pid) returns (result: OpenResult, ghost events: seq<Event>)
    modifies world`time, world`log
    ensures world.time >= old(world.time) && world.log == old(world.log) + events && Looking(events)
    ensures result.Open? ==> result.handle.process.pid == pid && Opened(result.handle.process) in events
    ensures result.NotOpen? ==> result.error !in {Success, NotFound}
    ensures result.NotOpen? && result.error == InvalidParameter ==> Absent(pid) in events
  {
    result := world.OpenProcess(pid);
    events := world.log[|old(world.log)|..];
    if result.NotOpen? {
      ghost var before := world.log;
      result := world.OpenProcess(pid);
      events := events + world.log[|before|..];
    }
  }

  /** Opens a process, if it is still the one that was seen and may be terminated. */
  method OpenForTermination(world: World, target: Process)
      returns (handle: Option<Handle>, error: Error, ghost events: seq<Event>)
    modifies world`time, world`log
    ensures world.time >= old(world.time) && world.log == old(world.log) + events && Looking(events)
    ensures handle.Some? ==> handle.value.process == target && world.Permitted(target) && Opened(target) in events
    ensures handle.None? ==> error != Success && (error in {NotFound, InvalidParameter} ==> SeenGone(events, target))
  {
    handle, events := None, [];
    if target.pid <= 4 || target.pid == world.own {
      return handle, AccessDenied, events;
    }
    if target.created == 0 {
      return handle, InvalidData, events;
    }
    var result;
    result, events := OpenWithFewerRights(world, target.pid);
    if result.NotOpen? {
      var over := world.HasExited(target);
      events := events + if over then [Past(target)] else [];
      return handle, if over then NotFound else result.error, events;
    }
    var created := world.CreationTime(result.handle);
    if created == 0 {
      error := InvalidData;
    } else if created != target.created {
      error := NotFound;
    } else {
      var over := world.IsSignalled(result.handle);
      events := events + if over then [Signalled(result.handle.process)] else [];
      if over {
        error := NotFound;
      } else {
        var critical := world.IsCritical(result.handle);
        if critical == Some(false) {
          handle, error := Some(result.handle), Success;
        } else {
          error := AccessDenied;
        }
      }
    }
  }

  // ---- What a batch may do ----

  /** The end of a process is asked for only if it was opened, is one of the targets and may be terminated. */
  ghost predicate Kills(world: World, events: seq<Event>, captures: seq<Event>, targets: seq<Process>) {
    forall i :: 0 <= i < |events| ==>
      || events[i].Signalled? || events[i].Exiting?
      || (events[i].Terminated? && Opened(events[i].process) in captures && events[i].process in targets &&
          world.Permitted(events[i].process))
  }

  /** What is left at a moment of the time that was given for the whole. */
  function TimeLeft(at: nat, began: nat, waitMs: nat): nat {
    var elapsed := Since(Tick(at), Tick(began));
    if elapsed < waitMs then waitMs - elapsed else 0
  }

  /** One wait after the other, each for what is left when the clock is read before it. */
  ghost predicate SharedWaits(events: seq<Event>, began: nat, waitMs: nat, from: nat, to: nat)
    decreases |events|
  {
    if events == [] then from <= to
    else
      var last := events[|events| - 1];
      if last.Waited? then
        && last.ms == TimeLeft(last.read, began, waitMs)
        && last.read <= last.at <= last.until <= last.at + last.ms && last.until <= to
        && SharedWaits(events[..|events| - 1], began, waitMs, from, last.read)
      else last.Signalled? && SharedWaits(events[..|events| - 1], began, waitMs, from, to)
  }

  /** How long the waits have taken. */
  function TotalWaited(events: seq<Event>): int {
    if events == [] then 0
    else
      var last := events[|events| - 1];
      TotalWaited(events[..|events| - 1]) + if last.Waited? then last.until - last.at else 0
  }

  function TimesWaited(events: seq<Event>): nat {
    if events == [] then 0
    else TimesWaited(events[..|events| - 1]) + if events[|events| - 1].Waited? then 1 else 0
  }

  /** The time that may have been waited by a moment: the given time once for every turn of the clock. */
  function Allowance(began: nat, waitMs: nat, now: nat): nat
    requires began <= now
  {
    var turns, rest := (now - began) / WRAP, (now - began) % WRAP;
    waitMs * turns + if rest < waitMs then rest else waitMs
  }

  lemma {:induction false} TimesTurns(waitMs: nat, p: nat, q: nat)
    requires p <= q
    ensures waitMs * p <= waitMs * q
    ensures p < q ==> waitMs * p + waitMs <= waitMs * q
    decreases q
  {
    if p < q {
      TimesTurns(waitMs, p, q - 1);
      assert waitMs * q == waitMs * (q - 1) + waitMs;
    }
  }

  lemma AllowanceGrows(began: nat, waitMs: nat, a: nat, b: nat)
    requires began <= a <= b
    ensures Allowance(began, waitMs, a) <= Allowance(began, waitMs, b)
  {
    var p, q := (a - began) / WRAP, (b - began) / WRAP;
    TimesTurns(waitMs, p, q);
  }

  /** A wait for what is left never takes more than the allowance grows meanwhile. */
  lemma WaitIsAllowed(began: nat, waitMs: nat, at: nat, until: nat)
    requires waitMs < WRAP && began <= at <= until <= at + TimeLeft(at, began, waitMs)
    ensures Allowance(began, waitMs, at) + (until - at) <= Allowance(began, waitMs, until)
  {
    SinceIsElapsed(began, at);
    var turns, rest := (at - began) / WRAP, (at - began) % WRAP;
    assert at - began == turns * WRAP + rest;
    if rest < waitMs {
      var later := rest + (until - at);
      assert until - began == turns * WRAP + later && later <= waitMs < WRAP;
      Quotient(turns, later);
    }
  }

  lemma Quotient(turns: nat, rest: nat)
    requires rest < WRAP
    ensures (turns * WRAP + rest) / WRAP == turns && (turns * WRAP + rest) % WRAP == rest
  {
  }

  lemma {:induction false} WaitedWithinAllowance(events: seq<Event>, began: nat, waitMs: nat, from: nat, to: nat)
    requires waitMs < WRAP && began <= from && SharedWaits(events, began, waitMs, from, to)
    ensures from <= to
    ensures Allowance(began, waitMs, from) + TotalWaited(events) <= Allowance(began, waitMs, to)
    decreases |events|
  {
    if events == [] {
      AllowanceGrows(began, waitMs, from, to);
    } else {
      var front, last := events[..|events| - 1], events[|events| - 1];
      if last.Waited? {
        var waited := last.until - last.at;
        WaitedWithinAllowance(front, began, waitMs, from, last.read);
        WaitIsAllowed(began, waitMs, last.read, last.read + waited);
        AllowanceGrows(began, waitMs, last.read + waited, to);
      } else {
        WaitedWithinAllowance(front, began, waitMs, from, to);
      }
    }
  }

  /** All waits together take no longer than the given time once for every turn of the clock. */
  lemma WaitsShareBudget(events: seq<Event>, began: nat, waitMs: nat, from: nat, to: nat)
    requires waitMs < WRAP && began <= from && SharedWaits(events, began, waitMs, from, to)
    ensures began <= to && TotalWaited(events) <= waitMs * ((to - began) / WRAP + 1)
    ensures to - began <= WRAP || waitMs == 0 ==> TotalWaited(events) <= waitMs
  {
    WaitedWithinAllowance(events, began, waitMs, from, to);
    var turns := (to - began) / WRAP;
    assert waitMs * (turns + 1) == waitMs * turns + waitMs;
    if waitMs > 0 && to - began <= WRAP {
      AllowanceOfOneTurn(began, waitMs, to);
    }
  }

  lemma AllowanceOfOneTurn(began: nat, waitMs: nat, to: nat)
    requires waitMs < WRAP && began <= to <= began + WRAP
    ensures Allowance(began, waitMs, to) <= waitMs
  {
    assert to - began < WRAP ==> (to - began) / WRAP == 0;
    assert to - began == WRAP ==> (to - began) / WRAP == 1 && (to - began) % WRAP == 0;
  }

  /** A wait for the whole time, and another one when the clock shows the start again. */
  function WaitsOverATurn(p: Process, q: Process, began: nat, waitMs: nat): seq<Event> {
    [Waited(p, began, began, waitMs, began + waitMs), Waited(q, began + WRAP, began + WRAP, waitMs, began + WRAP + 1)]
  }

  /** Two waits that share the time by the clock and take longer than it, because the clock has turned in between. */
  lemma WaitsTooLong(p: Process, q: Process, began: nat, waitMs: nat, to: nat)
    requires 0 < waitMs < WRAP && to - began > WRAP
    ensures SharedWaits(WaitsOverATurn(p, q, began, waitMs), began, waitMs, began, to)
    ensures TotalWaited(WaitsOverATurn(p, q, began, waitMs)) == waitMs + 1
    ensures TimesWaited(WaitsOverATurn(p, q, began, waitMs)) == 2
  {
    var waits := WaitsOverATurn(p, q, began, waitMs);
    assert waits[..|waits| - 1] == [waits[0]] && [waits[0]][..0] == [];
    assert TotalWaited([waits[0]]) == waitMs && TimesWaited([waits[0]]) == 1;
    SinceIsElapsed(began, began);
    assert Tick(began + WRAP) == Tick(began);
    assert TimeLeft(began, began, waitMs) == waitMs && TimeLeft(began + WRAP, began, waitMs) == waitMs;
    assert SharedWaits([waits[0]], began, waitMs, began, began + WRAP);
  }

  /** Whatever is waited for, the given time is enough exactly if no more than a turn of the clock has passed. */
  lemma SharedExactlyWithinATurn(began: nat, waitMs: nat, to: nat)
    requires waitMs < WRAP && began <= to
    ensures (forall events :: SharedWaits(events, began, waitMs, began, to) ==> TotalWaited(events) <= waitMs) <==>
      to - began <= WRAP || waitMs == 0
  {
    if to - began <= WRAP || waitMs == 0 {
      forall events | SharedWaits(events, began, waitMs, began, to) ensures TotalWaited(events) <= waitMs {
        WaitsShareBudget(events, began, waitMs, began, to);
      }
    } else {
      var p := Process(0, 0);
      WaitsTooLong(p, p, began, waitMs, to);
    }
  }

  // ---- The three passes ----

  /** What is known of a target: it is held, or it is gone, or there is an error. */
  ghost predicate Dealt(world: World, target: Process, handle: Option<Handle>, error: Error, captures: seq<Event>) {
    if handle.Some? then handle.value.process == target && world.Permitted(target) && Opened(target) in captures
    else error == Success ==> SeenGone(captures, target)
  }

  ghost predicate AllDealt(world: World, targets: seq<Process>, handles: seq<Option<Handle>>, errors: seq<Error>, captures: seq<Event>) {
    |handles| == |errors| == |targets| &&
    forall i :: 0 <= i < |targets| ==> Dealt(world, targets[i], handles[i], errors[i], captures)
  }

  lemma DealtLonger(world: World, target: Process, handle: Option<Handle>, error: Error, captures: seq<Event>, more: seq<Event>)
    requires Dealt(world, target, handle, error, captures)
    ensures Dealt(world, target, handle, error, captures + more)
  {
    if handle.None? && error == Success {
      SeenGoneLonger(captures, more, target);
    }
  }

  lemma SeenGoneAfter(captures: seq<Event>, more: seq<Event>, target: Process)
    requires SeenGone(more, target)
    ensures SeenGone(captures + more, target)
  {
    if other :| Opened(other) in more && other.pid == target.pid && other.created != target.created {
      assert Opened(other) in captures + more;
    }
  }

  lemma LookingConcat(captures: seq<Event>, more: seq<Event>)
    requires Looking(captures) && Looking(more)
    ensures Looking(captures + more)
  {
  }

  lemma AllDealtSnoc(world: World, targets: seq<Process>, handles: seq<Option<Handle>>, errors: seq<Error>, captures: seq<Event>,
      more: seq<Event>, target: Process, handle: Option<Handle>, error: Error)
    requires AllDealt(world, targets, handles, errors, captures) && Dealt(world, target, handle, error, captures + more)
    ensures AllDealt(world, targets + [target], handles + [handle], errors + [error], captures + more)
  {
    hide Dealt;
    forall i | 0 <= i < |targets| ensures Dealt(world, targets[i], handles[i], errors[i], captures + more) {
      DealtLonger(world, targets[i], handles[i], errors[i], captures, more);
    }
  }

  method Interrupted(world: World, started: nat, waitMs: nat) returns (error: Error)
    modifies world`time, world`reading, world`cancelSeen
    ensures world.time >= old(world.time) && error in {Success, Cancelled, Timeout}
    ensures error == Cancelled ==> world.cancelSeen
    ensures error == Timeout <==> error != Cancelled && Since(Tick(world.time), started) >= waitMs
    ensures old(world.cancelSeen) ==> world.cancelSeen
  {
    var cancelled := world.IsCancelled();
    if cancelled {
      return Cancelled;
    }
    var now := world.GetTickCount();
    error := if Since(now, started) >= waitMs then Timeout else Success;
  }

  /** Captures every process that is still the one that was seen. */
  method CaptureAll(world: World, targets: seq<Process>, started: nat, waitMs: nat)
      returns (handles: seq<Option<Handle>>, errors: seq<Error>, ghost captures: seq<Event>)
    modifies world
    ensures world.time >= old(world.time) && world.log == old(world.log) + captures && Looking(captures)
    ensures AllDealt(world, targets, handles, errors, captures)
  {
    handles, errors, captures := [], [], [];
    for i := 0 to |targets|
      invariant |handles| == i && world.time >= old(world.time)
      invariant world.log == old(world.log) + captures && Looking(captures)
      invariant AllDealt(world, targets[..i], handles, errors, captures)
    {
      var handle: Option<Handle> := None;
      ghost var more: seq<Event> := [];
      var error := Interrupted(world, started, waitMs);
      if error == Success {
        handle, error, more := OpenForTermination(world, targets[i]);
        if handle.None? && error in {NotFound, InvalidParameter} {
          error := Success;
          SeenGoneAfter(captures, more, targets[i]);
        }
      }
      AllDealtSnoc(world, targets[..i], handles, errors, captures, more, targets[i], handle, error);
      assert targets[..i + 1] == targets[..i] + [targets[i]];
      hide Looking, AllDealt;
      LookingConcat(captures, more);
      handles, errors, captures := handles + [handle], errors + [error], captures + more;
    }
    assert targets[..|targets|] == targets;
  }

  ghost predicate Logged(world: World, events: seq<Event>)
    reads world`log
  {
    forall e :: e in events ==> e in world.log
  }

  /** The process has been asked to end, or there is no need to. */
  ghost predicate Asked(events: seq<Event>, process: Process) {
    Terminated(process) in events || Signalled(process) in events || Exiting(process) in events
  }

  /** Asks one held process to end, unless it is about to. */
  method TerminateOne(world: World, handle: Handle, started: nat, waitMs: nat, ghost captures: seq<Event>, ghost targets: seq<Process>)
      returns (error: Error, ghost events: seq<Event>)
    requires Opened(handle.process) in captures && handle.process in targets && world.Permitted(handle.process)
    requires Logged(world, captures)
    modifies world
    ensures world.time >= old(world.time) && world.log == old(world.log) + events && Kills(world, events, captures, targets)
    ensures error == Success ==> Asked(events, handle.process)
  {
    events := [];
    error := Interrupted(world, started, waitMs);
    if error != Success {
      return;
    }
    assert Opened(handle.process) in world.log;
    var exiting := world.IsExiting(handle);
    events := events + if exiting then [Exiting(handle.process)] else [];
    if exiting {
      return;
    }
    var over := world.IsSignalled(handle);
    events := events + if over then [Signalled(handle.process)] else [];
    if over {
      return;
    }
    error := world.Terminate(handle);
    events := events + [Terminated(handle.process)];
    if error != Success {
      over := world.IsSignalled(handle);
      events := events + if over then [Signalled(handle.process)] else [];
      if over {
        error := Success;
      }
    }
  }

  lemma KillsConcat(world: World, kills: seq<Event>, more: seq<Event>, captures: seq<Event>, targets: seq<Process>)
    requires Kills(world, kills, captures, targets) && Kills(world, more, captures, targets)
    ensures Kills(world, kills + more, captures, targets)
  {
  }

  method TerminateAll(world: World, targets: seq<Process>, handles: seq<Option<Handle>>, errors: seq<Error>,
      started: nat, waitMs: nat, ghost captures: seq<Event>) returns (now: seq<Error>, ghost kills: seq<Event>)
    requires AllDealt(world, targets, handles, errors, captures) && Logged(world, captures)
    modifies world
    ensures world.time >= old(world.time) && world.log == old(world.log) + kills && Kills(world, kills, captures, targets)
    ensures AllDealt(world, targets, handles, now, captures)
    ensures forall i :: 0 <= i < |targets| && handles[i].Some? && now[i] == Success ==> Asked(kills, targets[i])
  {
    now, kills := errors, [];
    for i := 0 to |targets|
      invariant world.time >= old(world.time) && world.log == old(world.log) + kills && Logged(world, captures)
      invariant Kills(world, kills, captures, targets) && AllDealt(world, targets, handles, now, captures)
      invariant forall k :: 0 <= k < i && handles[k].Some? && now[k] == Success ==> Asked(kills, targets[k])
    {
      if handles[i].Some? {
        assert Dealt(world, targets[i], handles[i], now[i], captures);
        ghost var more;
        var error;
        error, more := TerminateOne(world, handles[i].value, started, waitMs, captures, targets);
        KillsConcat(world, kills, more, captures, targets);
        hide Kills;
        now, kills := now[i := error], kills + more;
      }
    }
  }

  /** How many of the targets may be terminated. */
  ghost function PermittedCount(world: World, targets: seq<Process>): nat {
    if targets == [] then 0
    else PermittedCount(world, targets[..|targets| - 1]) + if world.Permitted(targets[|targets| - 1]) then 1 else 0
  }

  /** Only opened targets are waited for, no more often than there are targets that may be terminated. */
  ghost predicate WaitsFor(world: World, waits: seq<Event>, captures: seq<Event>, targets: seq<Process>) {
    && TimesWaited(waits) <= PermittedCount(world, targets)
    && forall i :: 0 <= i < |waits| && waits[i].Waited? ==> Opened(waits[i].process) in captures && waits[i].process in targets
  }

  /** One more wait keeps to the shared time. */
  lemma Waiting(waits: seq<Event>, process: Process, began: nat, waitMs: nat, from: nat, read: nat, at: nat, ms: nat, until: nat,
      to: nat, over: bool) returns (now: seq<Event>)
    requires SharedWaits(waits, began, waitMs, from, read) && ms == TimeLeft(read, began, waitMs)
    requires read <= at <= until <= at + ms && until <= to
    ensures now == waits + [Waited(process, read, at, ms, until)] + if over then [Signalled(process)] else []
    ensures SharedWaits(now, began, waitMs, from, to) && TimesWaited(now) == TimesWaited(waits) + 1
  {
    var wait := waits + [Waited(process, read, at, ms, until)];
    assert wait[..|wait| - 1] == waits;
    now := wait + if over then [Signalled(process)] else [];
    if over {
      assert now[..|now| - 1] == wait;
    } else {
      assert now == wait;
    }
  }

  lemma WaitsForNext(world: World, waits: seq<Event>, now: seq<Event>, captures: seq<Event>, targets: seq<Process>, target: Process,
      held: bool, wait: seq<Event>)
    requires WaitsFor(world, waits, captures, targets) && now == waits + wait
    requires if held then world.Permitted(target) && Opened(target) in captures && TimesWaited(now) == TimesWaited(waits) + 1 &&
                          forall e :: e in wait ==> (e.Waited? || e.Signalled?) && e.process == target
             else wait == []
    ensures WaitsFor(world, now, captures, targets + [target])
  {
    var more := targets + [target];
    assert more[..|targets|] == targets;
    if !held {
      assert now == waits;
    }
    forall i | 0 <= i < |now| && now[i].Waited? ensures Opened(now[i].process) in captures && now[i].process in more {
      if i >= |waits| {
        assert now[i] in wait;
      }
    }
  }

  /** Waits for one held process, for what is left of the time. */
  method WaitOne(world: World, handle: Handle, started: nat, waitMs: nat, ghost began: nat, ghost from: nat, ghost waits: seq<Event>)
      returns (error: Error, ghost wait: seq<Event>)
    requires Opened(handle.process) in world.log && started == Tick(began)
    requires SharedWaits(waits, began, waitMs, from, world.time)
    modifies world
    ensures world.time >= old(world.time) && world.log == old(world.log) + wait
    ensures SharedWaits(waits + wait, began, waitMs, from, world.time) && TimesWaited(waits + wait) == TimesWaited(waits) + 1
    ensures forall e :: e in wait ==> (e.Waited? || e.Signalled?) && e.process == handle.process
    ensures error == Success ==> Signalled(handle.process) in wait
  {
    var tick := world.GetTickCount();
    var elapsed := Since(tick, started);
    var remaining: nat := if elapsed < waitMs then waitMs - elapsed else 0;
    ghost var read := world.time;
    ghost var at, until;
    error, at, until := world.Wait(handle, remaining);
    wait := [Waited(handle.process, read, at, remaining, until)] + if error == Success then [Signalled(handle.process)] else [];
    ghost var now := Waiting(waits, handle.process, began, waitMs, from, read, at, remaining, until, world.time, error == Success);
    assert now == waits + wait;
  }

  method WaitAll(world: World, targets: seq<Process>, handles: seq<Option<Handle>>, errors: seq<Error>,
      ghost began: nat, started: nat, waitMs: nat, ghost captures: seq<Event>) returns (now: seq<Error>, ghost waits: seq<Event>)
    requires AllDealt(world, targets, handles, errors, captures) && Logged(world, captures) && started == Tick(began)
    modifies world
    ensures world.time >= old(world.time) && world.log == old(world.log) + waits
    ensures SharedWaits(waits, began, waitMs, old(world.time), world.time) && WaitsFor(world, waits, captures, targets)
    ensures |now| == |targets|
    ensures forall i :: 0 <= i < |targets| && now[i] == Success ==> SeenGone(captures + waits, targets[i])
  {
    now, waits := errors, [];
    for i := 0 to |targets|
      invariant world.time >= old(world.time) && world.log == old(world.log) + waits && Logged(world, captures)
      invariant SharedWaits(waits, began, waitMs, old(world.time), world.time)
      invariant WaitsFor(world, waits, captures, targets[..i])
      invariant AllDealt(world, targets, handles, now, captures)
      invariant forall k :: 0 <= k < i && now[k] == Success ==> SeenGone(captures + waits, targets[k])
    {
      ghost var wait := [];
      assert Dealt(world, targets[i], handles[i], now[i], captures);
      if handles[i].Some? {
        assert Opened(handles[i].value.process) in world.log;
        var error;
        error, wait := WaitOne(world, handles[i].value, started, waitMs, began, old(world.time), waits);
        if error == Success || now[i] == Success {
          now := now[i := error];
        }
      }
      WaitsForNext(world, waits, waits + wait, captures, targets[..i], targets[i], handles[i].Some?, wait);
      assert targets[..i + 1] == targets[..i] + [targets[i]];
      assert handles[i].None? ==> waits + wait == waits;
      hide SharedWaits, WaitsFor;
      forall k | 0 <= k < i + 1 && now[k] == Success ensures SeenGone(captures + (waits + wait), targets[k]) {
        GoneLater(captures, waits, wait, targets[k]);
      }
      waits := waits + wait;
    }
    assert targets[..|targets|] == targets;
  }

  /** What has been seen to be over, at any time before or in the last wait. */
  lemma GoneLater(captures: seq<Event>, waits: seq<Event>, wait: seq<Event>, target: Process)
    requires SeenGone(captures, target) || SeenGone(captures + waits, target) || Signalled(target) in wait
    ensures SeenGone(captures + (waits + wait), target)
  {
    assert captures + (waits + wait) == captures + waits + wait;
    if SeenGone(captures, target) {
      SeenGoneLonger(captures, waits + wait, target);
    } else if SeenGone(captures + waits, target) {
      SeenGoneLonger(captures + waits, wait, target);
    }
  }

  /**
   What a batch does: it opens every target, asks some of the opened ones to end, and waits; nothing is
   asked to end before all have been opened.
   */
  ghost predicate Orderly(world: World, events: seq<Event>, targets: seq<Process>, began: nat, waitMs: nat, to: nat) {
    exists captures, kills, waits, from: nat ::
      events == captures + kills + waits && InPhases(world, captures, kills, waits, targets, began, waitMs, from, to)
  }

  ghost predicate InPhases(world: World, captures: seq<Event>, kills: seq<Event>, waits: seq<Event>, targets: seq<Process>,
      began: nat, waitMs: nat, from: nat, to: nat) {
    && began <= from && Looking(captures) && Kills(world, kills, captures, targets)
    && WaitsFor(world, waits, captures, targets) && SharedWaits(waits, began, waitMs, from, to)
  }

  /** Only supplied lifetimes that may be terminated are asked to end. */
  lemma OrderlyKills(world: World, events: seq<Event>, targets: seq<Process>, began: nat, waitMs: nat, to: nat)
    requires Orderly(world, events, targets, began, waitMs, to)
    ensures forall e :: e in events && e.Terminated? ==> world.Permitted(e.process) && e.process in targets && Opened(e.process) in events
    ensures forall e :: e in events ==> !e.Looked? && !e.Batch?
  {
    var captures, kills, waits, from: nat :|
      events == captures + kills + waits && InPhases(world, captures, kills, waits, targets, began, waitMs, from, to);
    forall e | e in events
      ensures e.Terminated? ==> world.Permitted(e.process) && e.process in targets && Opened(e.process) in events
      ensures !e.Looked? && !e.Batch?
    {
      if e in waits {
        WaitsOnly(waits, began, waitMs, from, to, e);
      } else if e in kills {
        var i :| 0 <= i < |kills| && kills[i] == e;
      } else if e in captures {
        var i :| 0 <= i < |captures| && captures[i] == e;
      }
    }
  }

  lemma {:induction false} TotalConcat(a: seq<Event>, b: seq<Event>)
    ensures TotalWaited(a + b) == TotalWaited(a) + TotalWaited(b)
    decreases |b|
  {
    if b == [] {
      assert a + b == a;
    } else {
      TotalConcat(a, b[..|b| - 1]);
      assert (a + b)[..|a + b| - 1] == a + b[..|b| - 1];
    }
  }

  lemma {:induction false} NoneWaited(events: seq<Event>)
    requires forall e :: e in events ==> !e.Waited?
    ensures TotalWaited(events) == 0
    decreases |events|
  {
    if events != [] {
      NoneWaited(events[..|events| - 1]);
    }
  }

  lemma TotalOfPhases(world: World, captures: seq<Event>, kills: seq<Event>, waits: seq<Event>, targets: seq<Process>)
    requires Looking(captures) && Kills(world, kills, captures, targets)
    ensures TotalWaited(captures + kills + waits) == TotalWaited(waits)
  {
    var others := captures + kills;
    forall e | e in others ensures !e.Waited? {
      if e in captures {
        var i :| 0 <= i < |captures| && captures[i] == e;
      } else {
        var i :| 0 <= i < |kills| && kills[i] == e;
      }
    }
    NoneWaited(others);
    TotalConcat(others, waits);
  }

  /** No wait is longer than the whole time. */
  lemma {:induction false} TotalByTimes(waits: seq<Event>, began: nat, waitMs: nat, from: nat, to: nat)
    requires SharedWaits(waits, began, waitMs, from, to)
    ensures TotalWaited(waits) <= waitMs * TimesWaited(waits)
    decreases |waits|
  {
    if waits != [] {
      var front, last := waits[..|waits| - 1], waits[|waits| - 1];
      TotalByTimes(front, began, waitMs, from, if last.Waited? then last.read else to);
      assert waitMs * (TimesWaited(front) + 1) == waitMs * TimesWaited(front) + waitMs;
    }
  }

  /** A whole batch waits no longer than its time if no more than a turn of the clock passes, or one target at most is waited for. */
  lemma BatchWaitsWithinBudget(world: World, events: seq<Event>, targets: seq<Process>, began: nat, waitMs: nat, to: nat)
    requires Orderly(world, events, targets, began, waitMs, to) && waitMs < WRAP
    ensures began <= to && TotalWaited(events) <= waitMs * ((to - began) / WRAP + 1)
    ensures to - began <= WRAP || waitMs == 0 || PermittedCount(world, targets) <= 1 ==> TotalWaited(events) <= waitMs
  {
    var captures, kills, waits, from: nat :|
      events == captures + kills + waits && InPhases(world, captures, kills, waits, targets, began, waitMs, from, to);
    hide Looking, Kills, SharedWaits, TotalWaited, Orderly, TimesWaited, PermittedCount;
    TotalOfPhases(world, captures, kills, waits, targets);
    WaitsShareBudget(waits, began, waitMs, from, to);
    TotalByTimes(waits, began, waitMs, from, to);
    if PermittedCount(world, targets) <= 1 {
      var times := TimesWaited(waits);
      assert times == 0 || times == 1;
      assert waitMs * times <= waitMs;
    }
  }

  /** A batch over two processes that waits too long: it is held up for a turn of the clock after its first wait. */
  function BatchOverATurn(p: Process, q: Process, began: nat, waitMs: nat): seq<Event> {
    [Opened(p), Opened(q)] + [Terminated(p), Terminated(q)] + WaitsOverATurn(p, q, began, waitMs)
  }

  lemma BatchWaitsTooLong(world: World, targets: seq<Process>, i: nat, j: nat, began: nat, waitMs: nat, to: nat)
    requires i < j < |targets| && world.Permitted(targets[i]) && world.Permitted(targets[j])
    requires 0 < waitMs < WRAP && to - began > WRAP
    ensures Orderly(world, BatchOverATurn(targets[i], targets[j], began, waitMs), targets, began, waitMs, to)
    ensures TotalWaited(BatchOverATurn(targets[i], targets[j], began, waitMs)) == waitMs + 1
  {
    var p, q := targets[i], targets[j];
    var captures, kills, waits := [Opened(p), Opened(q)], [Terminated(p), Terminated(q)], WaitsOverATurn(p, q, began, waitMs);
    WaitsTooLong(p, q, began, waitMs, to);
    TwoPermitted(world, targets, i, j);
    assert Opened(p) in captures && Opened(q) in captures;
    hide SharedWaits, TotalWaited, TimesWaited, PermittedCount;
    assert InPhases(world, captures, kills, waits, targets, began, waitMs, began, to);
    TotalOfPhases(world, captures, kills, waits, targets);
  }

  lemma {:induction false} TwoPermitted(world: World, targets: seq<Process>, i: nat, j: nat)
    requires i < j < |targets| && world.Permitted(targets[i]) && world.Permitted(targets[j])
    ensures PermittedCount(world, targets) >= 2
    decreases |targets|
  {
    var front := targets[..|targets| - 1];
    if j < |targets| - 1 {
      TwoPermitted(world, front, i, j);
    } else {
      OnePermitted(world, front, i);
    }
  }

  lemma {:induction false} OnePermitted(world: World, targets: seq<Process>, i: nat)
    requires i < |targets| && world.Permitted(targets[i])
    ensures PermittedCount(world, targets) >= 1
    decreases |targets|
  {
    if i < |targets| - 1 {
      OnePermitted(world, targets[..|targets| - 1], i);
    }
  }

  lemma {:induction false} FindPermitted(world: World, targets: seq<Process>) returns (i: nat)
    requires PermittedCount(world, targets) >= 1
    ensures i < |targets| && world.Permitted(targets[i])
    decreases |targets|
  {
    i := |targets| - 1;
    if !world.Permitted(targets[i]) {
      i := FindPermitted(world, targets[..|targets| - 1]);
    }
  }

  lemma {:induction false} FindTwoPermitted(world: World, targets: seq<Process>) returns (i: nat, j: nat)
    requires PermittedCount(world, targets) >= 2
    ensures i < j < |targets| && world.Permitted(targets[i]) && world.Permitted(targets[j])
    decreases |targets|
  {
    var front := targets[..|targets| - 1];
    if world.Permitted(targets[|targets| - 1]) {
      i := FindPermitted(world, front);
      j := |targets| - 1;
    } else {
      i, j := FindTwoPermitted(world, front);
    }
  }

  /**
   The time is shared by every batch that can happen exactly if no more than a turn of the clock passes,
   there is no time to share, or not more than one of the targets may be terminated.
   */
  lemma BatchSharesExactly(world: World, targets: seq<Process>, began: nat, waitMs: nat, to: nat)
    requires waitMs < WRAP && began <= to
    ensures (forall events :: Orderly(world, events, targets, began, waitMs, to) ==> TotalWaited(events) <= waitMs) <==>
      to - began <= WRAP || waitMs == 0 || PermittedCount(world, targets) <= 1
  {
    hide Orderly, TotalWaited, PermittedCount;
    if to - began <= WRAP || waitMs == 0 || PermittedCount(world, targets) <= 1 {
      forall events | Orderly(world, events, targets, began, waitMs, to) ensures TotalWaited(events) <= waitMs {
        BatchWaitsWithinBudget(world, events, targets, began, waitMs, to);
      }
    } else {
      var i, j := FindTwoPermitted(world, targets);
      BatchWaitsTooLong(world, targets, i, j, began, waitMs, to);
    }
  }

  lemma {:induction false} WaitsOnly(events: seq<Event>, began: nat, waitMs: nat, from: nat, to: nat, e: Event)
    requires SharedWaits(events, began, waitMs, from, to) && e in events
    ensures e.Waited? || e.Signalled?
    decreases |events|
  {
    var front, last := events[..|events| - 1], events[|events| - 1];
    assert events == front + [last];
    if e != last {
      WaitsOnly(front, began, waitMs, from, if last.Waited? then last.read else to, e);
    }
  }

  lemma GoneAmong(captures: seq<Event>, kills: seq<Event>, waits: seq<Event>, target: Process)
    requires SeenGone(captures + waits, target)
    ensures SeenGone(captures + kills + waits, target)
  {
    var all := captures + kills + waits;
    assert forall e :: e in captures + waits ==> e in all;
  }

  /**
   Terminates exactly the given processes: those that still have the number they were seen with, and
   only after all of them have been captured. No error means that the process is gone.
   */
  method TerminateExactProcesses(world: World, targets: seq<Process>, waitMs: nat)
      returns (errors: seq<Error>, ghost events: seq<Event>, ghost began: nat)
    requires waitMs < WRAP
    modifies world
    ensures world.log == old(world.log) + events && old(world.time) <= began <= world.time
    ensures Orderly(world, events, targets, began, waitMs, world.time)
    ensures |errors| == |targets| && forall i :: 0 <= i < |targets| && errors[i] == Success ==> SeenGone(events, targets[i])
  {
    world.Pass();
    began := world.time;
    var started := world.GetTickCount();
    var handles;
    ghost var captures, kills, waits;
    handles, errors, captures := CaptureAll(world, targets, started, waitMs);
    errors, kills := TerminateAll(world, targets, handles, errors, started, waitMs, captures);
    ghost var from := world.time;
    errors, waits := WaitAll(world, targets, handles, errors, began, started, waitMs, captures);
    events := captures + kills + waits;
    hide Looking, Kills, WaitsFor, SharedWaits, AllDealt;
    assert InPhases(world, captures, kills, waits, targets, began, waitMs, from, world.time);
    forall i | 0 <= i < |targets| && errors[i] == Success ensures SeenGone(events, targets[i]) {
      GoneAmong(captures, kills, waits, targets[i]);
    }
  }
}
