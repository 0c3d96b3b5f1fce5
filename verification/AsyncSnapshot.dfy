/**
 One query in the background and one result at a time. The methods are the regions under the lock,
 and the log records in which order they ran, so that it stands for an interleaving of threads.
 */
module AsyncSnapshot {
  import opened Text

  datatype Event<T> =
    | Accepted(request: nat)
    | Refused
    | StartFailed(request: nat)
    | Finished(request: nat, result: Option<T>)
    | Took(request: nat, value: T)
    | Cancelled

  /** The part of the log in which a request is the latest one and neither taken nor cancelled. */
  ghost predicate Undisturbed<T(!new)>(log: seq<Event<T>>, from: nat, to: nat) {
    from <= to <= |log| && forall k :: from <= k < to ==> !(log[k].Accepted? || log[k].Took? || log[k].Cancelled?)
  }

  ghost predicate Delivers<T(!new)>(log: seq<Event<T>>, accepted: nat, finished: nat, request: nat, value: T, now: nat) {
    && accepted < finished < now <= |log|
    && log[accepted] == Accepted(request) && log[finished] == Finished(request, Some(value))
    && Undisturbed(log, accepted + 1, now)
  }

  /** What is taken is the result of the latest accepted request, not cancelled and not taken before. */
  ghost predicate GoodTake<T(!new)>(log: seq<Event<T>>, i: nat)
    requires i < |log|
  {
    log[i].Took? ==>
      exists accepted: nat, finished: nat :: Delivers(log, accepted, finished, log[i].request, log[i].value, i)
  }

  ghost predicate AllGood<T(!new)>(log: seq<Event<T>>) {
    forall i: nat :: i < |log| ==> GoodTake(log, i)
  }

  /** Between two results that are taken a request is accepted, so none is taken twice. */
  lemma TakenOnce<T(!new)>(log: seq<Event<T>>, i: nat, j: nat)
    requires AllGood(log) && i < j < |log| && log[i].Took? && log[j].Took?
    ensures exists k :: i < k < j && log[k] == Accepted(log[j].request)
  {
    assert GoodTake(log, j);
    var accepted: nat, finished: nat :| Delivers(log, accepted, finished, log[j].request, log[j].value, j);
    assert i < accepted;
  }

  /** The requests that were accepted and have neither finished nor failed to start. */
  ghost function Outstanding<T>(log: seq<Event<T>>): int {
    if log == [] then 0
    else
      Outstanding(log[..|log| - 1]) +
      match log[|log| - 1]
      case Accepted(_) => 1
      case Finished(_, _) => -1
      case StartFailed(_) => -1
      case _ => 0
  }

  lemma DeliversLonger<T(!new)>(log: seq<Event<T>>, event: Event<T>, accepted: nat, finished: nat, request: nat, value: T, now: nat)
    requires Delivers(log, accepted, finished, request, value, now)
    ensures Delivers(log + [event], accepted, finished, request, value, now)
    ensures now == |log| && !(event.Accepted? || event.Took? || event.Cancelled?) ==>
      Delivers(log + [event], accepted, finished, request, value, now + 1)
  {
  }

  lemma GoodLonger<T(!new)>(log: seq<Event<T>>, event: Event<T>)
    requires AllGood(log)
    requires event.Took? ==>
      exists accepted: nat, finished: nat :: Delivers(log, accepted, finished, event.request, event.value, |log|)
    ensures AllGood(log + [event])
  {
    var now := log + [event];
    forall i: nat | i < |now| && now[i].Took?
      ensures exists accepted: nat, finished: nat :: Delivers(now, accepted, finished, now[i].request, now[i].value, i)
    {
      if i < |log| {
        assert GoodTake(log, i);
      }
      var accepted: nat, finished: nat :| Delivers(log, accepted, finished, now[i].request, now[i].value, i);
      DeliversLonger(log, event, accepted, finished, now[i].request, now[i].value, i);
    }
  }

  lemma OutstandingLonger<T>(log: seq<Event<T>>, event: Event<T>)
    ensures Outstanding(log + [event]) == Outstanding(log) +
      if event.Accepted? then 1 else if event.Finished? || event.StartFailed? then -1 else 0
  {
    assert (log + [event])[..|log|] == log;
  }

  /** A worker: the generation it was started for, and whether its thread runs. */
  datatype Worker = Worker(generation: nat, started: bool)

  /** The worker serves the latest request; without a cancellation nothing has come in between. */
  ghost predicate WorkerFits<T(!new)>(log: seq<Event<T>>, latest: nat, worker: Worker, requests: nat, generation: nat) {
    && worker.generation <= generation
    && latest < |log| && log[latest] == Accepted(requests)
    && (worker.generation == generation ==> Undisturbed(log, latest + 1, |log|))
  }

  /** The result that is ready came from the latest request. */
  ghost predicate ReadyFits<T(!new)>(log: seq<Event<T>>, latest: nat, value: T, requests: nat) {
    exists finished: nat :: Delivers(log, latest, finished, requests, value, |log|)
  }

  lemma WorkerLonger<T(!new)>(log: seq<Event<T>>, latest: nat, worker: Worker, requests: nat, generation: nat, event: Event<T>)
    requires WorkerFits(log, latest, worker, requests, generation) && !event.Accepted? && !event.Took?
    ensures WorkerFits(log + [event], latest, worker, requests, if event.Cancelled? then generation + 1 else generation)
  {
  }

  lemma ReadyLonger<T(!new)>(log: seq<Event<T>>, latest: nat, value: T, requests: nat, event: Event<T>)
    requires ReadyFits(log, latest, value, requests) && !event.Accepted? && !event.Took? && !event.Cancelled?
    ensures ReadyFits(log + [event], latest, value, requests)
  {
    var finished: nat :| Delivers(log, latest, finished, requests, value, |log|);
    DeliversLonger(log, event, latest, finished, requests, value, |log|);
  }

  lemma ReadyFinished<T(!new)>(log: seq<Event<T>>, latest: nat, worker: Worker, requests: nat, value: T)
    requires WorkerFits(log, latest, worker, requests, worker.generation)
    ensures ReadyFits(log + [Finished(requests, Some(value))], latest, value, requests)
  {
    var now := log + [Finished(requests, Some(value))];
    assert Delivers(now, latest, |log|, requests, value, |now|);
  }

  lemma WorkerStarts<T(!new)>(log: seq<Event<T>>, requests: nat, generation: nat)
    ensures WorkerFits(log + [Accepted(requests)], |log|, Worker(generation, false), requests, generation)
  {
  }

  /** An event that takes nothing leaves the log in order; one that takes needs a result to take. */
  lemma Append<T(!new)>(log: seq<Event<T>>, event: Event<T>)
    requires AllGood(log)
    requires event.Took? ==>
      exists accepted: nat, finished: nat :: Delivers(log, accepted, finished, event.request, event.value, |log|)
    ensures AllGood(log + [event])
    ensures Outstanding(log + [event]) == Outstanding(log) +
      if event.Accepted? then 1 else if event.Finished? || event.StartFailed? then -1 else 0
  {
    GoodLonger(log, event);
    OutstandingLonger(log, event);
  }

  class AsyncSnapshot<T(!new)> {
    var busy: bool
    var generation: nat
    var ready: Option<T>
    var worker: Option<Worker>

    ghost var log: seq<Event<T>>
    ghost var requests: nat
    /** Where the latest request was accepted. */
    ghost var latest: nat

    ghost predicate Valid()
      reads this
    {
      && AllGood(log) && (busy <==> worker.Some?) && Outstanding(log) == (if busy then 1 else 0)
      && (ready.Some? ==> !busy && ReadyFits(log, latest, ready.value, requests))
      && (busy ==> WorkerFits(log, latest, worker.value, requests, generation))
    }

    constructor ()
      ensures Valid() && !busy && ready == None && log == []
    {
      busy, generation, ready := false, 0, None;
      worker, log, requests, latest := None, [], 0, 0;
    }

    /** A request as far as the lock: it is refused while a worker runs or a result waits. */
    method Accept() returns (accepted: bool)
      requires Valid()
      modifies this
      ensures Valid() && (accepted <==> !old(busy) && old(ready).None?)
      ensures accepted ==> busy && worker == Some(Worker(generation, false)) && log == old(log) + [Accepted(requests)]
      ensures accepted ==> requests > old(requests) && ready == None
      ensures !accepted ==> log == old(log) + [Refused] && busy == old(busy) && ready == old(ready) && worker == old(worker)
      ensures generation == old(generation)
    {
      accepted := !busy && ready.None?;
      hide AllGood, Outstanding, WorkerFits, ReadyFits;
      if accepted {
        WorkerStarts(log, requests + 1, generation);
        requests := requests + 1;
        Append(log, Accepted(requests));
        latest, log := |log|, log + [Accepted(requests)];
        worker := Some(Worker(generation, false));
        busy := true;
      } else {
        Append(log, Refused);
        if busy {
          WorkerLonger(log, latest, worker.value, requests, generation, Refused);
        } else {
          ReadyLonger(log, latest, ready.value, requests, Refused);
        }
        log := log + [Refused];
      }
    }

    /** The thread of an accepted request runs. */
    method Start()
      requires Valid() && busy && !worker.value.started
      modifies this`worker
      ensures Valid() && busy && worker.value.started
    {
      worker := Some(worker.value.(started := true));
    }

    /** The thread of an accepted request cannot be created. */
    method FailToStart()
      requires Valid() && busy && !worker.value.started
      modifies this`busy, this`worker, this`log
      ensures Valid() && !busy && log == old(log) + [StartFailed(requests)]
    {
      Append(log, StartFailed(requests));
      log := log + [StartFailed(requests)];
      busy, worker := false, None;
    }

    /** The worker hands in its result, which counts unless it has been cancelled meanwhile. */
    method Finish(result: Option<T>)
      requires Valid() && busy && worker.value.started
      modifies this`busy, this`worker, this`log, this`ready
      ensures Valid() && !busy && log == old(log) + [Finished(requests, result)]
      ensures ready == if old(worker).value.generation == generation then result else None
    {
      ghost var event := Finished(requests, result);
      hide AllGood, Outstanding, WorkerFits, ReadyFits;
      Append(log, event);
      ready := if worker.value.generation == generation then result else ready;
      if ready.Some? {
        ReadyFinished(log, latest, worker.value, requests, ready.value);
      }
      log := log + [event];
      busy, worker := false, None;
    }

    method Take() returns (result: Option<T>)
      requires Valid()
      modifies this`ready, this`log
      ensures Valid() && ready == None && result == old(ready)
      ensures result.Some? ==> log == old(log) + [Took(requests, result.value)] && !busy
      ensures result.None? ==> log == old(log)
    {
      result := ready;
      ready := None;
      if result.Some? {
        ghost var event := Took(requests, result.value);
        assert ReadyFits(log, latest, result.value, requests);
        Append(log, event);
        log := log + [event];
      }
    }

    method Cancel()
      requires Valid()
      modifies this`ready, this`generation, this`log
      ensures Valid() && ready == None && generation == old(generation) + 1 && log == old(log) + [Cancelled]
    {
      Append(log, Cancelled);
      if busy {
        WorkerLonger(log, latest, worker.value, requests, generation, Cancelled);
      }
      generation := generation + 1;
      ready := None;
      log := log + [Cancelled];
    }
  }
}
