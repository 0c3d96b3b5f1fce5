/**
 Processes as one program sees them: time passes and processes come and go between any two calls, and
 every call can fail. The log is written by the calls alone; it keeps what the system did and said.
 */
module ProcessWorld {
  import opened Text
  import opened TickClock

  type Pid = nat

  /** One lifetime of a process; the number alone can be used again. */
  datatype Process = Process(pid: Pid, created: nat)

  /** An open handle stands for one lifetime, whoever has the number later. */
  datatype Handle = Handle(process: Process)

  datatype Error = Success | Cancelled | Timeout | NotFound | InvalidParameter | AccessDenied | InvalidData | Other(code: nat)

  datatype Event =
    | Looked(time: nat, processes: seq<Process>)
    | Opened(process: Process)                   // the number now belongs to this lifetime
    | Absent(pid: Pid)                           // nobody has the number
    | Past(process: Process)                     // the system's list no longer has this lifetime
    | Signalled(process: Process)                // this lifetime is over
    | Exiting(process: Process)                  // it has an exit code
    | Terminated(process: Process)               // its end was asked for
    | Waited(process: Process, read: nat, at: nat, ms: nat, until: nat)   // `read` is when the clock was last read before
    | Batch(time: nat, ms: nat)                  // the time of a batch was worked out

  /** The system has said that the lifetime is over. */
  ghost predicate SeenGone(events: seq<Event>, target: Process) {
    || Signalled(target) in events || Past(target) in events || Absent(target.pid) in events
    || exists other :: Opened(other) in events && other.pid == target.pid && other.created != target.created
  }

  lemma SeenGoneLonger(events: seq<Event>, more: seq<Event>, target: Process)
    requires SeenGone(events, target)
    ensures SeenGone(events + more, target)
  {
    if other :| Opened(other) in events && other.pid == target.pid && other.created != target.created {
      assert Opened(other) in events + more;
    }
  }

  datatype OpenResult = Open(handle: Handle) | NotOpen(error: Error)

  class World {
    const own: Pid
    const critical: Process -> bool

    var time: nat
    /** When the clock was last read. */
    ghost var reading: nat
    ghost var log: seq<Event>
    /** Whether a question for the cancel event has been answered with yes. */
    ghost var cancelSeen: bool

    constructor (own: Pid, critical: Process -> bool)
      ensures this.own == own && this.critical == critical && log == [] && !cancelSeen
    {
      this.own, this.critical := own, critical;
      time, reading, log, cancelSeen := 0, 0, [], false;
    }

    /** What may be terminated at all. */
    ghost predicate Permitted(process: Process) {
      process.pid > 4 && process.pid != own && process.created != 0 && !critical(process)
    }

    method Pass()
      modifies this`time
      ensures time >= old(time)
    {
      var ms: int := *;
      if ms > 0 {
        time := time + ms;
      }
    }

    method GetTickCount() returns (tick: nat)
      modifies this`reading
      ensures tick == Tick(time) && reading == time
    {
      tick := Tick(time);
      reading := time;
    }

    method IsCancelled() returns (cancelled: bool)
      modifies this`time, this`cancelSeen
      ensures time >= old(time) && cancelSeen == (old(cancelSeen) || cancelled)
    {
      Pass();
      cancelled := *;
      cancelSeen := cancelSeen || cancelled;
    }

    method Snapshot() returns (processes: seq<Process>)
      modifies this`time, this`log
      ensures time >= old(time) && log == old(log) + [Looked(time, processes)]
    {
      Pass();
      processes := *;
      log := log + [Looked(time, processes)];
    }

    /** Opens whatever process has the number now. */
    method OpenProcess(pid: Pid) returns (result: OpenResult)
      modifies this`time, this`log
      ensures time >= old(time)
      ensures result.Open? ==> result.handle.process.pid == pid && log == old(log) + [Opened(result.handle.process)]
      ensures result.NotOpen? ==> result.error !in {Success, NotFound} &&
                                  log == old(log) + if result.error == InvalidParameter then [Absent(pid)] else []
    {
      Pass();
      var there, created, error: Error := *, *, *;
      if there {
        result := Open(Handle(Process(pid, created)));
        log := log + [Opened(result.handle.process)];
      } else {
        error := if error in {Success, NotFound} then AccessDenied else error;
        result := NotOpen(error);
        log := log + if error == InvalidParameter then [Absent(pid)] else [];
      }
    }

    /** The creation time of the process that was opened; 0 is no answer. */
    method CreationTime(handle: Handle) returns (created: nat)
      requires Opened(handle.process) in log
      modifies this`time
      ensures time >= old(time) && (created == 0 || created == handle.process.created)
    {
      Pass();
      var answers: bool := *;
      created := if answers then handle.process.created else 0;
    }

    /** Asks the system's list of processes whether a lifetime is over. */
    method HasExited(process: Process) returns (over: bool)
      modifies this`time, this`log
      ensures time >= old(time) && log == old(log) + if over then [Past(process)] else []
    {
      Pass();
      over := *;
      log := log + if over then [Past(process)] else [];
    }

    /** Whether the process that was opened is over. */
    method IsSignalled(handle: Handle) returns (signalled: bool)
      requires Opened(handle.process) in log
      modifies this`time, this`log
      ensures time >= old(time) && log == old(log) + if signalled then [Signalled(handle.process)] else []
    {
      Pass();
      signalled := *;
      log := log + if signalled then [Signalled(handle.process)] else [];
    }

    /** Whether the process that was opened has an exit code already, though it is not over yet. */
    method IsExiting(handle: Handle) returns (exiting: bool)
      requires Opened(handle.process) in log
      modifies this`time, this`log
      ensures time >= old(time) && log == old(log) + if exiting then [Exiting(handle.process)] else []
    {
      Pass();
      exiting := *;
      log := log + if exiting then [Exiting(handle.process)] else [];
    }

    /** Whether the system would fail without the process; the question can stay without an answer. */
    method IsCritical(handle: Handle) returns (answer: Option<bool>)
      requires Opened(handle.process) in log
      modifies this`time
      ensures time >= old(time) && (answer.Some? ==> answer.value == critical(handle.process))
    {
      Pass();
      var answers: bool := *;
      answer := if answers then Some(critical(handle.process)) else None;
    }

    method Terminate(handle: Handle) returns (error: Error)
      requires Opened(handle.process) in log
      modifies this`time, this`log
      ensures time >= old(time) && log == old(log) + [Terminated(handle.process)]
    {
      Pass();
      error := *;
      log := log + [Terminated(handle.process)];
    }

    /** Waits until the process that was opened is over, for so many milliseconds at most. */
    method Wait(handle: Handle, ms: nat) returns (error: Error, ghost at: nat, ghost until: nat)
      requires Opened(handle.process) in log
      modifies this`time, this`log
      ensures old(time) <= at <= until <= at + ms && until <= time
      ensures error == Timeout ==> until == at + ms
      ensures log == old(log) + [Waited(handle.process, reading, at, ms, until)] +
                     if error == Success then [Signalled(handle.process)] else []
    {
      Pass();
      at := time;
      var waited: int := *;
      error := *;
      waited := if error == Timeout || waited > ms then ms else if waited < 0 then 0 else waited;
      until := time + waited;
      log := log + [Waited(handle.process, reading, at, ms, until)] + if error == Success then [Signalled(handle.process)] else [];
      time := time + waited;
      Pass();
    }

    /** Notes in the log how much time a batch is to get. */
    ghost method BeginBatch(ms: nat)
      modifies this`log
      ensures log == old(log) + [Batch(time, ms)]
    {
      log := log + [Batch(time, ms)];
    }
  }
}
