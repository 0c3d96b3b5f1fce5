/** The bounded queue between the threads that log and the page that shows the log. */
module LogQueue {

  datatype Batch<T> = Batch(entries: seq<T>, dropped: nat, hasMore: bool)

  /** What the queue holds; the lock makes every operation one step from one state to the next. */
  datatype State<T> = State(entries: seq<T>, dropped: nat, notificationPending: bool)

  datatype Pushed<T> = Pushed(state: State<T>, notify: bool)
  datatype Taken<T> = Taken(state: State<T>, batch: Batch<T>)

  function Empty<T>(): State<T> {
    State([], 0, false)
  }

  /** The newest value is kept; when the queue is full the oldest is dropped and counted. */
  function Push<T>(s: State<T>, value: T, capacity: nat): Pushed<T>
    requires capacity > 0
  {
    var kept := if |s.entries| >= capacity then s.entries[1..] else s.entries;
    var lost := if |s.entries| >= capacity then 1 else 0;
    Pushed(State(kept + [value], s.dropped + lost, true), !s.notificationPending)
  }

  function Take<T>(s: State<T>, batchSize: nat): Taken<T> {
    var count := if batchSize < |s.entries| then batchSize else |s.entries|;
    var left := s.entries[count..];
    Taken(State(left, 0, s.notificationPending && left != []), Batch(s.entries[..count], s.dropped, left != []))
  }

  function PostFailed<T>(s: State<T>): State<T> {
    s.(notificationPending := false)
  }

  class BoundedLogQueue<T> {
    var entries: seq<T>
    var dropped: nat
    var notificationPending: bool
    const capacity: nat
    const batchSize: nat

    ghost predicate Valid()
      reads this
    {
      capacity > 0 && batchSize > 0 && |entries| <= capacity
    }

    ghost function Contents(): State<T>
      reads this
    {
      State(entries, dropped, notificationPending)
    }

    constructor (capacity: nat, batchSize: nat)
      requires capacity > 0 && batchSize > 0
      ensures Valid() && Contents() == Empty()
      ensures this.capacity == capacity && this.batchSize == batchSize
    {
      this.capacity, this.batchSize := capacity, batchSize;
      entries, dropped, notificationPending := [], 0, false;
    }

    method PushBack(value: T) returns (notify: bool)
      requires Valid()
      modifies this
      ensures Valid()
      ensures Pushed(Contents(), notify) == Push(old(Contents()), value, capacity)
    {
      if |entries| >= capacity {
        entries := entries[1..];
        dropped := dropped + 1;
      }
      entries := entries + [value];
      if notificationPending { return false; }
      notificationPending := true;
      return true;
    }

    method TakeBatch() returns (batch: Batch<T>)
      requires Valid()
      modifies this
      ensures Valid()
      ensures Taken(Contents(), batch) == Take(old(Contents()), batchSize)
    {
      var taken: seq<T> := [];
      var droppedBefore := dropped;
      dropped := 0;
      var count := 0;
      while count < batchSize && entries != []
        invariant count <= batchSize && count <= |old(entries)|
        invariant taken == old(entries)[..count] && entries == old(entries)[count..]
        invariant notificationPending == old(notificationPending) && dropped == 0
        invariant Valid()
      {
        taken := taken + [entries[0]];
        entries := entries[1..];
        count := count + 1;
      }
      if entries == [] { notificationPending := false; }
      batch := Batch(taken, droppedBefore, entries != []);
    }

    method OnNotificationPostFailed()
      requires Valid()
      modifies this
      ensures Valid() && Contents() == PostFailed(old(Contents()))
    {
      notificationPending := false;
    }

    method Clear()
      requires Valid()
      modifies this
      ensures Valid() && Contents() == Empty()
    {
      entries, dropped, notificationPending := [], 0, false;
    }
  }

  // ---- Nothing is lost without being counted ----

  datatype Operation<T> = PushOp(value: T) | TakeOp | PostFailedOp | ClearOp

  /** The queue, what was pushed since the last clear, and the batches taken since then. */
  datatype History<T> = History(queue: State<T>, stream: seq<T>, batches: seq<Batch<T>>)

  function Apply<T>(h: History<T>, op: Operation<T>, capacity: nat, batchSize: nat): History<T>
    requires capacity > 0
  {
    match op
    case PushOp(v) => h.(queue := Push(h.queue, v, capacity).state, stream := h.stream + [v])
    case TakeOp =>
      var t := Take(h.queue, batchSize);
      h.(queue := t.state, batches := h.batches + [t.batch])
    case PostFailedOp => h.(queue := PostFailed(h.queue))
    case ClearOp => History(Empty(), [], [])
  }

  function ApplyAll<T>(h: History<T>, ops: seq<Operation<T>>, capacity: nat, batchSize: nat): History<T>
    requires capacity > 0
    decreases |ops|
  {
    if ops == [] then h else ApplyAll(Apply(h, ops[0], capacity, batchSize), ops[1..], capacity, batchSize)
  }

  /** How much of the stream the batches account for. */
  function Accounted<T>(batches: seq<Batch<T>>): nat {
    if batches == [] then 0
    else
      var last := batches[|batches| - 1];
      Accounted(batches[..|batches| - 1]) + last.dropped + |last.entries|
  }

  /** Batch by batch the stream is `dropped` missing items followed by the entries delivered. */
  predicate Delivered<T(==)>(stream: seq<T>, batches: seq<Batch<T>>) {
    batches == [] ||
    var front, last := batches[..|batches| - 1], batches[|batches| - 1];
    var start := Accounted(front) + last.dropped;
    && Delivered(stream, front)
    && start + |last.entries| <= |stream|
    && stream[start..start + |last.entries|] == last.entries
  }

  /** The stream is what was delivered, then the items dropped since, then the items still queued. */
  predicate Reconstructed<T(==)>(h: History<T>, capacity: nat) {
    && |h.queue.entries| <= capacity
    && Delivered(h.stream, h.batches)
    && Accounted(h.batches) + h.queue.dropped + |h.queue.entries| == |h.stream|
    && h.stream[|h.stream| - |h.queue.entries|..] == h.queue.entries
  }

  lemma {:induction false} DeliveredGrows<T>(stream: seq<T>, batches: seq<Batch<T>>, value: T)
    requires Delivered(stream, batches)
    ensures Delivered(stream + [value], batches)
    decreases |batches|
  {
    if batches != [] {
      var front, last := batches[..|batches| - 1], batches[|batches| - 1];
      DeliveredGrows(stream, front, value);
      var start := Accounted(front) + last.dropped;
      assert (stream + [value])[start..start + |last.entries|] == stream[start..start + |last.entries|];
    }
  }

  lemma PushReconstructs<T>(h: History<T>, value: T, capacity: nat, batchSize: nat)
    requires capacity > 0 && Reconstructed(h, capacity)
    ensures Reconstructed(Apply(h, PushOp(value), capacity, batchSize), capacity)
  {
    var next := Apply(h, PushOp(value), capacity, batchSize);
    DeliveredGrows(h.stream, h.batches, value);
    hide Delivered, Accounted;
    var queued := h.stream[|h.stream| - |h.queue.entries|..];
    assert next.stream[|h.stream| - |h.queue.entries|..] == queued + [value];
    assert next.stream[|next.stream| - |next.queue.entries|..] == next.queue.entries;
  }

  lemma TakeReconstructs<T>(h: History<T>, capacity: nat, batchSize: nat)
    requires capacity > 0 && Reconstructed(h, capacity)
    ensures Reconstructed(Apply(h, TakeOp, capacity, batchSize), capacity)
  {
    var taken := Take(h.queue, batchSize);
    var batches := h.batches + [taken.batch];
    assert batches[..|batches| - 1] == h.batches && batches[|batches| - 1] == taken.batch;
    var queued := h.stream[|h.stream| - |h.queue.entries|..];
    var start := |h.stream| - |h.queue.entries|;
    assert h.stream[start..start + |taken.batch.entries|] == queued[..|taken.batch.entries|];
    assert h.stream[|h.stream| - |taken.state.entries|..] == queued[|taken.batch.entries|..];
    assert Accounted(batches) == Accounted(h.batches) + taken.batch.dropped + |taken.batch.entries|;
  }

  lemma ApplyReconstructs<T>(h: History<T>, op: Operation<T>, capacity: nat, batchSize: nat)
    requires capacity > 0 && Reconstructed(h, capacity)
    ensures Reconstructed(Apply(h, op, capacity, batchSize), capacity)
  {
    match op
    case PushOp(v) => PushReconstructs(h, v, capacity, batchSize);
    case TakeOp => TakeReconstructs(h, capacity, batchSize);
    case PostFailedOp =>
    case ClearOp =>
  }

  /** Whatever is pushed, taken, failed and cleared, in any order: every item is accounted for. */
  lemma {:induction false} NothingUnaccounted<T>(h: History<T>, ops: seq<Operation<T>>, capacity: nat, batchSize: nat)
    requires capacity > 0 && Reconstructed(h, capacity)
    ensures Reconstructed(ApplyAll(h, ops, capacity, batchSize), capacity)
    decreases |ops|
  {
    if ops != [] {
      ApplyReconstructs(h, ops[0], capacity, batchSize);
      NothingUnaccounted(Apply(h, ops[0], capacity, batchSize), ops[1..], capacity, batchSize);
    }
  }

  lemma FreshQueueReconstructs<T>(ops: seq<Operation<T>>, capacity: nat, batchSize: nat)
    requires capacity > 0
    ensures Reconstructed(ApplyAll(History(Empty<T>(), [], []), ops, capacity, batchSize), capacity)
  {
    NothingUnaccounted(History(Empty<T>(), [], []), ops, capacity, batchSize);
  }
}
