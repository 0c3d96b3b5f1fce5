/** Importing a configuration: it is put in place after shutdown, and taken back if the restart fails. */
module ConfigImport {
  import opened Text
  import opened FileSystem

  /** The replacement program, which is created suspended. */
  datatype Child = NoChild | Suspended | Running | Ready | Dead

  datatype Report = KeptOriginal | RestoreFailed | RestartRestored | RelaunchFailed

  /** How an import ends. */
  datatype Outcome =
    | Started(imported: bool)
    | GivenUp(restored: bool)
    | NotRestored
    | Unstoppable

  function BytesOf(file: Option<File>): Option<Bytes> {
    match file
    case None => None
    case Some(f) => Some(f.bytes)
  }

  // ---- Putting the import in place ----

  /** The system's answer to each call while the import is put in place. */
  datatype SwapAnswers = SwapAnswers(
    locks: bool, attributes: bool, readsTarget: bool, readsStaged: bool, replacement: Replacement, readsBack: bool)

  datatype Swapped = Swapped(failed: bool, attempted: bool, now: Option<File>, changes: seq<Change>)

  /** The configuration still is what was backed up, and so is the staged file. */
  predicate MaySwap(prior: Option<Bytes>, contents: Bytes, staged: Option<File>, there: Option<File>, a: SwapAnswers) {
    && a.attributes && BytesOf(there) == prior && (prior.Some? ==> a.readsTarget)
    && a.readsStaged && BytesOf(staged) == Some(contents)
  }

  /** What putting the import in place does to the configuration that is there under the lock. */
  function SwapRun(prior: Option<Bytes>, contents: Bytes, staged: Option<File>, there: Option<File>, a: SwapAnswers): Swapped {
    if !a.locks || !MaySwap(prior, contents, staged, there, a) then Swapped(true, false, there, [])
    else
      var now := if a.replacement == Replaced then
                   if there.Some? then Some(there.value.(bytes := contents)) else staged
                 else if there.Some? && a.replacement == Lost then None else there;
      var changes := if a.replacement == Replaced || now != there then [Change(there, now)] else [];
      Swapped(a.replacement != Replaced || !a.readsBack, true, now, changes)
  }

  // ---- Taking it back ----

  datatype RestoreAnswers = RestoreAnswers(
    locks: bool, attributes: bool, deletes: bool, readsTarget: bool, copies: bool, moves: bool, readsBack: bool, cleans: bool)

  datatype Restored = Restored(ok: bool, now: Option<File>, changes: seq<Change>)

  /** Something else than the backed-up configuration is there, and every call up to writing it works. */
  predicate Writes(prior: Option<Bytes>, backup: Option<File>, free: bool, there: Option<File>, a: RestoreAnswers) {
    && a.locks && a.attributes && BytesOf(there) != prior
    && if prior.None? then a.deletes else (there.Some? ==> a.readsTarget) && a.copies && backup.Some? && free && a.moves
  }

  /** What taking the import back does to the configuration that is there under the lock. */
  function RestoreRun(prior: Option<Bytes>, backup: Option<File>, free: bool, there: Option<File>, a: RestoreAnswers): Restored {
    if Writes(prior, backup, free, there, a) then
      var now := if prior.None? then None else backup;
      Restored(prior.None? || (a.readsBack && BytesOf(backup) == prior), now, [Change(there, now)])
    else
      Restored(a.locks && a.attributes && BytesOf(there) == prior && (prior.Some? ==> a.readsTarget), there, [])
  }

  // ---- What is left behind ----

  /** What was prepared before shutdown. */
  datatype Prepared = Prepared(prior: Option<Bytes>, contents: Bytes, staged: Option<File>, backup: Option<File>, free: bool)

  /** The changes made to the configuration, and what it holds whenever the lock is taken and released. */
  datatype Trace = Trace(changes: seq<Change>, taken: seq<Option<File>>, released: seq<Option<File>>)

  function Joined(first: Trace, second: Trace): Trace {
    Trace(first.changes + second.changes, first.taken + second.taken, first.released + second.released)
  }

  const NOTHING := Trace([], [], [])

  lemma JoinedChains(first: Trace, second: Trace, third: Trace)
    ensures Joined(Joined(first, second), third) == Joined(first, Joined(second, third))
  {
  }

  /** What putting the import in place leaves behind. */
  function SwapLeaves(p: Prepared, there: Option<File>, a: SwapAnswers): Trace {
    if !a.locks then NOTHING
    else
      var swap := SwapRun(p.prior, p.contents, p.staged, there, a);
      Trace(swap.changes, [there], [swap.now])
  }

  /** What taking it back leaves behind. */
  function RestoreLeaves(prior: Option<Bytes>, backup: Option<File>, free: bool, there: Option<File>, a: RestoreAnswers): Trace {
    if !a.locks then NOTHING
    else
      var restore := RestoreRun(prior, backup, free, there, a);
      Trace(restore.changes, [there], [restore.now])
  }

  // ---- The whole of it ----

  datatype ImportAnswers = ImportAnswers(
    swap: SwapAnswers, restore: RestoreAnswers,
    resumes: bool, ready: bool, ended: bool, stops: bool, relaunches: bool)

  datatype Finish = Finish(outcome: Outcome, reports: seq<Report>, trace: Trace)

  /** The replacement program has reported that it is ready. */
  predicate ComesUp(a: ImportAnswers) {
    a.resumes && a.ready
  }

  /** The replacement program is over in the end. */
  predicate Ends(a: ImportAnswers) {
    !ComesUp(a) && ((a.resumes && a.ended) || a.stops)
  }

  datatype Placed = Placed(failed: bool, stuck: bool, trace: Trace)

  /** Putting the import in place; if that fails half-way, it is taken back at once. */
  function PlaceRun(p: Prepared, atSwap: Option<File>, atRestore: Option<File>, a: ImportAnswers): Placed {
    var swap, first := SwapRun(p.prior, p.contents, p.staged, atSwap, a.swap), SwapLeaves(p, atSwap, a.swap);
    if swap.failed && swap.attempted then
      Placed(true, !RestoreRun(p.prior, p.backup, p.free, atRestore, a.restore).ok,
        Joined(first, RestoreLeaves(p.prior, p.backup, p.free, atRestore, a.restore)))
    else Placed(swap.failed, false, first)
  }

  /** Starting the replacement program; if it does not become ready, the import is taken back. */
  function StartRun(prior: Option<Bytes>, backup: Option<File>, free: bool, failed: bool, atRestore: Option<File>, a: ImportAnswers): Finish {
    var reports := if failed then [KeptOriginal] else [];
    if ComesUp(a) then Finish(Started(!failed), reports, NOTHING)
    else if !Ends(a) then Finish(Unstoppable, reports + [RestoreFailed], NOTHING)
    else
      var trace := if failed then NOTHING else RestoreLeaves(prior, backup, free, atRestore, a.restore);
      if !failed && !RestoreRun(prior, backup, free, atRestore, a.restore).ok then
        Finish(NotRestored, reports + [RestoreFailed], trace)
      else
        Finish(GivenUp(!failed), reports + if a.relaunches then [RestartRestored] else [RestartRestored, RelaunchFailed], trace)
  }

  /**
   The end of an import. `atSwap` and `atRestore` are what the configuration holds when the lock is taken
   for putting the import in place and for taking it back.
   */
  function FinishRun(p: Prepared, atSwap: Option<File>, atRestore: Option<File>, a: ImportAnswers): Finish {
    var placed := PlaceRun(p, atSwap, atRestore, a);
    if placed.stuck then Finish(NotRestored, [RestoreFailed], placed.trace)
    else
      var run := StartRun(p.prior, p.backup, p.free, placed.failed, atRestore, a);
      Finish(run.outcome, run.reports, Joined(placed.trace, run.trace))
  }

  /** Either the import is taken back at once, or after the start has failed. */
  lemma TakenBackOnce(p: Prepared, atSwap: Option<File>, atOnce: Option<File>, later: Option<File>, a: ImportAnswers)
    ensures !PlaceRun(p, atSwap, atOnce, a).failed ==> PlaceRun(p, atSwap, later, a) == PlaceRun(p, atSwap, atOnce, a)
    ensures forall backup, free ::
      StartRun(p.prior, backup, free, true, later, a) == StartRun(p.prior, p.backup, p.free, true, atOnce, a)
  {
  }

  /** The import is taken back: at once if putting it in place has failed half-way, later if the restart fails. */
  predicate Restores(swap: Swapped, a: ImportAnswers) {
    swap.attempted && (swap.failed || Ends(a))
  }

  /** An import changes the configuration by putting it in place and by taking it back. */
  lemma FinishChanges(p: Prepared, atSwap: Option<File>, atRestore: Option<File>, a: ImportAnswers)
    ensures
      var swap := SwapRun(p.prior, p.contents, p.staged, atSwap, a.swap);
      var restore := RestoreRun(p.prior, p.backup, p.free, atRestore, a.restore);
      FinishRun(p, atSwap, atRestore, a).trace.changes ==
      if Restores(swap, a) then swap.changes + restore.changes else swap.changes
  {
    SwapFailsUnlocked(p.prior, p.contents, p.staged, atSwap, a.swap);
  }

  /** A change replaces what was backed up, or what the change before it has left. */
  predicate Legitimate(prior: Option<Bytes>, changes: seq<Change>) {
    forall i | 0 <= i < |changes| ::
      BytesOf(changes[i].before) == prior || (i > 0 && changes[i].before == changes[i - 1].after)
  }

  /** The import is taken back although something else is there than it has left itself. */
  predicate OverwritesOthers(p: Prepared, atSwap: Option<File>, atRestore: Option<File>, a: ImportAnswers) {
    var swap := SwapRun(p.prior, p.contents, p.staged, atSwap, a.swap);
    && Restores(swap, a) && Writes(p.prior, p.backup, p.free, atRestore, a.restore)
    && !(swap.changes != [] && atRestore == swap.now)
  }

  /** No configuration of another program is overwritten exactly when the import is not taken back over one. */
  lemma LegitimateUnlessOverwritten(p: Prepared, atSwap: Option<File>, atRestore: Option<File>, a: ImportAnswers)
    ensures Legitimate(p.prior, FinishRun(p, atSwap, atRestore, a).trace.changes) <==> !OverwritesOthers(p, atSwap, atRestore, a)
  {
    var swap := SwapRun(p.prior, p.contents, p.staged, atSwap, a.swap);
    var restore := RestoreRun(p.prior, p.backup, p.free, atRestore, a.restore);
    SwapChanges(p.prior, p.contents, p.staged, atSwap, a.swap);
    assert restore.changes == if Writes(p.prior, p.backup, p.free, atRestore, a.restore) then [Change(atRestore, restore.now)] else [];
    FinishChanges(p, atSwap, atRestore, a);
    hide SwapRun, RestoreRun, FinishRun, Restores, Legitimate, MaySwap;
    if Restores(swap, a) && Writes(p.prior, p.backup, p.free, atRestore, a.restore) {
      OneMoreChange(p.prior, swap.changes, Change(atRestore, restore.now));
    } else {
      assert swap.changes + [] == swap.changes;
    }
  }

  /** Putting the import in place makes at most one change, to what was backed up. */
  lemma SwapChanges(prior: Option<Bytes>, contents: Bytes, staged: Option<File>, there: Option<File>, a: SwapAnswers)
    ensures var swap := SwapRun(prior, contents, staged, there, a);
            swap.changes == [] || (swap.changes == [Change(there, swap.now)] && BytesOf(there) == prior)
    ensures Legitimate(prior, SwapRun(prior, contents, staged, there, a).changes)
  {
  }

  lemma SwapFailsUnlocked(prior: Option<Bytes>, contents: Bytes, staged: Option<File>, there: Option<File>, a: SwapAnswers)
    ensures var swap := SwapRun(prior, contents, staged, there, a);
            (!swap.failed ==> swap.attempted) && (swap.attempted ==> a.locks)
  {
  }

  lemma NoSwap(prior: Option<Bytes>, contents: Bytes, staged: Option<File>, a: SwapAnswers)
    requires !a.locks
    ensures forall there :: SwapRun(prior, contents, staged, there, a) == Swapped(true, false, there, [])
  {
  }

  lemma OneMoreChange(prior: Option<Bytes>, changes: seq<Change>, change: Change)
    requires Legitimate(prior, changes) && BytesOf(change.before) != prior
    ensures Legitimate(prior, changes + [change]) <==> changes != [] && change.before == changes[|changes| - 1].after
  {
    var now := changes + [change];
    assert now[|changes|] == change;
    assert forall i :: 0 <= i < |changes| ==> now[i] == changes[i];
  }

  const SWAP_WORKS := SwapAnswers(true, true, true, true, Replaced, true)
  const RESTORE_WORKS := RestoreAnswers(true, true, true, true, true, true, true, true)

  /**
   Nothing of others is overwritten whatever the system answers, exactly when the configuration has
   been changed before the import is put in place, or holds what was backed up whenever it is to be
   taken back.
   */
  lemma LegitimateWhateverHappens(p: Prepared, atSwap: Option<File>, atRestore: Option<File>)
    requires p.free && BytesOf(p.staged) == Some(p.contents) && (p.prior.Some? ==> p.backup.Some?)
    ensures (forall a: ImportAnswers :: Legitimate(p.prior, FinishRun(p, atSwap, atRestore, a).trace.changes)) <==>
      BytesOf(atSwap) != p.prior || BytesOf(atRestore) == p.prior
  {
    forall a: ImportAnswers
      ensures Legitimate(p.prior, FinishRun(p, atSwap, atRestore, a).trace.changes) <==> !OverwritesOthers(p, atSwap, atRestore, a)
    {
      LegitimateUnlessOverwritten(p, atSwap, atRestore, a);
    }
    if BytesOf(atSwap) == p.prior && BytesOf(atRestore) != p.prior {
      var a := ImportAnswers(SWAP_WORKS.(replacement := Refused), RESTORE_WORKS, true, true, false, false, true);
      assert OverwritesOthers(p, atSwap, atRestore, a);
      assert !Legitimate(p.prior, FinishRun(p, atSwap, atRestore, a).trace.changes);
    }
  }

  /**
   A run in which the system refuses to move the import to its place, another program creates its
   configuration right after, and that is deleted, because there was none before.
   */
  lemma RefusedSwapDeletesTheirs(contents: Bytes)
    ensures var p := Prepared(None, contents, Some(File(contents, false)), None, true);
            var theirs := Some(File([1], false));
            var a := ImportAnswers(SWAP_WORKS.(replacement := Refused), RESTORE_WORKS, true, true, false, false, true);
            FinishRun(p, None, theirs, a) == Finish(Started(false), [KeptOriginal], Trace([Change(theirs, None)], [None, theirs], [None, None]))
  {
  }

  /**
   A run in which the import is put in place, another program changes the configuration while the
   replacement program starts, that does not come up, and the change is lost.
   */
  lemma FailedRestartOverwritesTheirs(was: Bytes, contents: Bytes, theirs: Bytes)
    requires theirs != was
    ensures var p := Prepared(Some(was), contents, Some(File(contents, false)), Some(File(was, false)), true);
            var a := ImportAnswers(SWAP_WORKS, RESTORE_WORKS, true, false, true, false, true);
            var before, imported, changed := Some(File(was, false)), Some(File(contents, false)), Some(File(theirs, false));
            FinishRun(p, before, changed, a) ==
            Finish(GivenUp(true), [RestartRestored],
              Trace([Change(before, imported), Change(changed, before)], [before, changed], [imported, before]))
  {
  }

  /**
   An import is reported as done exactly when the configuration still was what was backed up, the staged
   file what was imported, every call of the swap has worked, and the new program is ready. Its one
   change then puts the imported bytes in the place of the old ones.
   */
  lemma DoneAsReported(p: Prepared, atSwap: Option<File>, atRestore: Option<File>, a: ImportAnswers)
    ensures var run := FinishRun(p, atSwap, atRestore, a);
            && (run.outcome == Started(true) <==>
                  && BytesOf(atSwap) == p.prior && BytesOf(p.staged) == Some(p.contents)
                  && a.swap.locks && a.swap.attributes && (p.prior.Some? ==> a.swap.readsTarget) && a.swap.readsStaged
                  && a.swap.replacement == Replaced && a.swap.readsBack && a.resumes && a.ready)
            && (run.outcome == Started(true) ==>
                  run.reports == [] && |run.trace.changes| == 1 && run.trace.changes[0].before == atSwap &&
                  BytesOf(run.trace.changes[0].after) == Some(p.contents) && run.trace.released == [run.trace.changes[0].after])
  {
    hide RestoreRun, RestoreLeaves;
  }

  /**
   Taking the import back works exactly if what was backed up is there already, or comes to be there by
   calls that all work; then it is what is left under the lock.
   */
  lemma RestoreMeans(prior: Option<Bytes>, backup: Option<File>, free: bool, there: Option<File>, a: RestoreAnswers)
    ensures var restore := RestoreRun(prior, backup, free, there, a);
            && (restore.ok <==>
                  && a.locks && a.attributes
                  && if BytesOf(there) == prior then prior.Some? ==> a.readsTarget
                     else if prior.None? then a.deletes
                     else (there.Some? ==> a.readsTarget) && BytesOf(backup) == prior && free && a.copies && a.moves && a.readsBack)
            && (restore.ok ==> BytesOf(restore.now) == prior)
            && (restore.changes == [] ==> restore.now == there)
  {
  }

  /**
   Unless the import is done or the user is told that it could not be taken back, the program has changed
   nothing, or the configuration holds what was backed up when the lock is released for the last time.
   */
  lemma RestoredAsReported(p: Prepared, atSwap: Option<File>, atRestore: Option<File>, a: ImportAnswers)
    ensures var run := FinishRun(p, atSwap, atRestore, a);
            var releases := |run.trace.released|;
            run.outcome == Started(true) || RestoreFailed in run.reports || run.trace.changes == [] ||
            (releases > 0 && BytesOf(run.trace.released[releases - 1]) == p.prior)
  {
    RestoredIsPrior(p.prior, p.backup, p.free, atRestore, a.restore);
    SwapFailsUnlocked(p.prior, p.contents, p.staged, atSwap, a.swap);
    NoSwapNoChange(p.prior, p.contents, p.staged, atSwap, a.swap);
    hide SwapRun, RestoreRun;
  }

  lemma RestoredIsPrior(prior: Option<Bytes>, backup: Option<File>, free: bool, there: Option<File>, a: RestoreAnswers)
    ensures var restore := RestoreRun(prior, backup, free, there, a); restore.ok ==> a.locks && BytesOf(restore.now) == prior
  {
  }

  lemma NoSwapNoChange(prior: Option<Bytes>, contents: Bytes, staged: Option<File>, there: Option<File>, a: SwapAnswers)
    ensures var swap := SwapRun(prior, contents, staged, there, a); !swap.attempted ==> swap.changes == []
  {
  }

  /**
   The user is told that the old configuration may not be back exactly if taking it back is tried and
   does not work, or the new program neither becomes ready nor ends. The old program is started again
   exactly in the other cases in which the new one does not become ready.
   */
  lemma FailureIsReported(p: Prepared, atSwap: Option<File>, atRestore: Option<File>, a: ImportAnswers)
    ensures var run, swap := FinishRun(p, atSwap, atRestore, a), SwapRun(p.prior, p.contents, p.staged, atSwap, a.swap);
            var lost := Restores(swap, a) && !RestoreRun(p.prior, p.backup, p.free, atRestore, a.restore).ok;
            && (RestoreFailed in run.reports <==> lost || (!ComesUp(a) && !Ends(a)))
            && (RestartRestored in run.reports <==> !lost && Ends(a))
            && (KeptOriginal in run.reports <==> swap.failed && !(swap.attempted && lost))
            && (RelaunchFailed in run.reports <==> !lost && Ends(a) && !a.relaunches)
  {
    SwapFailsUnlocked(p.prior, p.contents, p.staged, atSwap, a.swap);
    hide SwapRun, RestoreRun, SwapLeaves, RestoreLeaves;
  }

  /** As long as nobody writes between putting the import in place and taking it back, nothing of others is overwritten. */
  lemma LegitimateUndisturbed(p: Prepared, atSwap: Option<File>, a: ImportAnswers)
    ensures var swap := SwapRun(p.prior, p.contents, p.staged, atSwap, a.swap);
            Legitimate(p.prior, FinishRun(p, atSwap, swap.now, a).trace.changes)
  {
    LegitimateUnlessOverwritten(p, atSwap, SwapRun(p.prior, p.contents, p.staged, atSwap, a.swap).now, a);
  }

  /** A run that reports no failure although its last change lost the file: another program had put the old bytes back. */
  lemma OthersRestored()
    ensures var was := Some(File([1], false));
            var p := Prepared(Some([1]), [2], Some(File([2], false)), was, true);
            var a := ImportAnswers(SWAP_WORKS.(replacement := Lost), RESTORE_WORKS, true, true, false, false, true);
            FinishRun(p, was, was, a) == Finish(Started(false), [KeptOriginal], Trace([Change(was, None)], [was, was], [None, was]))
  {
  }

  /** If every call works and the configuration is what was backed up, the import ends with a replacement program that is ready. */
  lemma ImportSucceeds(p: Prepared, atSwap: Option<File>, atRestore: Option<File>, a: ImportAnswers)
    requires a.swap == SWAP_WORKS && ComesUp(a) && BytesOf(atSwap) == p.prior && BytesOf(p.staged) == Some(p.contents)
    ensures FinishRun(p, atSwap, atRestore, a).outcome == Started(true)
  {
  }

  // ---- The import itself ----

  datatype PrepareAnswers = PrepareAnswers(attributes: bool, imported: Option<Bytes>, writes: bool)

  datatype ArmAnswers = ArmAnswers(
    locks: bool, attributes: bool, attributesAgain: bool, readsTarget: bool, writes: bool, readsBackup: bool, launches: bool)

  /** The configuration is there if it was, can be written, and every call for its backup works. */
  predicate CanBackUp(hadPrevious: bool, there: Option<File>, free: bool, a: ArmAnswers) {
    a.attributes && (there.Some? <==> hadPrevious) &&
    (hadPrevious ==> a.attributesAgain && !there.value.readOnly && a.readsTarget && free && a.writes && a.readsBackup)
  }

  class Pending {
    const disk: Disk
    const staged: Path
    const backup: Path
    const restore: Path

    var hadPrevious: bool
    var previous: Bytes
    var contents: Bytes
    var child: Child

    ghost predicate Valid()
      reads this, disk
    {
      && disk.Valid() && disk.mine(staged) && disk.mine(backup) && disk.mine(restore)
      && staged != backup && staged != restore && backup != restore
    }

    constructor (disk: Disk, staged: Path, backup: Path, restore: Path)
      requires disk.Valid() && disk.mine(staged) && disk.mine(backup) && disk.mine(restore)
      requires staged != backup && staged != restore && backup != restore
      ensures Valid() && child == NoChild && this.disk == disk
    {
      this.disk, this.staged, this.backup, this.restore := disk, staged, backup, restore;
      hadPrevious, previous, contents, child := false, [], [], NoChild;
    }

    /** What the configuration was when the import was confirmed. */
    function Prior(): Option<Bytes>
      reads this`hadPrevious, this`previous
    {
      if hadPrevious then Some(previous) else None
    }

    ghost function AsPrepared(files: Files): Prepared
      reads this`hadPrevious, this`previous, this`contents
    {
      Prepared(Prior(), contents, Look(files, staged), Look(files, backup), Look(files, restore) == None)
    }

    /** Whether a file exists; no answer is an error. */
    method Exists(path: Path, works: bool) returns (answer: Option<bool>)
      requires Valid()
      modifies disk`files
      ensures Valid() && disk.OnlyTouched(old(disk.files), disk.files, {})
      ensures answer == if works then Some(path in disk.files) else None
    {
      var attributes := disk.GetAttributes(path, works);
      answer := match attributes
        case Unknown => None
        case Missing => Some(false)
        case Present(_) => Some(true);
    }

    /** Stages the imported bytes; `a.imported` is what reading and checking the source came to. */
    method Prepare(a: PrepareAnswers) returns (ok: bool)
      requires Valid() && child == NoChild
      modifies this`hadPrevious, this`contents, disk`files
      ensures Valid() && disk.OnlyTouched(old(disk.files), disk.files, {staged})
      ensures ok <==> a.attributes && a.imported.Some? && a.writes && Look(old(disk.files), staged) == None
      ensures ok ==> a.imported == Some(contents) && Look(disk.files, staged) == Some(File(contents, false))
      ensures ok && disk.alone ==> (hadPrevious <==> disk.Now().Some?)
    {
      var answer := Exists(disk.target, a.attributes);
      if answer.None? {
        return false;
      }
      hadPrevious := answer.value;
      if a.imported.None? {
        return false;
      }
      contents := a.imported.value;
      ok := disk.WriteNew(staged, contents, a.writes);
    }

    /** Backs the configuration up and checks the backup. */
    method BackUp(a: ArmAnswers) returns (ok: bool)
      requires Valid() && disk.held > 0
      modifies this`previous, disk`files
      ensures Valid() && disk.OnlyTouched(old(disk.files), disk.files, {backup})
      ensures ok && hadPrevious ==> Look(disk.files, backup) == Some(File(previous, false))
      ensures disk.cooperative ==>
        var there := disk.Now();
        && ok == CanBackUp(hadPrevious, there, Look(old(disk.files), backup) == None, a)
        && (ok ==> BytesOf(there) == Prior())
    {
      var answer := Exists(disk.target, a.attributes);
      if answer != Some(hadPrevious) {
        return false;
      }
      if hadPrevious {
        var attributes := disk.GetAttributes(disk.target, a.attributesAgain);
        if !attributes.Present? || attributes.readOnly {
          return false;
        }
        var bytes := disk.Read(disk.target, a.readsTarget);
        if bytes.None? {
          return false;
        }
        previous := bytes.value;
        var written := disk.WriteNew(backup, previous, a.writes);
        if !written {
          return false;
        }
        var check := disk.Read(backup, a.readsBackup);
        if check != Some(previous) {
          return false;
        }
      }
      return true;
    }

    /** Backs up under the lock and creates the replacement program, suspended. */
    method ArmRestart(a: ArmAnswers) returns (ok: bool)
      requires Valid() && child == NoChild
      modifies this`previous, this`child, disk`files, disk`held, disk`taken, disk`released, disk`mark
      ensures Valid() && disk.held == old(disk.held)
      ensures ok ==> a.locks && a.launches && (hadPrevious ==> Look(disk.files, backup) == Some(File(previous, false)))
      ensures ok && disk.cooperative ==> disk.released != [] && BytesOf(disk.released[|disk.released| - 1]) == Prior()
      ensures a.locks && disk.cooperative ==>
        |disk.taken| > 0 &&
        var there := disk.taken[|disk.taken| - 1];
        ok <==>
          && a.launches && a.attributes && (there.Some? <==> hadPrevious)
          && (hadPrevious ==>
                a.attributesAgain && !there.value.readOnly && a.readsTarget && a.writes && a.readsBackup &&
                Look(old(disk.files), backup) == None)
      ensures child == if ok then Suspended else NoChild
      ensures Look(disk.files, staged) == Look(old(disk.files), staged)
    {
      disk.Lock(a.locks);
      if !a.locks {
        return false;
      }
      ok := BackUp(a);
      disk.Unlock();
      ok := ok && a.launches;
      if ok {
        child := Suspended;
      }
    }

    /** Whether the configuration still is what was backed up, and the staged file what was imported. */
    method IsAsBackedUp(a: SwapAnswers) returns (ok: bool)
      requires Valid() && disk.held > 0
      modifies disk`files
      ensures Valid() && disk.OnlyTouched(old(disk.files), disk.files, {})
      ensures disk.cooperative ==> ok == MaySwap(Prior(), contents, Look(disk.files, staged), disk.Now(), a)
      ensures ok ==> BytesOf(Look(disk.files, staged)) == Some(contents)
    {
      var answer := Exists(disk.target, a.attributes);
      if answer != Some(hadPrevious) {
        return false;
      }
      if hadPrevious {
        var bytes := disk.Read(disk.target, a.readsTarget);
        if bytes != Some(previous) {
          return false;
        }
      }
      var kept := disk.Read(staged, a.readsStaged);
      return kept == Some(contents);
    }

    /** Puts the imported bytes in place, if the configuration is still what was backed up. */
    method SwapLocked(a: SwapAnswers) returns (failed: bool, attempted: bool)
      requires Valid() && disk.held > 0 && a.locks
      modifies disk`files, disk`ours
      ensures Valid() && disk.OnlyTouched(old(disk.files), disk.files, {staged, disk.target})
      ensures old(disk.ours) <= disk.ours && (!attempted ==> failed && disk.ours == old(disk.ours))
      ensures disk.cooperative ==>
        var swap := SwapRun(Prior(), contents, Look(old(disk.files), staged), old(disk.Now()), a);
        && failed == swap.failed && attempted == swap.attempted && disk.Now() == swap.now
        && disk.ours == old(disk.ours) + swap.changes
    {
      attempted := IsAsBackedUp(a);
      failed := true;
      hide MaySwap;
      if attempted {
        var done;
        ghost var there;
        if hadPrevious {
          var result;
          result, there := disk.ReplaceFile(staged, a.replacement);
          done := result == Replaced;
        } else {
          done, there := disk.MoveNew(staged, a.replacement == Replaced);
        }
        if done {
          var now := disk.Read(disk.target, a.readsBack);
          failed := now != Some(contents);
        }
      }
    }

    /** Copies the backup and lets the copy take the place of the configuration. */
    method PutBack(a: RestoreAnswers) returns (ok: bool)
      requires Valid() && disk.held > 0 && hadPrevious
      modifies disk`files, disk`ours
      ensures Valid() && old(disk.ours) <= disk.ours
      ensures disk.cooperative ==>
        var there, copy := old(disk.Now()), Look(old(disk.files), backup);
        var writes := a.copies && copy.Some? && Look(old(disk.files), restore) == None && a.moves;
        && ok == (writes && a.readsBack && BytesOf(copy) == Prior())
        && disk.Now() == (if writes then copy else there)
        && disk.ours == old(disk.ours) + if writes then [Change(there, copy)] else []
    {
      ok := disk.CopyNew(backup, restore, a.copies);
      if !ok {
        return;
      }
      ghost var there := disk.MoveOver(restore, a.moves);
      if !a.moves {
        disk.Delete(restore, a.cleans);
        return false;
      }
      var now := disk.Read(disk.target, a.readsBack);
      ok := now == Some(previous);
    }

    method RestoreLocked(a: RestoreAnswers) returns (ok: bool)
      requires Valid() && disk.held > 0 && a.locks
      modifies disk`files, disk`ours
      ensures Valid() && old(disk.ours) <= disk.ours
      ensures disk.cooperative ==>
        var run := RestoreRun(Prior(), Look(old(disk.files), backup), Look(old(disk.files), restore) == None, old(disk.Now()), a);
        ok == run.ok && disk.Now() == run.now && disk.ours == old(disk.ours) + run.changes
    {
      var answer := Exists(disk.target, a.attributes);
      if answer.None? {
        return false;
      }
      if !hadPrevious {
        ok := true;
        if answer.value {
          ghost var there;
          ok, there := disk.DeleteTarget(a.deletes);
        }
        return;
      }
      if answer.value {
        var bytes := disk.Read(disk.target, a.readsTarget);
        if bytes.None? {
          return false;
        }
        if bytes.value == previous {
          return true;
        }
      }
      ok := PutBack(a);
    }

    /** What has been done to the configuration so far. */
    ghost function Traced(): Trace
      reads disk`ours, disk`taken, disk`released
    {
      Trace(disk.ours, disk.taken, disk.released)
    }

    /** Takes the lock for putting the import in place. */
    method Swap(a: SwapAnswers) returns (failed: bool, attempted: bool, ghost there: Option<File>)
      requires Valid()
      modifies disk
      ensures Valid() && disk.held == old(disk.held) && old(disk.ours) <= disk.ours
      ensures Look(disk.files, backup) == Look(old(disk.files), backup) && Look(disk.files, restore) == Look(old(disk.files), restore)
      ensures disk.taken == old(disk.taken) + if a.locks then [there] else []
      ensures disk.cooperative ==>
        var p := AsPrepared(old(disk.files));
        var swap := SwapRun(p.prior, p.contents, p.staged, there, a);
        && failed == swap.failed && attempted == swap.attempted
        && Traced() == Joined(old(Traced()), SwapLeaves(p, there, a))
      ensures !attempted ==> failed && disk.ours == old(disk.ours)
    {
      failed, attempted := true, false;
      hide SwapRun;
      disk.Lock(a.locks);
      there := disk.Now();
      if !a.locks {
        NoSwap(Prior(), contents, Look(disk.files, staged), a);
        return;
      }
      failed, attempted := SwapLocked(a);
      disk.Unlock();
    }

    /** Takes the lock for taking the import back. */
    method Restore(a: RestoreAnswers) returns (ok: bool, ghost there: Option<File>)
      requires Valid()
      modifies disk
      ensures Valid() && disk.held == old(disk.held) && old(disk.ours) <= disk.ours
      ensures disk.taken == old(disk.taken) + if a.locks then [there] else []
      ensures disk.cooperative ==>
        var copy, free := Look(old(disk.files), backup), Look(old(disk.files), restore) == None;
        && ok == RestoreRun(Prior(), copy, free, there, a).ok
        && Traced() == Joined(old(Traced()), RestoreLeaves(Prior(), copy, free, there, a))
    {
      ok := false;
      disk.Lock(a.locks);
      there := disk.Now();
      if a.locks {
        hide RestoreRun;
        ok := RestoreLocked(a);
        disk.Unlock();
      } else {
        assert !RestoreRun(Prior(), Look(old(disk.files), backup), Look(old(disk.files), restore) == None, there, a).ok;
      }
    }

    /** Lets the replacement program go and waits for it to report that it is ready; it writes meanwhile, as others do. */
    method Resume(a: ImportAnswers)
      requires Valid() && child == Suspended
      modifies this`child, disk`files
      ensures Valid() && disk.OnlyTouched(old(disk.files), disk.files, {})
      ensures child == if !a.resumes then Suspended else if a.ready then Ready else if a.ended then Dead else Running
    {
      if a.resumes {
        child := if a.ready then Ready else if a.ended then Dead else Running;
      }
      disk.Others();
    }

    /** Ends a replacement program that did not become ready. */
    method StopChild(a: ImportAnswers)
      requires Valid() && child in {Suspended, Running, Dead}
      modifies this`child, disk`files
      ensures Valid() && disk.OnlyTouched(old(disk.files), disk.files, {})
      ensures child == if a.stops then Dead else old(child)
    {
      disk.Others();
      if a.stops {
        child := Dead;
      }
    }

    /** Puts the import in place; if that fails half-way, it is taken back before anything else runs. */
    method Place(a: ImportAnswers) returns (failed: bool, stuck: bool, ghost atSwap: Option<File>, ghost atRestore: Option<File>)
      requires Valid()
      modifies disk
      ensures Valid() && disk.held == old(disk.held) && old(disk.ours) <= disk.ours
      ensures !failed ==> forall path <- {backup, restore} :: Look(disk.files, path) == Look(old(disk.files), path)
      ensures disk.cooperative ==>
        var p := AsPrepared(old(disk.files));
        var placed := PlaceRun(p, atSwap, atRestore, a);
        failed == placed.failed && stuck == placed.stuck && Traced() == Joined(old(Traced()), placed.trace)
    {
      ghost var p, start := AsPrepared(disk.files), Traced();
      hide SwapRun, RestoreRun, SwapLeaves, RestoreLeaves, Joined;
      var attempted;
      failed, attempted, atSwap := Swap(a.swap);
      stuck, atRestore := false, None;
      if failed && attempted {
        var restored;
        restored, atRestore := Restore(a.restore);
        stuck := !restored;
        JoinedChains(start, SwapLeaves(p, atSwap, a.swap), RestoreLeaves(p.prior, p.backup, p.free, atRestore, a.restore));
      }
    }

    /** Starts the replacement program, and takes the import back if it does not become ready. */
    method Start(a: ImportAnswers, failed: bool) returns (outcome: Outcome, reports: seq<Report>, ghost atRestore: Option<File>)
      requires Valid() && child == Suspended
      modifies this`child, disk
      ensures Valid() && disk.held == old(disk.held) && old(disk.ours) <= disk.ours
      ensures disk.cooperative ==>
        var copy, free := Look(old(disk.files), backup), Look(old(disk.files), restore) == None;
        var run := StartRun(Prior(), copy, free, failed, atRestore, a);
        outcome == run.outcome && reports == run.reports && Traced() == Joined(old(Traced()), run.trace)
      ensures outcome.Started? <==> child == Ready
      ensures outcome.GivenUp? ==> child == Dead
      ensures outcome.Unstoppable? ==> child in {Suspended, Running}
    {
      ghost var start := Traced();
      ghost var copy, free := Look(disk.files, backup), Look(disk.files, restore) == None;
      hide RestoreRun, RestoreLeaves, Joined;
      assert Joined(start, NOTHING) == start;
      reports, atRestore := if failed then [KeptOriginal] else [], None;
      Resume(a);
      if child == Ready {
        return Started(!failed), reports, atRestore;
      }
      StopChild(a);
      if child != Dead {
        return Unstoppable, reports + [RestoreFailed], atRestore;
      }
      if !failed {
        var restored;
        restored, atRestore := Restore(a.restore);
        if !restored {
          return NotRestored, reports + [RestoreFailed], atRestore;
        }
      }
      reports := reports + if a.relaunches then [RestartRestored] else [RestartRestored, RelaunchFailed];
      outcome := GivenUp(!failed);
    }

    /**
     Puts the import in place after shutdown and starts the replacement program. The replacement
     runs only once the configuration is in a known state; if it does not become ready it is ended,
     and the configuration is taken back before the old program is started again.
     */
    method FinishAfterShutdown(a: ImportAnswers)
      returns (outcome: Outcome, reports: seq<Report>, ghost atSwap: Option<File>, ghost atRestore: Option<File>)
      requires Valid() && child == Suspended
      modifies this`child, disk
      ensures Valid() && disk.held == old(disk.held) && old(disk.ours) <= disk.ours
      ensures disk.cooperative ==>
        var p := AsPrepared(old(disk.files));
        var run := FinishRun(p, atSwap, atRestore, a);
        outcome == run.outcome && reports == run.reports && Traced() == Joined(old(Traced()), run.trace)
      ensures outcome.Started? <==> child == Ready
      ensures outcome.GivenUp? ==> child == Dead
      ensures outcome.Unstoppable? ==> child in {Suspended, Running}
    {
      ghost var p, start := AsPrepared(disk.files), Traced();
      hide PlaceRun, StartRun, Joined;
      var failed, stuck;
      failed, stuck, atSwap, atRestore := Place(a);
      if stuck {
        return NotRestored, [RestoreFailed], atSwap, atRestore;
      }
      ghost var later;
      outcome, reports, later := Start(a, failed);
      ghost var placed := PlaceRun(p, atSwap, atRestore, a);
      TakenBackOnce(p, atSwap, atRestore, later, a);
      ghost var run := StartRun(p.prior, p.backup, p.free, failed, later, a);
      JoinedChains(start, placed.trace, run.trace);
      if !failed {
        atRestore := later;
      }
    }
  }
}
