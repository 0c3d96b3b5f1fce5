/** Editing the configuration: a private copy is edited and then takes the place of the original. */
module ConfigStorage {
  import opened Text
  import opened FileSystem

  /** What an edit starts from: the bytes of the file, or a byte order mark where there is none. */
  function BaseOf(file: Option<File>): Bytes {
    match file
    case None => [0xff, 0xfe]
    case Some(f) => f.bytes
  }

  type Editor = Bytes -> Option<Bytes>

  // ---- What an edit comes to ----

  /** The system's answer to each call of an edit. */
  datatype UpdateAnswers = UpdateAnswers(
    locks: bool, attributes: bool, unique: bool, stages: bool, edits: bool,
    readsStaged: bool, readsTarget: bool, flushes: bool, replacement: Replacement, deletes: bool)

  datatype Run = Run(ok: bool, now: Option<File>)

  /** The edited bytes, if every call up to the replacement works. `free` says that the staging name is. */
  function Edited(before: Option<File>, free: bool, edit: Editor, a: UpdateAnswers): Option<Bytes> {
    if a.locks && a.attributes && (before.Some? ==> !before.value.readOnly) && a.unique && free && a.stages && a.edits &&
       a.readsStaged && (before.Some? ==> a.readsTarget)
    then edit(BaseOf(before)) else None
  }

  /** What an edit makes of the configuration that is there when it takes the lock. */
  function UpdateRun(before: Option<File>, free: bool, edit: Editor, a: UpdateAnswers): Run {
    match Edited(before, free, edit, a)
    case None => Run(false, before)
    case Some(bytes) =>
      if before.Some? && before.value.bytes == bytes then Run(true, before)
      else if !a.flushes then Run(false, before)
      else if before.Some? then
        match a.replacement
        case Replaced => Run(true, Some(before.value.(bytes := bytes)))
        case Refused => Run(false, before)
        case Lost => Run(false, None)
      else if a.replacement == Replaced then Run(true, Some(File(bytes, false))) else Run(false, None)
  }

  /** Success means the edited bytes, failure the old file. */
  predicate AllOrNothing(before: Option<File>, edit: Editor, run: Run) {
    if run.ok then run.now.Some? && edit(BaseOf(before)) == Some(run.now.value.bytes) else run.now == before
  }

  /** The replacement of an existing file is reached, and the system loses the file in it. */
  predicate LosesFile(before: Option<File>, free: bool, edit: Editor, a: UpdateAnswers) {
    var bytes := Edited(before, free, edit, a);
    before.Some? && bytes.Some? && bytes.value != before.value.bytes && a.flushes && a.replacement == Lost
  }

  lemma AllOrNothingUnlessLost(before: Option<File>, free: bool, edit: Editor, a: UpdateAnswers)
    ensures AllOrNothing(before, edit, UpdateRun(before, free, edit, a)) <==> !LosesFile(before, free, edit, a)
  {
  }

  const ALL_WORK := UpdateAnswers(true, true, true, true, true, true, true, true, Replaced, true)

  /**
   The configurations that no answer of the system can harm: those that are absent or read-only, and
   those in which the edit fails or changes nothing.
   */
  lemma SafeWhateverHappens(before: Option<File>, edit: Editor)
    ensures (forall free: bool, a: UpdateAnswers :: AllOrNothing(before, edit, UpdateRun(before, free, edit, a))) <==>
      before.None? || before.value.readOnly || edit(before.value.bytes) in {None, Some(before.value.bytes)}
  {
    forall free: bool, a: UpdateAnswers
      ensures AllOrNothing(before, edit, UpdateRun(before, free, edit, a)) <==> !LosesFile(before, free, edit, a)
    {
      AllOrNothingUnlessLost(before, free, edit, a);
    }
    if !(before.None? || before.value.readOnly || edit(before.value.bytes) in {None, Some(before.value.bytes)}) {
      var a := ALL_WORK.(replacement := Lost);
      assert LosesFile(before, true, edit, a);
      assert !AllOrNothing(before, edit, UpdateRun(before, true, edit, a));
    }
  }

  /** A run that fails and leaves nothing: the configuration held one byte, and the edit adds another. */
  lemma UpdateLoses()
    ensures var before := Some(File([1], false));
            var edit := (bytes: Bytes) => Some(bytes + [2]);
            UpdateRun(before, true, edit, ALL_WORK.(replacement := Lost)) == Run(false, None)
  {
    var edit := (bytes: Bytes) => Some(bytes + [2]);
    assert edit([1]) == Some([1] + [2]) && [1] + [2] != [1 as bv8];
  }

  /**
   An edit succeeds exactly if the configuration is writable or absent, the edit itself works, and so
   does every call that is made; the last ones are not made if nothing would change.
   */
  lemma UpdateSucceeds(before: Option<File>, free: bool, edit: Editor, a: UpdateAnswers)
    ensures var base: Bytes := if before.Some? then before.value.bytes else [0xff, 0xfe];
            UpdateRun(before, free, edit, a).ok <==>
            && a.locks && a.attributes && !(before.Some? && before.value.readOnly) && a.unique && free && a.stages && a.edits
            && edit(base).Some? && a.readsStaged && (before.Some? ==> a.readsTarget)
            && (edit(base) == (if before.Some? then Some(base) else None) || (a.flushes && a.replacement == Replaced))
  {
  }

  // ---- The steps of an edit ----

  /** The file holds an edit of these bytes. */
  ghost predicate Staged(file: Option<File>, edit: Editor, base: Bytes) {
    file.Some? && edit(base) == Some(file.value.bytes)
  }

  /**
   What the edit does to the configuration whoever else writes it: nothing, or one change. A change
   exchanges a file that is there by the whole edit of a copy, loses it, or creates one where none is.
   */
  ghost predicate OneStep(earlier: seq<Change>, ours: seq<Change>, edit: Editor, base: Bytes, present: bool) {
    || ours == earlier
    || exists change: Change ::
         && ours == earlier + [change]
         && (change.before.Some? <==> present) && (!present ==> base == BaseOf(None))
         && (Staged(change.after, edit, base) || (present && change.after == None))
  }

  /** Makes the edited copy, without touching the configuration. */
  method Stage(disk: Disk, staged: Path, edit: Editor, present: bool, a: UpdateAnswers)
      returns (ok: bool, same: bool, ghost base: Bytes)
    requires disk.Valid() && disk.mine(staged) && disk.held > 0
    requires disk.cooperative ==> (present <==> disk.Now().Some?)
    modifies disk`files
    ensures disk.Valid() && disk.OnlyTouched(old(disk.files), disk.files, {staged})
    ensures ok ==> Staged(Look(disk.files, staged), edit, base)
    ensures ok && !present ==> base == BaseOf(None) && !Look(disk.files, staged).value.readOnly
    ensures disk.cooperative ==>
      var free := Look(old(disk.files), staged) == None;
      var edited := if free && a.stages && a.edits && a.readsStaged && (present ==> a.readsTarget)
                    then edit(BaseOf(disk.Now())) else None;
      && (ok <==> edited.Some?) && (ok ==> Some(Look(disk.files, staged).value.bytes) == edited)
      && (same <==> ok && present && edited == Some(disk.Now().value.bytes))
  {
    base, same := [], false;
    if present {
      ok := disk.CopyNew(disk.target, staged, a.stages);
      base := if ok then Look(disk.files, staged).value.bytes else [];
    } else {
      base := BaseOf(None);
      ok := disk.WriteNew(staged, BaseOf(None), a.stages);
    }
    if ok {
      ok := disk.Edit(staged, edit, a.edits);
    }
    var before, after: Option<Bytes> := None, None;
    if ok {
      after := disk.Read(staged, a.readsStaged);
      ok := after.Some?;
    }
    if ok && present {
      before := disk.Read(disk.target, a.readsTarget);
      ok := before.Some?;
      same := ok && before == after;
    }
  }

  /** Lets the edited copy take the place of the configuration. */
  method Commit(disk: Disk, staged: Path, edit: Editor, present: bool, a: UpdateAnswers, ghost base: Bytes) returns (ok: bool)
    requires disk.Valid() && disk.mine(staged) && disk.held > 0 && Staged(Look(disk.files, staged), edit, base)
    requires (disk.cooperative ==> (present <==> disk.Now().Some?)) && (!present ==> base == BaseOf(None))
    modifies disk`files, disk`ours
    ensures disk.Valid() && OneStep(old(disk.ours), disk.ours, edit, base, present)
    ensures disk.cooperative ==>
      var before, edited := old(disk.Now()), Look(old(disk.files), staged).value;
      && (ok <==> a.replacement == Replaced)
      && disk.Now() == if ok then Some(if present then before.value.(bytes := edited.bytes) else edited)
                       else if present && a.replacement == Lost then None else before
  {
    ghost var there;
    if present {
      var result;
      result, there := disk.ReplaceFile(staged, a.replacement);
      ok := result == Replaced;
    } else {
      ok, there := disk.MoveNew(staged, a.replacement == Replaced);
    }
  }

  /** Edits the configuration under the lock. */
  method UpdateLocked(disk: Disk, staged: Path, edit: Editor, a: UpdateAnswers)
      returns (ok: bool, ghost base: Bytes, ghost present: bool)
    requires disk.Valid() && disk.mine(staged) && disk.held > 0 && a.locks
    modifies disk`files, disk`ours
    ensures disk.Valid() && OneStep(old(disk.ours), disk.ours, edit, base, present)
    ensures disk.cooperative ==>
      Run(ok, disk.Now()) == UpdateRun(old(disk.Now()), Look(old(disk.files), staged) == None, edit, a)
  {
    ok, base := false, [];
    var attributes := disk.GetAttributes(disk.target, a.attributes);
    var there := attributes.Present?;
    present := there;
    if attributes.Unknown? || (there && attributes.readOnly) || !a.unique {
      return;
    }
    var same;
    ok, same, base := Stage(disk, staged, edit, there, a);
    if ok && !same {
      ok := a.flushes;
      if ok {
        ok := Commit(disk, staged, edit, there, a, base);
      }
    }
    disk.Delete(staged, a.deletes);
  }

  /** Edits the configuration; what is there when the lock is taken decides with the answers what becomes of it. */
  method Update(disk: Disk, staged: Path, edit: Editor, a: UpdateAnswers)
      returns (ok: bool, ghost base: Bytes, ghost present: bool)
    requires disk.Valid() && disk.mine(staged)
    modifies disk
    ensures disk.Valid() && disk.held == old(disk.held) && OneStep(old(disk.ours), disk.ours, edit, base, present)
    ensures a.locks ==> |disk.taken| == |old(disk.taken)| + 1 && disk.taken[..|old(disk.taken)|] == old(disk.taken)
    ensures a.locks && disk.cooperative ==>
      var before, free := disk.taken[|old(disk.taken)|], Look(old(disk.files), staged) == None;
      && Run(ok, disk.Now()) == UpdateRun(before, free, edit, a)
      && |old(disk.ours)| <= |disk.ours| && Linked(before, disk.ours[|old(disk.ours)|..], disk.Now())
    ensures !a.locks ==> !ok && disk.ours == old(disk.ours) && disk.taken == old(disk.taken)
    ensures old(disk.held) > 0 && disk.cooperative ==>
      if a.locks then disk.taken[|old(disk.taken)|] == old(disk.Now()) else disk.Now() == old(disk.Now())
  {
    ok, base, present := false, [], false;
    disk.Lock(a.locks);
    if a.locks {
      ok, base, present := UpdateLocked(disk, staged, edit, a);
      disk.Unlock();
    }
  }

  // ---- Creating the configuration ----

  /** Writes the defaults behind the byte order mark, over whatever is there. */
  function Overlay(bytes: Bytes, defaults: Bytes): Bytes {
    var start := if |bytes| < 2 then bytes + seq(2 - |bytes|, _ => 0) else bytes[..2];
    start + defaults + (if |bytes| > 2 + |defaults| then bytes[2 + |defaults|..] else [])
  }

  function WriteDefaults(defaults: Bytes): Editor {
    (bytes: Bytes) => Some(Overlay(bytes, defaults))
  }

  datatype InitializeAnswers = InitializeAnswers(path: bool, directory: bool, locks: bool, attributes: bool, update: UpdateAnswers)

  /** What the program makes of the configuration when it starts. */
  function InitializeRun(before: Option<File>, free: bool, defaults: Bytes, a: InitializeAnswers): Run {
    if !a.path || !a.directory || !a.locks then Run(false, before)
    else if before.Some? && a.attributes then Run(true, before)
    else UpdateRun(before, free, WriteDefaults(defaults), a.update)
  }

  /** The first query for the configuration is not answered, and everything after it works. */
  predicate Overwrites(before: Option<File>, free: bool, defaults: Bytes, a: InitializeAnswers) {
    var bytes := Edited(before, free, WriteDefaults(defaults), a.update);
    && before.Some? && a.path && a.directory && a.locks && !a.attributes
    && bytes.Some? && bytes.value != before.value.bytes && a.update.flushes && a.update.replacement != Refused
  }

  /** An existing configuration is left alone exactly when it is not overwritten in this way. */
  lemma KeptUnlessOverwritten(before: Option<File>, free: bool, defaults: Bytes, a: InitializeAnswers)
    requires before.Some?
    ensures InitializeRun(before, free, defaults, a).now == before <==> !Overwrites(before, free, defaults, a)
  {
  }

  /** The configurations that are kept whatever the system answers: read-only ones, and those that start with the defaults. */
  lemma KeptWhateverHappens(before: Option<File>, defaults: Bytes)
    requires before.Some?
    ensures (forall free: bool, a: InitializeAnswers :: InitializeRun(before, free, defaults, a).now == before) <==>
      before.value.readOnly || Overlay(before.value.bytes, defaults) == before.value.bytes
  {
    forall free: bool, a: InitializeAnswers
      ensures InitializeRun(before, free, defaults, a).now == before <==> !Overwrites(before, free, defaults, a)
    {
      KeptUnlessOverwritten(before, free, defaults, a);
    }
    if !(before.value.readOnly || Overlay(before.value.bytes, defaults) == before.value.bytes) {
      var a := InitializeAnswers(true, true, true, false, ALL_WORK);
      assert Overwrites(before, true, defaults, a);
      assert InitializeRun(before, true, defaults, a).now != before;
    }
  }

  /** The program starts with a configuration exactly if one is there, seen or edited under the lock, or could be created. */
  lemma InitializeSucceeds(before: Option<File>, free: bool, defaults: Bytes, a: InitializeAnswers)
    ensures var run := InitializeRun(before, free, defaults, a);
            run.ok <==>
            && a.path && a.directory && a.locks
            && ((before.Some? && a.attributes) || UpdateRun(before, free, WriteDefaults(defaults), a.update).ok)
    ensures var run := InitializeRun(before, free, defaults, a); run.ok ==> run.now.Some?
  {
  }

  /** A configuration that does not exist is created whole or not at all. */
  lemma CreatedWhole(free: bool, defaults: Bytes, a: InitializeAnswers)
    ensures var run := InitializeRun(None, free, defaults, a);
            run.now == if run.ok then Some(File([0xff, 0xfe] + defaults, false)) else None
  {
    assert Overlay(BaseOf(None), defaults) == BaseOf(None) + defaults;
  }

  /** A run that writes the defaults over the start of a configuration. */
  lemma InitializeOverwrites()
    ensures var before: Bytes, defaults: Bytes := [0xff, 0xfe, 1, 0, 2, 0], [7, 0];
            InitializeRun(Some(File(before, false)), true, defaults, InitializeAnswers(true, true, true, false, ALL_WORK))
              == Run(true, Some(File([0xff, 0xfe, 7, 0, 2, 0], false)))
  {
    var before: Bytes, defaults: Bytes := [0xff, 0xfe, 1, 0, 2, 0], [7, 0];
    assert before[..2] == [0xff, 0xfe] && before[4..] == [2, 0];
    assert Overlay(before, defaults) == [0xff, 0xfe, 7, 0, 2, 0];
  }

  /** Creates the configuration with its defaults, unless it is there. */
  method Initialize(disk: Disk, staged: Path, defaults: Bytes, a: InitializeAnswers) returns (ok: bool)
    requires disk.Valid() && disk.mine(staged)
    modifies disk
    ensures disk.Valid() && disk.held == old(disk.held)
    ensures !(a.path && a.directory && a.locks) ==> !ok && disk.ours == old(disk.ours) && disk.taken == old(disk.taken)
    ensures a.path && a.directory && a.locks ==> |disk.taken| > |old(disk.taken)|
    ensures a.path && a.directory && a.locks && disk.cooperative ==>
      Run(ok, disk.Now()) == InitializeRun(disk.taken[|old(disk.taken)|], Look(old(disk.files), staged) == None, defaults, a)
  {
    ok := false;
    if !a.path || !a.directory {
      return;
    }
    disk.Lock(a.locks);
    if !a.locks {
      return;
    }
    var attributes := disk.GetAttributes(disk.target, a.attributes);
    ok := attributes.Present?;
    if !ok {
      ghost var base, present;
      ok, base, present := Update(disk, staged, WriteDefaults(defaults), a.update);
    }
    disk.Unlock();
  }
}
