/**
 The file system as one program sees it: every call can fail, and other programs change files in
 between. Names that carry a unique id of the program are left alone by everybody else.
 */
module FileSystem {
  import opened Text

  type Path = string

  type Bytes = seq<bv8>

  datatype File = File(bytes: Bytes, readOnly: bool)

  type Files = map<Path, File>

  function Look(files: Files, path: Path): Option<File> {
    if path in files then Some(files[path]) else None
  }

  datatype Attributes = Missing | Present(readOnly: bool) | Unknown

  /** `Lost` is the documented failure that leaves nothing under the old name. */
  datatype Replacement = Replaced | Refused | Lost

  /** A change this program made to the configuration. */
  datatype Change = Change(before: Option<File>, after: Option<File>)

  /** The changes lead from one content to the other, with nothing in between that they do not name. */
  ghost predicate Linked(first: Option<File>, changes: seq<Change>, last: Option<File>)
    decreases |changes|
  {
    if changes == [] then first == last
    else changes[0].before == first && Linked(changes[0].after, changes[1..], last)
  }

  lemma {:induction false} LinkedSnoc(first: Option<File>, changes: seq<Change>, last: Option<File>, now: Option<File>)
    requires Linked(first, changes, last)
    ensures Linked(first, changes + [Change(last, now)], now)
    decreases |changes|
  {
    if changes == [] {
      assert [Change(last, now)][1..] == [];
    } else {
      LinkedSnoc(changes[0].after, changes[1..], last, now);
      assert (changes + [Change(last, now)])[1..] == changes[1..] + [Change(last, now)];
    }
  }

  /** The states that the changes lead through, the first one included. */
  function States(first: Option<File>, changes: seq<Change>): (states: seq<Option<File>>)
    ensures |states| == |changes| + 1
    decreases |changes|
  {
    if changes == [] then [first] else [first] + States(changes[0].after, changes[1..])
  }

  /** Linked changes start from the state before, one after the other, and end with the last state. */
  lemma {:induction false} LinkedStates(first: Option<File>, changes: seq<Change>, last: Option<File>)
    ensures Linked(first, changes, last) <==>
      (forall i :: 0 <= i < |changes| ==> changes[i].before == States(first, changes)[i]) && States(first, changes)[|changes|] == last
    decreases |changes|
  {
    if changes != [] {
      var states, rest := States(first, changes), States(changes[0].after, changes[1..]);
      LinkedStates(changes[0].after, changes[1..], last);
      assert forall i :: 0 <= i < |rest| ==> states[i + 1] == rest[i];
      assert forall i :: 0 <= i < |changes| - 1 ==> changes[1..][i] == changes[i + 1];
    }
  }

  class Disk {
    /** The configuration file that the lock protects. */
    const target: Path
    /** Whether the other programs take the lock before they write the configuration. */
    const cooperative: bool
    /** Whether the other programs write nothing at all. */
    const alone: bool
    const mine: Path -> bool

    var files: Files
    /** How often this program holds the lock. */
    var held: nat

    /** What it has done to the configuration. */
    ghost var ours: seq<Change>
    /** What the configuration held whenever the lock was taken, and whenever it was released. */
    ghost var taken: seq<Option<File>>
    ghost var released: seq<Option<File>>
    /** How much this program had done to it when the lock was last taken. */
    ghost var mark: nat

    /** Under the lock the configuration changes only as recorded. */
    ghost predicate Valid()
      reads this
    {
      && !mine(target) && mark <= |ours| && (held > 0 ==> taken != [])
      && (cooperative && held > 0 ==> Linked(taken[|taken| - 1], ours[mark..], Look(files, target)))
    }

    constructor (target: Path, cooperative: bool, alone: bool, mine: Path -> bool, files: Files)
      requires !mine(target)
      ensures Valid() && held == 0 && ours == [] && taken == [] && this.files == files
      ensures this.target == target && this.cooperative == cooperative && this.alone == alone && this.mine == mine
    {
      this.target, this.cooperative, this.alone, this.mine := target, cooperative, alone, mine;
      this.files, held := files, 0;
      ours, taken, released, mark := [], [], [], 0;
    }

    function Now(): Option<File>
      reads this`files
    {
      Look(files, target)
    }

    /** Nobody else may change this file now. */
    predicate Steady(path: Path)
      reads this`held
    {
      mine(path) || alone || (path == target && cooperative && held > 0)
    }

    /** Of the files that nobody else may change, only the touched ones have changed. */
    ghost predicate OnlyTouched(before: Files, after: Files, touched: set<Path>)
      reads this`held
    {
      forall p :: Steady(p) && p !in touched ==> Look(before, p) == Look(after, p)
    }

    // ---- The lock ----

    method Lock(works: bool)
      requires Valid()
      modifies this`files, this`held, this`taken, this`mark
      ensures Valid() && (forall p :: mine(p) || alone ==> Look(old(files), p) == Look(files, p))
      ensures cooperative && old(held) > 0 ==> Now() == old(Now())
      ensures held == (if works then old(held) + 1 else old(held))
      ensures works ==> taken == old(taken) + [Now()] && mark == |ours|
      ensures !works ==> taken == old(taken) && mark == old(mark)
    {
      Others();
      if works {
        held := held + 1;
        taken, mark := taken + [Look(files, target)], |ours|;
      }
    }

    method Unlock()
      requires Valid() && held > 0
      modifies this`held, this`released
      ensures Valid() && held == old(held) - 1 && released == old(released) + [Now()]
    {
      held := held - 1;
      released := released + [Look(files, target)];
    }

    /** The other programs do something. */
    method Others()
      requires Valid()
      modifies this`files
      ensures Valid() && OnlyTouched(old(files), files, {})
    {
      var next: Files := *;
      if forall p | p in next.Keys + files.Keys :: Steady(p) ==> Look(next, p) == Look(files, p) {
        forall p | Steady(p) ensures Look(files, p) == Look(next, p) {
          if p in files || p in next {
            assert p in next.Keys + files.Keys;
          }
        }
        files := next;
      }
    }

    // ---- Reading ----

    method GetAttributes(path: Path, works: bool) returns (attributes: Attributes)
      requires Valid()
      modifies this`files
      ensures Valid() && OnlyTouched(old(files), files, {})
      ensures attributes == if !works then Unknown else if path in files then Present(files[path].readOnly) else Missing
    {
      Others();
      attributes := if !works then Unknown else if path in files then Present(files[path].readOnly) else Missing;
    }

    method Read(path: Path, works: bool) returns (bytes: Option<Bytes>)
      requires Valid()
      modifies this`files
      ensures Valid() && OnlyTouched(old(files), files, {})
      ensures bytes == if works && path in files then Some(files[path].bytes) else None
    {
      Others();
      bytes := if works && path in files then Some(files[path].bytes) else None;
    }

    // ---- Files of this program ----

    method Put(path: Path, file: Option<File>)
      requires Valid() && mine(path)
      modifies this`files
      ensures Valid() && OnlyTouched(old(files), files, {path})
      ensures forall p :: Look(files, p) == if p == path then file else Look(old(files), p)
    {
      files := if file.Some? then files[path := file.value] else files - {path};
    }

    /** Creates a file with these bytes; a failure can leave a part of them behind. */
    method WriteNew(path: Path, bytes: Bytes, works: bool) returns (ok: bool)
      requires Valid() && mine(path)
      modifies this`files
      ensures Valid() && OnlyTouched(old(files), files, {path})
      ensures ok <==> works && Look(old(files), path) == None
      ensures ok ==> Look(files, path) == Some(File(bytes, false))
    {
      Others();
      ok := works && path !in files;
      if ok {
        Put(path, Some(File(bytes, false)));
      } else if path !in files {
        var part: Bytes := *;
        Put(path, Some(File(part, false)));
      }
    }

    /** Copies a file to a new name. */
    method CopyNew(from: Path, to: Path, works: bool) returns (ok: bool)
      requires Valid() && mine(to) && from != to
      modifies this`files
      ensures Valid() && OnlyTouched(old(files), files, {to})
      ensures ok <==> works && Look(old(files), to) == None && Look(files, from).Some?
      ensures ok ==> Look(files, to) == Look(files, from)
    {
      Others();
      ok := works && to !in files && from in files;
      if ok {
        Put(to, Some(files[from]));
      } else if to !in files && from in files {
        var part: Bytes := *;
        Put(to, Some(File(part, false)));
      }
    }

    /** Runs an edit on a file; a failed edit can leave anything in it. */
    method Edit(path: Path, edit: Bytes -> Option<Bytes>, works: bool) returns (ok: bool)
      requires Valid() && mine(path) && Look(files, path).Some?
      modifies this`files
      ensures Valid() && OnlyTouched(old(files), files, {path}) && Look(files, path).Some?
      ensures ok <==> works && edit(Look(old(files), path).value.bytes).Some?
      ensures ok ==> Look(files, path) == Some(Look(old(files), path).value.(bytes := edit(Look(old(files), path).value.bytes).value))
    {
      Others();
      var result := edit(files[path].bytes);
      ok := works && result.Some?;
      var part: Bytes := *;
      Put(path, Some(files[path].(bytes := if ok then result.value else part)));
    }

    method Delete(path: Path, works: bool)
      requires Valid() && mine(path)
      modifies this`files
      ensures Valid() && OnlyTouched(old(files), files, {path})
      ensures works ==> Look(files, path) == None
    {
      Others();
      if works {
        Put(path, None);
      }
    }

    // ---- Changing the configuration ----

    /** The one step in which the configuration changes. */
    method SetTarget(file: Option<File>)
      requires Valid()
      modifies this`files, this`ours
      ensures Valid() && ours == old(ours) + [Change(old(Now()), file)]
      ensures forall p :: Look(files, p) == if p == target then file else Look(old(files), p)
    {
      ghost var change := Change(Look(files, target), file);
      if cooperative && held > 0 {
        LinkedSnoc(taken[|taken| - 1], ours[mark..], Look(files, target), file);
        assert (ours + [change])[mark..] == ours[mark..] + [change];
      }
      ours := ours + [change];
      files := if file.Some? then files[target := file.value] else files - {target};
    }

    /** Puts the staged file in the place of the configuration, which keeps its attributes. */
    method ReplaceFile(staged: Path, answer: Replacement) returns (result: Replacement, ghost there: Option<File>)
      requires Valid() && mine(staged) && Look(files, staged).Some?
      modifies this`files, this`ours
      ensures Valid() && OnlyTouched(old(files), files, {staged, target})
      ensures Steady(target) ==> there == old(Now())
      ensures result == if there.Some? then answer else Refused
      ensures result == Refused ==> ours == old(ours) && Now() == there && OnlyTouched(old(files), files, {})
      ensures result == Replaced ==> Now() == Some(there.value.(bytes := Look(old(files), staged).value.bytes))
      ensures result == Lost ==> Now() == None
      ensures result != Refused ==> ours == old(ours) + [Change(there, Now())]
    {
      Others();
      there := Look(files, target);
      result := if target in files then answer else Refused;
      if result == Replaced {
        SetTarget(Some(files[target].(bytes := files[staged].bytes)));
        Put(staged, None);
      } else if result == Lost {
        SetTarget(None);
      }
    }

    /** Gives a file of the program's own the name of the configuration, if that name is free. */
    method MoveNew(staged: Path, works: bool) returns (ok: bool, ghost there: Option<File>)
      requires Valid() && mine(staged) && Look(files, staged).Some?
      modifies this`files, this`ours
      ensures Valid() && OnlyTouched(old(files), files, {staged, target})
      ensures Steady(target) ==> there == old(Now())
      ensures ok <==> works && there == None
      ensures !ok ==> ours == old(ours) && Now() == there && OnlyTouched(old(files), files, {})
      ensures ok ==> Now() == Look(old(files), staged) && ours == old(ours) + [Change(there, Now())]
    {
      Others();
      there := Look(files, target);
      ok := works && target !in files;
      if ok {
        SetTarget(Some(files[staged]));
        Put(staged, None);
      }
    }

    /** Gives a file of the program's own the name of the configuration, whoever has it. */
    method MoveOver(staged: Path, works: bool) returns (ghost there: Option<File>)
      requires Valid() && mine(staged) && Look(files, staged).Some?
      modifies this`files, this`ours
      ensures Valid() && OnlyTouched(old(files), files, {staged, target})
      ensures Steady(target) ==> there == old(Now())
      ensures !works ==> ours == old(ours) && Now() == there && OnlyTouched(old(files), files, {})
      ensures works ==> Now() == Look(old(files), staged) && ours == old(ours) + [Change(there, Now())]
    {
      Others();
      there := Look(files, target);
      if works {
        SetTarget(Some(files[staged]));
        Put(staged, None);
      }
    }

    method DeleteTarget(works: bool) returns (ok: bool, ghost there: Option<File>)
      requires Valid()
      modifies this`files, this`ours
      ensures Valid() && OnlyTouched(old(files), files, {target})
      ensures Steady(target) ==> there == old(Now())
      ensures ok <==> works && there.Some?
      ensures !ok ==> ours == old(ours) && Now() == there && OnlyTouched(old(files), files, {})
      ensures ok ==> Now() == None && ours == old(ours) + [Change(there, None)]
    {
      Others();
      there := Look(files, target);
      ok := works && target in files;
      if ok {
        SetTarget(None);
      }
    }
  }
}
