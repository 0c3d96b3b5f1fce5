/**
 The cache of application scans. A load is shared by the cache, by its worker and by callers, each
 with a reference of its own. The workers can come in between any two locked regions of the user interface.
 */
module CatalogCache {

  class ApplicationCatalogLoad {
    var references: int
    var done: bool
    var succeeded: bool
    /** Whether its worker still holds a reference. */
    var working: bool

    /** How often its memory has been given back. */
    ghost var frees: nat
    /** How many references the callers hold. */
    ghost var callers: nat

    constructor ()
      ensures references == 1 && !done && frees == 0 && !working && callers == 0
    {
      references, done, succeeded, working := 1, false, false, false;
      frees, callers := 0, 0;
    }

    method AddRef()
      requires frees == 0
      modifies this`references
      ensures references == old(references) + 1
    {
      references := references + 1;
    }

    method Release()
      requires frees == 0 && references > 0
      modifies this`references, this`frees
      ensures references == old(references) - 1 && frees == if references == 0 then 1 else 0
    {
      references := references - 1;
      if references == 0 {
        frees := frees + 1;
      }
    }
  }

  function One(holds: bool): int {
    if holds then 1 else 0
  }

  /** What a worker does next: it hands in its result, or gives up its reference. */
  datatype Move = Finish(load: ApplicationCatalogLoad, succeeded: bool) | LetGo(load: ApplicationCatalogLoad)

  predicate FinishedBy(moves: seq<Move>, load: ApplicationCatalogLoad) {
    exists i | 0 <= i < |moves| :: moves[i].Finish? && moves[i].load == load
  }

  class ApplicationCatalogCache {
    var latest: ApplicationCatalogLoad?
    var successful: ApplicationCatalogLoad?

    /** Every load there has ever been. */
    ghost var loads: set<ApplicationCatalogLoad>

    /** The references are those that somebody holds; the load is freed with the last of them. */
    ghost predicate Counted(load: ApplicationCatalogLoad)
      reads this, load
    {
      && load.references == One(load == latest) + One(load == successful) + One(load.working) + load.callers
      && load.frees == One(load.references == 0)
    }

    /** Only the latest load may be unfinished, and what is kept has succeeded. */
    ghost predicate Settled(load: ApplicationCatalogLoad)
      reads this, load
    {
      && (!load.done ==> load == latest && load.working)
      && (load == successful ==> load.done && load.succeeded)
    }

    ghost predicate Valid()
      reads this, loads
    {
      && (latest != null ==> latest in loads) && (successful != null ==> successful in loads)
      && forall load :: load in loads ==> Counted(load) && Settled(load)
    }

    constructor ()
      ensures Valid() && latest == null && successful == null && loads == {}
    {
      latest, successful, loads := null, null, {};
    }

    /** What the counting is for: a load is there for as long as anybody holds it. */
    lemma HeldIsThere(load: ApplicationCatalogLoad)
      requires Valid() && load in loads
      ensures load == latest || load == successful || load.working || load.callers > 0 <==> load.frees == 0
      ensures load.frees <= 1
      ensures !load.done ==> forall other :: other in loads && !other.done ==> other == load
    {
      assert Counted(load) && Settled(load);
      forall other | other in loads && !other.done && !load.done ensures other == load {
        assert Settled(other);
      }
    }

    // ---- The worker ----

    /** The worker hands in what it found. */
    method Complete(load: ApplicationCatalogLoad, succeeded: bool)
      requires Valid() && load in loads && load.working && !load.done
      modifies load`done, load`succeeded
      ensures Valid() && load.done && load.succeeded == succeeded
    {
      load.done, load.succeeded := true, succeeded;
    }

    /** The worker gives up its reference. */
    method WorkerRelease(load: ApplicationCatalogLoad)
      requires Valid() && load in loads && load.working && load.done
      modifies load`references, load`frees, load`working
      ensures Valid() && !load.working
    {
      load.Release();
      load.working := false;
    }

    /** A worker's next move; nothing if it is not the time for it. */
    method Work(move: Move)
      requires Valid() && move.load in loads
      modifies move.load`done, move.load`succeeded, move.load`references, move.load`frees, move.load`working
      ensures Valid() && move.load.done == (old(move.load.done) || move.Finish?)
      ensures move.load.succeeded == if !old(move.load.done) && move.Finish? then move.succeeded else old(move.load.succeeded)
    {
      assert Settled(move.load);
      if move.Finish? && !move.load.done {
        Complete(move.load, move.succeeded);
      } else if move.LetGo? && move.load.done && move.load.working {
        WorkerRelease(move.load);
      }
    }

    /** What the workers do in between; a load is done once its worker has finished, and stays so. */
    method Workers(moves: seq<Move>)
      requires Valid() && forall i :: 0 <= i < |moves| ==> moves[i].load in loads
      modifies loads`done, loads`succeeded, loads`references, loads`frees, loads`working
      ensures Valid()
      ensures forall load :: load in loads ==> load.done == (old(load.done) || FinishedBy(moves, load))
      ensures forall load :: load in loads && old(load.done) ==> load.succeeded == old(load.succeeded)
      ensures forall load :: load in loads && load.done && !old(load.done) ==> Finish(load, load.succeeded) in moves
    {
      for i := 0 to |moves|
        invariant Valid()
        invariant forall load :: load in loads ==> load.done == (old(load.done) || FinishedBy(moves[..i], load))
        invariant forall load :: load in loads && old(load.done) ==> load.succeeded == old(load.succeeded)
        invariant forall load :: load in loads && load.done && !old(load.done) ==> Finish(load, load.succeeded) in moves
      {
        OneMore(moves, i);
        hide Valid, FinishedBy;
        Work(moves[i]);
      }
      assert moves[..|moves|] == moves;
    }

    lemma FinishedInParts(first: seq<Move>, second: seq<Move>)
      ensures forall load :: FinishedBy(first + second, load) <==> FinishedBy(first, load) || FinishedBy(second, load)
    {
      forall load ensures FinishedBy(first + second, load) <==> FinishedBy(first, load) || FinishedBy(second, load) {
        if i :| 0 <= i < |second| && second[i].Finish? && second[i].load == load {
          assert (first + second)[|first| + i] == second[i];
        }
        if i :| 0 <= i < |first| && first[i].Finish? && first[i].load == load {
          assert (first + second)[i] == first[i];
        }
      }
    }

    lemma OneMore(moves: seq<Move>, i: nat)
      requires i < |moves|
      ensures forall load :: FinishedBy(moves[..i + 1], load) <==>
        FinishedBy(moves[..i], load) || (moves[i].Finish? && moves[i].load == load)
    {
    }

    // ---- The user interface ----

    method CallerRelease(load: ApplicationCatalogLoad)
      requires Valid() && load in loads && load.callers > 0
      modifies load`references, load`frees, load`callers
      ensures Valid() && load.callers == old(load.callers) - 1
    {
      load.Release();
      load.callers := load.callers - 1;
    }

    /** Gives a caller a reference of its own. */
    method HandOut(load: ApplicationCatalogLoad)
      requires Valid() && load in loads && load.frees == 0
      modifies load`references, load`callers
      ensures Valid() && load.callers == old(load.callers) + 1
    {
      load.AddRef();
      load.callers := load.callers + 1;
    }

    /** Keeps the latest load if it has succeeded, instead of the one before. */
    method Remember(load: ApplicationCatalogLoad?)
      requires Valid() && (load == null || load in loads)
      modifies this`successful, loads`references, loads`frees
      ensures Valid()
      ensures successful == if load != null && load == latest && load.done && load.succeeded then load else old(successful)
    {
      if load == null || load != latest || load == successful {
        return;
      }
      if !(load.done && load.succeeded) {
        return;
      }
      load.AddRef();
      if successful != null {
        successful.Release();
      }
      successful := load;
    }

    /** The last load that succeeded, for the caller to use. */
    method Ready() returns (load: ApplicationCatalogLoad?)
      requires Valid()
      modifies this`successful, loads`references, loads`frees, loads`callers
      ensures Valid() && load == successful
      ensures old(latest) != null && old(latest.done) && old(latest.succeeded) ==> load == old(latest)
      ensures load != null ==> load in loads && load.done && load.succeeded && load.frees == 0
      ensures load != null ==> load.callers == old(load.callers) + 1
      ensures forall l :: l in loads && l != load ==> l.callers == old(l.callers)
    {
      Remember(latest);
      load := successful;
      if load != null {
        HandOut(load);
      }
    }

    method DropLatest()
      requires Valid() && (latest == null || latest.done)
      modifies this`latest, loads`references, loads`frees
      ensures Valid() && latest == null
    {
      if latest != null {
        latest.Release();
        latest := null;
      }
    }

    /** Makes a new load the latest one, with a worker if its thread starts. */
    method Install(replacement: ApplicationCatalogLoad, starts: bool)
      requires Valid() && latest == null && replacement !in loads
      requires replacement.references == 1 && !replacement.done && replacement.frees == 0
      requires !replacement.working && replacement.callers == 0
      modifies this`latest, this`loads, replacement
      ensures Valid() && latest == replacement && loads == old(loads) + {replacement}
      ensures replacement.frees == 0 && replacement.callers == 0
      ensures if starts then !replacement.done && replacement.working
              else replacement.done && !replacement.succeeded && !replacement.working
    {
      replacement.AddRef();
      replacement.working := true;
      if !starts {
        replacement.Release();
        replacement.working := false;
        replacement.succeeded, replacement.done := false, true;
      }
      latest := replacement;
      loads := loads + {replacement};
    }

    /** Starts a new scan in place of the latest one, or notes that it could not be started. */
    method StartScan(starts: bool)
      requires Valid() && (latest == null || latest.done)
      modifies this`latest, this`loads, loads`references, loads`frees
      ensures Valid() && latest != null && fresh(latest) && loads == old(loads) + {latest}
      ensures latest.frees == 0 && latest.callers == 0
      ensures if starts then !latest.done && latest.working
              else latest.done && !latest.succeeded && !latest.working
    {
      var replacement := new ApplicationCatalogLoad();
      DropLatest();
      Install(replacement, starts);
    }

    /** The latest load has been read as done, and it is of no use to the caller. */
    predicate NeedsScan(refresh: bool, done: bool)
      reads this
    {
      latest == null || (done && (refresh || successful == null))
    }

    /** Keeps the latest load if it has succeeded, and looks again whether it is done; workers come in between. */
    method LookTwice(between: seq<Move>, later: seq<Move>) returns (done: bool)
      requires Valid() && forall i :: 0 <= i < |between + later| ==> (between + later)[i].load in loads
      modifies this`successful, loads
      ensures Valid()
      ensures successful == if latest != null && old(latest.done) && old(latest.succeeded) then latest else old(successful)
      ensures done <==> latest != null && (old(latest.done) || FinishedBy(between, latest))
      ensures done ==> latest.done
      ensures forall l :: l in loads ==> l.done == (old(l.done) || FinishedBy(between + later, l))
      ensures forall l :: l in loads && l.done && !old(l.done) ==> Finish(l, l.succeeded) in between + later
    {
      Remember(latest);
      assert forall i :: 0 <= i < |between| ==> between[i] == (between + later)[i];
      assert forall i :: 0 <= i < |later| ==> later[i] == (between + later)[|between| + i];
      FinishedInParts(between, later);
      hide Counted, Settled, FinishedBy;
      Workers(between);
      done := latest != null && latest.done;
      Workers(later);
    }

    /**
     The latest scan, for the caller to wait for. A scan under way is shared, unless its worker finishes
     before it is looked at for the second time and a new scan is asked for or none has been kept.
     */
    method Acquire(refresh: bool, allocates: bool, starts: bool, between: seq<Move>, later: seq<Move>)
        returns (load: ApplicationCatalogLoad?)
      requires Valid() && forall i :: 0 <= i < |between + later| ==> (between + later)[i].load in loads
      modifies this, loads
      ensures Valid() && (load == null ==> !allocates)
      ensures loads == old(loads) + if load != null && load != old(latest) then {load} else {}
      ensures successful == if old(latest) != null && old(latest.done) && old(latest.succeeded) then old(latest) else old(successful)
      ensures load != null ==> load == latest && load in loads && load.frees == 0 && load.callers > 0
      ensures old(latest) == null ==> load == null || fresh(load)
      ensures old(latest) != null ==>
                var done := old(latest.done) || FinishedBy(between, old(latest));
                (load == old(latest) <==> !(done && (refresh || successful == null)))
                && (load == null || load == old(latest) || fresh(load))
      ensures load == null || load == old(latest) ==> latest == old(latest)
      ensures forall l :: l in old(loads) ==> l.done == (old(l.done) || FinishedBy(between + later, l))
      ensures forall l :: l in old(loads) && l.done && !old(l.done) ==> Finish(l, l.succeeded) in between + later
      ensures load != null && load != old(latest) ==> (starts <==> !load.done) && load.callers == 1
    {
      hide Counted, Settled, FinishedBy;
      var done := LookTwice(between, later);
      if NeedsScan(refresh, done) {
        if !allocates {
          return null;
        }
        StartScan(starts);
      }
      load := latest;
      HeldIsThere(load);
      HandOut(load);
    }
  }

  /** A run in which a finished, successful scan is thrown away: it finishes between the two looks at it. */
  method FinishedScanIsDropped() returns (cache: ApplicationCatalogCache, first: ApplicationCatalogLoad, second: ApplicationCatalogLoad?)
    ensures cache.Valid() && first in cache.loads && first.done && first.succeeded
    ensures second != null && second != first && !second.done && cache.latest == second && cache.successful == null
  {
    cache := new ApplicationCatalogCache();
    first := cache.Acquire(false, true, true, [], []);
    assert [Finish(first, true)][0].Finish? && FinishedBy([Finish(first, true)], first);
    assert [Finish(first, true)] + [] == [Finish(first, true)];
    second := cache.Acquire(false, true, true, [Finish(first, true)], []);
  }
}
