/** The pass of the admission loop as it updates the daemon's state. */
module AdmissionDaemon {
  import opened Options
  import opened AdmissionPass

  // ----- which jobs a machine gate holds, and since when

  /** The last entry for `id` decides. */
  function Told(updates: seq<(string, Option<real>)>, id: string): Option<Option<real>> {
    if updates == [] then None
    else
      var n := |updates| - 1;
      if updates[n].0 == id then Some(updates[n].1) else Told(updates[..n], id)
  }

  function SinceOf(was: map<string, real>, updates: seq<(string, Option<real>)>, id: string): Option<real> {
    match Told(updates, id)
    case Some(since) => since
    case None => if id in was then Some(was[id]) else None
  }

  /** No entry from the `n`th on is for `id`. */
  ghost predicate NoneFrom(updates: seq<(string, Option<real>)>, n: nat, id: string) {
    forall i :: n <= i < |updates| ==> updates[i].0 != id
  }

  /** A record is what the last update for the job says, and what it was if no update is for it. */
  lemma {:induction false} SinceIsLastUpdate(
    was: map<string, real>, updates: seq<(string, Option<real>)>, id: string, n: nat)
    requires n <= |updates| && NoneFrom(updates, n, id) && (n > 0 ==> updates[n - 1].0 == id)
    ensures SinceOf(was, updates, id) ==
            if n > 0 then updates[n - 1].1 else if id in was then Some(was[id]) else None
    decreases |updates|
  {
    if n < |updates| {
      var front := updates[..|updates| - 1];
      forall i | n <= i < |front|
        ensures front[i].0 != id
      {
        assert front[i] == updates[i];
      }
      assert updates[|updates| - 1].0 != id;
      SinceIsLastUpdate(was, front, id, n);
    }
  }

  class Daemon {
    var waiting: set<string>
    var queued: nat
    var kicked: bool
    var calls: nat
    var heldSince: map<string, real>
    const world: World

    constructor (world: World, jobs: set<string>)
      ensures fresh(this) && this.world == world && heldSince == map[] && Now() == View(jobs, 0, false, 0)
    {
      this.world := world;
      waiting, queued, kicked, calls, heldSince := jobs, 0, false, 0, map[];
    }

    ghost function Now(): View
      reads this
    {
      View(waiting, queued, kicked, calls)
    }

    /** Takes the next answer of the store to a write that ends `id`. */
    method WriteEnd(id: string) returns (a: Attempt)
      modifies this
      ensures a == Write(world, old(Now()), id)
      ensures Now() == if a.Ended? then Removed(old(Now()), id) else Called(old(Now()))
      ensures heldSince == old(heldSince)
    {
      a := if id in waiting then world.writes(calls) else StoreError;
      calls := calls + 1;
      if a.Ended? {
        waiting, queued := waiting - {id}, queued + 1;
      }
    }

    /** Ends a job before its start, once more without its card sync when the store refuses it with the sync. */
    method FailBeforeStart(snap: map<string, Task>, id: string) returns (ended: bool)
      modifies this
      ensures ended == Ends(world, old(Now()), id, HasCard(snap, id))
      ensures Now() == AfterEnd(world, old(Now()), id, HasCard(snap, id))
      ensures heldSince == old(heldSince)
    {
      var card := if id in snap then snap[id].card else None;
      var withSync := card.Some?;
      while true
        invariant heldSince == old(heldSince)
        invariant withSync ==> Now() == old(Now()) && HasCard(snap, id)
        invariant !withSync && !HasCard(snap, id) ==> Now() == old(Now())
        invariant !withSync && HasCard(snap, id) ==>
                    Now() == Called(old(Now())) && Write(world, old(Now()), id).StoreError?
        decreases withSync
      {
        var a := WriteEnd(id);
        if a.Ended? {
          return true;
        }
        if !(withSync && a.StoreError?) {
          return false;
        }
        withSync := false;
      }
    }

    method Start(snap: map<string, Task>, id: string) returns (lost: bool)
      modifies this
      ensures (Now(), lost) == StartOne(world, old(Now()), snap, id)
      ensures heldSince == old(heldSince)
    {
      if id !in snap {
        return false;
      }
      var launch := if id in waiting then world.launches(calls) else NotWaiting;
      calls := calls + 1;
      match launch
      case Left(more, kick) =>
        waiting, queued, kicked := waiting - {id}, queued + 1 + more, kicked || kick;
        return false;
      case NotWaiting => return false;
      case Refused =>
        var ended := FailBeforeStart(snap, id);
        return !ended;
    }

    method FailEach(snap: map<string, Task>, ids: seq<string>) returns (failed: bool)
      modifies this
      ensures (Now(), failed) == FailAll(world, old(Now()), snap, ids)
      ensures heldSince == old(heldSince)
    {
      failed := false;
      for i := 0 to |ids|
        invariant (Now(), failed) == FailAll(world, old(Now()), snap, ids[..i])
        invariant heldSince == old(heldSince)
      {
        var ended := FailBeforeStart(snap, ids[i]);
        failed := failed || !ended;
        assert ids[..i + 1][..i] == ids[..i];
      }
      assert ids[..|ids|] == ids;
    }

    method StartEach(snap: map<string, Task>, ids: seq<string>, starts: nat) returns (failed: bool)
      requires starts <= |ids|
      modifies this
      ensures (Now(), failed) == StartAll(world, old(Now()), snap, ids[..starts])
      ensures heldSince == old(heldSince)
    {
      failed := false;
      for i := 0 to starts
        invariant (Now(), failed) == StartAll(world, old(Now()), snap, ids[..i])
        invariant heldSince == old(heldSince)
      {
        var lost := Start(snap, ids[i]);
        failed := failed || lost;
        assert ids[..i + 1][..i] == ids[..i];
      }
    }

    method NoteHeld(updates: seq<(string, Option<real>)>)
      modifies this`heldSince
      ensures forall id :: id in heldSince <==> SinceOf(old(heldSince), updates, id).Some?
      ensures forall id :: id in heldSince ==> SinceOf(old(heldSince), updates, id) == Some(heldSince[id])
    {
      for i := 0 to |updates|
        invariant forall id :: id in heldSince <==> SinceOf(old(heldSince), updates[..i], id).Some?
        invariant forall id :: id in heldSince ==> SinceOf(old(heldSince), updates[..i], id) == Some(heldSince[id])
      {
        var (id, since) := updates[i];
        assert updates[..i + 1][..i] == updates[..i];
        if since.Some? {
          heldSince := heldSince[id := since.value];
        } else {
          heldSince := heldSince - {id};
        }
      }
      assert updates[..|updates|] == updates;
    }

    /** One pass: records, fails, starts, forgets jobs that no longer wait, and asks for a wake-up. */
    method Pass(snap: map<string, Task>, d: Decision, now: int, starts: nat) returns (wake: Option<int>)
      requires starts <= |d.start| && now <= I64_MAX
      modifies this
      ensures Now() == AdmissionPass.Pass(world, old(Now()), snap, d, starts).0
      ensures Steps(old(Now()), Now())
      ensures AdmissionPass.Pass(world, old(Now()), snap, d, starts).1 ==> wake.Some? && wake.value <= now + RETRY_MS
      ensures forall id :: id in d.fail && id in waiting ==> wake.Some? && wake.value <= now + RETRY_MS
      ensures var failed := FailAll(world, old(Now()), snap, d.fail).0;
              forall i :: 0 <= i < starts && RefusedStart(world, failed, snap, d.start[..starts], i) ==>
                            wake.Some? && wake.value <= now + RETRY_MS
      ensures wake == WakeAt(now, d, AdmissionPass.Pass(world, old(Now()), snap, d, starts).1)
      ensures heldSince.Keys <= snap.Keys
      ensures forall id :: id in snap ==>
                             SinceOf(old(heldSince), d.heldSince, id) ==
                             if id in heldSince then Some(heldSince[id]) else None
    {
      NoteHeld(d.heldSince);
      var failed := FailEach(snap, d.fail);
      var more := StartEach(snap, d.start, starts);
      failed := failed || more;
      heldSince := map id | id in heldSince && id in snap :: heldSince[id];
      PassSteps(world, old(Now()), snap, d, starts);
      VainPassReports(world, old(Now()), snap, d, starts);
      WakeSpec(now, d, failed);
      wake := d.nextWake;
      if d.gated {
        wake := Earliest(wake, Some(Saturating(now, MACHINE_RECHECK_MS)));
      }
      wake := Earliest(wake, if failed then Some(Saturating(now, RETRY_MS)) else None);
    }
  }
}
