/** One admission pass: the jobs it ends and starts, the wake-up it asks for, and the passes it causes. */
module AdmissionPass {
  import opened Options

  const I64_MAX: int := 0x7FFF_FFFF_FFFF_FFFF
  const RETRY_MS: int := 2_000
  const MACHINE_RECHECK_MS: int := 2_000

  datatype Task = Task(card: Option<string>)

  /** What a write that ends a job answers, and what starting a job comes to. */
  datatype Attempt = Ended | StoreError | OtherError
  datatype Launch = Left(more: nat, kick: bool) | NotWaiting | Refused

  /**
   * What a pass acts on: the jobs the store has waiting, the relevant events queued for the loop, its kick permit,
   * and how many answers the store and the supervisors have given so far.
   */
  datatype View = View(waiting: set<string>, queued: nat, kicked: bool, calls: nat)

  /** Every answer the outside gives, in order. */
  datatype World = World(writes: nat -> Attempt, launches: nat -> Launch)

  datatype Decision = Decision(
    heldSince: seq<(string, Option<real>)>, fail: seq<string>, start: seq<string>, nextWake: Option<int>, gated: bool)

  // ----- ending a job before its start

  /** A job that does not wait cannot be ended: the store refuses the write. */
  function Write(w: World, v: View, id: string): Attempt {
    if id in v.waiting then w.writes(v.calls) else StoreError
  }

  function Called(v: View): View { v.(calls := v.calls + 1) }

  function Removed(v: View, id: string): View {
    v.(waiting := v.waiting - {id}, queued := v.queued + 1, calls := v.calls + 1)
  }

  /** Whether the job ends: at once, or after the store refused the card sync that went with it. */
  predicate Ends(w: World, v: View, id: string, card: bool) {
    Write(w, v, id).Ended? || (card && Write(w, v, id).StoreError? && Write(w, Called(v), id).Ended?)
  }

  function AfterEnd(w: World, v: View, id: string, card: bool): View {
    if Write(w, v, id).Ended? then Removed(v, id)
    else if card && Write(w, v, id).StoreError? then
      if Write(w, Called(v), id).Ended? then Removed(Called(v), id) else Called(Called(v))
    else Called(v)
  }

  function HasCard(snap: map<string, Task>, id: string): bool { id in snap && snap[id].card.Some? }

  // ----- the two loops of a pass

  function FailAll(w: World, v: View, snap: map<string, Task>, ids: seq<string>): (View, bool)
    decreases |ids|
  {
    if ids == [] then (v, false)
    else
      var n := |ids| - 1;
      var (before, failed) := FailAll(w, v, snap, ids[..n]);
      (AfterEnd(w, before, ids[n], HasCard(snap, ids[n])), failed || !Ends(w, before, ids[n], HasCard(snap, ids[n])))
  }

  /** A launch that takes the job out of waiting says so on the bus; a refused one ends the job instead. */
  function StartOne(w: World, v: View, snap: map<string, Task>, id: string): (View, bool) {
    if id !in snap then (v, false)
    else
      var launch := if id in v.waiting then w.launches(v.calls) else NotWaiting;
      match launch
      case Left(more, kick) =>
        var u := v.(waiting := v.waiting - {id}, queued := v.queued + 1 + more, kicked := v.kicked || kick);
        (Called(u), false)
      case NotWaiting => (Called(v), false)
      case Refused => (AfterEnd(w, Called(v), id, HasCard(snap, id)), !Ends(w, Called(v), id, HasCard(snap, id)))
  }

  function StartAll(w: World, v: View, snap: map<string, Task>, ids: seq<string>): (View, bool)
    decreases |ids|
  {
    if ids == [] then (v, false)
    else
      var n := |ids| - 1;
      var (before, failed) := StartAll(w, v, snap, ids[..n]);
      var (after, lost) := StartOne(w, before, snap, ids[n]);
      (after, failed || lost)
  }

  // ----- the wake-up

  function Saturating(now: int, ms: nat): int { if now + ms > I64_MAX then I64_MAX else now + ms }

  function Earliest(a: Option<int>, b: Option<int>): Option<int> {
    match (a, b)
    case (Some(x), Some(y)) => Some(if y < x then y else x)
    case (Some(x), None) => a
    case (None, _) => b
  }

  function WakeAt(now: int, d: Decision, failed: bool): Option<int> {
    var gated := if d.gated then Earliest(d.nextWake, Some(Saturating(now, MACHINE_RECHECK_MS))) else d.nextWake;
    Earliest(gated, if failed then Some(Saturating(now, RETRY_MS)) else None)
  }

  /** The whole pass; `starts` is how many starts come before a shutdown. */
  function Pass(w: World, v: View, snap: map<string, Task>, d: Decision, starts: nat): (View, bool)
    requires starts <= |d.start|
  {
    var (mid, lost) := FailAll(w, v, snap, d.fail);
    var (end, more) := StartAll(w, mid, snap, d.start[..starts]);
    (end, lost || more)
  }

  // ----- what ending a job means

  /** `u` has fewer jobs waiting than `v` exactly when it has more events queued, and only then a new kick. */
  predicate Steps(v: View, u: View) {
    && u.waiting <= v.waiting
    && u.queued >= v.queued
    && (u.waiting == v.waiting <==> u.queued == v.queued)
    && (u.kicked ==> v.kicked || u.waiting != v.waiting)
    && (v.kicked ==> u.kicked)
  }

  lemma StepsTwice(v: View, u: View, t: View)
    requires Steps(v, u) && Steps(u, t)
    ensures Steps(v, t)
  {
  }

  /** A second write is made exactly for a job with a card whose first write the store refused; the job has left the
      waiting set exactly when the answer is true, that is, when the last write made said so. */
  lemma EndSpec(w: World, v: View, id: string, card: bool)
    ensures Steps(v, AfterEnd(w, v, id, card))
    ensures Ends(w, v, id, card) <==> AfterEnd(w, v, id, card).waiting != v.waiting
    ensures AfterEnd(w, v, id, card).waiting == if Ends(w, v, id, card) then v.waiting - {id} else v.waiting
    ensures v.calls < AfterEnd(w, v, id, card).calls <= v.calls + 2
    ensures AfterEnd(w, v, id, card).calls == v.calls + 2 <==>
            card && (id !in v.waiting || w.writes(v.calls).StoreError?)
    ensures Ends(w, v, id, card) <==> id in v.waiting && w.writes(AfterEnd(w, v, id, card).calls - 1).Ended?
  {
    if Ends(w, v, id, card) {
      assert id in v.waiting && id !in AfterEnd(w, v, id, card).waiting;
    }
  }

  /** A start is lost exactly if its launch was refused and the job waits on. A launch passes on its events and kick. */
  lemma StartSpec(w: World, v: View, snap: map<string, Task>, id: string)
    ensures var (u, lost) := StartOne(w, v, snap, id);
            Steps(v, u) && (lost ==> u.waiting == v.waiting)
    ensures var (u, lost) := StartOne(w, v, snap, id);
            if id in snap && id in v.waiting then
              match w.launches(v.calls)
              case Left(more, kick) =>
                !lost && id !in u.waiting && u.queued == v.queued + 1 + more && u.kicked == (v.kicked || kick)
              case NotWaiting => !lost && u.(calls := 0) == v.(calls := 0)
              case Refused => lost <==> id in u.waiting
            else !lost && u.(calls := 0) == v.(calls := 0)
  {
    if id in snap {
      EndSpec(w, Called(v), id, HasCard(snap, id));
      if id in v.waiting && w.launches(v.calls).Left? {
        assert id !in v.waiting - {id};
      }
    }
  }

  lemma {:induction false} FailAllSteps(w: World, v: View, snap: map<string, Task>, ids: seq<string>)
    ensures Steps(v, FailAll(w, v, snap, ids).0)
    decreases |ids|
  {
    if ids != [] {
      var n := |ids| - 1;
      FailAllSteps(w, v, snap, ids[..n]);
      var before := FailAll(w, v, snap, ids[..n]).0;
      EndSpec(w, before, ids[n], HasCard(snap, ids[n]));
      StepsTwice(v, before, FailAll(w, v, snap, ids).0);
    }
  }

  lemma {:induction false} StartAllSteps(w: World, v: View, snap: map<string, Task>, ids: seq<string>)
    ensures Steps(v, StartAll(w, v, snap, ids).0)
    decreases |ids|
  {
    if ids != [] {
      var n := |ids| - 1;
      StartAllSteps(w, v, snap, ids[..n]);
      var before := StartAll(w, v, snap, ids[..n]).0;
      StartSpec(w, before, snap, ids[n]);
      StepsTwice(v, before, StartAll(w, v, snap, ids).0);
    }
  }

  /** A pass says on the bus that the waiting set changed exactly when it changed it. */
  lemma PassSteps(w: World, v: View, snap: map<string, Task>, d: Decision, starts: nat)
    requires starts <= |d.start|
    ensures Steps(v, Pass(w, v, snap, d, starts).0)
  {
    FailAllSteps(w, v, snap, d.fail);
    var mid := FailAll(w, v, snap, d.fail).0;
    StartAllSteps(w, mid, snap, d.start[..starts]);
    StepsTwice(v, mid, Pass(w, v, snap, d, starts).0);
  }

  // ----- a job left waiting is retried

  /** Some job the pass was to fail was not ended. */
  ghost predicate LostSome(w: World, v: View, snap: map<string, Task>, ids: seq<string>) {
    exists i :: 0 <= i < |ids| && !Ends(w, FailAll(w, v, snap, ids[..i]).0, ids[i], HasCard(snap, ids[i]))
  }

  lemma {:induction false} FailAllReports(w: World, v: View, snap: map<string, Task>, ids: seq<string>)
    ensures FailAll(w, v, snap, ids).1 <==> LostSome(w, v, snap, ids)
    decreases |ids|
  {
    if ids != [] {
      var n := |ids| - 1;
      var front := ids[..n];
      FailAllReports(w, v, snap, front);
      assert forall i :: 0 <= i < n ==> front[..i] == ids[..i] && front[i] == ids[i];
      if LostSome(w, v, snap, front) {
        var i :| 0 <= i < |front| && !Ends(w, FailAll(w, v, snap, front[..i]).0, front[i], HasCard(snap, front[i]));
        assert front[..i] == ids[..i];
      }
      if LostSome(w, v, snap, ids) && !LostSome(w, v, snap, front) {
        var i :| 0 <= i < |ids| && !Ends(w, FailAll(w, v, snap, ids[..i]).0, ids[i], HasCard(snap, ids[i]));
        assert i == n;
      }
    }
  }

  /** Some start was refused and the job could not be ended either. */
  ghost predicate LostStart(w: World, v: View, snap: map<string, Task>, ids: seq<string>) {
    exists i :: 0 <= i < |ids| && StartOne(w, StartAll(w, v, snap, ids[..i]).0, snap, ids[i]).1
  }

  lemma {:induction false} StartAllReports(w: World, v: View, snap: map<string, Task>, ids: seq<string>)
    ensures StartAll(w, v, snap, ids).1 <==> LostStart(w, v, snap, ids)
    decreases |ids|
  {
    if ids != [] {
      var n := |ids| - 1;
      var front := ids[..n];
      StartAllReports(w, v, snap, front);
      assert forall i :: 0 <= i < n ==> front[..i] == ids[..i] && front[i] == ids[i];
      if LostStart(w, v, snap, front) {
        var i :| 0 <= i < |front| && StartOne(w, StartAll(w, v, snap, front[..i]).0, snap, front[i]).1;
        assert front[..i] == ids[..i];
      }
      if LostStart(w, v, snap, ids) && !LostStart(w, v, snap, front) {
        var i :| 0 <= i < |ids| && StartOne(w, StartAll(w, v, snap, ids[..i]).0, snap, ids[i]).1;
        assert i == n;
      }
    }
  }

  /** A job the first loop was to fail and that still waits after it makes it report a failure. */
  lemma {:induction false} WaitingIsReported(w: World, v: View, snap: map<string, Task>, ids: seq<string>, id: string)
    requires id in ids && id in FailAll(w, v, snap, ids).0.waiting
    ensures FailAll(w, v, snap, ids).1
    decreases |ids|
  {
    var n := |ids| - 1;
    var front := ids[..n];
    var before := FailAll(w, v, snap, front).0;
    EndSpec(w, before, ids[n], HasCard(snap, ids[n]));
    if ids[n] != id {
      assert ids == front + [ids[n]];
      WaitingIsReported(w, v, snap, front, id);
    }
  }

  /** A start that came to nothing: its turn came, the launch was refused, and the job still waits after the pass. */
  ghost predicate RefusedStart(w: World, v: View, snap: map<string, Task>, ids: seq<string>, i: nat)
    requires i < |ids|
  {
    var before := StartAll(w, v, snap, ids[..i]).0;
    && ids[i] in snap && ids[i] in before.waiting && w.launches(before.calls).Refused?
    && ids[i] in StartAll(w, v, snap, ids).0.waiting
  }

  lemma {:induction false} LaterStartsShrink(w: World, v: View, snap: map<string, Task>, ids: seq<string>, i: nat)
    requires i <= |ids|
    ensures StartAll(w, v, snap, ids).0.waiting <= StartAll(w, v, snap, ids[..i]).0.waiting
    decreases |ids|
  {
    if i == |ids| {
      assert ids[..i] == ids;
    } else {
      var n := |ids| - 1;
      LaterStartsShrink(w, v, snap, ids[..n], i);
      assert ids[..n][..i] == ids[..i];
      StartSpec(w, StartAll(w, v, snap, ids[..n]).0, snap, ids[n]);
    }
  }

  lemma RefusedStartIsLost(w: World, v: View, snap: map<string, Task>, ids: seq<string>, i: nat)
    requires i < |ids| && RefusedStart(w, v, snap, ids, i)
    ensures StartAll(w, v, snap, ids).1
  {
    var before, id := StartAll(w, v, snap, ids[..i]).0, ids[i];
    assert ids[..i + 1][..i] == ids[..i];
    LaterStartsShrink(w, v, snap, ids, i + 1);
    EndSpec(w, Called(before), id, HasCard(snap, id));
    assert StartOne(w, before, snap, id).1;
    StartAllReports(w, v, snap, ids);
  }

  /** A job the pass tried to end or start in vain, and that still waits, makes the pass report a failure. */
  lemma VainPassReports(w: World, v: View, snap: map<string, Task>, d: Decision, starts: nat)
    requires starts <= |d.start|
    ensures var mid, end := FailAll(w, v, snap, d.fail).0, Pass(w, v, snap, d, starts);
            && (forall id :: id in d.fail && id in end.0.waiting ==> end.1)
            && (forall i :: 0 <= i < starts && RefusedStart(w, mid, snap, d.start[..starts], i) ==> end.1)
  {
    var mid, ids := FailAll(w, v, snap, d.fail).0, d.start[..starts];
    StartAllSteps(w, mid, snap, ids);
    forall id | id in d.fail && id in Pass(w, v, snap, d, starts).0.waiting
      ensures FailAll(w, v, snap, d.fail).1
    {
      WaitingIsReported(w, v, snap, d.fail, id);
    }
    forall i | 0 <= i < starts && RefusedStart(w, mid, snap, ids, i)
      ensures StartAll(w, mid, snap, ids).1
    {
      RefusedStartIsLost(w, mid, snap, ids, i);
    }
  }

  /** The wake-up is the earliest of those asked for, and there is one exactly when one was asked for. */
  lemma WakeSpec(now: int, d: Decision, failed: bool)
    requires now <= I64_MAX
    ensures var wake := WakeAt(now, d, failed);
            && (wake.Some? <==> d.nextWake.Some? || d.gated || failed)
            && (failed || d.gated ==> wake.value <= now + RETRY_MS)
            && (d.nextWake.Some? ==> wake.value <= d.nextWake.value)
            && (wake.Some? ==>
                  || wake == d.nextWake
                  || ((failed || d.gated) && wake.value == if now <= I64_MAX - 2_000 then now + 2_000 else I64_MAX))
  {
  }
}
