/** The pass and the loop together: a job left waiting in vain is looked at again. */
module AdmissionLoop {
  import opened Options
  import P = AdmissionPass
  import W = AdmissionWake

  /** A pass that ended nothing for some job it was to end or start, and the job still waits. */
  ghost predicate Vain(w: P.World, v: P.View, snap: map<string, P.Task>, d: P.Decision, starts: nat)
    requires starts <= |d.start|
  {
    || (exists id :: id in d.fail && id in P.Pass(w, v, snap, d, starts).0.waiting)
    || (exists i :: 0 <= i < starts && P.RefusedStart(w, P.FailAll(w, v, snap, d.fail).0, snap, d.start[..starts], i))
  }

  lemma VainIsReported(w: P.World, v: P.View, snap: map<string, P.Task>, d: P.Decision, starts: nat)
    requires starts <= |d.start| && Vain(w, v, snap, d, starts)
    ensures P.Pass(w, v, snap, d, starts).1
  {
    P.VainPassReports(w, v, snap, d, starts);
    var (mid, lost) := P.FailAll(w, v, snap, d.fail);
    var ids := d.start[..starts];
    if i :| 0 <= i < starts && P.RefusedStart(w, mid, snap, ids, i) {
      P.RefusedStartIsLost(w, mid, snap, ids, i);
    }
  }

  /** What the loop is told of a pass that made decision `d` at `now`. */
  function Ended(w: P.World, v: P.View, snap: map<string, P.Task>, d: P.Decision, now: int, starts: nat): W.Event
    requires starts <= |d.start|
  {
    W.PassOk(P.WakeAt(now, d, P.Pass(w, v, snap, d, starts).1).Some?)
  }

  /** However long the loop then stays blocked, its timer is armed for at most 2000 ms after the decision, and a few of
      its own steps take it to its next pass. */
  lemma VainPassIsLookedAtAgain(
    w: P.World, v: P.View, snap: map<string, P.Task>, d: P.Decision, now: int, starts: nat,
    ss: seq<W.State>, es: seq<W.Event>, j: nat, k: nat)
    returns (ts: seq<W.State>, fs: seq<W.Event>)
    requires starts <= |d.start| && now <= P.I64_MAX && Vain(w, v, snap, d, starts)
    requires W.IsRun(ss, es) && j < k <= |es| && W.BlockedSince(ss, es, j, k)
    requires es[j] == Ended(w, v, snap, d, now, starts)
    ensures var wake := P.WakeAt(now, d, P.Pass(w, v, snap, d, starts).1);
            wake.Some? && wake.value <= now + P.RETRY_MS && W.Enabled(ss[k], W.Wake)
    ensures W.IsRun(ts, fs) && ts[0] == ss[k] && ts[|fs|].phase.Draining?
    ensures |fs| <= |ss[k].queue| + 1 && forall n :: 0 <= n < |fs| ==> W.Listens(fs[n])
  {
    VainIsReported(w, v, snap, d, starts);
    P.WakeSpec(now, d, P.Pass(w, v, snap, d, starts).1);
    W.TimerIsArmed(ss, es, j, k);
    ts, fs := W.ListensUntilAwake(ss[k]);
  }

  /** A kick given while the loop is blocked, or before, takes it to its next pass too. */
  lemma KickIsHeard(ss: seq<W.State>, es: seq<W.Event>, i: nat, k: nat)
    returns (ts: seq<W.State>, fs: seq<W.Event>)
    requires W.IsRun(ss, es) && W.Unheard(es, i, k) && ss[k].phase.Blocked?
    ensures W.IsRun(ts, fs) && ts[0] == ss[k] && ts[|fs|].phase.Draining?
    ensures |fs| <= |ss[k].queue| + 1 && forall n :: 0 <= n < |fs| ==> W.Listens(fs[n])
  {
    W.KickIsKept(ss, es, i, k);
    ts, fs := W.ListensUntilAwake(ss[k]);
  }
}
