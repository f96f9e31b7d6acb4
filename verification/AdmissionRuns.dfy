/** Runs of the admission loop with nothing outside: how many passes its own writes can cause. */
module AdmissionRuns {
  import opened Options
  import opened AdmissionPass

  /** What woke the loop. A timer pass is one the last wake-up asked for. */
  datatype Cause = ByEvent | ByKick | ByTimer

  datatype Turn = Turn(cause: Cause, world: World, snap: map<string, Task>, decision: Decision, starts: nat)

  predicate Enabled(v: View, t: Turn) {
    && t.starts <= |t.decision.start|
    && (t.cause.ByEvent? ==> v.queued > 0)
    && (t.cause.ByKick? ==> v.kicked)
  }

  /** The loop drops the queued events, then makes its pass. */
  function Drained(v: View, cause: Cause): View {
    v.(queued := 0, kicked := v.kicked && !cause.ByKick?)
  }

  function Apply(v: View, t: Turn): View
    requires Enabled(v, t)
  {
    Pass(t.world, Drained(v, t.cause), t.snap, t.decision, t.starts).0
  }

  ghost predicate IsRun(vs: seq<View>, ts: seq<Turn>) {
    |vs| == |ts| + 1 && forall i :: 0 <= i < |ts| ==> Enabled(vs[i], ts[i]) && vs[i + 1] == Apply(vs[i], ts[i])
  }

  function Count(ts: seq<Turn>, cause: Cause): nat {
    if ts == [] then 0 else Count(ts[..|ts| - 1], cause) + if ts[|ts| - 1].cause == cause then 1 else 0
  }

  function One(b: bool): nat { if b then 1 else 0 }

  lemma SubsetIsSmaller(a: set<string>, b: set<string>)
    requires a <= b
    ensures |a| <= |b| && (a != b ==> |a| < |b|)
  {
    assert b == a + (b - a);
    if a != b {
      assert b - a != {};
    }
  }

  /** Each event pass, and each kick pass, uses up a waiting job or the event or permit that caused it. */
  lemma TurnSpends(v: View, t: Turn)
    requires Enabled(v, t)
    ensures var u := Apply(v, t);
            && |u.waiting| + One(u.queued > 0) + One(t.cause.ByEvent?) <= |v.waiting| + One(v.queued > 0)
            && |u.waiting| + One(u.kicked) + One(t.cause.ByKick?) <= |v.waiting| + One(v.kicked)
  {
    var d := Drained(v, t.cause);
    PassSteps(t.world, d, t.snap, t.decision, t.starts);
    SubsetIsSmaller(Apply(v, t).waiting, v.waiting);
  }

  /** However `decide` decides and the store answers, with nothing outside the loop wakes itself only so often. */
  lemma {:induction false} SelfWakesAreBounded(vs: seq<View>, ts: seq<Turn>)
    requires IsRun(vs, ts)
    ensures var v, u := vs[0], vs[|ts|];
            && Count(ts, ByEvent) + |u.waiting| + One(u.queued > 0) <= |v.waiting| + One(v.queued > 0)
            && Count(ts, ByKick) + |u.waiting| + One(u.kicked) <= |v.waiting| + One(v.kicked)
    decreases |ts|
  {
    if ts != [] {
      var n := |ts| - 1;
      var us, rs := vs[..|ts|], ts[..n];
      SelfWakesAreBounded(us, rs);
      TurnSpends(vs[n], ts[n]);
    }
  }

  /** At most one more event pass than there were waiting jobs, and at most as many again for kicks. */
  lemma EventPassesAreBounded(vs: seq<View>, ts: seq<Turn>)
    requires IsRun(vs, ts)
    ensures Count(ts, ByEvent) <= |vs[0].waiting| + 1
    ensures Count(ts, ByEvent) + Count(ts, ByKick) <= 2 * |vs[0].waiting| + 2
  {
    SelfWakesAreBounded(vs, ts);
  }

  // ----- the bound is reached

  lemma {:induction false} CountFirst(t: Turn, ts: seq<Turn>, cause: Cause)
    ensures Count([t] + ts, cause) == One(t.cause == cause) + Count(ts, cause)
    decreases |ts|
  {
    var all := [t] + ts;
    if ts == [] {
      assert all[..0] == [] && all[0] == t;
    } else {
      assert all[..|all| - 1] == [t] + ts[..|ts| - 1];
      CountFirst(t, ts[..|ts| - 1], cause);
    }
  }

  const WILLING: World := World(_ => Ended, _ => NotWaiting)

  /** A pass that fails the jobs `ids`. */
  function Failing(ids: seq<string>): Turn {
    Turn(ByEvent, WILLING, map[], Decision([], ids, [], None, false), 0)
  }

  lemma FailingOne(v: View, id: string)
    requires v.queued > 0 && id in v.waiting
    ensures Apply(v, Failing([id])) == v.(waiting := v.waiting - {id}, queued := 1, calls := v.calls + 1)
  {
    var d := Drained(v, ByEvent);
    assert [id][..0] == [];
    assert FailAll(WILLING, d, map[], [id][..0]) == (d, false);
    assert Write(WILLING, d, id).Ended?;
    var none: seq<string> := [];
    assert none[..0] == [];
    assert StartAll(WILLING, Removed(d, id), map[], none[..0]) == (Removed(d, id), false);
  }

  lemma RunFrom(v: View, t: Turn, vs: seq<View>, ts: seq<Turn>)
    requires Enabled(v, t) && IsRun(vs, ts) && vs[0] == Apply(v, t)
    ensures IsRun([v] + vs, [t] + ts)
  {
    var all := [t] + ts;
    forall i | 0 <= i < |all|
      ensures Enabled(([v] + vs)[i], all[i]) && ([v] + vs)[i + 1] == Apply(([v] + vs)[i], all[i])
    {
      if i > 0 {
        assert all[i] == ts[i - 1] && ([v] + vs)[i] == vs[i - 1];
      }
    }
  }

  /** Ending one job a pass, the loop makes exactly one event pass more than it had jobs. */
  lemma {:induction false} BoundIsReached(v: View) returns (vs: seq<View>, ts: seq<Turn>)
    requires v.queued > 0
    ensures IsRun(vs, ts) && vs[0] == v && Count(ts, ByEvent) == |v.waiting| + 1
    decreases |v.waiting|
  {
    if v.waiting == {} {
      vs, ts := [v, Apply(v, Failing([]))], [Failing([])];
      assert ts[..0] == [];
    } else {
      var id :| id in v.waiting;
      FailingOne(v, id);
      var next := Apply(v, Failing([id]));
      assert next.waiting < v.waiting;
      SubsetIsSmaller(next.waiting, v.waiting);
      var us, rs := BoundIsReached(next);
      RunFrom(v, Failing([id]), us, rs);
      CountFirst(Failing([id]), rs, ByEvent);
      assert |next.waiting| + 1 == |v.waiting| by {
        assert v.waiting == next.waiting + {id};
      }
      vs, ts := [v] + us, [Failing([id])] + rs;
    }
  }
}
