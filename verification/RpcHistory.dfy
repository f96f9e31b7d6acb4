/** What a request is told, read off the events of the run alone. */
module RpcHistory {
  import opened RpcPending

  // ----- the table, by history

  /** `close` has not taken the table before step `i`. */
  ghost predicate Open(es: seq<Event>, i: nat) {
    forall k :: 0 <= k < i && k < |es| ==> !es[k].CloseTakes?
  }

  /** What takes `id` out of the table: an answer to it, or the end of its future. */
  predicate Removes(e: Event, id: nat) {
    || (e.Response? && e.wire == id)
    || e == EnqueueFails(id) || e == Timeout(id) || e == DropFuture(id) || e == PicksUp(id)
  }

  /** `id` was entered at step `e` and nothing has taken it out before step `i`. */
  ghost predicate Since(es: seq<Event>, e: nat, i: nat, id: nat) {
    && e < i && e < |es| && es[e] == Enter(id)
    && forall k :: e < k < i && k < |es| ==> !Removes(es[k], id)
  }

  ghost predicate InTable(es: seq<Event>, i: nat, id: nat) {
    Open(es, i) && exists e :: Since(es, e, i, id)
  }

  lemma OpenStep(es: seq<Event>, i: nat)
    requires i < |es|
    ensures Open(es, i + 1) <==> Open(es, i) && !es[i].CloseTakes?
  {
  }

  lemma SinceStep(es: seq<Event>, e: nat, i: nat, id: nat)
    requires i < |es|
    ensures Since(es, e, i + 1, id) <==> (e == i && es[i] == Enter(id)) || (Since(es, e, i, id) && !Removes(es[i], id))
  {
  }

  lemma InTableStep(es: seq<Event>, i: nat, id: nat)
    requires i < |es|
    ensures InTable(es, i + 1, id) <==>
            Open(es, i) && !es[i].CloseTakes? && (es[i] == Enter(id) || (InTable(es, i, id) && !Removes(es[i], id)))
  {
    OpenStep(es, i);
    var next := i + 1;
    if e :| Since(es, e, next, id) {
      SinceStep(es, e, i, id);
    }
    if e :| Since(es, e, i, id) {
      SinceStep(es, e, i, id);
    }
    SinceStep(es, i, i, id);
  }

  lemma StepPending(s: State, e: Event, id: nat)
    requires Inv(s) && Enabled(s, e)
    ensures id in Apply(s, e).pending <==>
            !s.closed && !e.CloseTakes? && (e == Enter(id) || (id in s.pending && !Removes(e, id)))
    ensures Apply(s, e).closed <==> s.closed || e.CloseTakes?
  {
    if e.PicksUp? && e.id == id {
      assert OnePlace(s, id);
    }
  }

  /** The connection is closed exactly if `close` took the table, and an id is in the table exactly if it was entered
      before that and has been neither answered nor given up since. */
  lemma {:induction false} TableIs(ss: seq<State>, es: seq<Event>, i: nat, id: nat)
    requires IsRun(ss, es) && i <= |es|
    ensures ss[i].closed <==> !Open(es, i)
    ensures id in ss[i].pending <==> InTable(es, i, id)
  {
    if i > 0 {
      TableIs(ss, es, i - 1, id);
      InvAlong(ss, es, i - 1);
      OpenStep(es, i - 1);
      InTableStep(es, i - 1, id);
      StepPending(ss[i - 1], es[i - 1], id);
    }
  }

  // ----- the ids

  function Ids(es: seq<Event>): nat {
    if es == [] then 0 else Ids(es[..|es| - 1]) + if es[|es| - 1].TakeId? then 1 else 0
  }

  /** Ids are given out in order from 1, and a request is past its start exactly if it was entered or could not be
      written as JSON. */
  lemma {:induction false} IdsAre(ss: seq<State>, es: seq<Event>, i: nat, id: nat)
    requires IsRun(ss, es) && i <= |es|
    ensures ss[i].nextId == 1 + Ids(es[..i])
    ensures id in ss[i].futures <==> 1 <= id <= Ids(es[..i])
    ensures IsStarting(ss[i], id) <==>
            id in ss[i].futures && forall k :: 0 <= k < i ==> es[k] != Enter(id) && es[k] != Unserializable(id)
  {
    InvAlong(ss, es, i);
    if i > 0 {
      IdsAre(ss, es, i - 1, id);
      InvAlong(ss, es, i - 1);
      assert es[..i][..i - 1] == es[..i - 1];
      StartingStep(ss[i - 1], es[i - 1], id);
      if id == ss[i - 1].nextId {
        NotBefore(ss, es, i - 1, id);
      }
    }
  }

  lemma StartingStep(s: State, e: Event, id: nat)
    requires Inv(s) && Enabled(s, e)
    ensures IsStarting(Apply(s, e), id) <==>
            (e.TakeId? && id == s.nextId) || (IsStarting(s, id) && e != Enter(id) && e != Unserializable(id))
  {
  }

  /** Nothing happens to a request before its id is given out. */
  lemma {:induction false} NotBefore(ss: seq<State>, es: seq<Event>, i: nat, id: nat)
    requires IsRun(ss, es) && i <= |es| && id !in ss[i].futures
    ensures forall k :: 0 <= k < i ==> es[k] != Enter(id) && es[k] != Unserializable(id)
  {
    if i > 0 {
      InvAlong(ss, es, i - 1);
      NotBefore(ss, es, i - 1, id);
    }
  }

  // ----- what each request is told

  /** Step `k` took `id` out of the table to tell it `v`. */
  ghost predicate Takes(es: seq<Event>, k: nat, id: nat, v: Value) {
    && k < |es| && InTable(es, k, id)
    && match es[k]
       case Response(wire, payload) => wire == id && v == Reply(id, payload)
       case CloseTakes => v == Closed
       case _ => false
  }

  ghost predicate Taken(es: seq<Event>, i: nat, id: nat, v: Value) {
    exists k :: 0 <= k < i && Takes(es, k, id, v)
  }

  lemma TakenLater(es: seq<Event>, i: nat, j: nat, id: nat, v: Value)
    requires i <= j && Taken(es, i, id, v)
    ensures Taken(es, j, id, v)
  {
    var k :| 0 <= k < i && Takes(es, k, id, v);
    assert k < j;
  }

  /** What a step puts in hand was in the table, and what it puts in a slot was in hand. */
  lemma StepHolds(s: State, e: Event, id: nat)
    requires Enabled(s, e)
    ensures var t := Apply(s, e);
            && (id in t.inHand ==>
                  || (id in s.inHand && t.inHand[id] == s.inHand[id])
                  || (id in s.pending && e.Response? && e.wire == id && t.inHand[id] == Reply(id, e.payload))
                  || (id in s.pending && e.CloseTakes? && t.inHand[id] == Closed))
            && (id in t.slot ==>
                  || (id in s.slot && t.slot[id] == s.slot[id])
                  || (id in s.inHand && t.slot[id] == s.inHand[id]))
  {
  }

  lemma StepTaken(ss: seq<State>, es: seq<Event>, i: nat, id: nat)
    requires IsRun(ss, es) && i < |es|
    requires id in ss[i].inHand ==> Taken(es, i, id, ss[i].inHand[id])
    requires id in ss[i].slot ==> Taken(es, i, id, ss[i].slot[id])
    ensures id in ss[i + 1].inHand ==> Taken(es, i + 1, id, ss[i + 1].inHand[id])
    ensures id in ss[i + 1].slot ==> Taken(es, i + 1, id, ss[i + 1].slot[id])
  {
    var s, t, e := ss[i], ss[i + 1], es[i];
    TableIs(ss, es, i, id);
    StepHolds(s, e, id);
    assert t == Apply(s, e);
    if id in s.inHand {
      TakenLater(es, i, i + 1, id, s.inHand[id]);
    }
    if id in s.slot {
      TakenLater(es, i, i + 1, id, s.slot[id]);
    }
    if id in t.inHand && (id !in s.inHand || t.inHand[id] != s.inHand[id]) {
      assert Takes(es, i, id, t.inHand[id]);
    }
  }

  lemma {:induction false} TakenAlong(ss: seq<State>, es: seq<Event>, i: nat, id: nat)
    requires IsRun(ss, es) && i <= |es|
    ensures id in ss[i].inHand ==> Taken(es, i, id, ss[i].inHand[id])
    ensures id in ss[i].slot ==> Taken(es, i, id, ss[i].slot[id])
  {
    if i > 0 {
      TakenAlong(ss, es, i - 1, id);
      StepTaken(ss, es, i - 1, id);
    }
  }

  /** `id` was given out, is past its start and is not in the table. */
  ghost predicate Out(s: State, id: nat) {
    id in s.futures && !IsStarting(s, id) && id !in s.pending
  }

  lemma OutStep(s: State, e: Event, id: nat)
    requires Inv(s) && Enabled(s, e)
    requires Out(s, id) || (id in s.pending && (Removes(e, id) || e.CloseTakes?))
    ensures Out(Apply(s, e), id)
  {
    StepPending(s, e, id);
    StartingStep(s, e, id);
  }

  /** A request is entered once, so it is taken out to be told something at most once. */
  lemma {:induction false} OutForGood(ss: seq<State>, es: seq<Event>, k: nat, j: nat, id: nat)
    requires IsRun(ss, es) && k < j <= |es|
    requires id in ss[k].pending && (Removes(es[k], id) || es[k].CloseTakes?)
    ensures Out(ss[j], id)
  {
    if k + 1 < j {
      OutForGood(ss, es, k, j - 1, id);
    }
    InvAlong(ss, es, j - 1);
    OutStep(ss[j - 1], es[j - 1], id);
  }

  lemma TakenOnce(ss: seq<State>, es: seq<Event>, j: nat, k: nat, id: nat, v: Value, w: Value)
    requires IsRun(ss, es) && Takes(es, j, id, v) && Takes(es, k, id, w)
    ensures j == k && v == w
  {
    TableIs(ss, es, j, id);
    TableIs(ss, es, k, id);
    if j < k {
      OutForGood(ss, es, j, k, id);
    } else if k < j {
      OutForGood(ss, es, k, j, id);
    }
  }

  /** Step `j` ends the future of `id` as `f`. */
  ghost predicate Tells(es: seq<Event>, j: nat, id: nat, f: Future) {
    && j < |es|
    && match es[j]
       case Unserializable(n) => n == id && f == Done(NotJson)
       case Enter(n) => n == id && !Open(es, j) && f == Done(Closed)
       case EnqueueFails(n) => n == id && f == Done(Closed)
       case PicksUp(n) => n == id && f.Done? && Taken(es, j, id, f.result)
       case Timeout(n) => n == id && f == Done(TimedOut)
       case DropFuture(n) => n == id && f == Dropped
       case _ => false
  }

  lemma StepTells(ss: seq<State>, es: seq<Event>, j: nat, id: nat)
    requires IsRun(ss, es) && j < |es| && id in ss[j + 1].futures && Finished(ss[j + 1].futures[id])
    ensures var f := ss[j + 1].futures[id]; Tells(es, j, id, f) || (id in ss[j].futures && ss[j].futures[id] == f)
  {
    TableIs(ss, es, j, id);
    TakenAlong(ss, es, j, id);
    StepEnds(ss[j], es[j], id);
  }

  /** A step that changes the end of a future is one of its own, and what it says. */
  lemma StepEnds(s: State, e: Event, id: nat)
    requires Enabled(s, e) && id in Apply(s, e).futures && Finished(Apply(s, e).futures[id])
    ensures var f := Apply(s, e).futures[id];
            || (id in s.futures && s.futures[id] == f)
            || (e == Unserializable(id) && f == Done(NotJson))
            || (e == Enter(id) && s.closed && f == Done(Closed))
            || (e == EnqueueFails(id) && f == Done(Closed))
            || (e == PicksUp(id) && id in s.slot && f == Done(s.slot[id]))
            || (e == Timeout(id) && f == Done(TimedOut))
            || (e == DropFuture(id) && f == Dropped)
  {
  }

  lemma TellsIs(ss: seq<State>, es: seq<Event>, j: nat, id: nat, f: Future)
    requires IsRun(ss, es) && Tells(es, j, id, f)
    ensures id in ss[j + 1].futures && ss[j + 1].futures[id] == f && Finished(f)
  {
    TableIs(ss, es, j, id);
    TakenAlong(ss, es, j, id);
    if es[j].PicksUp? {
      var v := ss[j].slot[id];
      var k :| 0 <= k < j && Takes(es, k, id, v);
      var n :| 0 <= n < j && Takes(es, n, id, f.result);
      TakenOnce(ss, es, k, n, id, v, f.result);
    }
  }

  /** In every interleaving, a request ends as `f` exactly if some step of the run ends it so. It gets the payload of
      the response that found it in the table, `Closed` if it came after the close, could not be queued or was in the
      table when close took it, and `TimedOut` only from its own timeout. */
  lemma EndsAsTold(ss: seq<State>, es: seq<Event>, i: nat, id: nat, f: Future)
    requires IsRun(ss, es) && i <= |es| && Finished(f)
    ensures (id in ss[i].futures && ss[i].futures[id] == f) <==> exists j :: 0 <= j < i && Tells(es, j, id, f)
  {
    if id in ss[i].futures && ss[i].futures[id] == f {
      var j := EndingStep(ss, es, i, id);
    }
    if j :| 0 <= j < i && Tells(es, j, id, f) {
      TellsIs(ss, es, j, id, f);
      ResolvedOnce(ss, es, j + 1, i, id);
    }
  }

  lemma {:induction false} EndingStep(ss: seq<State>, es: seq<Event>, i: nat, id: nat) returns (j: nat)
    requires IsRun(ss, es) && i <= |es| && id in ss[i].futures && Finished(ss[i].futures[id])
    ensures j < i && Tells(es, j, id, ss[i].futures[id])
  {
    StepTells(ss, es, i - 1, id);
    if Tells(es, i - 1, id, ss[i].futures[id]) {
      j := i - 1;
    } else {
      j := EndingStep(ss, es, i - 1, id);
    }
  }

  /** The answer that finds a request in the table is the one it picks up, whatever arrives or closes in between. */
  lemma AnswerIsPickedUp(ss: seq<State>, es: seq<Event>, k: nat, j: nat, i: nat, id: nat, payload: string)
    requires IsRun(ss, es) && k < j < i <= |es|
    requires InTable(es, k, id) && es[k] == Response(id, payload) && es[j] == PicksUp(id)
    ensures id in ss[i].futures && ss[i].futures[id] == Done(Reply(id, payload))
  {
    assert Takes(es, k, id, Reply(id, payload));
    assert Tells(es, j, id, Done(Reply(id, payload)));
    EndsAsTold(ss, es, i, id, Done(Reply(id, payload)));
  }

  /** A request that waits and was taken out is two steps from what it will be told. */
  lemma TakenIsNear(ss: seq<State>, es: seq<Event>, k: nat, i: nat, id: nat, v: Value)
    returns (fs: seq<Event>, t: State)
    requires IsRun(ss, es) && k < i <= |es| && Takes(es, k, id, v) && IsWaiting(ss[i], id)
    ensures Reaches(ss[i], fs, t) && |fs| <= 2 && id in t.futures && t.futures[id] == Done(v)
    ensures forall n :: 0 <= n < |fs| ==> fs[n] == Sends(id) || fs[n] == PicksUp(id)
  {
    var s := ss[i];
    TableIs(ss, es, k, id);
    OutForGood(ss, es, k, i, id);
    TakenAlong(ss, es, i, id);
    InvAlong(ss, es, i);
    assert OnePlace(s, id);
    var w := if id in s.inHand then s.inHand[id] else s.slot[id];
    var n :| 0 <= n < i && Takes(es, n, id, w);
    TakenOnce(ss, es, k, n, id, v, w);
    fs, t := Picked(s, id);
  }

  lemma Picked(s: State, id: nat) returns (fs: seq<Event>, t: State)
    requires IsWaiting(s, id) && (id in s.inHand || id in s.slot)
    ensures Reaches(s, fs, t) && |fs| <= 2
    ensures id in t.futures && t.futures[id] == Done(if id in s.inHand then s.inHand[id] else s.slot[id])
    ensures forall n :: 0 <= n < |fs| ==> fs[n] == Sends(id) || fs[n] == PicksUp(id)
  {
    var u := if id in s.inHand then Apply(s, Sends(id)) else s;
    t := Apply(u, PicksUp(id));
    assert Reaches(t, [], t);
    assert [PicksUp(id)][1..] == [];
    assert Reaches(u, [PicksUp(id)], t);
    fs := if id in s.inHand then [Sends(id), PicksUp(id)] else [PicksUp(id)];
    assert [Sends(id), PicksUp(id)][1..] == [PicksUp(id)];
  }

  /** Requests, answers and the close can come at any time, and a request can always go on or be given up. */
  lemma NeverStuck(s: State, id: nat, wire: int, payload: string)
    ensures Enabled(s, TakeId) && Enabled(s, Response(wire, payload)) && Enabled(s, CloseTakes)
    ensures IsStarting(s, id) ==> Enabled(s, Enter(id)) && Enabled(s, Unserializable(id))
    ensures IsWaiting(s, id) ==> Enabled(s, Timeout(id)) && Enabled(s, DropFuture(id)) && Enabled(s, EnqueueFails(id))
  {
  }
}
