/** The pending-request table of crates/agora-bridge/src/jsonrpc.rs: requests, responses, timeouts, dropped futures and
    close race for each entry. Critical sections under the `pending` lock are single steps; a sender taken out of the
    table is `inHand` until its task sends on it. */
module RpcPending {

  /** What a request can be told. `Reply` carries the id of the response it came from. */
  datatype Value = Reply(from: nat, payload: string) | Closed | TimedOut | NotJson

  /** A `request` future: it has its id, waits, finished with a value, or was dropped by its caller. */
  datatype Future = Starting | Waiting | Done(result: Value) | Dropped

  /** `pending` are the ids in the table, `inHand` the senders a task has taken and what it will send, `slot` the values
      sent and not yet picked up. Ids start at 1 and are never reused. */
  datatype State = State(
    nextId: nat, closed: bool, pending: set<nat>, inHand: map<nat, Value>, slot: map<nat, Value>,
    futures: map<nat, Future>)

  const Unused: State := State(1, false, {}, map[], map[], map[])

  datatype Event =
    | TakeId
    | Unserializable(id: nat)
    | Enter(id: nat)
    | EnqueueFails(id: nat)
    | Response(wire: int, payload: string)
    | CloseTakes
    | Sends(id: nat)
    | PicksUp(id: nat)
    | Timeout(id: nat)
    | DropFuture(id: nat)

  predicate IsStarting(s: State, id: nat) {
    id in s.futures && s.futures[id].Starting?
  }

  predicate IsWaiting(s: State, id: nat) {
    id in s.futures && s.futures[id].Waiting?
  }

  predicate Enabled(s: State, e: Event) {
    match e
    case TakeId => true
    case Unserializable(id) => IsStarting(s, id)
    case Enter(id) => IsStarting(s, id)
    case EnqueueFails(id) => IsWaiting(s, id)
    case Response(_, _) => true
    case CloseTakes => true
    case Sends(id) => id in s.inHand
    case PicksUp(id) => IsWaiting(s, id) && id in s.slot
    case Timeout(id) => IsWaiting(s, id)
    case DropFuture(id) => IsWaiting(s, id)
  }

  /** The end of a `request` future. Dropping its `PendingEntry` removes the entry if it is still there, and its slot
      goes with it. */
  function Finish(s: State, id: nat, f: Future): State {
    s.(futures := s.futures[id := f], pending := s.pending - {id}, slot := s.slot - {id})
  }

  function ClosedFor(ids: set<nat>): map<nat, Value> {
    map id: nat | id in ids :: Closed
  }

  function Apply(s: State, e: Event): State
    requires Enabled(s, e)
  {
    match e
    case TakeId => s.(nextId := s.nextId + 1, futures := s.futures[s.nextId := Starting])
    case Unserializable(id) => s.(futures := s.futures[id := Done(NotJson)])
    case Enter(id) =>
      if s.closed then s.(futures := s.futures[id := Done(Closed)])
      else s.(futures := s.futures[id := Waiting], pending := s.pending + {id})
    case EnqueueFails(id) => Finish(s, id, Done(Closed))
    case Response(wire, payload) =>
      if wire >= 0 && wire in s.pending
      then
        var id: nat := wire;
        s.(pending := s.pending - {id}, inHand := s.inHand[id := Reply(id, payload)])
      else s
    case CloseTakes =>
      s.(closed := true, pending := {}, inHand := s.inHand + ClosedFor(s.pending))
    case Sends(id) =>
      var t := s.(inHand := s.inHand - {id});
      if IsWaiting(s, id) then t.(slot := s.slot[id := s.inHand[id]]) else t
    case PicksUp(id) => Finish(s, id, Done(s.slot[id]))
    case Timeout(id) => Finish(s, id, Done(TimedOut))
    case DropFuture(id) => Finish(s, id, Dropped)
  }

  // ----- the invariant

  /** A waiting request is in exactly one place: the table, a task's hands, or answered and not yet picked up. */
  ghost predicate OnePlace(s: State, id: nat) {
    && (id in s.pending || id in s.inHand || id in s.slot)
    && !(id in s.pending && id in s.inHand) && !(id in s.pending && id in s.slot) && !(id in s.inHand && id in s.slot)
  }

  ghost predicate Own(id: nat, v: Value) {
    v.Reply? ==> v.from == id
  }

  ghost predicate Inv(s: State) {
    && (s.closed ==> s.pending == {})
    && (forall id: nat :: id in s.futures <==> 1 <= id < s.nextId)
    && (forall id :: id in s.pending ==> IsWaiting(s, id))
    && (forall id :: id in s.slot ==> IsWaiting(s, id))
    && (forall id :: id in s.inHand ==> id in s.futures && !IsStarting(s, id))
    && s.nextId >= 1
    && (forall id: nat :: IsWaiting(s, id) ==> OnePlace(s, id))
    && (forall id :: id in s.inHand ==> Own(id, s.inHand[id]))
    && (forall id :: id in s.slot ==> Own(id, s.slot[id]))
    && (forall id :: id in s.futures && s.futures[id].Done? ==> Own(id, s.futures[id].result))
  }

  lemma PlacesKept(s: State, e: Event, id: nat)
    requires Inv(s) && Enabled(s, e) && IsWaiting(Apply(s, e), id)
    ensures OnePlace(Apply(s, e), id)
  {
    if IsWaiting(s, id) {
      assert OnePlace(s, id);
    } else {
      assert e == Enter(id);
    }
  }

  lemma TableKept(s: State, e: Event)
    requires Inv(s) && Enabled(s, e)
    ensures var t := Apply(s, e);
            && (t.closed ==> t.pending == {})
            && (forall id: nat :: id in t.futures <==> 1 <= id < t.nextId)
            && (forall id :: id in t.pending ==> IsWaiting(t, id))
            && (forall id :: id in t.slot ==> IsWaiting(t, id))
            && (forall id :: id in t.inHand ==> id in t.futures && !IsStarting(t, id))
            && t.nextId >= 1
  {
  }

  lemma OwnKept(s: State, e: Event)
    requires Inv(s) && Enabled(s, e)
    ensures var t := Apply(s, e);
            && (forall id :: id in t.inHand ==> Own(id, t.inHand[id]))
            && (forall id :: id in t.slot ==> Own(id, t.slot[id]))
            && (forall id :: id in t.futures && t.futures[id].Done? ==> Own(id, t.futures[id].result))
  {
  }

  lemma StepKeeps(s: State, e: Event)
    requires Inv(s) && Enabled(s, e)
    ensures Inv(Apply(s, e))
  {
    TableKept(s, e);
    OwnKept(s, e);
    forall id: nat | IsWaiting(Apply(s, e), id)
      ensures OnePlace(Apply(s, e), id)
    {
      PlacesKept(s, e, id);
    }
  }

  ghost predicate IsRun(ss: seq<State>, es: seq<Event>) {
    && |ss| == |es| + 1 && ss[0] == Unused
    && forall i :: 0 <= i < |es| ==> Enabled(ss[i], es[i]) && ss[i + 1] == Apply(ss[i], es[i])
  }

  lemma {:induction false} InvAlong(ss: seq<State>, es: seq<Event>, i: nat)
    requires IsRun(ss, es) && i <= |es|
    ensures Inv(ss[i])
  {
    if i > 0 {
      InvAlong(ss, es, i - 1);
      StepKeeps(ss[i - 1], es[i - 1]);
    }
  }

  // ----- what every interleaving guarantees

  predicate Finished(f: Future) { f.Done? || f.Dropped? }

  /** A request is resolved once: whatever it finished with never changes. */
  lemma {:induction false} ResolvedOnce(ss: seq<State>, es: seq<Event>, i: nat, j: nat, id: nat)
    requires IsRun(ss, es) && i <= j <= |es|
    requires id in ss[i].futures && Finished(ss[i].futures[id])
    ensures id in ss[j].futures && ss[j].futures[id] == ss[i].futures[id]
  {
    if i < j {
      ResolvedOnce(ss, es, i, j - 1, id);
      InvAlong(ss, es, j - 1);
      FinishedStays(ss[j - 1], es[j - 1], id);
    }
  }

  lemma FinishedStays(s: State, e: Event, id: nat)
    requires Inv(s) && Enabled(s, e) && id in s.futures && Finished(s.futures[id])
    ensures id in Apply(s, e).futures && Apply(s, e).futures[id] == s.futures[id]
  {
  }

  /** In every interleaving: a reply comes from the response with the request's own id, a closed connection has an empty
      table, no entry outlives its future, and a waiting request is never lost. */
  lemma TableGuarantees(ss: seq<State>, es: seq<Event>, i: nat, id: nat)
    requires IsRun(ss, es) && i <= |es|
    ensures var s := ss[i];
            && (s.closed ==> s.pending == {})
            && (id in s.pending ==> IsWaiting(s, id))
            && (IsWaiting(s, id) ==> OnePlace(s, id))
            && (id in s.futures && s.futures[id].Done? && s.futures[id].result.Reply? ==>
                  s.futures[id].result.from == id)
            && (IsWaiting(s, id) && s.closed ==> id in s.inHand || id in s.slot)
  {
    InvAlong(ss, es, i);
  }

  // ----- every reply was sent by the peer

  /** Before step `i` the peer answered `id` with `payload`. */
  ghost predicate Heard(es: seq<Event>, i: nat, id: nat, payload: string) {
    exists k :: 0 <= k < i && k < |es| && es[k] == Response(id, payload)
  }

  ghost predicate Sourced(es: seq<Event>, i: nat, id: nat, v: Value) {
    v.Reply? ==> v.from == id && Heard(es, i, id, v.payload)
  }

  ghost predicate AllSourced(s: State, es: seq<Event>, i: nat) {
    && (forall id :: id in s.inHand ==> Sourced(es, i, id, s.inHand[id]))
    && (forall id :: id in s.slot ==> Sourced(es, i, id, s.slot[id]))
    && (forall id :: id in s.futures && s.futures[id].Done? ==> Sourced(es, i, id, s.futures[id].result))
  }

  lemma StillSourced(es: seq<Event>, i: nat, id: nat, v: Value)
    requires Sourced(es, i, id, v)
    ensures Sourced(es, i + 1, id, v)
  {
    if v.Reply? {
      var k :| 0 <= k < i && k < |es| && es[k] == Response(id, v.payload);
      assert 0 <= k < i + 1;
    }
  }

  lemma LaterSourced(s: State, es: seq<Event>, i: nat)
    requires AllSourced(s, es, i)
    ensures AllSourced(s, es, i + 1)
  {
    forall id | id in s.inHand ensures Sourced(es, i + 1, id, s.inHand[id]) { StillSourced(es, i, id, s.inHand[id]); }
    forall id | id in s.slot ensures Sourced(es, i + 1, id, s.slot[id]) { StillSourced(es, i, id, s.slot[id]); }
    forall id | id in s.futures && s.futures[id].Done?
      ensures Sourced(es, i + 1, id, s.futures[id].result)
    {
      StillSourced(es, i, id, s.futures[id].result);
    }
  }

  lemma StepSourced(s: State, es: seq<Event>, i: nat)
    requires i < |es| && Enabled(s, es[i]) && AllSourced(s, es, i + 1)
    ensures AllSourced(Apply(s, es[i]), es, i + 1)
  {
    if es[i].Response? && es[i].wire >= 0 {
      assert Heard(es, i + 1, es[i].wire, es[i].payload);
    }
  }

  lemma {:induction false} SourcedAlong(ss: seq<State>, es: seq<Event>, i: nat)
    requires IsRun(ss, es) && i <= |es|
    ensures AllSourced(ss[i], es, i)
  {
    if i > 0 {
      SourcedAlong(ss, es, i - 1);
      LaterSourced(ss[i - 1], es, i - 1);
      StepSourced(ss[i - 1], es, i - 1);
    }
  }

  /** A request finishes with a reply only after the peer sent a response with its id and that payload. */
  lemma ReplyWasSent(ss: seq<State>, es: seq<Event>, i: nat, id: nat)
    requires IsRun(ss, es) && i <= |es| && id in ss[i].futures
    requires ss[i].futures[id].Done? && ss[i].futures[id].result.Reply?
    ensures exists k :: 0 <= k < i && es[k] == Response(id, ss[i].futures[id].result.payload)
  {
    SourcedAlong(ss, es, i);
  }

  ghost predicate Reaches(s: State, es: seq<Event>, t: State)
    decreases |es|
  {
    if es == [] then s == t else Enabled(s, es[0]) && Reaches(Apply(s, es[0]), es[1..], t)
  }

  /** Once close has taken the table, sending what is in hand leaves no request waiting without its value. */
  lemma ClosedAnswersEveryone(s: State) returns (es: seq<Event>, t: State)
    requires Inv(s) && s.closed
    ensures Reaches(s, es, t) && |es| == |s.inHand| && Inv(t) && t.closed
    ensures forall id: nat :: IsWaiting(t, id) ==> id in t.slot
    ensures forall id :: id in s.futures ==> id in t.futures && t.futures[id] == s.futures[id]
    decreases |s.inHand|
  {
    if s.inHand.Keys == {} {
      es, t := [], s;
      forall id: nat | IsWaiting(s, id)
        ensures id in s.slot
      {
        assert OnePlace(s, id);
      }
    } else {
      var id :| id in s.inHand.Keys;
      var u := Apply(s, Sends(id));
      StepKeeps(s, Sends(id));
      assert u.inHand.Keys == s.inHand.Keys - {id};
      var rest;
      rest, t := ClosedAnswersEveryone(u);
      es := [Sends(id)] + rest;
      assert es[1..] == rest;
    }
  }

  // ----- the same table, updated in place

  /** `Shared` with the request futures beside it. Every method is a sequence of the steps above. */
  class Shared {
    var nextId: nat
    var closed: bool
    var pending: set<nat>
    var inHand: map<nat, Value>
    var slot: map<nat, Value>
    var futures: map<nat, Future>

    constructor ()
      ensures View() == Unused && Inv(View())
    {
      nextId, closed, pending, inHand, slot, futures := 1, false, {}, map[], map[], map[];
    }

    ghost function View(): State
      reads this
    {
      State(nextId, closed, pending, inHand, slot, futures)
    }

    /** `fetch_add` on the id counter, outside the lock. */
    method TakeRequestId() returns (id: nat)
      requires Inv(View())
      modifies this
      ensures Inv(View()) && View() == Apply(old(View()), TakeId)
      ensures id == old(nextId) && id !in old(futures) && IsStarting(View(), id)
    {
      StepKeeps(View(), TakeId);
      assert nextId !in futures;
      id := nextId;
      nextId := nextId + 1;
      futures := futures[id := Starting];
    }

    /** The critical section of `request`: refused on a closed connection, otherwise entered in the table. */
    method Register(id: nat) returns (entered: bool)
      requires Inv(View()) && IsStarting(View(), id)
      modifies this
      ensures Inv(View()) && View() == Apply(old(View()), Enter(id))
      ensures entered == !closed && (entered <==> id in pending)
    {
      StepKeeps(View(), Enter(id));
      assert id !in pending;
      if closed {
        futures := futures[id := Done(Closed)];
        return false;
      }
      pending := pending + {id};
      futures := futures[id := Waiting];
      return true;
    }

    /** `dispatch` of a response: an unknown id is ignored, a known one leaves the table and is sent its outcome. */
    method Dispatch(id: nat, payload: string) returns (known: bool)
      requires Inv(View())
      modifies this
      ensures Inv(View()) && known == (id in old(pending))
      ensures known ==> id in slot
      ensures if known
              then Reaches(old(View()), [Response(id, payload), Sends(id)], View()) && slot[id] == Reply(id, payload)
              else View() == old(View())
    {
      ghost var s := View();
      StepKeeps(s, Response(id, payload));
      if id !in pending {
        return false;
      }
      pending := pending - {id};
      inHand := inHand[id := Reply(id, payload)];
      ghost var t := View();
      StepKeeps(t, Sends(id));
      assert OnePlace(s, id);
      Send(id);
      assert Reaches(View(), [], View());
      assert Reaches(t, [Sends(id)], View());
      assert [Response(id, payload), Sends(id)][1..] == [Sends(id)];
      return true;
    }

    method Send(id: nat)
      requires id in inHand
      modifies this`inHand, this`slot
      ensures View() == Apply(old(View()), Sends(id))
    {
      var v := inHand[id];
      inHand := inHand - {id};
      if id in futures && futures[id].Waiting? {
        slot := slot[id := v];
      }
    }

    /** Every sender taken out by `close` is sent `Closed`. */
    method TellClosed(waiters: set<nat>)
      requires forall id :: id in waiters ==>
                              id in inHand && inHand[id] == Closed && id in futures && futures[id].Waiting?
      modifies this`inHand, this`slot
      ensures inHand == old(inHand) - waiters && slot == old(slot) + ClosedFor(waiters)
    {
      var left := waiters;
      while left != {}
        invariant left <= waiters
        invariant inHand == old(inHand) - (waiters - left) && slot == old(slot) + ClosedFor(waiters - left)
        decreases left
      {
        var id :| id in left;
        TellOne(old(inHand), old(slot), waiters, left, id);
        Send(id);
        left := left - {id};
      }
      assert waiters - left == waiters;
    }

    /** `close`: the table is taken whole, and every request that was in it and still waits is told `Closed`. */
    method Close()
      requires Inv(View())
      modifies this
      ensures Inv(View()) && View() == AfterClose(old(View()))
      ensures exists es :: Reaches(old(View()), [CloseTakes] + es, View())
    {
      ghost var s := View();
      CloseKeeps(s);
      TakenTable(s);
      var waiters := pending;
      closed := true;
      pending := {};
      inHand := inHand + ClosedFor(waiters);
      TellClosed(waiters);
      ghost var es := CloseReaches(s);
    }
  }

  /** The sends that tell everyone in `ids`, one after the other. */
  lemma {:induction false} SendsReach(s: State, ids: set<nat>) returns (es: seq<Event>)
    requires forall id :: id in ids ==> id in s.inHand && s.inHand[id] == Closed && IsWaiting(s, id)
    ensures Reaches(s, es, s.(inHand := s.inHand - ids, slot := s.slot + ClosedFor(ids)))
    decreases |ids|
  {
    if ids == {} {
      es := [];
      assert s.inHand - ids == s.inHand && s.slot + ClosedFor(ids) == s.slot;
    } else {
      var id :| id in ids;
      var u, rest := Apply(s, Sends(id)), ids - {id};
      var more := SendsReach(u, rest);
      assert u.inHand - rest == s.inHand - ids && u.slot + ClosedFor(rest) == s.slot + ClosedFor(ids);
      es := [Sends(id)] + more;
      assert es[1..] == more;
    }
  }

  lemma CloseReaches(s: State) returns (es: seq<Event>)
    requires Inv(s)
    ensures Reaches(s, [CloseTakes] + es, AfterClose(s))
  {
    TakenTable(s);
    var u := Apply(s, CloseTakes);
    es := SendsReach(u, s.pending);
    assert ([CloseTakes] + es)[1..] == es;
    assert u.(inHand := u.inHand - s.pending, slot := u.slot + ClosedFor(s.pending)) == AfterClose(s);
  }

  lemma TellOne(inHand: map<nat, Value>, slot: map<nat, Value>, waiters: set<nat>, left: set<nat>, id: nat)
    requires left <= waiters && id in left
    ensures inHand - (waiters - left) - {id} == inHand - (waiters - (left - {id}))
    ensures (slot + ClosedFor(waiters - left))[id := Closed] == slot + ClosedFor(waiters - (left - {id}))
  {
  }

  lemma TakenTable(s: State)
    requires Inv(s)
    ensures (s.inHand + ClosedFor(s.pending)) - s.pending == s.inHand
    ensures forall id :: id in s.pending ==> IsWaiting(s, id)
  {
    forall id | id in s.pending
      ensures id !in s.inHand
    {
      assert OnePlace(s, id);
    }
  }

  ghost function AfterClose(s: State): State {
    s.(closed := true, pending := {}, slot := s.slot + ClosedFor(s.pending))
  }

  lemma CloseKeeps(s: State)
    requires Inv(s)
    ensures Inv(AfterClose(s))
  {
    var t := AfterClose(s);
    forall id: nat | IsWaiting(t, id)
      ensures OnePlace(t, id)
    {
      assert OnePlace(s, id);
    }
  }
}
