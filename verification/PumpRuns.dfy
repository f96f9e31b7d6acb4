/** What every run of the pump guarantees, whatever the hooks, the inbox and the driver do in between. */
module PumpRuns {
  import opened Inbox
  import opened Numbers
  import opened Pump

  // ----- history read off a run, independent of the pump's own bookkeeping

  datatype Answer = Answer(offer: Offer, accepted: bool)

  /** The offers answered in the first `i` events, in order, with the driver's answer. */
  ghost function Answers(ss: seq<State>, es: seq<Event>, i: nat): seq<Answer>
    requires |ss| == |es| + 1 && i <= |es|
  {
    if i == 0 then []
    else Noted(Answers(ss, es, i - 1), ss[i - 1], es[i - 1])
  }

  ghost function Noted(history: seq<Answer>, s: State, e: Event): seq<Answer> {
    if (e.Accept? || e.Refuse?) && s.pc.Offered? then history + [Answer(s.pc.offer, e.Accept?)] else history
  }

  /** `m` was in the batch just accepted, or was refused in each of the last `REFUSAL_CAP` offers. */
  ghost predicate Handled(history: seq<Answer>, m: Message) {
    var n := |history|;
    || (n > 0 && history[n - 1].accepted && m in history[n - 1].offer.batch)
    || (n >= REFUSAL_CAP &&
        forall k :: n - REFUSAL_CAP <= k < n ==> !history[k].accepted && m in history[k].offer.batch)
  }

  /** The unacked messages that a successful write in `s` moves the cursor past. */
  ghost predicate Passes(s: State, m: Message) {
    && s.pc.Committing? && s.pc.offer.batch != []
    && m in s.inbox && s.cursor < m.no <= MaxSeq(s.pc.offer)
  }

  ghost predicate NoReset(es: seq<Event>, i: nat, j: nat) {
    forall k :: i <= k < j && k < |es| ==> !es[k].HookReset?
  }

  // ----- the cursor

  lemma CursorFallsOnlyOnReset(s: State, e: Event, r: Renderer)
    requires Enabled(s, e)
    ensures Apply(s, e, r).cursor < s.cursor <==> e.HookReset? && s.cursor > 0
  {
  }

  /** Between two resets the cursor on disk never decreases, whoever writes it. */
  lemma {:induction false} CursorNeverFalls(ss: seq<State>, es: seq<Event>, r: Renderer, i: nat, j: nat)
    requires IsRun(ss, es, r) && i <= j <= |es| && NoReset(es, i, j)
    ensures ss[i].cursor <= ss[j].cursor && ss[i].era == ss[j].era
  {
    if i < j {
      CursorNeverFalls(ss, es, r, i, j - 1);
      assert !es[j - 1].HookReset?;
      CursorFallsOnlyOnReset(ss[j - 1], es[j - 1], r);
    }
  }

  // ----- what a commit may pass

  /** The refusal count is about the most recent answers of the run, all of them refusals. */
  ghost predicate Tail(history: seq<Answer>, counted: seq<Offer>) {
    && |counted| <= |history|
    && forall k :: 0 <= k < |counted| ==> history[|history| - |counted| + k] == Answer(counted[k], false)
  }

  /** A commit of an accepted batch follows its acceptance. */
  ghost predicate AcceptedLast(history: seq<Answer>, s: State) {
    s.pc.Committing? && s.pc.why.Accepted? ==>
      history != [] && history[|history| - 1] == Answer(s.pc.offer, true)
  }

  lemma StepKeepsHistory(history: seq<Answer>, s: State, e: Event, r: Renderer)
    requires Inv(s) && Enabled(s, e) && Tail(history, s.counted) && AcceptedLast(history, s)
    ensures Tail(Noted(history, s, e), Apply(s, e, r).counted)
    ensures AcceptedLast(Noted(history, s, e), Apply(s, e, r))
  {
    match e
    case Refuse => RefusalExtends(history, s);
    case _ =>
  }

  lemma RefusalExtends(history: seq<Answer>, s: State)
    requires s.pc.Offered? && s.pc.offer.batch != [] && Tail(history, s.counted)
    ensures Tail(history + [Answer(s.pc.offer, false)], RefuseStep(s).counted)
  {
    var o := s.pc.offer;
    assert RefuseStep(s).counted == s.counted + [o] || RefuseStep(s).counted == [o];
  }

  lemma {:induction false} CountedIsHistory(ss: seq<State>, es: seq<Event>, r: Renderer, i: nat)
    requires IsRun(ss, es, r) && Init(ss[0]) && i <= |es|
    ensures Tail(Answers(ss, es, i), ss[i].counted) && AcceptedLast(Answers(ss, es, i), ss[i])
  {
    if i > 0 {
      CountedIsHistory(ss, es, r, i - 1);
      InvAlong(ss, es, r, i - 1);
      StepKeepsHistory(Answers(ss, es, i - 1), ss[i - 1], es[i - 1], r);
    }
  }

  function Highest(os: seq<Offer>): int
    requires os != []
  {
    if |os| == 1 then os[0].floor else Max(Highest(os[..|os| - 1]), os[|os| - 1].floor)
  }

  lemma {:induction false} HighestBounds(os: seq<Offer>, x: int)
    requires os != []
    ensures Highest(os) < x <==> forall k :: 0 <= k < |os| ==> os[k].floor < x
  {
    if |os| > 1 {
      HighestBounds(os[..|os| - 1], x);
      assert os == os[..|os| - 1] + [os[|os| - 1]];
    }
  }

  /** The highest cursor the evidence for a commit was selected above: the accepted offer, or the five refused ones. */
  ghost function EvidenceFloor(s: State): int
    requires Inv(s) && s.pc.Committing?
  {
    if s.pc.why.Accepted? then s.pc.offer.floor else Highest(s.counted)
  }

  lemma InBatch(s: State, o: Offer, m: Message)
    requires Sound(s, o) && m in s.inbox && m.no <= MaxSeq(o)
    ensures m in o.batch <==> o.floor < m.no
  {
  }

  ghost predicate InEach(counted: seq<Offer>, m: Message) {
    forall k :: 0 <= k < |counted| ==> m in counted[k].batch
  }

  lemma TailIsHandled(history: seq<Answer>, counted: seq<Offer>, m: Message)
    requires Tail(history, counted) && |counted| == REFUSAL_CAP
    ensures Handled(history, m) <==> InEach(counted, m)
  {
    var b := |history| - REFUSAL_CAP;
    assert history[b + (REFUSAL_CAP - 1)] == Answer(counted[REFUSAL_CAP - 1], false);
    if Handled(history, m) {
      forall k | 0 <= k < REFUSAL_CAP
        ensures m in counted[k].batch
      {
        assert history[b + k] == Answer(counted[k], false);
      }
    }
    if InEach(counted, m) {
      forall k | b <= k < |history|
        ensures !history[k].accepted && m in history[k].offer.batch
      {
        assert history[b + (k - b)] == Answer(counted[k - b], false);
      }
    }
  }

  lemma InEachAboveFloors(s: State, m: Message)
    requires CountOk(s) && s.counted != [] && m in s.inbox && m.no <= s.refMax
    ensures InEach(s.counted, m) <==> Highest(s.counted) < m.no
  {
    HighestBounds(s.counted, m.no);
    forall k | 0 <= k < |s.counted|
      ensures m in s.counted[k].batch <==> s.counted[k].floor < m.no
    {
      InBatch(s, s.counted[k], m);
    }
  }

  lemma PassedIsHandled(ss: seq<State>, es: seq<Event>, r: Renderer, i: nat, m: Message)
    requires IsRun(ss, es, r) && Init(ss[0]) && i <= |es| && Inv(ss[i]) && Passes(ss[i], m)
    ensures Handled(Answers(ss, es, i), m) <==> m.no > EvidenceFloor(ss[i])
  {
    var s, a := ss[i], Answers(ss, es, i);
    CountedIsHistory(ss, es, r, i);
    if s.pc.why.Accepted? {
      InBatch(s, s.pc.offer, m);
      assert a[|a| - 1].accepted;
    } else {
      TailIsHandled(a, s.counted, m);
      InEachAboveFloors(s, m);
    }
  }

  /** The offers a commit rests on were all selected after the last reset. */
  ghost predicate EvidenceCurrent(s: State)
    requires Inv(s) && s.pc.Committing?
  {
    if s.pc.why.Accepted? then s.pc.offer.era == s.era
    else forall k :: 0 <= k < |s.counted| ==> s.counted[k].era == s.era
  }

  lemma CurrentEvidenceBound(s: State)
    requires Inv(s) && s.pc.Committing? && EvidenceCurrent(s)
    ensures EvidenceFloor(s) <= s.cursor
  {
    if s.pc.why.Skipped? {
      HighestBounds(s.counted, s.cursor + 1);
      forall k | 0 <= k < |s.counted|
        ensures s.counted[k].floor <= s.cursor
      {
        assert Sound(s, s.counted[k]);
      }
    }
  }

  /** Main result. A write of the cursor passes only handled messages if and only if no unacked message sits between
      the cursor on disk and the floor the evidence was selected above. A reset since then is the only way to break
      that. */
  lemma CommitPassesOnlyHandled(ss: seq<State>, es: seq<Event>, r: Renderer, i: nat)
    requires IsRun(ss, es, r) && Init(ss[0]) && i < |es| && es[i].WriteOk?
    ensures Inv(ss[i]) && ss[i].pc.Committing?
    ensures (forall m :: Passes(ss[i], m) ==> Handled(Answers(ss, es, i), m))
            <==> (forall m :: Passes(ss[i], m) ==> m.no > EvidenceFloor(ss[i]))
    ensures EvidenceCurrent(ss[i]) ==> forall m :: Passes(ss[i], m) ==> Handled(Answers(ss, es, i), m)
    ensures NoReset(es, 0, i) ==> EvidenceCurrent(ss[i])
  {
    InvAlong(ss, es, r, i);
    var s := ss[i];
    forall m | Passes(s, m)
      ensures Handled(Answers(ss, es, i), m) <==> m.no > EvidenceFloor(s)
    {
      PassedIsHandled(ss, es, r, i, m);
    }
    if EvidenceCurrent(s) {
      CurrentEvidenceBound(s);
    }
    if NoReset(es, 0, i) {
      CursorNeverFalls(ss, es, r, 0, i);
      assert s.era == 0;
      assert forall k :: 0 <= k < |s.counted| ==> Sound(s, s.counted[k]);
    }
  }

  // ----- no message twice

  /** Nothing at or below `x` is selected any more. */
  ghost predicate Beyond(s: State, x: int) {
    && s.cursor >= x
    && (s.pc.Offered? ==> s.pc.offer.floor >= x)
    && (s.pc.Committing? ==> s.pc.offer.floor >= x)
  }

  lemma {:induction false} StaysBeyond(ss: seq<State>, es: seq<Event>, r: Renderer, i: nat, j: nat, x: int)
    requires IsRun(ss, es, r) && i <= j <= |es| && NoReset(es, i, j) && Beyond(ss[i], x)
    ensures Beyond(ss[j], x)
  {
    if i < j {
      StaysBeyond(ss, es, r, i, j - 1, x);
      assert !es[j - 1].HookReset?;
    }
  }

  /** A message of a committed batch, accepted or skipped, is not offered again before the next reset. */
  lemma CommittedIsNeverOfferedAgain(ss: seq<State>, es: seq<Event>, r: Renderer, i: nat, j: nat, m: Message)
    requires IsRun(ss, es, r) && Init(ss[0]) && i < j <= |es| && NoReset(es, i, j)
    requires es[i].WriteOk? && ss[i].pc.Committing? && m in ss[i].pc.offer.batch
    requires ss[j].pc.Offered?
    ensures forall n :: n in ss[j].pc.offer.batch ==> n.no > m.no
    ensures m !in ss[j].pc.offer.batch
  {
    InvAlong(ss, es, r, i);
    InvAlong(ss, es, r, j);
    var x := MaxSeq(ss[i].pc.offer);
    assert m.no <= x by {
      var k :| 0 <= k < |ss[i].pc.offer.batch| && ss[i].pc.offer.batch[k] == m;
    }
    StaysBeyond(ss, es, r, i + 1, j, x);
  }

  /** A message the hooks delivered (the cursor is past it) before the pump re-reads the cursor is not offered. */
  lemma DeliveredIsNotOffered(ss: seq<State>, es: seq<Event>, r: Renderer, i: nat)
    requires IsRun(ss, es, r) && Init(ss[0]) && i < |es| && es[i].Select? && ss[i + 1].pc.Offered?
    ensures forall m :: m in ss[i + 1].pc.offer.batch ==> m.no > ss[i].cursor
    ensures ss[i + 1].pc.offer.floor >= ss[i].cursor
  {
    InvAlong(ss, es, r, i);
    InvAlong(ss, es, r, i + 1);
    SelectKeeps(ss[i], r);
  }
}
