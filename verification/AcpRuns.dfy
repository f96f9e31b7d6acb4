/** What becomes of every delivery over a run of the ACP driver. */
module AcpRuns {
  import opened Options
  import opened AcpDriver

  /** Where a delivery is. */
  datatype Fate = Unborn | Flying | Waiting | Told(accepted: bool) | Lost

  ghost function FateAt(s: State, i: nat): Fate {
    if i in s.answers then Told(s.answers[i])
    else if i in s.dropped then Lost
    else if InFlight(s, i) then Flying
    else if AcpDriver.Queued(s, i) then Waiting
    else Unborn
  }

  /** What an event does to a delivery: a prompt answers what it carries, the next prompt carries what was queued, and
      only the end of the session loses anything. */
  function Moved(busy: bool, next: nat, i: nat, f: Fate, e: Event): Fate {
    match e
    case Submit(_) => if i != next then f else if busy then Waiting else Flying
    case PromptEnds(outcome) => if f.Flying? then Told(outcome.TurnEnded?) else f
    case FinishPrompt => if f.Waiting? then Flying else f
    case Shutdown => if f.Flying? || f.Waiting? then Lost else f
    case AgentCloses => if f.Waiting? then Lost else f
  }

  lemma MovedBySubmit(s: State, d: Delivery, i: nat)
    requires FateOk(s, i)
    ensures FateAt(SubmitStep(s, d), i) == Moved(s.prompt.Some?, |s.received|, i, FateAt(s, i), Submit(d))
  {
    FateAfterSubmit(s, d, i);
    var t, n := SubmitStep(s, d), |s.received|;
    if s.prompt.None? {
      assert t.prompt.value.batch.replies == [n];
    } else if s.queued.Some? {
      assert t.queued.value.replies == s.queued.value.replies + [n];
    } else {
      assert t.queued.value.replies == [n];
    }
  }

  lemma MovedByOther(s: State, e: Event, i: nat)
    requires Enabled(s, e) && !e.Submit? && FateOk(s, i)
    ensures FateAt(Apply(s, e), i) == Moved(s.prompt.Some?, |s.received|, i, FateAt(s, i), e)
  {
  }

  /** Over every run each event moves each delivery just so. */
  lemma FateMoves(ss: seq<State>, es: seq<Event>, k: nat, i: nat)
    requires IsRun(ss, es) && Init(ss[0]) && k < |es|
    ensures FateAt(ss[k + 1], i) == Moved(ss[k].prompt.Some?, |ss[k].received|, i, FateAt(ss[k], i), es[k])
  {
    InvAlong(ss, es, k);
    FateOf(ss[k], i);
    if es[k].Submit? {
      MovedBySubmit(ss[k], es[k].d, i);
    } else {
      MovedByOther(ss[k], es[k], i);
    }
  }

  // ----- what was received, and whether a prompt is in flight

  function Submitted(es: seq<Event>): seq<Delivery> {
    if es == [] then []
    else
      var e := es[|es| - 1];
      Submitted(es[..|es| - 1]) + if e.Submit? then [e.d] else []
  }

  lemma {:induction false} ReceivedIsSubmitted(ss: seq<State>, es: seq<Event>, k: nat)
    requires IsRun(ss, es) && Init(ss[0]) && k <= |es|
    ensures ss[k].received == Submitted(es[..k])
  {
    if k == 0 {
      assert es[..0] == [];
    } else {
      ReceivedIsSubmitted(ss, es, k - 1);
      assert es[..k][..k - 1] == es[..k - 1];
    }
  }

  /** A prompt is launched exactly by a delivery to an idle session and by the end of a prompt with a batch queued, and
      a session is idle again exactly when a prompt ends with nothing queued, or at a shutdown. */
  lemma PromptComesAndGoes(ss: seq<State>, es: seq<Event>, k: nat)
    requires IsRun(ss, es) && Init(ss[0]) && k < |es|
    ensures ss[k + 1].prompt.Some? <==>
            match es[k]
            case Submit(_) => true
            case FinishPrompt => ss[k].queued.Some?
            case Shutdown => false
            case PromptEnds(_) => true
            case AgentCloses => ss[k].prompt.Some?
    ensures ss[k + 1].launched == ss[k].launched +
              (if (es[k].Submit? && ss[k].prompt.None?) || (es[k].FinishPrompt? && ss[k].queued.Some?) then 1 else 0)
    ensures ss[k + 1].open == (ss[k].open && !es[k].Shutdown? && !es[k].AgentCloses?)
    ensures ss[k + 1].turns == ss[k].turns +
              if es[k].PromptEnds? && ss[k].prompt.Some? then [Turn(ss[k].prompt.value.batch, es[k].outcome)] else []
  {
  }

  // ----- nothing is lost while the session is open

  predicate Ends(e: Event) { e.Shutdown? || e.AgentCloses? }

  lemma {:induction false} LostOnlyAtTheEnd(ss: seq<State>, es: seq<Event>, k: nat, i: nat)
    requires IsRun(ss, es) && Init(ss[0]) && k <= |es| && FateAt(ss[k], i).Lost?
    ensures exists n :: 0 <= n < k && Ends(es[n])
  {
    if k > 0 {
      FateMoves(ss, es, k - 1, i);
      if FateAt(ss[k - 1], i).Lost? {
        LostOnlyAtTheEnd(ss, es, k - 1, i);
        var n :| 0 <= n < k - 1 && Ends(es[n]);
        assert 0 <= n < k;
      } else {
        assert Ends(es[k - 1]);
      }
    }
  }

  lemma {:induction false} OpenUntilTheEnd(ss: seq<State>, es: seq<Event>, k: nat)
    requires IsRun(ss, es) && Init(ss[0]) && k <= |es|
    ensures ss[k].open <==> forall n :: 0 <= n < k ==> !Ends(es[n])
  {
    if k > 0 {
      OpenUntilTheEnd(ss, es, k - 1);
      PromptComesAndGoes(ss, es, k - 1);
    }
  }

  /** While the session is open no reply is dropped: every delivery is in flight, queued, or answered by a turn that
      carried it. */
  lemma OpenLosesNothing(ss: seq<State>, es: seq<Event>, k: nat, i: nat)
    requires IsRun(ss, es) && Init(ss[0]) && k <= |es| && ss[k].open
    ensures ss[k].dropped == {}
    ensures i < |ss[k].received| ==>
              || FateAt(ss[k], i).Flying? || FateAt(ss[k], i).Waiting?
              || (FateAt(ss[k], i).Told? && exists n: nat :: AnsweredBy(ss[k], i, n))
  {
    OpenUntilTheEnd(ss, es, k);
    InvAlong(ss, es, k);
    forall d: nat
      ensures d !in ss[k].dropped
    {
      FateOf(ss[k], d);
      if FateAt(ss[k], d).Lost? {
        LostOnlyAtTheEnd(ss, es, k, d);
      }
    }
    FateOf(ss[k], i);
  }

  // ----- and everything can be answered

  /** A delivery in flight is answered when its prompt ends, and a queued one when the next prompt does: at most three
      steps of the driver away. */
  lemma AnswerIsNear(s: State, i: nat, outcome: Outcome) returns (es: seq<Event>, t: State)
    requires Inv(s) && s.open && (FateAt(s, i).Flying? || FateAt(s, i).Waiting?)
    ensures |es| <= 3 && Follows(s, es, t) && FateAt(t, i) == Told(outcome.TurnEnded?)
    ensures forall k :: 0 <= k < |es| ==> es[k].PromptEnds? || es[k].FinishPrompt?
  {
    FateOf(s, i);
    if FateAt(s, i).Flying? {
      MovedByOther(s, PromptEnds(outcome), i);
      es, t := [PromptEnds(outcome)], Apply(s, PromptEnds(outcome));
    } else {
      var u, head := s, [];
      if !s.prompt.value.answered {
        MovedByOther(s, PromptEnds(outcome), i);
        StepKeeps(s, PromptEnds(outcome));
        u, head := Apply(s, PromptEnds(outcome)), [PromptEnds(outcome)];
        FateOf(u, i);
      }
      MovedByOther(u, FinishPrompt, i);
      StepKeeps(u, FinishPrompt);
      var v := Apply(u, FinishPrompt);
      FateOf(v, i);
      MovedByOther(v, PromptEnds(outcome), i);
      t := Apply(v, PromptEnds(outcome));
      es := head + [FinishPrompt, PromptEnds(outcome)];
      FollowsTwo(u, FinishPrompt, PromptEnds(outcome));
      if head == [] {
        assert es == [FinishPrompt, PromptEnds(outcome)];
      } else {
        assert es[1..] == [FinishPrompt, PromptEnds(outcome)];
      }
    }
  }

  ghost predicate Follows(s: State, es: seq<Event>, t: State)
    decreases |es|
  {
    if es == [] then s == t else Enabled(s, es[0]) && Follows(Apply(s, es[0]), es[1..], t)
  }

  lemma FollowsTwo(s: State, e: Event, f: Event)
    requires Enabled(s, e) && Enabled(Apply(s, e), f)
    ensures Follows(s, [e, f], Apply(Apply(s, e), f))
  {
    assert [e, f][1..] == [f] && [f][1..] == [];
  }
}
