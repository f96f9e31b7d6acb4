/** What the pump hears of its offers over every run of pump and driver together, and that every offer can be heard. */
module BridgeRuns {
  import opened Options
  import opened Inbox
  import P = Pump
  import Drain = PumpDrain
  import D = AcpDriver
  import A = AcpRuns
  import opened Bridge

  // ----- the driver's half of a run is a run of the driver

  ghost function DriverHalf(w: World, e: Event): Option<D.Event>
    requires Enabled(w, e)
  {
    match e
    case HandOver => Some(D.Submit(ToDelivery(w.pump.pc.offer)))
    case DriverStep(d) => Some(d)
    case _ => None
  }

  lemma DriverHalfSteps(w: World, e: Event, r: P.Renderer)
    requires Enabled(w, e)
    ensures match DriverHalf(w, e)
            case Some(d) => D.Enabled(w.driver, d) && Apply(w, e, r).driver == D.Apply(w.driver, d)
            case None => Apply(w, e, r).driver == w.driver
  {
  }

  lemma ExtendDriver(ds: seq<D.State>, fs: seq<D.Event>, d: D.Event, t: D.State)
    requires D.IsRun(ds, fs) && D.Enabled(ds[|fs|], d) && t == D.Apply(ds[|fs|], d)
    ensures D.IsRun(ds + [t], fs + [d])
  {
    var all, evs := ds + [t], fs + [d];
    forall i | 0 <= i < |evs|
      ensures D.Enabled(all[i], evs[i]) && all[i + 1] == D.Apply(all[i], evs[i])
    {
      assert i < |fs| ==> all[i] == ds[i] && all[i + 1] == ds[i + 1] && evs[i] == fs[i];
    }
  }

  lemma {:induction false} DriverHalfRuns(ws: seq<World>, es: seq<Event>, r: P.Renderer, i: nat)
    returns (ds: seq<D.State>, fs: seq<D.Event>)
    requires IsRun(ws, es, r) && i <= |es|
    ensures D.IsRun(ds, fs) && ds[0] == ws[0].driver && ds[|fs|] == ws[i].driver && |fs| <= i
  {
    if i == 0 {
      ds, fs := [ws[0].driver], [];
    } else {
      var w, e := ws[i - 1], es[i - 1];
      ds, fs := DriverHalfRuns(ws, es, r, i - 1);
      DriverHalfSteps(w, e, r);
      assert ws[i] == Apply(w, e, r);
      if DriverHalf(w, e).Some? {
        ExtendDriver(ds, fs, DriverHalf(w, e).value, ws[i].driver);
        ds, fs := ds + [ws[i].driver], fs + [DriverHalf(w, e).value];
      }
    }
  }

  // ----- what the pump hears

  /** Turn `n` carried delivery `k` and did not end as a turn does. */
  ghost predicate TurnFailed(s: D.State, k: nat, n: nat) {
    n < |s.turns| && k in s.turns[n].batch.replies && !s.turns[n].outcome.TurnEnded?
  }

  /** Nobody will take the offer: its delivery never reached the driver, was dropped, or went into a failed turn. */
  ghost predicate NotTaken(w: World) {
    || (w.link.InChannel? && !w.driver.open)
    || (w.link.Given? && (w.link.reply in w.driver.dropped || exists n :: TurnFailed(w.driver, w.link.reply, n)))
  }

  lemma AnswerIsTurn(s: D.State, k: nat)
    requires D.Inv(s) && k in s.answers
    ensures s.answers[k] ==> exists n :: D.Delivered(s, k, n)
    ensures !s.answers[k] ==> exists n :: TurnFailed(s, k, n)
  {
    var n: nat :| D.AnsweredBy(s, k, n);
    if s.answers[k] {
      D.TrueAnswerWasDelivered(s, k, n);
    } else {
      assert TurnFailed(s, k, n);
    }
  }

  /** Over every run, when the pump hears of its offer it is accepted exactly if the driver's answer was true, and then
      a turn that carried its text ended; it is refused only if nobody will take it. */
  lemma HearsTheTurn(ws: seq<World>, es: seq<Event>, r: P.Renderer, i: nat)
    requires IsRun(ws, es, r) && Init(ws[0]) && i < |es| && es[i].Hear?
    ensures ws[i].pump.pc.Offered? && !ws[i + 1].pump.pc.Offered? && ws[i + 1].link == Idle
    ensures var taken := ws[i + 1].pump == P.AcceptStep(ws[i].pump);
            && (taken || ws[i + 1].pump == P.RefuseStep(ws[i].pump))
            && (taken ==> ws[i].link.Given? && exists n :: D.Delivered(ws[i].driver, ws[i].link.reply, n))
            && (taken ==> ws[i + 1].taken == Some(ws[i].link.reply))
            && (!taken ==> NotTaken(ws[i]))
  {
    InvAlong(ws, es, r, i);
    var w := ws[i];
    assert Enabled(w, es[i]) && ws[i + 1] == Apply(w, es[i], r);
    if w.link.Given? && w.link.reply in w.driver.answers {
      AnswerIsTurn(w.driver, w.link.reply);
    }
  }

  /** The offer is with the driver, as its delivery `k`. */
  ghost predicate With(w: World, o: P.Offer, k: nat) {
    w.link == Given(k) && w.pump.pc == P.Offered(o)
  }

  lemma StaysWith(w: World, e: Event, r: P.Renderer, o: P.Offer, k: nat)
    requires Enabled(w, e) && With(w, o, k) && !e.Hear? && e != PumpStep(P.Shutdown)
    ensures With(Apply(w, e, r), o, k) && !e.HandOver?
  {
  }

  /** An offer is handed to the driver once, as its next delivery, and stays with it until it is heard. */
  lemma {:induction false} HandedOverOnce(ws: seq<World>, es: seq<Event>, r: P.Renderer, i: nat, j: nat)
    requires IsRun(ws, es, r) && i < j <= |es| && es[i].HandOver? && ws[i].pump.pc.Offered?
    requires forall n :: i < n < j ==> !es[n].Hear? && es[n] != PumpStep(P.Shutdown)
    ensures With(ws[j], ws[i].pump.pc.offer, |ws[i].driver.received|)
    ensures forall n :: i < n < j ==> !es[n].HandOver?
  {
    var k := j - 1;
    assert Enabled(ws[k], es[k]) && ws[j] == Apply(ws[k], es[k], r);
    if i < k {
      HandedOverOnce(ws, es, r, i, k);
      StaysWith(ws[k], es[k], r, ws[i].pump.pc.offer, |ws[i].driver.received|);
    }
  }

  // ----- and can always come to hear

  ghost predicate Ok(w: World, r: P.Renderer) { LinkOk(w, r) && D.Inv(w.driver) }

  ghost predicate Leads(w: World, es: seq<Event>, v: World, r: P.Renderer)
    decreases |es|
  {
    if es == [] then w == v else Enabled(w, es[0]) && Leads(Apply(w, es[0], r), es[1..], v, r)
  }

  lemma {:induction false} LeadsJoin(w: World, es: seq<Event>, v: World, fs: seq<Event>, u: World, r: P.Renderer)
    requires Leads(w, es, v, r) && Leads(v, fs, u, r)
    ensures Leads(w, es + fs, u, r)
    decreases |es|
  {
    if es == [] {
      assert es + fs == fs;
    } else {
      LeadsJoin(Apply(w, es[0], r), es[1..], v, fs, u, r);
      assert (es + fs)[1..] == es[1..] + fs && (es + fs)[0] == es[0];
    }
  }

  lemma LeadsOne(w: World, e: Event, r: P.Renderer)
    requires Enabled(w, e)
    ensures Leads(w, [e], Apply(w, e, r), r)
  {
    assert Leads(Apply(w, e, r), [], Apply(w, e, r), r) && [e][1..] == [];
  }

  function Lifted(ds: seq<D.Event>): seq<Event> {
    seq(|ds|, i requires 0 <= i < |ds| => DriverStep(ds[i]))
  }

  lemma DriverAlone(w: World, d: D.Event, r: P.Renderer)
    requires D.Enabled(w.driver, d) && !d.Submit?
    ensures Enabled(w, DriverStep(d)) && Apply(w, DriverStep(d), r) == w.(driver := D.Apply(w.driver, d))
  {
  }

  lemma {:induction false} DriverLeads(w: World, ds: seq<D.Event>, t: D.State, r: P.Renderer)
    requires A.Follows(w.driver, ds, t) && forall k :: 0 <= k < |ds| ==> !ds[k].Submit?
    ensures Leads(w, Lifted(ds), w.(driver := t), r)
    decreases |ds|
  {
    if ds != [] {
      DriverAlone(w, ds[0], r);
      DriverLeads(w.(driver := D.Apply(w.driver, ds[0])), ds[1..], t, r);
      assert Lifted(ds)[1..] == Lifted(ds[1..]);
    }
  }

  /** The driver has the delivery and has not said what came of it. */
  ghost predicate Open(w: World) {
    w.link.Given? && w.link.reply !in w.driver.answers && w.link.reply !in w.driver.dropped
  }

  lemma Undecided(s: D.State, k: nat)
    requires D.Inv(s) && k < |s.received| && k !in s.answers && k !in s.dropped
    ensures A.FateAt(s, k).Flying? || A.FateAt(s, k).Waiting?
    ensures !s.open ==> s.prompt.Some? && !s.prompt.value.answered && k in s.prompt.value.batch.replies
  {
    assert D.ExactlyOneFate(s, k);
  }

  lemma LastPromptAnswers(s: D.State, k: nat, outcome: D.Outcome)
    requires s.prompt.Some? && !s.prompt.value.answered && k in s.prompt.value.batch.replies
    ensures D.Enabled(s, D.PromptEnds(outcome)) && k in D.EndStep(s, outcome).answers
    ensures D.EndStep(s, outcome).answers[k] == outcome.TurnEnded?
    ensures A.Follows(s, [D.PromptEnds(outcome)], D.EndStep(s, outcome))
  {
    var e, t := D.PromptEnds(outcome), D.EndStep(s, outcome);
    assert A.Follows(t, [], t) && [e][1..] == [];
  }

  lemma AnswerComes(s: D.State, k: nat, outcome: D.Outcome) returns (ds: seq<D.Event>, t: D.State)
    requires D.Inv(s) && k < |s.received| && k !in s.answers && k !in s.dropped
    ensures A.Follows(s, ds, t) && |ds| <= 3 && k in t.answers && t.answers[k] == outcome.TurnEnded?
    ensures forall n :: 0 <= n < |ds| ==> !ds[n].Submit?
  {
    Undecided(s, k);
    if s.open {
      ds, t := A.AnswerIsNear(s, k, outcome);
    } else {
      LastPromptAnswers(s, k, outcome);
      ds, t := [D.PromptEnds(outcome)], D.EndStep(s, outcome);
    }
  }

  lemma GivenIsAnswered(w: World, r: P.Renderer, outcome: D.Outcome) returns (es: seq<Event>, v: World)
    requires Ok(w, r) && w.pump.pc.Offered? && Open(w)
    ensures Leads(w, es, v, r) && |es| <= 3 && v.pump == w.pump && v.link == w.link
    ensures w.link.reply in v.driver.answers && v.driver.answers[w.link.reply] == outcome.TurnEnded?
  {
    var ds, t := AnswerComes(w.driver, w.link.reply, outcome);
    DriverLeads(w, ds, t, r);
    es, v := Lifted(ds), w.(driver := t);
  }

  lemma HearOne(w: World, r: P.Renderer)
    requires w.pump.pc.Offered? && Heard(w)
    ensures Enabled(w, Hear) && !Apply(w, Hear, r).pump.pc.Offered?
    ensures Apply(w, Hear, r).driver == w.driver
    ensures Apply(w, Hear, r).pump == if HeardTrue(w) then P.AcceptStep(w.pump) else P.RefuseStep(w.pump)
  {
  }

  /** An offer the driver has is heard after at most three of the driver's steps, as the agent's turn then ends. */
  lemma GivenIsHeard(w: World, r: P.Renderer, outcome: D.Outcome) returns (es: seq<Event>, v: World)
    requires Ok(w, r) && w.pump.pc.Offered? && w.link.Given?
    ensures Leads(w, es, v, r) && |es| <= 4 && !v.pump.pc.Offered?
    ensures Open(w) ==> v.pump == if outcome.TurnEnded? then P.AcceptStep(w.pump) else P.RefuseStep(w.pump)
  {
    var u, fs := w, [];
    if Open(w) {
      fs, u := GivenIsAnswered(w, r, outcome);
    }
    HearOne(u, r);
    LeadsOne(u, Hear, r);
    v := Apply(u, Hear, r);
    if Open(w) {
      LeadsJoin(w, fs, u, [Hear], v, r);
      es := fs + [Hear];
    } else {
      es := [Hear];
    }
  }

  lemma HandOverOne(w: World, r: P.Renderer)
    requires Ok(w, r) && w.pump.pc.Offered? && w.link.InChannel? && w.driver.open
    ensures Enabled(w, HandOver)
    ensures var v := Apply(w, HandOver, r); Ok(v, r) && Open(v) && v.pump == w.pump
  {
    var n := |w.driver.received|;
    D.FateOf(w.driver, n);
    StepKeeps(w, HandOver, r);
  }

  /** In every reachable world an offer can be heard within five steps of channel, driver and agent; while the driver is
      open and has said nothing, it is accepted exactly if the agent's turn ends well. */
  lemma OfferIsHeard(w: World, r: P.Renderer, outcome: D.Outcome) returns (es: seq<Event>, v: World)
    requires Ok(w, r) && w.pump.pc.Offered?
    ensures Leads(w, es, v, r) && |es| <= 5 && !v.pump.pc.Offered?
    ensures (w.link.InChannel? && w.driver.open) || Open(w) ==>
              v.pump == if outcome.TurnEnded? then P.AcceptStep(w.pump) else P.RefuseStep(w.pump)
  {
    if w.link.Given? {
      es, v := GivenIsHeard(w, r, outcome);
    } else if w.driver.open {
      HandOverOne(w, r);
      LeadsOne(w, HandOver, r);
      var u := Apply(w, HandOver, r);
      var fs;
      fs, v := GivenIsHeard(u, r, outcome);
      LeadsJoin(w, [HandOver], u, fs, v, r);
      es := [HandOver] + fs;
    } else {
      HearOne(w, r);
      LeadsOne(w, Hear, r);
      es, v := [Hear], Apply(w, Hear, r);
    }
  }

  // ----- so messages get through

  lemma {:induction false} LeadsKeeps(w: World, es: seq<Event>, v: World, r: P.Renderer)
    requires Ok(w, r) && Leads(w, es, v, r)
    ensures Ok(v, r)
    decreases |es|
  {
    if es != [] {
      StepKeeps(w, es[0], r);
      LeadsKeeps(Apply(w, es[0], r), es[1..], v, r);
    }
  }

  lemma TakenAt(w: World, r: P.Renderer)
    requires Ok(w, r) && w.pump.pc.Committing? && w.pump.pc.why.Accepted?
    ensures AgentTook(w, w.pump.pc.offer, r)
  {
    var k := w.taken.value;
    AnswerIsTurn(w.driver, k);
    var n :| D.Delivered(w.driver, k, n);
    assert CarriedAs(w, w.pump.pc.offer, k);
  }

  lemma PumpOne(w: World, p: P.Event, r: P.Renderer)
    requires P.Enabled(w.pump, p) && !p.Accept? && !p.Refuse?
    ensures Enabled(w, PumpStep(p))
    ensures var v := Apply(w, PumpStep(p), r); v.pump == P.Apply(w.pump, p, r) && v.driver == w.driver
    ensures Leads(w, [PumpStep(p)], Apply(w, PumpStep(p), r), r)
  {
    LeadsOne(w, PumpStep(p), r);
  }

  /** From the top of its loop the pump makes its offer in three steps. */
  lemma OfferIsMade(w: World, r: P.Renderer) returns (es: seq<Event>, v: World)
    requires Drain.ShowsSome(r) && Ok(w, r) && P.InboxOk(w.pump) && w.pump.pc.Top?
    requires Above(w.pump.inbox, w.pump.cursor) != []
    ensures Leads(w, es, v, r) && |es| == 3 && v.driver == w.driver && Ok(v, r)
    ensures v.pump == Drain.OfferAt(w.pump, r) && v.link.InChannel?
  {
    var ss := Drain.Round(w.pump, r);
    var qs := Drain.RoundEvents(w.pump);
    assert P.Enabled(ss[0], qs[0]) && ss[1] == P.Apply(ss[0], qs[0], r);
    assert P.Enabled(ss[1], qs[1]) && ss[2] == P.Apply(ss[1], qs[1], r);
    assert P.Enabled(ss[2], qs[2]) && ss[3] == P.Apply(ss[2], qs[2], r);
    PumpOne(w, qs[0], r);
    var a := Apply(w, PumpStep(qs[0]), r);
    PumpOne(a, qs[1], r);
    var b := Apply(a, PumpStep(qs[1]), r);
    PumpOne(b, qs[2], r);
    v := Apply(b, PumpStep(qs[2]), r);
    LeadsJoin(a, [PumpStep(qs[1])], b, [PumpStep(qs[2])], v, r);
    LeadsJoin(w, [PumpStep(qs[0])], a, [PumpStep(qs[1])] + [PumpStep(qs[2])], v, r);
    es := [PumpStep(qs[0])] + ([PumpStep(qs[1])] + [PumpStep(qs[2])]);
    LeadsKeeps(w, es, v, r);
  }

  /** With unread messages and an open driver, nine steps at most take the pump from the top of its loop back to it,
      with the next batch in a turn the agent ended and the cursor past it. */
  lemma BatchGetsThrough(w: World, r: P.Renderer) returns (es: seq<Event>, v: World)
    requires Drain.ShowsSome(r) && Ok(w, r) && Drain.Settled(w.pump, r) && w.pump.pc.Top? && w.driver.open
    requires Above(w.pump.inbox, w.pump.cursor) != []
    ensures Leads(w, es, v, r) && |es| <= 9 && v.pump.pc.Top? && v.pump.inbox == w.pump.inbox
    ensures |Above(v.pump.inbox, v.pump.cursor)| < |Above(w.pump.inbox, w.pump.cursor)|
    ensures AgentTook(v, Drain.OfferAt(w.pump, r).pc.offer, r)
  {
    Drain.ServedSettles(w.pump, r);
    var fs, a := OfferIsMade(w, r);
    var gs, b := OfferIsHeard(a, r, D.TurnEnded);
    LeadsKeeps(a, gs, b, r);
    TakenAt(b, r);
    PumpOne(b, P.WriteOk, r);
    v := Apply(b, PumpStep(P.WriteOk), r);
    var o := b.pump.pc.offer;
    var i: nat, k: nat :| CarriedAs(b, o, i) && D.Delivered(b.driver, i, k) && Rendered(o, r);
    assert CarriedAs(v, o, i) && D.Delivered(v.driver, i, k);
    LeadsJoin(a, gs, b, [PumpStep(P.WriteOk)], v, r);
    LeadsJoin(w, fs, a, gs + [PumpStep(P.WriteOk)], v, r);
    es := fs + (gs + [PumpStep(P.WriteOk)]);
  }
}
