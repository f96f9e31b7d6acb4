/** The pump and the ACP driver together: one delivery travels from the pump through the channel to the driver and its
    reply comes back, while hooks move the cursor and the agent ends, cancels or fails its turns. */
module Bridge {
  import opened Options
  import opened Inbox
  import opened Numbers
  import P = Pump
  import R = PumpRuns
  import D = AcpDriver

  /** Where the pump's one outstanding delivery is. */
  datatype Link = Idle | InChannel | Given(reply: nat)

  /** `taken` is history: the reply whose `true` the pump last heard. */
  datatype World = World(pump: P.State, driver: D.State, link: Link, taken: Option<nat>)

  datatype Event =
    | PumpStep(p: P.Event)
    | HandOver
    | DriverStep(d: D.Event)
    | Hear

  function ToDelivery(o: P.Offer): D.Delivery
    requires o.batch != []
  {
    D.Delivery(o.text, P.MaxSeq(o), |o.batch|)
  }

  predicate Heard(w: World) {
    match w.link
    case Idle => false
    case InChannel => !w.driver.open
    case Given(i) => i in w.driver.answers || i in w.driver.dropped
  }

  predicate HeardTrue(w: World) {
    w.link.Given? && w.link.reply in w.driver.answers && w.driver.answers[w.link.reply]
  }

  /** The pump's half of an event. The driver's own steps are an advance of the cursor to where it already is. */
  function PumpHalf(w: World, e: Event): P.Event {
    match e
    case PumpStep(p) => p
    case HandOver => P.HookAdvance(w.pump.cursor)
    case DriverStep(_) => P.HookAdvance(w.pump.cursor)
    case Hear => if HeardTrue(w) then P.Accept else P.Refuse
  }

  ghost predicate Enabled(w: World, e: Event) {
    && P.Enabled(w.pump, PumpHalf(w, e))
    && match e
       case PumpStep(p) => !p.Accept? && !p.Refuse?
       case HandOver => w.link.InChannel? && w.driver.open && w.pump.pc.Offered? && w.pump.pc.offer.batch != []
       case DriverStep(d) => !d.Submit? && D.Enabled(w.driver, d)
       case Hear => w.pump.pc.Offered? && Heard(w)
  }

  function Apply(w: World, e: Event, r: P.Renderer): World
    requires Enabled(w, e)
  {
    var pump := P.Apply(w.pump, PumpHalf(w, e), r);
    match e
    case PumpStep(p) =>
      var link := if p.Select? && pump.pc.Offered? then InChannel else if p.Shutdown? then Idle else w.link;
      w.(pump := pump, link := link)
    case HandOver =>
      var driver := D.SubmitStep(w.driver, ToDelivery(w.pump.pc.offer));
      w.(pump := pump, driver := driver, link := Given(|w.driver.received|))
    case DriverStep(d) => w.(pump := pump, driver := D.Apply(w.driver, d))
    case Hear => w.(pump := pump, link := Idle, taken := if HeardTrue(w) then Some(w.link.reply) else w.taken)
  }

  ghost predicate IsRun(ws: seq<World>, es: seq<Event>, r: P.Renderer) {
    && |ws| == |es| + 1
    && forall i :: 0 <= i < |es| ==> Enabled(ws[i], es[i]) && ws[i + 1] == Apply(ws[i], es[i], r)
  }

  ghost predicate Init(w: World) {
    P.Init(w.pump) && D.Init(w.driver) && w.link == Idle && w.taken.None?
  }

  // ----- the pump's half of a run is a run of the pump

  ghost function PumpStates(ws: seq<World>): seq<P.State> {
    seq(|ws|, i requires 0 <= i < |ws| => ws[i].pump)
  }

  ghost function PumpEvents(ws: seq<World>, es: seq<Event>): seq<P.Event>
    requires |ws| == |es| + 1
  {
    seq(|es|, i requires 0 <= i < |es| => PumpHalf(ws[i], es[i]))
  }

  lemma PumpHalfRuns(ws: seq<World>, es: seq<Event>, r: P.Renderer)
    requires IsRun(ws, es, r)
    ensures P.IsRun(PumpStates(ws), PumpEvents(ws, es), r)
  {
    var ps, qs := PumpStates(ws), PumpEvents(ws, es);
    forall i | 0 <= i < |qs|
      ensures P.Enabled(ps[i], qs[i]) && ps[i + 1] == P.Apply(ps[i], qs[i], r)
    {
      assert Enabled(ws[i], es[i]) && ws[i + 1] == Apply(ws[i], es[i], r);
    }
  }

  // ----- the invariant

  /** The offer's prompt is the rendering of the messages it shows and those it leaves out. */
  ghost predicate Rendered(o: P.Offer, r: P.Renderer) {
    o.batch != [] && |o.batch| == r.shown(o.batch + o.unshown) && o.text == r.text(o.batch + o.unshown)
  }

  ghost predicate CarriedAs(w: World, o: P.Offer, i: nat) {
    o.batch != [] && i < |w.driver.received| && w.driver.received[i] == ToDelivery(o)
  }

  ghost predicate LinkOk(w: World, r: P.Renderer) {
    && (w.link.Idle? <==> !w.pump.pc.Offered?)
    && (w.pump.pc.Offered? ==> Rendered(w.pump.pc.offer, r))
    && (w.link.Given? ==> CarriedAs(w, w.pump.pc.offer, w.link.reply))
    && (w.pump.pc.Committing? ==> Rendered(w.pump.pc.offer, r))
    && (w.pump.pc.Committing? && w.pump.pc.why.Accepted? ==>
         && w.taken.Some? && CarriedAs(w, w.pump.pc.offer, w.taken.value)
         && w.taken.value in w.driver.answers && w.driver.answers[w.taken.value])
  }

  lemma ReceivedGrows(s: D.State, e: D.Event)
    requires D.Enabled(s, e)
    ensures s.received <= D.Apply(s, e).received
  {
  }

  lemma DriverKeepsAnswer(s: D.State, e: D.Event, i: nat)
    requires D.Enabled(s, e) && (i in s.answers ==> !D.InFlight(s, i))
    ensures i in s.answers ==> i in D.Apply(s, e).answers && D.Apply(s, e).answers[i] == s.answers[i]
  {
    if i in s.answers {
      D.AnswerKept(s, e, i);
    }
  }

  lemma SelectRenders(s: P.State, r: P.Renderer)
    requires s.pc.Fetched?
    ensures var t := P.SelectStep(s, r); t.pc.Offered? ==> Rendered(t.pc.offer, r)
  {
    var t := P.SelectStep(s, r);
    if t.pc.Offered? {
      var news := Fresh(s.pc.raws, Max(s.pc.after, s.cursor));
      assert t.pc.offer.batch + t.pc.offer.unshown == news;
    }
  }

  lemma PumpStepKeepsLink(w: World, p: P.Event, r: P.Renderer)
    requires LinkOk(w, r) && Enabled(w, PumpStep(p))
    ensures LinkOk(Apply(w, PumpStep(p), r), r)
  {
    if p.Select? {
      SelectRenders(w.pump, r);
    }
  }

  lemma DriverStepKeepsLink(w: World, d: D.Event, r: P.Renderer)
    requires LinkOk(w, r) && Enabled(w, DriverStep(d))
    requires w.taken.Some? && w.taken.value in w.driver.answers ==> !D.InFlight(w.driver, w.taken.value)
    ensures LinkOk(Apply(w, DriverStep(d), r), r)
  {
    ReceivedGrows(w.driver, d);
    if w.taken.Some? {
      DriverKeepsAnswer(w.driver, d, w.taken.value);
    }
  }

  lemma HandOverKeepsLink(w: World, r: P.Renderer)
    requires LinkOk(w, r) && Enabled(w, HandOver)
    ensures LinkOk(Apply(w, HandOver, r), r)
  {
    var d := ToDelivery(w.pump.pc.offer);
    assert D.SubmitStep(w.driver, d).received == w.driver.received + [d];
  }

  lemma HearKeepsLink(w: World, r: P.Renderer)
    requires LinkOk(w, r) && Enabled(w, Hear)
    ensures LinkOk(Apply(w, Hear, r), r)
  {
  }

  lemma StepKeepsDriver(w: World, e: Event, r: P.Renderer)
    requires D.Inv(w.driver) && Enabled(w, e)
    ensures D.Inv(Apply(w, e, r).driver)
  {
    match e
    case HandOver => D.StepKeeps(w.driver, D.Submit(ToDelivery(w.pump.pc.offer)));
    case DriverStep(d) => D.StepKeeps(w.driver, d);
    case PumpStep(p) =>
    case Hear =>
  }

  lemma StepKeepsLink(w: World, e: Event, r: P.Renderer)
    requires LinkOk(w, r) && Enabled(w, e)
    requires w.taken.Some? && w.taken.value in w.driver.answers ==> !D.InFlight(w.driver, w.taken.value)
    ensures LinkOk(Apply(w, e, r), r)
  {
    match e
    case PumpStep(p) => PumpStepKeepsLink(w, p, r);
    case HandOver => HandOverKeepsLink(w, r);
    case DriverStep(d) => DriverStepKeepsLink(w, d, r);
    case Hear => HearKeepsLink(w, r);
  }

  lemma StepKeeps(w: World, e: Event, r: P.Renderer)
    requires LinkOk(w, r) && D.Inv(w.driver) && Enabled(w, e)
    ensures LinkOk(Apply(w, e, r), r) && D.Inv(Apply(w, e, r).driver)
  {
    StepKeepsDriver(w, e, r);
    if w.taken.Some? && w.taken.value in w.driver.answers {
      D.FateOf(w.driver, w.taken.value);
    }
    StepKeepsLink(w, e, r);
  }

  lemma {:induction false} InvAlong(ws: seq<World>, es: seq<Event>, r: P.Renderer, i: nat)
    requires IsRun(ws, es, r) && Init(ws[0]) && i <= |es|
    ensures LinkOk(ws[i], r) && D.Inv(ws[i].driver)
  {
    if i > 0 {
      InvAlong(ws, es, r, i - 1);
      StepKeeps(ws[i - 1], es[i - 1], r);
    }
  }

  // ----- the main result

  /** A turn of the agent ended, neither cancelled nor failed, whose prompt held the rendering of `o`. */
  ghost predicate AgentTook(w: World, o: P.Offer, r: P.Renderer) {
    exists i: nat, k: nat :: CarriedAs(w, o, i) && D.Delivered(w.driver, i, k) && Rendered(o, r)
  }

  lemma AcceptedWasTaken(ws: seq<World>, es: seq<Event>, r: P.Renderer, i: nat)
    requires IsRun(ws, es, r) && Init(ws[0]) && i <= |es|
    requires ws[i].pump.pc.Committing? && ws[i].pump.pc.why.Accepted?
    ensures AgentTook(ws[i], ws[i].pump.pc.offer, r)
  {
    InvAlong(ws, es, r, i);
    var w := ws[i];
    var d := w.taken.value;
    var k: nat :| D.AnsweredBy(w.driver, d, k);
    D.TrueAnswerWasDelivered(w.driver, d, k);
    assert CarriedAs(w, w.pump.pc.offer, d) && D.Delivered(w.driver, d, k);
  }

  ghost predicate Untouched(es: seq<Event>, i: nat) {
    forall k :: 0 <= k < i && k < |es| ==> es[k] != PumpStep(P.HookReset)
  }

  lemma UntouchedHalf(ws: seq<World>, es: seq<Event>, i: nat)
    requires |ws| == |es| + 1 && i <= |es| && Untouched(es, i)
    ensures R.NoReset(PumpEvents(ws, es), 0, i)
  {
  }

  /** A turn of the agent carried `m` and ended, or `m` was refused in each of the last five offers. */
  ghost predicate Evidence(ws: seq<World>, es: seq<Event>, r: P.Renderer, i: nat, m: Message)
    requires |ws| == |es| + 1 && i < |es| && ws[i].pump.pc.Committing?
  {
    var s := ws[i].pump;
    if s.pc.why.Accepted? then m in s.pc.offer.batch && AgentTook(ws[i], s.pc.offer, r)
    else R.Handled(R.Answers(PumpStates(ws), PumpEvents(ws, es), i), m)
  }

  lemma PassedHasEvidence(ws: seq<World>, es: seq<Event>, r: P.Renderer, i: nat, m: Message)
    requires IsRun(ws, es, r) && Init(ws[0]) && i < |es| && P.Inv(ws[i].pump) && R.Passes(ws[i].pump, m)
    ensures Evidence(ws, es, r, i, m) <==> m.no > R.EvidenceFloor(ws[i].pump)
  {
    var s := ws[i].pump;
    if s.pc.why.Accepted? {
      AcceptedWasTaken(ws, es, r, i);
      R.InBatch(s, s.pc.offer, m);
    } else {
      PumpHalfRuns(ws, es, r);
      R.PassedIsHandled(PumpStates(ws), PumpEvents(ws, es), r, i, m);
    }
  }

  /** In every interleaving, what a commit of the pump moves the cursor past has been rendered in a turn the agent
      ended, or refused in each of the last five offers, if and only if no unacked message lies between the cursor and
      the floor of the evidence. Only a cursor reset after the evidence was gathered puts one there. */
  lemma CursorPassesOnlyTaken(ws: seq<World>, es: seq<Event>, r: P.Renderer, i: nat)
    requires IsRun(ws, es, r) && Init(ws[0]) && i < |es| && es[i] == PumpStep(P.WriteOk)
    ensures var s := ws[i].pump;
            && P.Inv(s) && s.pc.Committing?
            && ((forall m :: R.Passes(s, m) ==> Evidence(ws, es, r, i, m))
                <==> (forall m :: R.Passes(s, m) ==> m.no > R.EvidenceFloor(s)))
            && (R.EvidenceCurrent(s) ==> forall m :: R.Passes(s, m) ==> m.no > R.EvidenceFloor(s))
            && (Untouched(es, i) ==> R.EvidenceCurrent(s))
  {
    var ps, qs, s := PumpStates(ws), PumpEvents(ws, es), ws[i].pump;
    PumpHalfRuns(ws, es, r);
    R.CommitPassesOnlyHandled(ps, qs, r, i);
    if Untouched(es, i) {
      UntouchedHalf(ws, es, i);
    }
    forall m | R.Passes(s, m)
      ensures Evidence(ws, es, r, i, m) <==> m.no > R.EvidenceFloor(s)
    {
      PassedHasEvidence(ws, es, r, i, m);
    }
    if R.EvidenceCurrent(s) {
      R.CurrentEvidenceBound(s);
    }
  }
}
