/** The ACP driver's session (crates/agora-bridge/src/acp.rs): one `session/prompt` in flight, later deliveries merged
    into one queued batch, and every reply answered from the outcome of the prompt that carried it. */
module AcpDriver {
  import opened Options

  /** A delivery without its reply channel; the reply is named by the delivery's place in the order received. */
  datatype Delivery = Delivery(text: string, maxSeq: int, count: nat)

  datatype Batch = Batch(text: string, maxSeq: int, count: nat, replies: seq<nat>)

  function FromDelivery(d: Delivery, reply: nat): Batch {
    Batch(d.text, d.maxSeq, d.count, [reply])
  }

  function Initial(text: string): Batch {
    Batch(text, 0, 0, [])
  }

  function Merge(b: Batch, d: Delivery, reply: nat): Batch {
    var maxSeq := if b.maxSeq > d.maxSeq then b.maxSeq else d.maxSeq;
    Batch(b.text + "\n\n" + d.text, maxSeq, b.count + d.count, b.replies + [reply])
  }

  /** How a `session/prompt` request ended: a turn, a turn cut short, or a JSON-RPC or connection error. */
  datatype Outcome = TurnEnded | TurnCancelled | RequestFailed

  /** `answered`: its replies are sent and the driver has not yet seen the prompt end. */
  datatype Prompt = Prompt(batch: Batch, answered: bool)

  datatype Turn = Turn(batch: Batch, outcome: Outcome)

  /** `open` is false once the driver has returned. The last six fields are history: what was received, the replies sent
      and dropped, the turns that ended, and how many prompts were launched and aborted. */
  datatype State = State(
    prompt: Option<Prompt>, queued: Option<Batch>, open: bool,
    received: seq<Delivery>, answers: map<nat, bool>, dropped: set<nat>, turns: seq<Turn>,
    launched: nat, aborted: nat)

  datatype Event =
    | Submit(d: Delivery)
    | PromptEnds(outcome: Outcome)
    | FinishPrompt
    | Shutdown
    | AgentCloses

  predicate Enabled(s: State, e: Event) {
    match e
    case Submit(_) => s.open
    case PromptEnds(_) => s.prompt.Some? && !s.prompt.value.answered
    case FinishPrompt => s.open && s.prompt.Some? && s.prompt.value.answered
    case Shutdown => s.open
    case AgentCloses => s.open
  }

  function Launch(s: State, b: Batch): State {
    s.(prompt := Some(Prompt(b, false)), launched := s.launched + 1)
  }

  function SubmitStep(s: State, d: Delivery): State {
    var reply := |s.received|;
    var t := s.(received := s.received + [d]);
    if s.prompt.None? then Launch(t, FromDelivery(d, reply))
    else if s.queued.Some? then t.(queued := Some(Merge(s.queued.value, d, reply)))
    else t.(queued := Some(FromDelivery(d, reply)))
  }

  /** `run_prompt`: all replies of the batch get the same answer. */
  function EndStep(s: State, outcome: Outcome): State
    requires s.prompt.Some?
  {
    var b := s.prompt.value.batch;
    s.(prompt := Some(Prompt(b, true)),
       answers := s.answers + map i: nat | i in b.replies :: outcome.TurnEnded?,
       turns := s.turns + [Turn(b, outcome)])
  }

  function FinishStep(s: State): State {
    var t := s.(prompt := None, queued := None);
    if s.queued.Some? then Launch(t, s.queued.value) else t
  }

  function Running(s: State): nat { if s.prompt.Some? && !s.prompt.value.answered then 1 else 0 }

  function ReplySet(b: Batch): set<nat> { set i | i in b.replies }

  /** Aborting the prompt drops the replies not yet sent; dropping the session drops the queued ones. */
  function ShutdownStep(s: State): State {
    var flight := if s.prompt.Some? && !s.prompt.value.answered then ReplySet(s.prompt.value.batch) else {};
    var waiting := if s.queued.Some? then ReplySet(s.queued.value) else {};
    s.(prompt := None, queued := None, open := false, dropped := s.dropped + flight + waiting,
       aborted := s.aborted + Running(s))
  }

  /** The driver returns; the prompt's task runs on and reports its own outcome. */
  function CloseStep(s: State): State {
    var waiting := if s.queued.Some? then ReplySet(s.queued.value) else {};
    s.(queued := None, open := false, dropped := s.dropped + waiting)
  }

  function Apply(s: State, e: Event): State
    requires Enabled(s, e)
  {
    match e
    case Submit(d) => SubmitStep(s, d)
    case PromptEnds(outcome) => EndStep(s, outcome)
    case FinishPrompt => FinishStep(s)
    case Shutdown => ShutdownStep(s)
    case AgentCloses => CloseStep(s)
  }

  /** A new session, with the optional first prompt already launched. */
  ghost predicate Init(s: State) {
    && s.queued.None? && s.open && s.received == [] && s.answers == map[] && s.dropped == {} && s.turns == []
    && s.launched == Running(s) && s.aborted == 0
    && (s.prompt.Some? ==> s.prompt.value.batch == Initial(s.prompt.value.batch.text) && !s.prompt.value.answered)
  }

  // ----- what a batch must be

  ghost predicate Within(ds: seq<Delivery>, ids: seq<nat>) {
    forall k :: 0 <= k < |ids| ==> ids[k] < |ds|
  }

  /** The texts of the deliveries `ids`, in order, with a blank line between them. */
  ghost function Joined(ds: seq<Delivery>, ids: seq<nat>): string
    requires Within(ds, ids)
  {
    if ids == [] then ""
    else
      var last := ids[|ids| - 1];
      if |ids| == 1 then ds[last].text else Joined(ds, ids[..|ids| - 1]) + "\n\n" + ds[last].text
  }

  ghost function Total(ds: seq<Delivery>, ids: seq<nat>): nat
    requires Within(ds, ids)
  {
    if ids == [] then 0 else Total(ds, ids[..|ids| - 1]) + ds[ids[|ids| - 1]].count
  }

  /** `b` is the ordered join, the sum and the maximum of the deliveries it answers. */
  ghost predicate Faithful(ds: seq<Delivery>, b: Batch) {
    && Within(ds, b.replies)
    && (forall j, k :: 0 <= j < k < |b.replies| ==> b.replies[j] < b.replies[k])
    && b.count == Total(ds, b.replies)
    && (b.replies != [] ==> b.text == Joined(ds, b.replies) && IsLargest(ds, b.replies, b.maxSeq))
    && (b.replies == [] ==> b.maxSeq == 0)
  }

  ghost predicate IsLargest(ds: seq<Delivery>, ids: seq<nat>, x: int)
    requires Within(ds, ids)
  {
    && (forall k :: 0 <= k < |ids| ==> ds[ids[k]].maxSeq <= x)
    && exists k :: 0 <= k < |ids| && ds[ids[k]].maxSeq == x
  }

  // ----- where a delivery is

  ghost predicate InFlight(s: State, i: nat) {
    s.prompt.Some? && !s.prompt.value.answered && i in s.prompt.value.batch.replies
  }

  ghost predicate Queued(s: State, i: nat) {
    s.queued.Some? && i in s.queued.value.replies
  }

  ghost predicate ExactlyOneFate(s: State, i: nat) {
    && (InFlight(s, i) || Queued(s, i) || i in s.answers || i in s.dropped)
    && !(InFlight(s, i) && Queued(s, i))
    && !(InFlight(s, i) && i in s.answers) && !(InFlight(s, i) && i in s.dropped)
    && !(Queued(s, i) && i in s.answers) && !(Queued(s, i) && i in s.dropped)
    && !(i in s.answers && i in s.dropped)
  }

  ghost predicate NoFate(s: State, i: nat) {
    !InFlight(s, i) && !Queued(s, i) && i !in s.answers && i !in s.dropped
  }

  /** An answer comes from exactly one turn, the one that carried the delivery. */
  ghost predicate AnsweredBy(s: State, i: nat, k: nat) {
    k < |s.turns| && i in s.turns[k].batch.replies && (i in s.answers ==> s.answers[i] == s.turns[k].outcome.TurnEnded?)
  }

  ghost predicate Inv(s: State) {
    && s.launched == |s.turns| + Running(s) + s.aborted
    && (s.queued.Some? ==> s.prompt.Some? && s.open && s.queued.value.replies != [])
    && (s.prompt.Some? ==> Faithful(s.received, s.prompt.value.batch))
    && (s.queued.Some? ==> Faithful(s.received, s.queued.value))
    && (forall k :: 0 <= k < |s.turns| ==> Faithful(s.received, s.turns[k].batch))
    && (forall i: nat :: i < |s.received| ==> ExactlyOneFate(s, i))
    && (forall i: nat :: i >= |s.received| ==> NoFate(s, i))
    && (forall i: nat :: i in s.answers ==> exists k: nat :: AnsweredBy(s, i, k))
    && (forall k, i: nat :: 0 <= k < |s.turns| && i in s.turns[k].batch.replies ==> i in s.answers)
  }

  // ----- growing the history keeps batches faithful

  lemma {:induction false} JoinedStable(ds: seq<Delivery>, d: Delivery, ids: seq<nat>)
    requires Within(ds, ids)
    ensures Joined(ds + [d], ids) == Joined(ds, ids) && Total(ds + [d], ids) == Total(ds, ids)
  {
    if ids != [] {
      JoinedStable(ds, d, ids[..|ids| - 1]);
    }
  }

  lemma LargestStable(ds: seq<Delivery>, d: Delivery, ids: seq<nat>, x: int)
    requires Within(ds, ids) && IsLargest(ds, ids, x)
    ensures IsLargest(ds + [d], ids, x)
  {
    var k :| 0 <= k < |ids| && ds[ids[k]].maxSeq == x;
    assert (ds + [d])[ids[k]].maxSeq == x;
  }

  lemma FaithfulStable(ds: seq<Delivery>, d: Delivery, b: Batch)
    requires Faithful(ds, b)
    ensures Faithful(ds + [d], b)
  {
    JoinedStable(ds, d, b.replies);
    if b.replies != [] {
      LargestStable(ds, d, b.replies, b.maxSeq);
    }
  }

  lemma SingleFaithful(ds: seq<Delivery>, d: Delivery)
    ensures Faithful(ds + [d], FromDelivery(d, |ds|))
  {
    var b := FromDelivery(d, |ds|);
    assert b.replies[..0] == [];
    assert (ds + [d])[b.replies[0]].maxSeq == b.maxSeq;
  }

  lemma MergeLargest(ds: seq<Delivery>, d: Delivery, ids: seq<nat>, x: int)
    requires Within(ds, ids) && IsLargest(ds, ids, x)
    ensures IsLargest(ds + [d], ids + [|ds|], if x > d.maxSeq then x else d.maxSeq)
  {
    var all, more := ds + [d], ids + [|ds|];
    var k :| 0 <= k < |ids| && ds[ids[k]].maxSeq == x;
    assert all[more[k]].maxSeq == x && all[more[|ids|]].maxSeq == d.maxSeq;
    forall j | 0 <= j < |more|
      ensures all[more[j]].maxSeq <= if x > d.maxSeq then x else d.maxSeq
    {
      if j < |ids| {
        assert ds[ids[j]].maxSeq <= x;
      }
    }
  }

  lemma MergeFaithful(ds: seq<Delivery>, d: Delivery, b: Batch)
    requires Faithful(ds, b) && b.replies != []
    ensures Faithful(ds + [d], Merge(b, d, |ds|))
  {
    var c := Merge(b, d, |ds|);
    JoinedStable(ds, d, b.replies);
    MergeLargest(ds, d, b.replies, b.maxSeq);
    assert c.replies[..|b.replies|] == b.replies;
  }

  // ----- every step keeps the invariant

  lemma TurnsStable(s: State, d: Delivery)
    requires Inv(s)
    ensures forall k :: 0 <= k < |s.turns| ==> Faithful(s.received + [d], s.turns[k].batch)
  {
    forall k | 0 <= k < |s.turns|
      ensures Faithful(s.received + [d], s.turns[k].batch)
    {
      FaithfulStable(s.received, d, s.turns[k].batch);
    }
  }

  lemma FateAfterSubmit(s: State, d: Delivery, i: nat)
    requires if i < |s.received| then ExactlyOneFate(s, i) else NoFate(s, i)
    ensures i <= |s.received| ==> ExactlyOneFate(SubmitStep(s, d), i)
    ensures i > |s.received| ==> NoFate(SubmitStep(s, d), i)
  {
    var t, n := SubmitStep(s, d), |s.received|;
    if s.prompt.None? {
      assert t.prompt.value.batch.replies == [n];
    } else if s.queued.Some? {
      assert t.queued.value.replies == s.queued.value.replies + [n];
    } else {
      assert t.queued.value.replies == [n];
    }
  }

  lemma FatesAfterSubmit(s: State, d: Delivery)
    requires Inv(s)
    ensures var t := SubmitStep(s, d);
            && (forall i: nat :: i < |t.received| ==> ExactlyOneFate(t, i))
            && (forall i: nat :: i >= |t.received| ==> NoFate(t, i))
  {
    forall i: nat {
      FateAfterSubmit(s, d, i);
    }
  }

  lemma AnswersAfterSubmit(s: State, d: Delivery)
    requires Inv(s)
    ensures var t := SubmitStep(s, d); forall i: nat :: i in t.answers ==> exists k: nat :: AnsweredBy(t, i, k)
  {
    var t := SubmitStep(s, d);
    forall i: nat | i in t.answers
      ensures exists k: nat :: AnsweredBy(t, i, k)
    {
      var k: nat :| AnsweredBy(s, i, k);
      assert AnsweredBy(t, i, k);
    }
  }

  lemma BatchesAfterSubmit(s: State, d: Delivery)
    requires Inv(s) && s.open
    ensures var t := SubmitStep(s, d);
            && (t.queued.Some? ==> t.prompt.Some? && t.open && t.queued.value.replies != [])
            && (t.prompt.Some? ==> Faithful(t.received, t.prompt.value.batch))
            && (t.queued.Some? ==> Faithful(t.received, t.queued.value))
  {
    SingleFaithful(s.received, d);
    if s.prompt.Some? {
      FaithfulStable(s.received, d, s.prompt.value.batch);
      if s.queued.Some? {
        MergeFaithful(s.received, d, s.queued.value);
      }
    }
  }

  lemma SubmitKeeps(s: State, d: Delivery)
    requires Inv(s) && s.open
    ensures Inv(SubmitStep(s, d))
  {
    FatesAfterSubmit(s, d);
    TurnsStable(s, d);
    AnswersAfterSubmit(s, d);
    BatchesAfterSubmit(s, d);
  }

  lemma EndKeeps(s: State, outcome: Outcome)
    requires Inv(s) && s.prompt.Some? && !s.prompt.value.answered
    ensures Inv(EndStep(s, outcome))
  {
    var t := EndStep(s, outcome);
    forall i: nat
      ensures i < |s.received| ==> ExactlyOneFate(t, i)
      ensures i >= |s.received| ==> NoFate(t, i)
    {
      FateOf(s, i);
      FateAfterEnd(s, outcome, i);
    }
    forall i: nat | i in t.answers
      ensures exists k: nat :: AnsweredBy(t, i, k)
    {
      var k := AnsweredAfterEnd(s, outcome, i);
    }
    EndTurns(s, outcome);
  }

  lemma FateAfterEnd(s: State, outcome: Outcome, i: nat)
    requires s.prompt.Some? && !s.prompt.value.answered && FateOk(s, i)
    ensures FateOk(EndStep(s, outcome), i)
  {
  }

  lemma AnsweredAfterEnd(s: State, outcome: Outcome, i: nat) returns (k: nat)
    requires s.prompt.Some? && !s.prompt.value.answered && i in EndStep(s, outcome).answers
    requires i in s.answers ==> exists n: nat :: AnsweredBy(s, i, n)
    ensures AnsweredBy(EndStep(s, outcome), i, k)
  {
    if i in s.prompt.value.batch.replies {
      k := |s.turns|;
    } else {
      k :| AnsweredBy(s, i, k);
    }
  }

  lemma EndTurns(s: State, outcome: Outcome)
    requires Inv(s) && s.prompt.Some? && !s.prompt.value.answered
    ensures var t := EndStep(s, outcome);
            && (forall k :: 0 <= k < |t.turns| ==> Faithful(t.received, t.turns[k].batch))
            && (forall k, i: nat :: 0 <= k < |t.turns| && i in t.turns[k].batch.replies ==> i in t.answers)
  {
  }

  ghost predicate FateOk(s: State, i: nat) {
    if i < |s.received| then ExactlyOneFate(s, i) else NoFate(s, i)
  }

  lemma FateAfterFinish(s: State, i: nat)
    requires s.prompt.Some? && s.prompt.value.answered && FateOk(s, i)
    ensures FateOk(FinishStep(s), i)
  {
  }

  lemma FateAfterStop(s: State, i: nat)
    requires FateOk(s, i)
    ensures FateOk(ShutdownStep(s), i) && FateOk(CloseStep(s), i)
  {
  }

  lemma FateOf(s: State, i: nat)
    requires Inv(s)
    ensures FateOk(s, i)
  {
  }

  /** A step that adds no turn and no answer keeps every answer's turn. */
  lemma SameAnswers(s: State, t: State)
    requires Inv(s) && t.turns == s.turns && t.answers == s.answers
    ensures forall i: nat :: i in t.answers ==> exists k: nat :: AnsweredBy(t, i, k)
  {
    forall i: nat | i in t.answers
      ensures exists k: nat :: AnsweredBy(t, i, k)
    {
      var k: nat :| AnsweredBy(s, i, k);
      assert AnsweredBy(t, i, k);
    }
  }

  lemma FinishKeeps(s: State)
    requires Inv(s) && s.open && s.prompt.Some? && s.prompt.value.answered
    ensures Inv(FinishStep(s))
  {
    var t := FinishStep(s);
    assert t.received == s.received;
    forall i: nat
      ensures i < |t.received| ==> ExactlyOneFate(t, i)
      ensures i >= |t.received| ==> NoFate(t, i)
    {
      FateOf(s, i);
      FateAfterFinish(s, i);
    }
    SameAnswers(s, t);
  }

  lemma StopKeeps(s: State, e: Event)
    requires Inv(s) && s.open && (e.Shutdown? || e.AgentCloses?)
    ensures Inv(Apply(s, e))
  {
    var t := Apply(s, e);
    assert t.received == s.received;
    forall i: nat
      ensures i < |t.received| ==> ExactlyOneFate(t, i)
      ensures i >= |t.received| ==> NoFate(t, i)
    {
      FateOf(s, i);
      FateAfterStop(s, i);
    }
    SameAnswers(s, t);
  }

  lemma StepKeeps(s: State, e: Event)
    requires Inv(s) && Enabled(s, e)
    ensures Inv(Apply(s, e))
  {
    match e
    case Submit(d) => SubmitKeeps(s, d);
    case PromptEnds(outcome) => EndKeeps(s, outcome);
    case FinishPrompt => FinishKeeps(s);
    case Shutdown => StopKeeps(s, e);
    case AgentCloses => StopKeeps(s, e);
  }

  // ----- every run

  ghost predicate IsRun(ss: seq<State>, es: seq<Event>) {
    && |ss| == |es| + 1
    && forall i :: 0 <= i < |es| ==> Enabled(ss[i], es[i]) && ss[i + 1] == Apply(ss[i], es[i])
  }

  lemma {:induction false} InvAlong(ss: seq<State>, es: seq<Event>, i: nat)
    requires IsRun(ss, es) && Init(ss[0]) && i <= |es|
    ensures Inv(ss[i])
  {
    if i > 0 {
      InvAlong(ss, es, i - 1);
      StepKeeps(ss[i - 1], es[i - 1]);
    }
  }

  ghost predicate Occurs(sub: string, text: string) {
    exists pre, post :: text == pre + sub + post
  }

  lemma {:induction false} JoinedCarries(ds: seq<Delivery>, ids: seq<nat>, k: nat)
    requires Within(ds, ids) && k < |ids|
    ensures Occurs(ds[ids[k]].text, Joined(ds, ids))
  {
    var sub, n := ds[ids[k]].text, |ids|;
    if k == n - 1 {
      var pre := if n == 1 then "" else Joined(ds, ids[..n - 1]) + "\n\n";
      assert Joined(ds, ids) == pre + sub + "";
    } else {
      JoinedCarries(ds, ids[..n - 1], k);
      var pre, post :| Joined(ds, ids[..n - 1]) == pre + sub + post;
      var tail := "\n\n" + ds[ids[n - 1]].text;
      assert Joined(ds, ids) == Joined(ds, ids[..n - 1]) + tail;
      assert Joined(ds, ids) == pre + sub + (post + tail);
    }
  }

  /** `k` is a turn that carried delivery `i`'s text and ended, neither cancelled nor failed. */
  ghost predicate Delivered(s: State, i: nat, k: nat) {
    && i < |s.received| && k < |s.turns|
    && s.turns[k].outcome.TurnEnded? && i in s.turns[k].batch.replies
    && Occurs(s.received[i].text, s.turns[k].batch.text)
  }

  /** An answer of true comes from a turn that ended and carried the delivery's text. */
  lemma TrueAnswerWasDelivered(s: State, i: nat, k: nat)
    requires AnsweredBy(s, i, k) && i in s.answers && s.answers[i] && Faithful(s.received, s.turns[k].batch)
    ensures Delivered(s, i, k)
  {
    var b := s.turns[k].batch;
    var j :| 0 <= j < |b.replies| && b.replies[j] == i;
    JoinedCarries(s.received, b.replies, j);
  }

  /** Over every run: at most one prompt runs at a time, a queued batch waits for a running or just-ended prompt, every
      delivery has exactly one fate, and it is answered `true` only after a turn that carried its text ended. */
  lemma DriverGuarantees(ss: seq<State>, es: seq<Event>, i: nat)
    requires IsRun(ss, es) && Init(ss[0]) && i <= |es|
    ensures var s := ss[i];
            && s.launched - |s.turns| - s.aborted <= 1
            && (s.queued.Some? ==> s.prompt.Some? && Faithful(s.received, s.queued.value))
            && (forall d: nat :: d < |s.received| ==> ExactlyOneFate(s, d))
            && (forall d: nat :: d in s.answers && s.answers[d] ==> exists k: nat :: Delivered(s, d, k))
  {
    InvAlong(ss, es, i);
    forall d: nat | d in ss[i].answers && ss[i].answers[d]
      ensures exists k: nat :: Delivered(ss[i], d, k)
    {
      var k: nat :| AnsweredBy(ss[i], d, k);
      TrueAnswerWasDelivered(ss[i], d, k);
    }
  }

  /** An answer, once given, is never changed or taken back. */
  lemma {:induction false} AnswersAreFinal(ss: seq<State>, es: seq<Event>, i: nat, j: nat, d: nat)
    requires IsRun(ss, es) && Init(ss[0]) && i <= j <= |es|
    requires d in ss[i].answers
    ensures d in ss[j].answers && ss[j].answers[d] == ss[i].answers[d]
  {
    if i < j {
      AnswersAreFinal(ss, es, i, j - 1, d);
      NotInFlight(ss, es, j - 1, d);
      AnswerKept(ss[j - 1], es[j - 1], d);
    }
  }

  lemma NotInFlight(ss: seq<State>, es: seq<Event>, i: nat, d: nat)
    requires IsRun(ss, es) && Init(ss[0]) && i <= |es| && d in ss[i].answers
    ensures !InFlight(ss[i], d)
  {
    InvAlong(ss, es, i);
    assert d < |ss[i].received| ==> ExactlyOneFate(ss[i], d);
  }

  lemma AnswerKept(s: State, e: Event, d: nat)
    requires Enabled(s, e) && d in s.answers && !InFlight(s, d)
    ensures d in Apply(s, e).answers && Apply(s, e).answers[d] == s.answers[d]
  {
  }
}
