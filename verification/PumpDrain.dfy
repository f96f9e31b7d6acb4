/** A pump left alone with its driver gets past every unread message: one offer each if the driver accepts, at most five
    each whatever it answers. */
module PumpDrain {
  import opened Inbox
  import opened Numbers
  import opened Pump
  import opened PumpLife
  import opened PumpRuns

  /** A render cap that shows at least one message of every non-empty list. */
  ghost predicate ShowsSome(r: Renderer) {
    forall ms :: ms != [] ==> 0 < r.shown(ms) <= |ms|
  }

  /** The steps of a pump whose inbox and cursor nobody else touches. */
  predicate Alone(e: Event) { PumpLife.Own(e) && !e.Shutdown? }

  predicate Answer(e: Event) { e.Accept? || e.Refuse? }

  /** What the next offer will be: a page of the inbox, as far as it is shown. */
  ghost function BatchAt(s: State, r: Renderer): seq<Message>
    requires ShowsSome(r)
  {
    var page := Page(s.inbox, s.cursor);
    if page == [] then [] else page[..r.shown(page)]
  }

  ghost predicate Settled(s: State, r: Renderer)
    requires ShowsSome(r)
  {
    && InboxOk(s)
    && (s.refCount > 0 ==> BatchAt(s, r) != [] && s.refMax == BatchAt(s, r)[|BatchAt(s, r)| - 1].no)
    && PcSettled(s, r)
  }

  ghost predicate PcSettled(s: State, r: Renderer)
    requires ShowsSome(r)
  {
    match s.pc
    case Top => s.refCount < REFUSAL_CAP
    case Polling(after, _) => s.refCount < REFUSAL_CAP && after == s.cursor
    case Fetched(after, _, raws) =>
      s.refCount < REFUSAL_CAP && after == s.cursor && Fresh(raws, after) == Page(s.inbox, s.cursor)
    case Offered(o) => s.refCount < REFUSAL_CAP && o.batch == BatchAt(s, r) && o.batch != []
    case Committing(o, why, _) => o.batch == BatchAt(s, r) && o.batch != [] && (why.Accepted? ==> s.refCount == 0)
    case Stopped(_) => true
  }

  /** How many answers are still to come at most. */
  ghost function Budget(s: State): int {
    if s.pc.Committing? && s.pc.offer.batch != [] then REFUSAL_CAP * |Above(s.inbox, MaxSeq(s.pc.offer))|
    else REFUSAL_CAP * |Above(s.inbox, s.cursor)| - s.refCount
  }

  lemma AboveAt(ms: seq<Message>, c: int, k: nat)
    requires k < |Above(ms, c)|
    ensures Above(ms, c)[k].no > c
  {
    AboveMembers(ms, c);
    assert Above(ms, c)[k] in Above(ms, c);
  }

  lemma BatchShape(s: State, r: Renderer)
    requires ShowsSome(r) && InboxOk(s)
    ensures BatchAt(s, r) == [] <==> Above(s.inbox, s.cursor) == []
    ensures var b, up := BatchAt(s, r), Above(s.inbox, s.cursor);
            b != [] ==> |b| <= |up| && b == up[..|b|]
                        && Above(s.inbox, b[|b| - 1].no) == up[|b|..] && b[|b| - 1].no > s.cursor
  {
    var b, up := BatchAt(s, r), Above(s.inbox, s.cursor);
    assert |b| <= |up| && b == up[..|b|] && (b == [] <==> up == []);
    if b != [] {
      AboveDrops(s.inbox, s.cursor, |b|);
      AboveAt(s.inbox, s.cursor, |b| - 1);
    }
  }

  lemma SelectOffers(s: State, r: Renderer)
    requires ShowsSome(r) && s.pc.Fetched? && s.pc.after == s.cursor
    requires Fresh(s.pc.raws, s.cursor) == Page(s.inbox, s.cursor)
    ensures var page := Page(s.inbox, s.cursor);
            SelectStep(s, r) ==
            if page == [] then s.(pc := Top)
            else
              var unshown := page[r.shown(page)..];
              s.(pc := Offered(Offer(BatchAt(s, r), r.text(page), s.cursor, unshown, s.pc.era)))
  {
    var page := Page(s.inbox, s.cursor);
    assert Max(s.pc.after, s.cursor) == s.cursor;
    if page != [] {
      assert 0 < r.shown(page) <= |page|;
    }
  }

  lemma SelectAlone(s: State, r: Renderer)
    requires ShowsSome(r) && Settled(s, r) && s.pc.Fetched?
    ensures var t := SelectStep(s, r); Settled(t, r) && Budget(t) == Budget(s) && t.inbox == s.inbox
  {
    SelectOffers(s, r);
    var t := SelectStep(s, r);
    assert t.inbox == s.inbox && t.cursor == s.cursor && t.refCount == s.refCount;
    assert BatchAt(t, r) == BatchAt(s, r);
  }

  lemma BatchIsSame(s: State, t: State, r: Renderer)
    requires ShowsSome(r) && t.inbox == s.inbox && t.cursor == s.cursor
    ensures BatchAt(t, r) == BatchAt(s, r)
  {
  }

  lemma OfferIsUnread(s: State, r: Renderer)
    requires ShowsSome(r) && InboxOk(s) && BatchAt(s, r) != []
    ensures var b := BatchAt(s, r);
            b[|b| - 1].no > s.cursor && |Above(s.inbox, b[|b| - 1].no)| < |Above(s.inbox, s.cursor)|
  {
    BatchShape(s, r);
  }

  lemma RefuseAlone(s: State, r: Renderer)
    requires ShowsSome(r) && Settled(s, r) && s.pc.Offered?
    ensures var t := RefuseStep(s); Settled(t, r) && Budget(t) + 1 <= Budget(s)
  {
    OfferIsUnread(s, r);
    BatchIsSame(s, RefuseStep(s), r);
  }

  lemma AcceptAlone(s: State, r: Renderer)
    requires ShowsSome(r) && Settled(s, r) && s.pc.Offered?
    ensures var t := AcceptStep(s); Settled(t, r) && Budget(t) + 1 <= Budget(s)
  {
    OfferIsUnread(s, r);
    BatchIsSame(s, AcceptStep(s), r);
  }

  lemma WriteAlone(s: State, r: Renderer)
    requires ShowsSome(r) && Settled(s, r) && s.pc.Committing?
    ensures var t := WriteStep(s); Settled(t, r) && Budget(t) <= Budget(s)
  {
    OfferIsUnread(s, r);
    var t := WriteStep(s);
    assert t.cursor == MaxSeq(s.pc.offer) && t.inbox == s.inbox && t.refCount == 0;
  }

  lemma FetchedPage(s: State, raws: seq<Raw>)
    requires InboxOk(s) && IsAnswer(raws, s.inbox, s.cursor)
    ensures Fresh(raws, s.cursor) == Page(s.inbox, s.cursor)
  {
    var page := Page(s.inbox, s.cursor);
    PageGapless(s, s.cursor);
    FreshOfPermutation(raws, page, s.cursor);
    AboveAll(page, s.cursor);
  }

  lemma FetchAlone(s: State, raws: seq<Raw>, r: Renderer)
    requires ShowsSome(r) && Settled(s, r) && Enabled(s, FetchAnswers(raws))
    ensures var t := Apply(s, FetchAnswers(raws), r); Settled(t, r) && Budget(t) == Budget(s)
  {
    FetchedPage(s, raws);
    var t := s.(pc := Fetched(s.cursor, s.pc.era, raws), backoff := BACKOFF_FIRST);
    assert Apply(s, FetchAnswers(raws), r) == t;
    BatchIsSame(s, t, r);
  }

  /** The steps that touch neither the inbox, the cursor nor the count. */
  lemma QuietAlone(s: State, e: Event, r: Renderer)
    requires ShowsSome(r) && Settled(s, r) && Enabled(s, e) && (e.ReadCursor? || e.FetchFails? || e.WriteFails?)
    ensures var t := Apply(s, e, r); Settled(t, r) && (t.pc.Stopped? || Budget(t) == Budget(s))
  {
    BatchIsSame(s, Apply(s, e, r), r);
  }

  lemma StepAlone(s: State, e: Event, r: Renderer)
    requires ShowsSome(r) && Settled(s, r) && Enabled(s, e) && Alone(e)
    ensures var t := Apply(s, e, r);
            && Settled(t, r)
            && (t.pc.Stopped? || Budget(t) + (if Answer(e) then 1 else 0) <= Budget(s))
  {
    match e
    case FetchAnswers(raws) => FetchAlone(s, raws, r);
    case Select => SelectAlone(s, r);
    case Accept => AcceptAlone(s, r);
    case Refuse => RefuseAlone(s, r);
    case WriteOk => WriteAlone(s, r);
    case ReadCursor => QuietAlone(s, e, r);
    case FetchFails => QuietAlone(s, e, r);
    case WriteFails => QuietAlone(s, e, r);
    case _ =>
  }

  function Answered(es: seq<Event>): nat {
    if es == [] then 0 else Answered(es[..|es| - 1]) + if Answer(es[|es| - 1]) then 1 else 0
  }

  lemma {:induction false} BudgetAlong(ss: seq<State>, es: seq<Event>, r: Renderer, i: nat)
    requires ShowsSome(r) && IsRun(ss, es, r) && Settled(ss[0], r) && i <= |es|
    requires forall k :: 0 <= k < |es| ==> Alone(es[k])
    requires forall k :: 0 <= k < i ==> !ss[k].pc.Stopped?
    ensures Settled(ss[i], r) && (ss[i].pc.Stopped? || Answered(es[..i]) + Budget(ss[i]) <= Budget(ss[0]))
  {
    if i > 0 {
      BudgetAlong(ss, es, r, i - 1);
      assert es[..i][..i - 1] == es[..i - 1];
      StepAlone(ss[i - 1], es[i - 1], r);
    }
  }

  lemma BudgetNonNegative(s: State, r: Renderer)
    requires ShowsSome(r) && Settled(s, r) && !s.pc.Stopped?
    ensures Budget(s) >= 0
  {
    BatchShape(s, r);
  }

  /** No commit fails to be written four times. */
  predicate Persists(es: seq<Event>, i: nat)
    requires i <= |es|
  {
    forall k :: 0 <= k < i && es[k].WriteFails? ==> FailedWrites(es[..k]) < COMMIT_RETRIES
  }

  /** Left alone, only a commit that cannot be written stops the pump. */
  lemma {:induction false} NeverStops(ss: seq<State>, es: seq<Event>, r: Renderer, i: nat)
    requires ShowsSome(r) && IsRun(ss, es, r) && Init(ss[0]) && i <= |es| && Persists(es, i)
    requires forall k :: 0 <= k < |es| ==> Alone(es[k])
    ensures forall k :: 0 <= k <= i ==> !ss[k].pc.Stopped?
  {
    if i > 0 {
      NeverStops(ss, es, r, i - 1);
      StopsOnlyThen(ss, es, r, i - 1);
    }
  }

  /** In every run of a pump left alone, at most five offers are answered per unread message. */
  lemma AtMostFiveOffersEach(ss: seq<State>, es: seq<Event>, r: Renderer, i: nat)
    requires ShowsSome(r) && IsRun(ss, es, r) && Init(ss[0]) && i <= |es| && Persists(es, i)
    requires forall k :: 0 <= k < |es| ==> Alone(es[k])
    ensures Answered(es[..i]) <= REFUSAL_CAP * |Above(ss[0].inbox, ss[0].cursor)|
  {
    NeverStops(ss, es, r, i);
    BudgetAlong(ss, es, r, i);
    BudgetNonNegative(ss[i], r);
  }

  // ----- and in every run that many offers are enough

  /** How often the loop got as far as offering. */
  function Selects(es: seq<Event>): nat {
    if es == [] then 0 else Selects(es[..|es| - 1]) + if es[|es| - 1].Select? then 1 else 0
  }

  ghost predicate Unread(s: State) { Above(s.inbox, s.cursor) != [] }

  function Pending(s: State): nat { if s.pc.Offered? then 1 else 0 }

  lemma StepReadsOn(s: State, e: Event, r: Renderer)
    requires Enabled(s, e) && Alone(e)
    ensures var t := Apply(s, e, r); t.inbox == s.inbox && s.cursor <= t.cursor
  {
  }

  /** What is read stays read. */
  lemma UnreadBefore(s: State, e: Event, r: Renderer)
    requires Enabled(s, e) && Alone(e) && Unread(Apply(s, e, r))
    ensures Unread(s)
  {
    StepReadsOn(s, e, r);
    AboveAbove(s.inbox, s.cursor, Apply(s, e, r).cursor);
  }

  lemma SelectTakes(s: State, r: Renderer)
    requires ShowsSome(r) && Settled(s, r) && s.pc.Fetched? && Unread(s)
    ensures SelectStep(s, r).pc.Offered?
  {
    SelectOffers(s, r);
  }

  /** With something unread, a round that selects offers, and only an answer ends an offer. */
  lemma StepPending(s: State, e: Event, r: Renderer)
    requires ShowsSome(r) && Settled(s, r) && Enabled(s, e) && Alone(e) && Unread(s)
    ensures Pending(Apply(s, e, r)) + (if Answer(e) then 1 else 0) == Pending(s) + (if e.Select? then 1 else 0)
  {
    if e.Select? {
      SelectTakes(s, r);
    }
  }

  lemma CountStep(es: seq<Event>, i: nat)
    requires 0 < i <= |es|
    ensures Selects(es[..i]) == Selects(es[..i - 1]) + (if es[i - 1].Select? then 1 else 0)
    ensures Answered(es[..i]) == Answered(es[..i - 1]) + (if Answer(es[i - 1]) then 1 else 0)
  {
    assert es[..i][..i - 1] == es[..i - 1];
  }

  lemma {:induction false} SelectsAlong(ss: seq<State>, es: seq<Event>, r: Renderer, i: nat)
    requires ShowsSome(r) && IsRun(ss, es, r) && Init(ss[0]) && i <= |es|
    requires forall k :: 0 <= k < |es| ==> Alone(es[k])
    requires forall k :: 0 <= k < i ==> !ss[k].pc.Stopped?
    ensures Unread(ss[i]) ==> Selects(es[..i]) == Answered(es[..i]) + Pending(ss[i])
  {
    if i == 0 {
      assert es[..0] == [];
    } else if Unread(ss[i]) {
      var s, e := ss[i - 1], es[i - 1];
      UnreadBefore(s, e, r);
      SelectsAlong(ss, es, r, i - 1);
      assert Settled(s, r) by { BudgetAlong(ss, es, r, i - 1); }
      StepPending(s, e, r);
      CountStep(es, i);
    }
  }

  lemma BudgetWhenOffered(s: State, r: Renderer)
    requires ShowsSome(r) && Settled(s, r) && !s.pc.Stopped?
    ensures Budget(s) >= Pending(s)
  {
    BudgetNonNegative(s, r);
    if s.pc.Offered? {
      BatchShape(s, r);
    }
  }

  /** In every run of a pump left alone, once it has offered more than five times per message that was unread, nothing
      is unread any more, whatever the driver answered. */
  lemma EveryRunDrains(ss: seq<State>, es: seq<Event>, r: Renderer, i: nat)
    requires ShowsSome(r) && IsRun(ss, es, r) && Init(ss[0]) && i <= |es| && Persists(es, i)
    requires forall k :: 0 <= k < |es| ==> Alone(es[k])
    ensures Selects(es[..i]) > REFUSAL_CAP * |Above(ss[0].inbox, ss[0].cursor)| ==>
              Above(ss[i].inbox, ss[i].cursor) == []
  {
    NeverStops(ss, es, r, i);
    SelectsAlong(ss, es, r, i);
    BudgetAlong(ss, es, r, i);
    BudgetWhenOffered(ss[i], r);
  }

  // ----- one offer each when the driver accepts

  function Accepts(es: seq<Event>): nat {
    if es == [] then 0 else Accepts(es[..|es| - 1]) + if es[|es| - 1].Accept? then 1 else 0
  }

  /** The unread messages that no commit under way will pass. */
  ghost function Left(s: State): nat {
    if s.pc.Committing? && s.pc.offer.batch != [] then |Above(s.inbox, MaxSeq(s.pc.offer))|
    else |Above(s.inbox, s.cursor)|
  }

  lemma StepLeft(s: State, e: Event, r: Renderer)
    requires ShowsSome(r) && Settled(s, r) && Enabled(s, e) && Alone(e)
    ensures var t := Apply(s, e, r); t.pc.Stopped? || Left(t) + (if e.Accept? then 1 else 0) <= Left(s)
  {
    if Answer(e) {
      OfferIsUnread(s, r);
      AnswerLeft(s, r);
    } else if e.WriteOk? {
      CommitLeft(s, r);
    } else if e.Select? {
      SelectLeft(s, r);
    } else {
      QuietLeft(s, e, r);
    }
  }

  lemma SelectLeft(s: State, r: Renderer)
    requires ShowsSome(r) && Settled(s, r) && s.pc.Fetched?
    ensures Left(SelectStep(s, r)) == Left(s)
  {
    SelectOffers(s, r);
  }

  lemma QuietLeft(s: State, e: Event, r: Renderer)
    requires Enabled(s, e) && (e.ReadCursor? || e.FetchFails? || e.FetchAnswers? || e.WriteFails?)
    ensures var t := Apply(s, e, r); t.pc.Stopped? || Left(t) == Left(s)
  {
  }

  lemma CommitLeft(s: State, r: Renderer)
    requires ShowsSome(r) && InboxOk(s) && s.pc.Committing? && s.pc.offer.batch == BatchAt(s, r) != []
    ensures Left(WriteStep(s)) == Left(s)
  {
    OfferIsUnread(s, r);
  }

  lemma AnswerLeft(s: State, r: Renderer)
    requires ShowsSome(r) && s.pc.Offered? && s.pc.offer.batch != []
    requires |Above(s.inbox, MaxSeq(s.pc.offer))| < |Above(s.inbox, s.cursor)|
    ensures Left(AcceptStep(s)) + 1 <= Left(s) && Left(RefuseStep(s)) <= Left(s)
  {
  }

  lemma LeftNext(ss: seq<State>, es: seq<Event>, r: Renderer, i: nat)
    requires ShowsSome(r) && IsRun(ss, es, r) && Init(ss[0]) && i < |es| && !ss[i + 1].pc.Stopped?
    requires forall k :: 0 <= k < |es| ==> Alone(es[k])
    ensures Left(ss[i + 1]) + (if es[i].Accept? then 1 else 0) <= Left(ss[i])
  {
    BudgetAlong(ss, es, r, i);
    StepLeft(ss[i], es[i], r);
  }

  lemma AcceptsStep(es: seq<Event>, i: nat)
    requires i < |es|
    ensures Accepts(es[..i + 1]) == Accepts(es[..i]) + if es[i].Accept? then 1 else 0
  {
    assert es[..i + 1][..i] == es[..i];
  }

  lemma {:induction false} Spends(lefts: seq<nat>, es: seq<Event>, i: nat)
    requires i <= |es| && |lefts| == |es| + 1
    requires forall k :: 0 <= k < i ==> lefts[k + 1] + (if es[k].Accept? then 1 else 0) <= lefts[k]
    ensures Accepts(es[..i]) + lefts[i] <= lefts[0]
  {
    if i == 0 {
      assert es[..0] == [];
    } else {
      Spends(lefts, es, i - 1);
      AcceptsStep(es, i - 1);
      assert lefts[i - 1 + 1] + (if es[i - 1].Accept? then 1 else 0) <= lefts[i - 1];
    }
  }

  lemma LeftAlong(ss: seq<State>, es: seq<Event>, r: Renderer, i: nat)
    requires ShowsSome(r) && IsRun(ss, es, r) && Init(ss[0]) && i <= |es|
    requires forall k :: 0 <= k < |es| ==> Alone(es[k])
    requires forall k :: 0 <= k <= i ==> !ss[k].pc.Stopped?
    ensures Accepts(es[..i]) + Left(ss[i]) <= |Above(ss[0].inbox, ss[0].cursor)|
  {
    var lefts := seq(|ss|, k requires 0 <= k < |ss| => Left(ss[k]));
    forall k | 0 <= k < i
      ensures lefts[k + 1] + (if es[k].Accept? then 1 else 0) <= lefts[k]
    {
      LeftNext(ss, es, r, k);
    }
    Spends(lefts, es, i);
  }

  lemma {:induction false} NoRefusals(es: seq<Event>)
    requires forall k :: 0 <= k < |es| ==> !es[k].Refuse?
    ensures Answered(es) == Accepts(es)
  {
    if es != [] {
      NoRefusals(es[..|es| - 1]);
    }
  }

  /** In every run of a pump left alone, no more batches are accepted than messages were unread; and if the driver
      accepts every batch, once more rounds than that have selected, nothing is unread any more. */
  lemma EveryAcceptingRunDrains(ss: seq<State>, es: seq<Event>, r: Renderer, i: nat)
    requires ShowsSome(r) && IsRun(ss, es, r) && Init(ss[0]) && i <= |es| && Persists(es, i)
    requires forall k :: 0 <= k < |es| ==> Alone(es[k])
    ensures var n := |Above(ss[0].inbox, ss[0].cursor)|;
            && Accepts(es[..i]) <= n
            && ((forall k :: 0 <= k < i ==> !es[k].Refuse?) && Selects(es[..i]) > n ==>
                  Above(ss[i].inbox, ss[i].cursor) == [])
  {
    NeverStops(ss, es, r, i);
    LeftAlong(ss, es, r, i);
    if (forall k :: 0 <= k < i ==> !es[k].Refuse?) && Unread(ss[i]) {
      NoRefusals(es[..i]);
      SelectsAlong(ss, es, r, i);
      if ss[i].pc.Offered? {
        LeftWhenOffered(ss, es, r, i);
      }
    }
  }

  lemma LeftWhenOffered(ss: seq<State>, es: seq<Event>, r: Renderer, i: nat)
    requires ShowsSome(r) && IsRun(ss, es, r) && Init(ss[0]) && i <= |es| && Unread(ss[i]) && ss[i].pc.Offered?
    ensures Left(ss[i]) >= 1
  {
  }

  // ----- such runs exist

  lemma Join(ss: seq<State>, es: seq<Event>, ss2: seq<State>, es2: seq<Event>, r: Renderer)
    requires IsRun(ss, es, r) && IsRun(ss2, es2, r) && ss[|es|] == ss2[0]
    ensures IsRun(ss + ss2[1..], es + es2, r)
    ensures (ss + ss2[1..])[0] == ss[0] && (ss + ss2[1..])[|es + es2|] == ss2[|es2|]
  {
    var all, evs := ss + ss2[1..], es + es2;
    forall i | 0 <= i < |evs|
      ensures Enabled(all[i], evs[i]) && all[i + 1] == Apply(all[i], evs[i], r)
    {
      if i >= |es| {
        assert all[i] == ss2[i - |es|] && all[i + 1] == ss2[i + 1 - |es|] && evs[i] == es2[i - |es|];
      }
    }
  }

  lemma {:induction false} AnsweredJoin(es: seq<Event>, es2: seq<Event>)
    ensures Answered(es + es2) == Answered(es) + Answered(es2)
  {
    if es2 == [] {
      assert es + es2 == es;
    } else {
      assert (es + es2)[..|es + es2| - 1] == es + es2[..|es2| - 1];
      AnsweredJoin(es, es2[..|es2| - 1]);
    }
  }

  function Wrapped(ms: seq<Message>): seq<Raw> {
    seq(|ms|, i requires 0 <= i < |ms| => Numbered(ms[i]))
  }

  lemma {:induction false} WrappedNumbers(ms: seq<Message>)
    ensures NumberedOf(Wrapped(ms)) == ms
  {
    if ms != [] {
      WrappedNumbers(ms[..|ms| - 1]);
      assert Wrapped(ms)[..|ms| - 1] == Wrapped(ms[..|ms| - 1]);
    }
  }

  /** The four steps of one refused round. */
  ghost function RoundEvents(s: State): seq<Event> {
    [ReadCursor, FetchAnswers(Wrapped(Page(s.inbox, s.cursor))), Select, Refuse]
  }

  ghost function OfferAt(s: State, r: Renderer): State
    requires ShowsSome(r)
  {
    var page := Page(s.inbox, s.cursor);
    var unshown := if page == [] then [] else page[r.shown(page)..];
    s.(pc := Offered(Offer(BatchAt(s, r), r.text(page), s.cursor, unshown, s.era)), backoff := BACKOFF_FIRST)
  }

  /** From the top of the loop, with unread messages, one round offers `BatchAt` and is refused. */
  lemma Round(s: State, r: Renderer) returns (ss: seq<State>)
    requires ShowsSome(r) && InboxOk(s) && s.pc.Top? && Above(s.inbox, s.cursor) != []
    ensures IsRun(ss, RoundEvents(s), r) && ss[0] == s
    ensures ss[3] == OfferAt(s, r) && ss[4] == RefuseStep(OfferAt(s, r))
  {
    var raws := Wrapped(Page(s.inbox, s.cursor));
    WrappedNumbers(Page(s.inbox, s.cursor));
    var s1 := s.(pc := Polling(s.cursor, s.era));
    var s2 := s1.(pc := Fetched(s.cursor, s.era, raws), backoff := BACKOFF_FIRST);
    FetchedPage(s, raws);
    SelectOffers(s2, r);
    BatchIsSame(s, s2, r);
    RoundRuns(s, s1, s2, raws, r);
    ss := [s, s1, s2, OfferAt(s, r), RefuseStep(OfferAt(s, r))];
  }

  lemma Extend(ss: seq<State>, es: seq<Event>, e: Event, t: State, r: Renderer)
    requires IsRun(ss, es, r) && Enabled(ss[|es|], e) && t == Apply(ss[|es|], e, r)
    ensures IsRun(ss + [t], es + [e], r)
  {
    var all, evs := ss + [t], es + [e];
    forall i | 0 <= i < |evs|
      ensures Enabled(all[i], evs[i]) && all[i + 1] == Apply(all[i], evs[i], r)
    {
      assert i < |es| ==> all[i] == ss[i] && all[i + 1] == ss[i + 1] && evs[i] == es[i];
    }
  }

  lemma FetchRuns(s: State, s1: State, s2: State, raws: seq<Raw>, r: Renderer)
    requires s.pc.Top? && s1 == s.(pc := Polling(s.cursor, s.era))
    requires s2 == s1.(pc := Fetched(s.cursor, s.era, raws), backoff := BACKOFF_FIRST)
    requires IsAnswer(raws, s.inbox, s.cursor)
    ensures IsRun([s, s1, s2], [ReadCursor, FetchAnswers(raws)], r)
  {
    var ss, es := [s, s1, s2], [ReadCursor, FetchAnswers(raws)];
    assert Enabled(ss[0], es[0]) && ss[1] == Apply(ss[0], es[0], r);
    assert Enabled(ss[1], es[1]) && ss[2] == Apply(ss[1], es[1], r);
  }

  lemma OfferRuns(o: State, s2: State, r: Renderer)
    requires s2.pc.Fetched? && SelectStep(s2, r) == o && o.pc.Offered?
    ensures IsRun([s2, o, RefuseStep(o)], [Select, Refuse], r)
  {
    var ss, es := [s2, o, RefuseStep(o)], [Select, Refuse];
    assert Enabled(ss[0], es[0]) && ss[1] == Apply(ss[0], es[0], r);
    assert Enabled(ss[1], es[1]) && ss[2] == Apply(ss[1], es[1], r);
  }

  lemma Display(a: State, b: State, c: State, d: State, e: State)
    ensures [a, b, c] + [c, d, e][1..] == [a, b, c, d, e]
  {
  }

  lemma RoundRuns(s: State, s1: State, s2: State, raws: seq<Raw>, r: Renderer)
    requires ShowsSome(r) && s.pc.Top? && s1 == s.(pc := Polling(s.cursor, s.era))
    requires s2 == s1.(pc := Fetched(s.cursor, s.era, raws), backoff := BACKOFF_FIRST)
    requires IsAnswer(raws, s.inbox, s.cursor) && SelectStep(s2, r) == OfferAt(s, r)
    ensures var o := OfferAt(s, r);
            IsRun([s, s1, s2, o, RefuseStep(o)], [ReadCursor, FetchAnswers(raws), Select, Refuse], r)
  {
    var o := OfferAt(s, r);
    FetchRuns(s, s1, s2, raws, r);
    OfferRuns(o, s2, r);
    Join([s, s1, s2], [ReadCursor, FetchAnswers(raws)], [s2, o, RefuseStep(o)], [Select, Refuse], r);
    Display(s, s1, s2, o, RefuseStep(o));
    assert [ReadCursor, FetchAnswers(raws)] + [Select, Refuse] == [ReadCursor, FetchAnswers(raws), Select, Refuse];
  }

  lemma OfferSettled(s: State, r: Renderer)
    requires ShowsSome(r) && Settled(s, r) && s.pc.Top? && Above(s.inbox, s.cursor) != []
    ensures Settled(OfferAt(s, r), r) && Budget(OfferAt(s, r)) == Budget(s)
  {
    BatchShape(s, r);
  }

  lemma RunPrefix(ss: seq<State>, es: seq<Event>, r: Renderer, k: nat)
    requires IsRun(ss, es, r) && k <= |es|
    ensures IsRun(ss[..k + 1], es[..k], r)
  {
  }

  /** `es` are steps of a pump left alone whose driver always gives the same answer. */
  predicate AllAnswered(es: seq<Event>, accepted: bool) {
    forall k :: 0 <= k < |es| ==> Alone(es[k]) && (Answer(es[k]) ==> es[k].Accept? == accepted)
  }

  lemma RoundIsRefused(s: State)
    ensures AllAnswered(RoundEvents(s), false) && AllAnswered(RoundEvents(s) + [WriteOk], false)
    ensures Answered(RoundEvents(s)) == 1 && Answered(RoundEvents(s) + [WriteOk]) == 1
  {
    var es := RoundEvents(s);
    OneAnswer(es[0], es[1], es[2], es[3]);
    AnsweredMore(es, WriteOk);
  }

  lemma OneAnswer(a: Event, b: Event, c: Event, d: Event)
    requires !Answer(a) && !Answer(b) && !Answer(c)
    ensures Answered([a, b, c]) == 0 && Answered([a, b, c, d]) == if Answer(d) then 1 else 0
  {
    assert [a, b, c, d][..3] == [a, b, c] && [a, b, c][..2] == [a, b] && [a, b][..1] == [a] && [a][..0] == [];
    assert Answered([a]) == 0 && Answered([a, b]) == 0;
  }

  lemma AnsweredMore(es: seq<Event>, e: Event)
    ensures Answered(es + [e]) == Answered(es) + if Answer(e) then 1 else 0
  {
    assert (es + [e])[..|es|] == es;
  }

  /** One refused round, with the skip when it is the fifth. */
  lemma RoundAndSkip(s: State, r: Renderer) returns (ss: seq<State>, es: seq<Event>)
    requires ShowsSome(r) && Settled(s, r) && s.pc.Top? && Above(s.inbox, s.cursor) != []
    ensures IsRun(ss, es, r) && ss[0] == s && AllAnswered(es, false) && Answered(es) == 1
    ensures var t := ss[|es|]; t.pc.Top? && Settled(t, r) && Budget(t) < Budget(s) && t.inbox == s.inbox
  {
    OfferSettled(s, r);
    var o := OfferAt(s, r);
    RefuseAlone(o, r);
    var t := RefuseStep(o);
    RoundIsRefused(s);
    ss := Round(s, r);
    es := RoundEvents(s);
    if t.pc.Committing? {
      WriteAlone(t, r);
      Extend(ss, es, WriteOk, WriteStep(t), r);
      ss, es := ss + [WriteStep(t)], es + [WriteOk];
    }
  }

  /** Refused over and over, a pump left alone still gets its cursor past every unread message, within five offers
      each. */
  lemma {:induction false} RefusedInboxDrains(s: State, r: Renderer) returns (ss: seq<State>, es: seq<Event>)
    requires ShowsSome(r) && Settled(s, r) && s.pc.Top?
    ensures IsRun(ss, es, r) && ss[0] == s && AllAnswered(es, false)
    ensures var t := ss[|es|]; t.pc.Top? && t.inbox == s.inbox && Above(t.inbox, t.cursor) == []
    ensures Answered(es) <= Budget(s)
    decreases Budget(s)
  {
    BudgetNonNegative(s, r);
    if Above(s.inbox, s.cursor) == [] {
      ss, es := [s], [];
    } else {
      var ss1, es1 := RoundAndSkip(s, r);
      BudgetNonNegative(ss1[|es1|], r);
      var ss2, es2 := RefusedInboxDrains(ss1[|es1|], r);
      Join(ss1, es1, ss2, es2, r);
      AnsweredJoin(es1, es2);
      ss, es := ss1 + ss2[1..], es1 + es2;
    }
  }

  /** The five steps of one accepted round. */
  ghost function ServedEvents(s: State): seq<Event> {
    [ReadCursor, FetchAnswers(Wrapped(Page(s.inbox, s.cursor))), Select] + [Accept] + [WriteOk]
  }

  lemma ServedIsAccepted(s: State)
    ensures AllAnswered(ServedEvents(s), true) && Answered(ServedEvents(s)) == 1
  {
    var a, b, c := ReadCursor, FetchAnswers(Wrapped(Page(s.inbox, s.cursor))), Select;
    OneAnswer(a, b, c, Accept);
    assert [a, b, c] + [Accept] == [a, b, c, Accept];
    AnsweredMore([a, b, c] + [Accept], WriteOk);
  }

  lemma ServedSettles(s: State, r: Renderer)
    requires ShowsSome(r) && Settled(s, r) && s.pc.Top? && Above(s.inbox, s.cursor) != []
    ensures OfferAt(s, r).pc.offer.batch != []
    ensures var t := WriteStep(AcceptStep(OfferAt(s, r)));
            t.pc.Top? && Settled(t, r) && t.inbox == s.inbox && |Above(t.inbox, t.cursor)| < |Above(s.inbox, s.cursor)|
  {
    OfferSettled(s, r);
    var o := OfferAt(s, r);
    AcceptAlone(o, r);
    WriteAlone(AcceptStep(o), r);
    OfferIsUnread(o, r);
  }

  /** One accepted round passes at least one message and leaves the loop at its top. */
  lemma ServedRound(s: State, r: Renderer) returns (ss: seq<State>)
    requires ShowsSome(r) && Settled(s, r) && s.pc.Top? && Above(s.inbox, s.cursor) != []
    ensures IsRun(ss, ServedEvents(s), r) && ss[0] == s
    ensures OfferAt(s, r).pc.offer.batch != [] && ss[|ServedEvents(s)|] == WriteStep(AcceptStep(OfferAt(s, r)))
  {
    ServedSettles(s, r);
    var head := Round(s, r);
    RunPrefix(head, RoundEvents(s), r, 3);
    var o := OfferAt(s, r);
    var a, b, c := ReadCursor, FetchAnswers(Wrapped(Page(s.inbox, s.cursor))), Select;
    assert RoundEvents(s)[..3] == [a, b, c] && head[..4][3] == o;
    Extend(head[..4], [a, b, c], Accept, AcceptStep(o), r);
    Extend(head[..4] + [AcceptStep(o)], [a, b, c] + [Accept], WriteOk, WriteStep(AcceptStep(o)), r);
    ss := head[..4] + [AcceptStep(o)] + [WriteStep(AcceptStep(o))];
  }

  /** Accepted every time, a pump left alone gets its cursor past every unread message in at most one offer each, and is
      back at its top. */
  lemma {:induction false} AcceptedInboxDrains(s: State, r: Renderer) returns (ss: seq<State>, es: seq<Event>)
    requires ShowsSome(r) && Settled(s, r) && s.pc.Top?
    ensures IsRun(ss, es, r) && ss[0] == s && AllAnswered(es, true)
    ensures var t := ss[|es|]; t.pc.Top? && t.inbox == s.inbox && Above(t.inbox, t.cursor) == []
    ensures Answered(es) <= |Above(s.inbox, s.cursor)|
    decreases |Above(s.inbox, s.cursor)|
  {
    if Above(s.inbox, s.cursor) == [] {
      ss, es := [s], [];
    } else {
      var ss1 := ServedRound(s, r);
      var es1 := ServedEvents(s);
      ServedIsAccepted(s);
      ServedSettles(s, r);
      var ss2, es2 := AcceptedInboxDrains(ss1[|es1|], r);
      Join(ss1, es1, ss2, es2, r);
      AnsweredJoin(es1, es2);
      ss, es := ss1 + ss2[1..], es1 + es2;
    }
  }
}
