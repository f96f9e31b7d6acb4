/** The inbox pump (crates/agora-bridge/src/pump.rs) as a transition system, interleaved with the other writers of
    the session cursor (crates/agora-client/src/session_state.rs and the hooks) and with the inbox itself. */
module Pump {
  import opened Inbox
  import opened Numbers

  const REFUSAL_CAP: nat := 5
  const FETCH_LIMIT: nat := 50
  const COMMIT_RETRIES: nat := 3
  const BACKOFF_FIRST: nat := 1
  const BACKOFF_MAX: nat := 30
  const REFUSAL_FIRST: nat := 5
  const REFUSAL_MAX: nat := 300

  /** `next_backoff` and `next_refusal`, in seconds. */
  function Doubled(d: nat, most: nat): nat { Min(2 * d, most) }

  /** `render_messages` within the configured cap: how many leading messages are shown, and the text of the prompt. */
  datatype Renderer = Renderer(shown: seq<Message> -> nat, text: seq<Message> -> string)

  /** A batch handed to the driver, with its prompt. The rest is history: the cursor it was selected above, the fresh
      messages the render cap left out, and the cursor resets (`session_start` on compact or clear) that had happened
      when its poll began. */
  datatype Offer = Offer(batch: seq<Message>, text: string, floor: int, unshown: seq<Message>, era: nat)

  function MaxSeq(o: Offer): int
    requires o.batch != []
  {
    o.batch[|o.batch| - 1].no
  }

  datatype Why = Accepted | Skipped

  /** Where the pump is between two awaits. */
  datatype Pc =
    | Top
    | Polling(after: int, era: nat)
    | Fetched(after: int, era: nat, raws: seq<Raw>)
    | Offered(offer: Offer)
    | Committing(offer: Offer, why: Why, failures: nat)
    | Stopped(ok: bool)

  /** `cursor` is the one on disk. `inbox` is the unacked inbox and `top` the highest number the daemon has given.
      `refMax`/`refCount` are `Refusals`. `era` and `counted` are history: the resets so far, and the offers that
      `refCount` counts. */
  datatype State = State(
    cursor: int, era: nat, inbox: seq<Message>, top: int,
    pc: Pc, refMax: int, refCount: nat, pause: nat, backoff: nat, counted: seq<Offer>)

  datatype Event =
    // the daemon and the agent
    | Arrive(m: Message)
    | Acked(gone: set<Message>)
    // the other writers of the session cursor
    | HookAdvance(to: int)
    | HookReset
    // the pump's own steps, in program order
    | ReadCursor
    | FetchFails
    | FetchAnswers(raws: seq<Raw>)
    | Select
    | Accept
    | Refuse
    | WriteOk
    | WriteFails
    | Shutdown

  /** The fetch contract: the lowest-numbered messages above `after`, at most `FETCH_LIMIT`, in any order. */
  ghost predicate IsAnswer(raws: seq<Raw>, inbox: seq<Message>, after: int) {
    multiset(NumberedOf(raws)) == multiset(Page(inbox, after))
  }

  function Page(inbox: seq<Message>, after: int): seq<Message> {
    var up := Above(inbox, after);
    up[..Min(FETCH_LIMIT, |up|)]
  }

  function Without(ms: seq<Message>, gone: set<Message>): seq<Message> {
    if ms == [] then []
    else
      var last := ms[|ms| - 1];
      Without(ms[..|ms| - 1], gone) + if last in gone then [] else [last]
  }

  ghost predicate Enabled(s: State, e: Event) {
    match e
    case Arrive(m) => m.no > s.top
    case Acked(_) => true
    case HookAdvance(_) => true
    case HookReset => true
    case ReadCursor => s.pc.Top?
    case FetchFails => s.pc.Polling?
    case FetchAnswers(raws) => s.pc.Polling? && IsAnswer(raws, s.inbox, s.pc.after)
    case Select => s.pc.Fetched?
    case Accept => s.pc.Offered?
    case Refuse => s.pc.Offered?
    case WriteOk => s.pc.Committing? && s.pc.offer.batch != []
    case WriteFails => s.pc.Committing?
    case Shutdown => !s.pc.Committing? && !s.pc.Stopped?
  }

  /** `batch_of` over the fresh messages: the rendered prefix, or nothing to show. */
  function SelectStep(s: State, r: Renderer): State
    requires s.pc.Fetched?
  {
    var floor := Max(s.pc.after, s.cursor);
    var news := Fresh(s.pc.raws, floor);
    if news == [] then s.(pc := Top)
    else
      var shown := r.shown(news);
      if shown == 0 || shown > |news| then s.(pc := Stopped(false))
      else s.(pc := Offered(Offer(news[..shown], r.text(news), floor, news[shown..], s.pc.era)))
  }

  function AcceptStep(s: State): State
    requires s.pc.Offered?
  {
    s.(pc := Committing(s.pc.offer, Accepted, 0),
       pause := REFUSAL_FIRST, refMax := 0, refCount := 0, counted := [])
  }

  /** `Refusals::refuse`, then the cap. */
  function RefuseStep(s: State): State
    requires s.pc.Offered?
  {
    var o := s.pc.offer;
    if o.batch == [] then s.(pc := Stopped(false))
    else
      var again := s.refCount != 0 && s.refMax == MaxSeq(o);
      var count := if again then s.refCount + 1 else 1;
      var counted := if again then s.counted + [o] else [o];
      var t := s.(refMax := MaxSeq(o), refCount := count, counted := counted);
      if count >= REFUSAL_CAP then t.(pc := Committing(o, Skipped, 0))
      else t.(pc := Top, pause := Doubled(s.pause, REFUSAL_MAX))
  }

  function WriteStep(s: State): State
    requires s.pc.Committing? && s.pc.offer.batch != []
  {
    var t := s.(cursor := Max(s.cursor, MaxSeq(s.pc.offer)), pc := Top);
    if s.pc.why.Accepted? then t
    else t.(refMax := 0, refCount := 0, counted := [], pause := REFUSAL_FIRST)
  }

  function Apply(s: State, e: Event, r: Renderer): State
    requires Enabled(s, e)
  {
    match e
    case Arrive(m) => s.(inbox := s.inbox + [m], top := m.no)
    case Acked(gone) => s.(inbox := Without(s.inbox, gone))
    case HookAdvance(to) => s.(cursor := Max(s.cursor, to))
    case HookReset => s.(cursor := 0, era := s.era + 1)
    case ReadCursor => s.(pc := Polling(s.cursor, s.era))
    case FetchFails => s.(pc := Top, backoff := Doubled(s.backoff, BACKOFF_MAX))
    case FetchAnswers(raws) => s.(pc := Fetched(s.pc.after, s.pc.era, raws), backoff := BACKOFF_FIRST)
    case Select => SelectStep(s, r)
    case Accept => AcceptStep(s)
    case Refuse => RefuseStep(s)
    case WriteOk => WriteStep(s)
    case WriteFails =>
      if s.pc.failures >= COMMIT_RETRIES then s.(pc := Stopped(false))
      else s.(pc := s.pc.(failures := s.pc.failures + 1))
    case Shutdown => s.(pc := Stopped(true))
  }

  /** A run: `ss[i]` is the state before event `es[i]`. */
  ghost predicate IsRun(ss: seq<State>, es: seq<Event>, r: Renderer) {
    && |ss| == |es| + 1
    && forall i :: 0 <= i < |es| ==> Enabled(ss[i], es[i]) && ss[i + 1] == Apply(ss[i], es[i], r)
  }

  ghost predicate Init(s: State) {
    && s.pc == Top && s.era == 0 && s.refCount == 0 && s.counted == []
    && s.pause == REFUSAL_FIRST && s.backoff == BACKOFF_FIRST
    && InboxOk(s)
  }

  // ----- the invariant

  ghost predicate InboxOk(s: State) {
    && Ascending(s.inbox)
    && forall m :: m in s.inbox ==> m.no <= s.top
  }

  /** `floor` was read in `era`: no reset since means the cursor is still at least `floor`. */
  ghost predicate Anchored(s: State, floor: int, era: nat) {
    era <= s.era && (era == s.era ==> floor <= s.cursor)
  }

  /** `got` holds every inbox message above `floor` up to its own last one. */
  ghost predicate Gapless(s: State, floor: int, got: seq<Message>) {
    && Ascending(got)
    && (forall m :: m in got ==> floor < m.no <= s.top)
    && (got != [] ==> forall m :: m in s.inbox && floor < m.no <= got[|got| - 1].no ==> m in got)
  }

  ghost predicate Sound(s: State, o: Offer) {
    o.batch != [] && Gapless(s, o.floor, o.batch) && Anchored(s, o.floor, o.era)
  }

  ghost predicate PcOk(s: State) {
    match s.pc
    case Top => true
    case Polling(after, era) => Anchored(s, after, era)
    case Fetched(after, era, raws) =>
      && Anchored(s, after, era)
      && Gapless(s, after, Fresh(raws, after))
      && multiset(NumberedOf(raws)) == multiset(Fresh(raws, after))
    case Offered(o) => Sound(s, o)
    case Committing(o, why, failures) =>
      && Sound(s, o) && failures <= COMMIT_RETRIES
      && (why.Accepted? ==> s.counted == [])
      && (why.Skipped? ==> |s.counted| == REFUSAL_CAP && s.counted[REFUSAL_CAP - 1] == o && s.refMax == MaxSeq(o))
    case Stopped(_) => true
  }

  ghost predicate CountOk(s: State) {
    && s.refCount == |s.counted|
    && (!(s.pc.Committing? && s.pc.why.Skipped?) && !s.pc.Stopped? ==> s.refCount < REFUSAL_CAP)
    && forall i :: 0 <= i < |s.counted| ==> Sound(s, s.counted[i]) && MaxSeq(s.counted[i]) == s.refMax
  }

  ghost predicate Inv(s: State) {
    && InboxOk(s) && PcOk(s) && CountOk(s)
    && REFUSAL_FIRST <= s.pause <= REFUSAL_MAX && BACKOFF_FIRST <= s.backoff <= BACKOFF_MAX
  }

  // ----- what the environment cannot break

  lemma {:induction false} WithoutMembers(ms: seq<Message>, gone: set<Message>)
    ensures forall m :: m in Without(ms, gone) <==> m in ms && m !in gone
  {
    if ms != [] {
      WithoutMembers(ms[..|ms| - 1], gone);
      assert ms == ms[..|ms| - 1] + [ms[|ms| - 1]];
    }
  }

  lemma {:induction false} WithoutAscending(ms: seq<Message>, gone: set<Message>)
    requires Ascending(ms)
    ensures Ascending(Without(ms, gone))
  {
    if ms != [] {
      var init := ms[..|ms| - 1];
      WithoutAscending(init, gone);
      WithoutMembers(init, gone);
      assert forall m :: m in init ==> m.no < ms[|ms| - 1].no;
      assert forall i :: 0 <= i < |Without(init, gone)| ==> Without(init, gone)[i] in init;
    }
  }

  /** The world moved on for a waiting offer: nothing numbered at or below the old top appeared, and the cursor
      fell only through a counted reset. */
  ghost predicate Later(s: State, t: State) {
    && s.top <= t.top && s.era <= t.era
    && (s.era == t.era ==> s.cursor <= t.cursor)
    && forall m :: m in t.inbox && m.no <= s.top ==> m in s.inbox
  }

  lemma SoundLater(s: State, t: State, o: Offer)
    requires Sound(s, o) && Later(s, t)
    ensures Sound(t, o)
  {
    assert o.batch[|o.batch| - 1] in o.batch;
  }

  lemma StepIsLater(s: State, e: Event, r: Renderer)
    requires Inv(s) && Enabled(s, e)
    ensures Later(s, Apply(s, e, r)) && InboxOk(Apply(s, e, r))
  {
    if e.Acked? {
      WithoutMembers(s.inbox, e.gone);
      WithoutAscending(s.inbox, e.gone);
    }
  }

  lemma CountedLater(s: State, t: State)
    requires CountOk(s) && Later(s, t)
    ensures forall i :: 0 <= i < |s.counted| ==> Sound(t, s.counted[i])
  {
    forall i | 0 <= i < |s.counted|
      ensures Sound(t, s.counted[i])
    {
      SoundLater(s, t, s.counted[i]);
    }
  }

  lemma PcLater(s: State, t: State)
    requires PcOk(s) && Later(s, t) && t.pc == s.pc && t.counted == s.counted && t.refMax == s.refMax
    ensures PcOk(t)
  {
    match s.pc
    case Offered(o) => SoundLater(s, t, o);
    case Committing(o, _, _) => SoundLater(s, t, o);
    case Fetched(after, _, raws) =>
      var got := Fresh(raws, after);
      if got != [] {
        assert got[|got| - 1] in got;
      }
    case _ =>
  }

  // ----- the pump's own steps keep the invariant

  /** A page of the inbox is gapless above the cursor it was asked for. */
  lemma PageGapless(s: State, after: int)
    requires InboxOk(s)
    ensures Gapless(s, after, Page(s.inbox, after))
  {
    var up := Above(s.inbox, after);
    AboveMembers(s.inbox, after);
    AboveAscending(s.inbox, after);
    PrefixGapless(s, after, up, Min(FETCH_LIMIT, |up|));
  }

  lemma PrefixGapless(s: State, floor: int, got: seq<Message>, k: nat)
    requires Gapless(s, floor, got) || (Ascending(got) && forall m :: m in got <==> m in s.inbox && m.no > floor)
    requires InboxOk(s) && k <= |got|
    ensures Gapless(s, floor, got[..k])
  {
    forall m | k > 0 && m in s.inbox && floor < m.no <= got[k - 1].no
      ensures m in got[..k]
    {
      assert m in got by {
        assert got[k - 1].no <= got[|got| - 1].no;
      }
      var i :| 0 <= i < |got| && got[i] == m;
      assert i < k;
      assert got[..k][i] == m;
    }
  }

  lemma FetchKeeps(s: State, raws: seq<Raw>, r: Renderer)
    requires Inv(s) && Enabled(s, FetchAnswers(raws))
    ensures PcOk(Apply(s, FetchAnswers(raws), r))
  {
    var page, after := Page(s.inbox, s.pc.after), s.pc.after;
    PageGapless(s, after);
    FreshOfPermutation(raws, page, after);
    AboveAll(page, after);
  }

  /** What is fresh above the later of the two cursors is an unbroken run of unread messages. */
  lemma NewsGapless(s: State)
    requires PcOk(s) && s.pc.Fetched?
    ensures var floor := Max(s.pc.after, s.cursor); Gapless(s, floor, Fresh(s.pc.raws, floor))
  {
    var after, raws := s.pc.after, s.pc.raws;
    var floor, got := Max(after, s.cursor), Fresh(raws, after);
    FreshOfPermutation(raws, got, floor);
    SuffixGapless(s, after, floor, got);
  }

  lemma SelectKeeps(s: State, r: Renderer)
    requires InboxOk(s) && PcOk(s) && s.pc.Fetched?
    ensures PcOk(SelectStep(s, r))
    ensures var t := SelectStep(s, r); t.pc.Offered? ==> t.pc.offer.floor == Max(s.pc.after, s.cursor)
  {
    var t := SelectStep(s, r);
    if t.pc.Offered? {
      NewsGapless(s);
      var floor := Max(s.pc.after, s.cursor);
      var news := Fresh(s.pc.raws, floor);
      PrefixGapless(s, floor, news, r.shown(news));
      assert Sound(s, t.pc.offer);
    }
  }

  lemma SuffixGapless(s: State, after: int, floor: int, got: seq<Message>)
    requires Gapless(s, after, got) && after <= floor
    ensures Gapless(s, floor, Above(got, floor))
  {
    var news := Above(got, floor);
    AboveMembers(got, floor);
    AboveAscending(got, floor);
    if news != [] {
      assert news[|news| - 1] in news;
      assert news[|news| - 1] in got;
    }
  }

  lemma AnswerKeeps(s: State, e: Event, r: Renderer)
    requires Inv(s) && s.pc.Offered? && (e.Accept? || e.Refuse?)
    ensures Inv(Apply(s, e, r))
  {
    var t := Apply(s, e, r);
    SoundLater(s, t, s.pc.offer);
    CountedLater(s, t);
  }

  lemma WriteKeeps(s: State, e: Event, r: Renderer)
    requires Inv(s) && Enabled(s, e) && (e.WriteOk? || e.WriteFails?)
    ensures Inv(Apply(s, e, r))
  {
    var t := Apply(s, e, r);
    CountedLater(s, t);
    SoundLater(s, t, s.pc.offer);
  }

  lemma StepKeeps(s: State, e: Event, r: Renderer)
    requires Inv(s) && Enabled(s, e)
    ensures Inv(Apply(s, e, r))
  {
    var t := Apply(s, e, r);
    StepIsLater(s, e, r);
    match e
    case Accept => AnswerKeeps(s, e, r);
    case Refuse => AnswerKeeps(s, e, r);
    case WriteOk => WriteKeeps(s, e, r);
    case WriteFails => WriteKeeps(s, e, r);
    case FetchAnswers(raws) => FetchKeeps(s, raws, r); CountedLater(s, t);
    case Select => SelectKeeps(s, r); CountedLater(s, t);
    case Arrive(_) => PcLater(s, t); CountedLater(s, t);
    case Acked(_) => PcLater(s, t); CountedLater(s, t);
    case HookAdvance(_) => PcLater(s, t); CountedLater(s, t);
    case HookReset => PcLater(s, t); CountedLater(s, t);
    case _ => CountedLater(s, t);
  }

  lemma {:induction false} InvAlong(ss: seq<State>, es: seq<Event>, r: Renderer, i: nat)
    requires IsRun(ss, es, r) && Init(ss[0]) && i <= |es|
    ensures Inv(ss[i])
  {
    if i > 0 {
      InvAlong(ss, es, r, i - 1);
      StepKeeps(ss[i - 1], es[i - 1], r);
    }
  }
}
