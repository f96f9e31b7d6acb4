/** Where the pump is, when it stops, and what its cursor, inbox and pauses are, all read off the events of a run. */
module PumpLife {
  import opened Inbox
  import opened Numbers
  import opened Pump
  import opened PumpRuns

  // ----- the pump's own events

  predicate Own(e: Event) {
    !e.Arrive? && !e.Acked? && !e.HookAdvance? && !e.HookReset?
  }

  /** How many writes of the commit under way have failed: the failures since the driver's last answer. */
  function FailedWrites(es: seq<Event>): nat {
    if es == [] then 0
    else
      var before, e := FailedWrites(es[..|es| - 1]), es[|es| - 1];
      if e.Accept? || e.Refuse? then 0 else if e.WriteFails? then before + 1 else before
  }

  lemma FailedWritesStep(es: seq<Event>, i: nat)
    requires i < |es|
    ensures var n := FailedWrites(es[..i]);
            FailedWrites(es[..i + 1]) ==
            if es[i].Accept? || es[i].Refuse? then 0 else if es[i].WriteFails? then n + 1 else n
  {
    assert es[..i + 1][..i] == es[..i];
  }

  lemma StepFailures(s: State, e: Event, r: Renderer, n: nat)
    requires Enabled(s, e) && (s.pc.Committing? ==> s.pc.failures == n)
    ensures var t := Apply(s, e, r);
            t.pc.Committing? ==>
              t.pc.failures == if e.Accept? || e.Refuse? then 0 else if e.WriteFails? then n + 1 else n
  {
  }

  lemma {:induction false} FailuresAlong(ss: seq<State>, es: seq<Event>, r: Renderer, i: nat)
    requires IsRun(ss, es, r) && Init(ss[0]) && i <= |es|
    ensures ss[i].pc.Committing? ==> ss[i].pc.failures == FailedWrites(es[..i])
  {
    if i > 0 {
      FailuresAlong(ss, es, r, i - 1);
      StepFailures(ss[i - 1], es[i - 1], r, FailedWrites(es[..i - 1]));
      FailedWritesStep(es, i - 1);
    }
  }

  // ----- when it stops

  /** What a selection in `s` finds fresh. */
  ghost function News(s: State): seq<Message>
    requires s.pc.Fetched?
  {
    Fresh(s.pc.raws, Max(s.pc.after, s.cursor))
  }

  /** The renderer can show no message, or claims to show more than there are. */
  ghost predicate Unshowable(s: State, r: Renderer) {
    s.pc.Fetched? && News(s) != [] && (r.shown(News(s)) == 0 || r.shown(News(s)) > |News(s)|)
  }

  ghost predicate StopsAt(ss: seq<State>, es: seq<Event>, r: Renderer, i: nat)
    requires |ss| == |es| + 1 && i < |es|
  {
    || es[i].Shutdown?
    || (es[i].WriteFails? && FailedWrites(es[..i]) >= 3)
    || (es[i].Select? && Unshowable(ss[i], r))
  }

  /** Over every run the pump stops at a shutdown, at the fourth failed write of one commit, or at a selection its
      renderer cannot show, and at nothing else. It stops in good order only at a shutdown. */
  lemma StopsOnlyThen(ss: seq<State>, es: seq<Event>, r: Renderer, i: nat)
    requires IsRun(ss, es, r) && Init(ss[0]) && i < |es| && !ss[i].pc.Stopped?
    ensures ss[i + 1].pc.Stopped? <==> StopsAt(ss, es, r, i)
    ensures ss[i + 1].pc == Stopped(true) <==> es[i].Shutdown?
  {
    InvAlong(ss, es, r, i);
    FailuresAlong(ss, es, r, i);
  }

  /** And it stays stopped. */
  lemma {:induction false} StoppedStays(ss: seq<State>, es: seq<Event>, r: Renderer, i: nat, j: nat)
    requires IsRun(ss, es, r) && i <= j <= |es| && ss[i].pc.Stopped?
    ensures ss[j].pc == ss[i].pc
  {
    if i < j {
      StoppedStays(ss, es, r, i, j - 1);
    }
  }

  // ----- where it is

  /** The offer of the last selection had been refused in a row often enough to be skipped. */
  ghost predicate Capped(ss: seq<State>, es: seq<Event>, i: nat)
    requires |ss| == |es| + 1 && i < |es|
  {
    ss[i].pc.Offered? && ss[i].pc.offer.batch != []
    && ss[i].refCount == 4 && ss[i].refMax == MaxSeq(ss[i].pc.offer)
  }

  /** Each of the pump's own events but the last leads to the next await of the loop, and nothing else moves it. */
  lemma NextAwait(ss: seq<State>, es: seq<Event>, r: Renderer, i: nat)
    requires IsRun(ss, es, r) && Init(ss[0]) && i < |es| && !StopsAt(ss, es, r, i)
    ensures var pc := ss[i + 1].pc;
            match es[i]
            case ReadCursor => pc == Polling(ss[i].cursor, ss[i].era)
            case FetchFails => pc == Top
            case FetchAnswers(raws) => pc.Fetched? && pc.raws == raws && pc.after == ss[i].pc.after
            case Select => if News(ss[i]) == [] then pc == Top else pc.Offered?
            case Accept => pc.Committing? && pc.why.Accepted? && pc.offer == ss[i].pc.offer
            case Refuse => if Capped(ss, es, i) then pc.Committing? && pc.why.Skipped? else pc == Top
            case WriteOk => pc == Top
            case WriteFails => pc.Committing? && pc.offer == ss[i].pc.offer && pc.why == ss[i].pc.why
            case Shutdown => false
            case _ => pc == ss[i].pc
  {
    InvAlong(ss, es, r, i);
    FailuresAlong(ss, es, r, i);
  }

  /** The pump is never stuck: at each await every outcome is possible, a shutdown can come at all of them but not while
      a commit is written, and the hooks and the store go on meanwhile. */
  lemma NeverStuck(s: State, raws: seq<Raw>, gone: set<Message>, to: int, m: Message)
    ensures s.pc.Top? ==> Enabled(s, ReadCursor)
    ensures s.pc.Polling? ==>
              Enabled(s, FetchFails) && (IsAnswer(raws, s.inbox, s.pc.after) ==> Enabled(s, FetchAnswers(raws)))
    ensures s.pc.Fetched? ==> Enabled(s, Select)
    ensures s.pc.Offered? ==> Enabled(s, Accept) && Enabled(s, Refuse)
    ensures s.pc.Committing? && s.pc.offer.batch != [] ==> Enabled(s, WriteOk) && Enabled(s, WriteFails)
    ensures Enabled(s, Shutdown) <==> !s.pc.Committing? && !s.pc.Stopped?
    ensures Enabled(s, Acked(gone)) && Enabled(s, HookAdvance(to)) && Enabled(s, HookReset)
    ensures m.no > s.top ==> Enabled(s, Arrive(m))
  {
  }

  /** A fetch answers with the fifty lowest-numbered messages above the cursor it was asked for, or all there are. */
  lemma FetchIsLowestFifty(raws: seq<Raw>, inbox: seq<Message>, after: int, m: Message, n: Message)
    requires Ascending(inbox) && IsAnswer(raws, inbox, after)
    ensures |NumberedOf(raws)| == Min(50, |Above(inbox, after)|)
    ensures m in NumberedOf(raws) ==> m in inbox && m.no > after
    ensures m in NumberedOf(raws) && n in inbox && n.no > after && n !in NumberedOf(raws) ==> m.no < n.no
  {
    var up, page := Above(inbox, after), Page(inbox, after);
    AboveAscending(inbox, after);
    AboveMembers(inbox, after);
    assert forall k :: 0 <= k < |page| ==> up[k] in page;
    assert |multiset(NumberedOf(raws))| == |multiset(page)|;
    assert forall x :: x in NumberedOf(raws) <==> x in multiset(page);
    if m in NumberedOf(raws) && n in up && n !in NumberedOf(raws) {
      assert m in page && n !in page;
      var i :| 0 <= i < |page| && page[i] == m;
      var j :| 0 <= j < |up| && up[j] == n;
    }
  }

  /** An offer is the shown prefix of what was fresh, with the text of all of it. */
  lemma OfferIs(ss: seq<State>, es: seq<Event>, r: Renderer, i: nat)
    requires IsRun(ss, es, r) && Init(ss[0]) && i < |es| && es[i].Select? && ss[i + 1].pc.Offered?
    ensures var o, news := ss[i + 1].pc.offer, News(ss[i]);
            && 0 < |o.batch| == r.shown(news) <= |news| && o.batch == news[..|o.batch|] && o.text == r.text(news)
            && o.unshown == news[|o.batch|..] && o.floor == Max(ss[i].pc.after, ss[i].cursor)
  {
  }

  // ----- the cursor

  /** What event `k` asks the cursor to reach, if it writes it. */
  ghost predicate Writes(ss: seq<State>, es: seq<Event>, k: nat, x: int)
    requires |ss| == |es| + 1 && k < |es|
  {
    || es[k] == HookAdvance(x)
    || (es[k].WriteOk? && ss[k].pc.Committing? && ss[k].pc.offer.batch != [] && x == MaxSeq(ss[k].pc.offer))
  }

  /** `x` was the cursor at `i`, or was written since. */
  ghost predicate Reached(ss: seq<State>, es: seq<Event>, i: nat, j: nat, x: int)
    requires |ss| == |es| + 1 && i <= j <= |es|
  {
    x == ss[i].cursor || exists k :: i <= k < j && Writes(ss, es, k, x)
  }

  lemma StepWrites(ss: seq<State>, es: seq<Event>, r: Renderer, k: nat)
    requires IsRun(ss, es, r) && k < |es| && !es[k].HookReset?
    ensures ss[k].cursor <= ss[k + 1].cursor
    ensures ss[k + 1].cursor == ss[k].cursor || Writes(ss, es, k, ss[k + 1].cursor)
    ensures forall x :: Writes(ss, es, k, x) ==> x <= ss[k + 1].cursor
  {
    CursorFallsOnlyOnReset(ss[k], es[k], r);
  }

  lemma ReachedStep(ss: seq<State>, es: seq<Event>, i: nat, j: nat, x: int)
    requires |ss| == |es| + 1 && i < j <= |es|
    ensures Reached(ss, es, i, j, x) <==> Reached(ss, es, i, j - 1, x) || Writes(ss, es, j - 1, x)
  {
    if x != ss[i].cursor && Reached(ss, es, i, j - 1, x) {
      var k :| i <= k < j - 1 && Writes(ss, es, k, x);
      assert i <= k < j;
    }
  }

  lemma {:induction false} LargestAlong(ss: seq<State>, es: seq<Event>, r: Renderer, i: nat, j: nat, x: int)
    requires IsRun(ss, es, r) && i <= j <= |es| && NoReset(es, i, j) && Reached(ss, es, i, j, x)
    ensures x <= ss[j].cursor
  {
    if i < j {
      assert !es[j - 1].HookReset?;
      StepWrites(ss, es, r, j - 1);
      ReachedStep(ss, es, i, j, x);
      if Reached(ss, es, i, j - 1, x) {
        LargestAlong(ss, es, r, i, j - 1, x);
      }
    }
  }

  lemma {:induction false} ReachedAlong(ss: seq<State>, es: seq<Event>, r: Renderer, i: nat, j: nat)
    requires IsRun(ss, es, r) && i <= j <= |es| && NoReset(es, i, j)
    ensures Reached(ss, es, i, j, ss[j].cursor)
  {
    if i < j {
      assert !es[j - 1].HookReset?;
      ReachedAlong(ss, es, r, i, j - 1);
      StepWrites(ss, es, r, j - 1);
      ReachedStep(ss, es, i, j, ss[j].cursor);
    }
  }

  /** Between two resets the cursor is exactly the largest number anyone wrote, and a reset makes it zero. */
  lemma CursorIsLargestWritten(ss: seq<State>, es: seq<Event>, r: Renderer, i: nat, j: nat, x: int)
    requires IsRun(ss, es, r) && i <= j <= |es| && NoReset(es, i, j)
    ensures Reached(ss, es, i, j, ss[j].cursor)
    ensures Reached(ss, es, i, j, x) ==> x <= ss[j].cursor
    ensures j < |es| && es[j].HookReset? ==> ss[j + 1].cursor == 0 && ss[j + 1].era == ss[j].era + 1
  {
    ReachedAlong(ss, es, r, i, j);
    if Reached(ss, es, i, j, x) {
      LargestAlong(ss, es, r, i, j, x);
    }
  }

  // ----- the inbox

  lemma {:induction false} WithoutIs(ms: seq<Message>, gone: set<Message>, m: Message)
    ensures m in Without(ms, gone) <==> m in ms && m !in gone
  {
    WithoutMembers(ms, gone);
  }

  /** A message is in the inbox exactly when it was there or arrived, and was not acked since. */
  lemma {:induction false} InboxIsUnacked(ss: seq<State>, es: seq<Event>, r: Renderer, i: nat, m: Message)
    requires IsRun(ss, es, r) && i <= |es|
    ensures m in ss[i].inbox <==> Unacked(ss, es, i, m)
  {
    if i == 0 {
      if m in ss[0].inbox {
        assert KeptFrom(ss, es, 0, 0, m);
      }
    } else {
      var s, e := ss[i - 1], es[i - 1];
      InboxIsUnacked(ss, es, r, i - 1, m);
      StepInbox(s, e, r, m);
      assert ss[i] == Apply(s, e, r);
      UnackedStep(ss, es, i - 1, i, m);
    }
  }

  lemma StepInbox(s: State, e: Event, r: Renderer, m: Message)
    requires Enabled(s, e)
    ensures m in Apply(s, e, r).inbox <==> e == Arrive(m) || (m in s.inbox && !(e.Acked? && m in e.gone))
  {
    if e.Acked? {
      WithoutIs(s.inbox, e.gone, m);
    }
  }

  /** `m` was there at the start (`k == 0`) or arrived as event `k - 1`, and no later event before `i` acked it. */
  ghost predicate KeptFrom(ss: seq<State>, es: seq<Event>, k: nat, i: nat, m: Message)
    requires |ss| == |es| + 1 && k <= i <= |es|
  {
    && (if k == 0 then m in ss[0].inbox else es[k - 1] == Arrive(m))
    && forall n :: k <= n < i && es[n].Acked? ==> m !in es[n].gone
  }

  ghost predicate Unacked(ss: seq<State>, es: seq<Event>, i: nat, m: Message)
    requires |ss| == |es| + 1 && i <= |es|
  {
    exists k :: 0 <= k <= i && KeptFrom(ss, es, k, i, m)
  }

  lemma UnackedStep(ss: seq<State>, es: seq<Event>, i: nat, j: nat, m: Message)
    requires |ss| == |es| + 1 && i < |es| && j == i + 1
    ensures Unacked(ss, es, j, m) <==>
            es[i] == Arrive(m) || (Unacked(ss, es, i, m) && !(es[i].Acked? && m in es[i].gone))
  {
    if es[i] == Arrive(m) {
      assert KeptFrom(ss, es, j, j, m);
    }
    if Unacked(ss, es, i, m) && !(es[i].Acked? && m in es[i].gone) {
      var k :| 0 <= k <= i && KeptFrom(ss, es, k, i, m);
      assert KeptFrom(ss, es, k, j, m);
    }
    if Unacked(ss, es, j, m) && es[i] != Arrive(m) {
      var k :| 0 <= k <= j && KeptFrom(ss, es, k, j, m);
      assert KeptFrom(ss, es, k, i, m);
    }
  }

  // ----- the pauses

  /** `first` doubled `k` times, up to `most`. */
  function Backed(first: nat, most: nat, k: nat): nat {
    if k == 0 then first else Min(2 * Backed(first, most, k - 1), most)
  }

  /** Failed fetches since the last one that was answered. */
  function Misses(es: seq<Event>): nat {
    if es == [] then 0 else MissesThen(Misses(es[..|es| - 1]), es[|es| - 1])
  }

  function MissesThen(before: nat, e: Event): nat {
    if e.FetchAnswers? then 0 else if e.FetchFails? then before + 1 else before
  }

  /** Refusals since the last acceptance or skip. */
  function Streak(es: seq<Event>): nat {
    if es == [] then 0 else StreakThen(Streak(es[..|es| - 1]), es[|es| - 1])
  }

  function StreakThen(before: nat, e: Event): nat {
    if e.Accept? || e.WriteOk? then 0 else if e.Refuse? then before + 1 else before
  }

  lemma CountsStep(es: seq<Event>, i: nat)
    requires i < |es|
    ensures Misses(es[..i + 1]) == MissesThen(Misses(es[..i]), es[i])
    ensures Streak(es[..i + 1]) == StreakThen(Streak(es[..i]), es[i])
  {
    assert es[..i + 1][..i] == es[..i];
  }

  ghost predicate PausesAre(s: State, misses: nat, streak: nat) {
    && s.backoff == Backed(1, 30, misses)
    && (!s.pc.Stopped? && !(s.pc.Committing? && s.pc.why.Skipped?) ==>
          s.pause == Backed(5, 300, streak))
    && (s.pc.Committing? && s.pc.why.Accepted? ==> streak == 0)
  }

  lemma StepPauses(s: State, e: Event, r: Renderer, misses: nat, streak: nat)
    requires Enabled(s, e) && PausesAre(s, misses, streak) && (s.pc.Offered? ==> s.pc.offer.batch != [])
    ensures PausesAre(Apply(s, e, r), MissesThen(misses, e), StreakThen(streak, e))
  {
  }

  lemma OffersSomething(ss: seq<State>, es: seq<Event>, r: Renderer, i: nat)
    requires IsRun(ss, es, r) && Init(ss[0]) && i <= |es| && ss[i].pc.Offered?
    ensures ss[i].pc.offer.batch != []
  {
    InvAlong(ss, es, r, i);
  }

  lemma PausesNext(ss: seq<State>, es: seq<Event>, r: Renderer, i: nat, misses: nat, streak: nat)
    requires IsRun(ss, es, r) && Init(ss[0]) && i < |es| && PausesAre(ss[i], misses, streak)
    ensures PausesAre(ss[i + 1], MissesThen(misses, es[i]), StreakThen(streak, es[i]))
  {
    if ss[i].pc.Offered? {
      OffersSomething(ss, es, r, i);
    }
    StepPauses(ss[i], es[i], r, misses, streak);
  }

  /** The pause after failed fetches doubles from 1 to at most 30 seconds, that after refusals from 5 to at most 300,
      and each starts again after a success. While a skip is being written the pause is that of the refusal before it.
      */
  lemma {:induction false} PausesAlong(ss: seq<State>, es: seq<Event>, r: Renderer, i: nat)
    requires IsRun(ss, es, r) && Init(ss[0]) && i <= |es|
    ensures PausesAre(ss[i], Misses(es[..i]), Streak(es[..i]))
  {
    if i == 0 {
      assert es[..0] == [];
    } else {
      PausesAlong(ss, es, r, i - 1);
      PausesNext(ss, es, r, i - 1, Misses(es[..i - 1]), Streak(es[..i - 1]));
      CountsStep(es, i - 1);
    }
  }
}
