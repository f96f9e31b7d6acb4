/** Two runs in which a cursor reset (crates/agora-hooks/src/session_start.rs, compact or clear) makes the pump pass
    a message it did not deliver. `PumpRuns.CommitPassesOnlyHandled` says exactly when that happens. */
module PumpResets {
  import opened Inbox
  import opened Pump
  import opened PumpRuns
  import opened PumpDrain

  lemma Unhandled(ss: seq<State>, es: seq<Event>, r: Renderer, i: nat, m: Message)
    requires IsRun(ss, es, r) && Init(ss[0]) && i < |es| && es[i].WriteOk?
    requires Passes(ss[i], m)
    ensures Inv(ss[i])
    ensures m.no <= EvidenceFloor(ss[i]) ==> !Handled(Answers(ss, es, i), m)
  {
    InvAlong(ss, es, r, i);
    PassedIsHandled(ss, es, r, i, m);
  }

  ghost function AfterReset(o: State): seq<State>
    requires o.pc.Offered? && o.pc.offer.batch != []
  {
    var t1 := o.(cursor := 0, era := o.era + 1);
    var t2 := AcceptStep(t1);
    [o, t1, t2, WriteStep(t2)]
  }

  lemma AfterResetRuns(o: State, r: Renderer)
    requires o.pc.Offered? && o.pc.offer.batch != []
    ensures IsRun(AfterReset(o), [HookReset, Accept, WriteOk], r)
  {
    var ts := AfterReset(o);
    assert Apply(ts[0], HookReset, r) == ts[1];
    assert Apply(ts[1], Accept, r) == ts[2];
    assert Apply(ts[2], WriteOk, r) == ts[3];
  }

  lemma UndoneBy(s: State, r: Renderer, m: Message)
    requires ShowsSome(r) && InboxOk(s) && BatchAt(s, r) != [] && m in s.inbox && 0 < m.no <= s.cursor
    ensures var ts := AfterReset(OfferAt(s, r));
            && Passes(ts[2], m) && ts[2].pc.why.Accepted? && ts[2].pc.offer.floor == s.cursor
            && ts[3].inbox == s.inbox && ts[3].cursor >= m.no
  {
    OfferIsUnread(s, r);
  }

  /** From every start: the cursor is reset while a batch is with the driver, and accepting that batch writes the
      cursor back past every unacked message the reset asked to deliver again. */
  lemma AcceptUndoesReset(s: State, r: Renderer, m: Message) returns (ss: seq<State>, es: seq<Event>)
    requires ShowsSome(r) && Init(s) && Above(s.inbox, s.cursor) != []
    requires m in s.inbox && 0 < m.no <= s.cursor
    ensures IsRun(ss, es, r) && ss[0] == s && |es| == 6 && es[3].HookReset? && es[5].WriteOk?
    ensures Passes(ss[5], m) && !Handled(Answers(ss, es, 5), m)
    ensures m in ss[6].inbox && ss[6].cursor >= m.no
  {
    var head := Round(s, r);
    var o := OfferAt(s, r);
    assert BatchAt(s, r) != [] by { BatchShape(s, r); }
    UndoneBy(s, r, m);
    AfterResetRuns(o, r);
    var ts := AfterReset(o);
    RunPrefix(head, RoundEvents(s), r, 3);
    Join(head[..4], RoundEvents(s)[..3], ts, [HookReset, Accept, WriteOk], r);
    ss, es := head[..4] + ts[1..], RoundEvents(s)[..3] + [HookReset, Accept, WriteOk];
    assert ss[5] == ts[2] && ss[6] == ts[3];
    Unhandled(ss, es, r, 5, m);
  }

  ghost predicate Refused(s: State, t: State, r: Renderer, k: nat)
    requires ShowsSome(r)
  {
    && t == s.(refCount := t.refCount, refMax := t.refMax, counted := t.counted, pause := t.pause,
               backoff := BACKOFF_FIRST)
    && t.refCount == k == |t.counted|
    && BatchAt(s, r) != [] && t.refMax == BatchAt(s, r)[|BatchAt(s, r)| - 1].no
    && forall j :: 0 <= j < k ==> t.counted[j] == OfferAt(s, r).pc.offer
  }

  /** `k` refused rounds of the same batch, short of the cap. */
  lemma Rounds(s: State, r: Renderer, k: nat) returns (ss: seq<State>, es: seq<Event>)
    requires ShowsSome(r) && InboxOk(s) && s.pc.Top? && Above(s.inbox, s.cursor) != []
    requires s.refCount == 0 && s.counted == [] && 0 < k < REFUSAL_CAP
    ensures IsRun(ss, es, r) && ss[0] == s && Refused(s, ss[|es|], r, k)
  {
    if k == 1 {
      ss := Round(s, r);
      es := RoundEvents(s);
    } else {
      var ss1, es1 := Rounds(s, r, k - 1);
      var t := ss1[|es1|];
      var ss2 := Round(t, r);
      assert OfferAt(t, r).pc == OfferAt(s, r).pc;
      Join(ss1, es1, ss2, RoundEvents(t), r);
      ss, es := ss1 + ss2[1..], es1 + RoundEvents(t);
    }
  }

  ghost function Reset(t: State): State { t.(cursor := 0, era := t.era + 1) }

  /** From every start: the refusal count is keyed on the batch's last number alone. After a reset the batch grows
      downwards, keeps that number, and is skipped on its first refusal, with every unacked message in it. */
  lemma ResetSharesRefusals(s: State, r: Renderer, m: Message) returns (ss: seq<State>, es: seq<Event>, i: nat)
    requires ShowsSome(r) && Init(s) && Above(s.inbox, s.cursor) != []
    requires m in s.inbox && 0 < m.no <= s.cursor
    requires var b, c := BatchAt(s, r), BatchAt(Reset(s), r); c != [] && b != [] && c[|c| - 1].no == b[|b| - 1].no
    ensures IsRun(ss, es, r) && ss[0] == s && i < |es| && es[i].WriteOk?
    ensures ss[i].pc.Committing? && ss[i].pc.why.Skipped? && m in ss[i].pc.offer.batch
    ensures Passes(ss[i], m) && !Handled(Answers(ss, es, i), m)
    ensures m in ss[i + 1].inbox && ss[i + 1].cursor >= m.no
  {
    var ss1, es1 := Rounds(s, r, 4);
    var t := ss1[|es1|];
    var u := Reset(t);
    assert Apply(t, HookReset, r) == u;
    Join(ss1, es1, [t, u], [HookReset], r);
    var v, tail := FifthRefusal(s, t, r, m);
    Join(ss1 + [u], es1 + [HookReset], tail, RoundEvents(u) + [WriteOk], r);
    ss := ss1 + [u] + tail[1..];
    es := es1 + [HookReset] + (RoundEvents(u) + [WriteOk]);
    i := |es1| + 5;
    assert ss[i] == v && ss[i + 1] == WriteStep(v) && es[i] == WriteOk;
    Unhandled(ss, es, r, i, m);
  }

  lemma FifthOffer(s: State, t: State, r: Renderer, m: Message)
    requires ShowsSome(r) && Init(s) && Refused(s, t, r, 4)
    requires m in s.inbox && 0 < m.no <= s.cursor
    requires var b, c := BatchAt(s, r), BatchAt(Reset(s), r); c != [] && b != [] && c[|c| - 1].no == b[|b| - 1].no
    ensures var b, c := BatchAt(s, r), BatchAt(Reset(t), r); c != [] && c[|c| - 1].no == b[|b| - 1].no > s.cursor
    ensures Above(s.inbox, 0) != [] && m in BatchAt(Reset(t), r)
  {
    var u := Reset(t);
    BatchIsSame(Reset(s), u, r);
    OfferIsUnread(s, r);
    BatchShape(u, r);
    InShownBatch(u, r, m);
  }

  lemma FifthCount(s: State, t: State, r: Renderer)
    requires ShowsSome(r) && Init(s) && Refused(s, t, r, 4)
    requires var b, c := BatchAt(s, r), BatchAt(Reset(t), r); c != [] && b != [] && c[|c| - 1].no == b[|b| - 1].no
    ensures var v := RefuseStep(OfferAt(Reset(t), r));
            && v.pc.Committing? && v.pc.why.Skipped? && v.pc.offer.batch == BatchAt(Reset(t), r)
            && v.inbox == s.inbox && v.cursor == 0
            && |v.counted| == REFUSAL_CAP && v.counted[0].floor == s.cursor
  {
    var o := OfferAt(Reset(t), r);
    assert o.refCount == 4 && o.refMax == MaxSeq(o.pc.offer) && o.counted == t.counted;
  }

  lemma FifthRefusal(s: State, t: State, r: Renderer, m: Message) returns (v: State, ss: seq<State>)
    requires ShowsSome(r) && Init(s) && Refused(s, t, r, 4)
    requires m in s.inbox && 0 < m.no <= s.cursor
    requires var b, c := BatchAt(s, r), BatchAt(Reset(s), r); c != [] && b != [] && c[|c| - 1].no == b[|b| - 1].no
    ensures IsRun(ss, RoundEvents(Reset(t)) + [WriteOk], r)
    ensures ss[0] == Reset(t) && ss[4] == v && ss[5] == WriteStep(v)
    ensures v.pc.Committing? && v.pc.why.Skipped? && m in v.pc.offer.batch && Passes(v, m)
    ensures |v.counted| == REFUSAL_CAP && m.no <= Highest(v.counted)
  {
    var u := Reset(t);
    FifthOffer(s, t, r, m);
    FifthCount(s, t, r);
    var head := Round(u, r);
    v := RefuseStep(OfferAt(u, r));
    Extend(head, RoundEvents(u), WriteOk, WriteStep(v), r);
    ss := head + [WriteStep(v)];
    HighestBounds(v.counted, m.no);
  }

  /** An unread message at or below the last shown one is shown. */
  lemma InShownBatch(u: State, r: Renderer, m: Message)
    requires ShowsSome(r) && InboxOk(u) && m in u.inbox && m.no > u.cursor
    requires BatchAt(u, r) != [] && m.no <= BatchAt(u, r)[|BatchAt(u, r)| - 1].no
    ensures m in BatchAt(u, r)
  {
    var page := Page(u.inbox, u.cursor);
    PageGapless(u, u.cursor);
    PrefixGapless(u, u.cursor, page, r.shown(page));
  }
}
