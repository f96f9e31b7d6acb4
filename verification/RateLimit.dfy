/** The token bucket of legacy/src/rate-limit.ts in thousandths of a token: capacity 30 tokens, 3 thousandths per
    millisecond, one token per call. */
module RateLimit {
  import opened Numbers
  import opened Options

  const CAP: int := 30_000
  const COST: int := 1_000
  const PER_MS: int := 3
  const WINDOW_MS: int := 10_000

  datatype Bucket = Bucket(tokens: int, last: int)

  /** The tokens `b` holds at `now`. */
  function Level(b: Bucket, now: int): int {
    Min(CAP, b.tokens + (now - b.last) * PER_MS)
  }

  /** The bucket of a process's first call, debited by the calls the audit log shows in the last window. */
  function Backfilled(recent: nat, now: int): Bucket {
    Bucket(Max(0, CAP - COST * recent), now)
  }

  datatype Decision = Decision(ok: bool, remaining: int, retryAfterS: int)

  /** `Math.ceil((1 - tokens) / REFILL_PER_MS / 1000)`. */
  function RetryAfter(level: int): int {
    (COST - level + PER_MS * 1000 - 1) / (PER_MS * 1000)
  }

  function Decide(level: int): Decision {
    if level < COST then Decision(false, 0, RetryAfter(level)) else Decision(true, (level - COST) / COST, 0)
  }

  function Debit(b: Bucket, now: int): Bucket {
    var level := Level(b, now);
    Bucket(if level < COST then level else level - COST, now)
  }

  // ----- one key over time, with restarts

  /** `granted` is history: the instants of the granted calls. */
  datatype State = State(bucket: Option<Bucket>, granted: seq<int>, now: int)

  /** `recent` is what the audit log answers; only a process's first call asks. */
  datatype Event = Call(at: int, recent: nat) | Restart

  predicate Enabled(s: State, e: Event) {
    e.Call? ==> e.at >= s.now
  }

  function Found(s: State, e: Event): Bucket
    requires e.Call?
  {
    if s.bucket.Some? then s.bucket.value else Backfilled(e.recent, e.at)
  }

  function Apply(s: State, e: Event): State {
    if e.Restart? then s.(bucket := None)
    else
      var b := Found(s, e);
      State(Some(Debit(b, e.at)), if Level(b, e.at) >= COST then s.granted + [e.at] else s.granted, e.at)
  }

  ghost predicate IsRun(ss: seq<State>, es: seq<Event>) {
    && |ss| == |es| + 1
    && forall i :: 0 <= i < |es| ==> Enabled(ss[i], es[i]) && ss[i + 1] == Apply(ss[i], es[i])
  }

  /** Grants at or after `since`. */
  function CountSince(granted: seq<int>, since: int): nat {
    if granted == [] then 0
    else CountSince(granted[..|granted| - 1], since) + if granted[|granted| - 1] >= since then 1 else 0
  }

  /** The audit log holds every granted call of the last window with its own instant. Rows of denied calls may be
      counted too. */
  ghost predicate Logged(s: State, e: Event) {
    e.Call? && s.bucket.None? ==> e.recent >= CountSince(s.granted, e.at - WINDOW_MS)
  }

  ghost predicate Ordered(granted: seq<int>, now: int) {
    && (forall i, j :: 0 <= i < j < |granted| ==> granted[i] <= granted[j])
    && (forall i :: 0 <= i < |granted| ==> granted[i] <= now)
  }

  /** The bucket of a process that never restarted, after the same granted calls. */
  function Ideal(granted: seq<int>): Bucket
    decreases |granted|, 0
  {
    if granted == [] then Bucket(CAP, 0)
    else
      var t := granted[|granted| - 1];
      Bucket(IdealLevel(granted[..|granted| - 1], t) - COST, t)
  }

  function IdealLevel(granted: seq<int>, now: int): int
    decreases |granted|, 1
  {
    if granted == [] then CAP else Level(Ideal(granted), now)
  }

  /** The never-restarted bucket could afford every grant so far. */
  ghost predicate Afforded(granted: seq<int>) {
    forall k :: 0 < k <= |granted| ==> Ideal(granted[..k]).tokens >= 0
  }

  // ----- the never-restarted bucket

  lemma {:induction false} OldGrantsDoNotCount(granted: seq<int>, since: int)
    requires forall i :: 0 <= i < |granted| ==> granted[i] < since
    ensures CountSince(granted, since) == 0
  {
    if granted != [] {
      OldGrantsDoNotCount(granted[..|granted| - 1], since);
    }
  }

  /** It holds at least a full bucket less one token per call of the last window. */
  lemma {:induction false} IdealCoversWindow(granted: seq<int>, now: int)
    requires Ordered(granted, now) && Afforded(granted)
    ensures IdealLevel(granted, now) >= Max(0, CAP - COST * CountSince(granted, now - WINDOW_MS))
  {
    if granted != [] {
      var n := |granted|;
      var init, t := granted[..n - 1], granted[n - 1];
      assert granted[..n] == granted;
      assert Ideal(granted).tokens >= 0;
      if t < now - WINDOW_MS {
        OldGrantsDoNotCount(granted, now - WINDOW_MS);
      } else {
        assert forall k :: 0 < k <= |init| ==> init[..k] == granted[..k];
        IdealCoversWindow(init, now);
        assert IdealLevel(init, now) <= IdealLevel(init, t) + (now - t) * PER_MS;
      }
    }
  }

  /** Counting from `a`, it has spent one token per grant and gained no more than a full bucket and the refill. */
  lemma {:induction false} IdealSpends(granted: seq<int>, a: int)
    requires granted != [] && Ordered(granted, granted[|granted| - 1]) && granted[|granted| - 1] >= a
    ensures Ideal(granted).tokens <= CAP + PER_MS * (granted[|granted| - 1] - a) - COST * CountSince(granted, a)
  {
    var init := granted[..|granted| - 1];
    if init == [] || init[|init| - 1] < a {
      OldGrantsDoNotCount(init, a);
    } else {
      IdealSpends(init, a);
    }
  }

  // ----- a restart never gains tokens

  ghost predicate Below(b: Bucket, granted: seq<int>, now: int) {
    b.last <= now && 0 <= b.tokens && Level(b, now) <= IdealLevel(granted, now)
  }

  ghost predicate Inv(s: State) {
    && Ordered(s.granted, s.now) && Afforded(s.granted)
    && (s.bucket.Some? ==> Below(s.bucket.value, s.granted, s.now))
  }

  lemma IdealAfterGrant(granted: seq<int>, now: int)
    ensures IdealLevel(granted + [now], now) == Min(CAP, IdealLevel(granted, now) - COST)
    ensures Ideal(granted + [now]).tokens == IdealLevel(granted, now) - COST
  {
    assert (granted + [now])[..|granted|] == granted;
  }

  lemma FoundIsConservative(s: State, e: Event)
    requires Inv(s) && Enabled(s, e) && e.Call? && Logged(s, e)
    ensures 0 <= Level(Found(s, e), e.at) <= IdealLevel(s.granted, e.at)
  {
    if s.bucket.None? {
      IdealCoversWindow(s.granted, e.at);
    }
  }

  lemma AffordedMore(granted: seq<int>, now: int)
    requires Afforded(granted) && IdealLevel(granted, now) >= COST
    ensures Afforded(granted + [now])
  {
    IdealAfterGrant(granted, now);
    var all := granted + [now];
    forall k | 0 < k <= |all|
      ensures Ideal(all[..k]).tokens >= 0
    {
      if k < |all| {
        assert all[..k] == granted[..k];
      } else {
        assert all[..k] == all;
      }
    }
  }

  lemma OrderedMore(granted: seq<int>, now: int, at: int)
    requires Ordered(granted, now) && now <= at
    ensures Ordered(granted, at) && Ordered(granted + [at], at)
  {
  }

  lemma DebitStaysBelow(b: Bucket, granted: seq<int>, at: int)
    requires 0 <= Level(b, at) <= IdealLevel(granted, at)
    ensures Level(b, at) < COST ==> Below(Debit(b, at), granted, at)
    ensures Level(b, at) >= COST ==> Below(Debit(b, at), granted + [at], at)
  {
    IdealAfterGrant(granted, at);
  }

  lemma StepKeeps(s: State, e: Event)
    requires Inv(s) && Enabled(s, e) && Logged(s, e)
    ensures Inv(Apply(s, e))
  {
    if e.Call? {
      FoundIsConservative(s, e);
      var b := Found(s, e);
      OrderedMore(s.granted, s.now, e.at);
      DebitStaysBelow(b, s.granted, e.at);
      if Level(b, e.at) >= COST {
        AffordedMore(s.granted, e.at);
      }
    }
  }

  ghost predicate Start(s: State) { s.bucket.None? && s.granted == [] }

  lemma {:induction false} InvAlong(ss: seq<State>, es: seq<Event>, i: nat)
    requires IsRun(ss, es) && Start(ss[0]) && i <= |es|
    requires forall k :: 0 <= k < i ==> Logged(ss[k], es[k])
    ensures Inv(ss[i])
  {
    if i > 0 {
      InvAlong(ss, es, i - 1);
      StepKeeps(ss[i - 1], es[i - 1]);
    }
  }

  /** However often the process restarts, its bucket never holds more than the never-restarted one would at that
      instant, so it grants only calls that one would grant too. */
  lemma RestartsNeverGain(ss: seq<State>, es: seq<Event>, i: nat)
    requires IsRun(ss, es) && Start(ss[0]) && i < |es| && es[i].Call?
    requires forall k :: 0 <= k <= i ==> Logged(ss[k], es[k])
    ensures Level(Found(ss[i], es[i]), es[i].at) <= IdealLevel(ss[i].granted, es[i].at)
    ensures |ss[i + 1].granted| > |ss[i].granted| ==> IdealLevel(ss[i].granted, es[i].at) >= COST
  {
    InvAlong(ss, es, i);
    FoundIsConservative(ss[i], es[i]);
  }

  // ----- the bound

  /** Grants in the closed interval from `a` to `b`. */
  function CountIn(granted: seq<int>, a: int, b: int): nat {
    if granted == [] then 0
    else
      var t := granted[|granted| - 1];
      CountIn(granted[..|granted| - 1], a, b) + if a <= t <= b then 1 else 0
  }

  lemma {:induction false} CountInPrefix(granted: seq<int>, a: int, b: int)
    requires Ordered(granted, b)
    ensures CountIn(granted, a, b) == CountSince(granted, a)
  {
    if granted != [] {
      CountInPrefix(granted[..|granted| - 1], a, b);
    }
  }

  lemma {:induction false} IntervalBound(granted: seq<int>, a: int, b: int)
    requires Ordered(granted, Max(b, if granted == [] then b else granted[|granted| - 1]))
    requires Afforded(granted) && a <= b
    ensures COST * CountIn(granted, a, b) <= CAP + PER_MS * (b - a)
  {
    if granted != [] {
      var n := |granted|;
      var init, t := granted[..n - 1], granted[n - 1];
      if t > b {
        assert forall k :: 0 < k <= |init| ==> init[..k] == granted[..k];
        IntervalBound(init, a, b);
      } else {
        CountInPrefix(granted, a, b);
        if t < a {
          OldGrantsDoNotCount(granted, a);
        } else {
          IdealSpends(granted, a);
          assert granted[..n] == granted;
        }
      }
    }
  }

  /** Across any number of restarts, the grants of one key in any `ms` milliseconds number at most 30 + 3 ms / 1000. */
  lemma GrantsAreBounded(ss: seq<State>, es: seq<Event>, i: nat, a: int, ms: nat)
    requires IsRun(ss, es) && Start(ss[0]) && i <= |es|
    requires forall k :: 0 <= k < i ==> Logged(ss[k], es[k])
    ensures CountIn(ss[i].granted, a, a + ms) <= 30 + 3 * ms / 1000
  {
    InvAlong(ss, es, i);
    IntervalBound(ss[i].granted, a, a + ms);
  }

  // ----- the reported wait is enough

  lemma LevelComposes(b: Bucket, t: int, u: int)
    requires b.last <= t <= u
    ensures Level(Bucket(Level(b, t), t), u) == Level(b, u)
  {
  }

  /** Denied calls do not push the bucket back: it refills as if they had not been made. */
  lemma {:induction false} DenialsAreFree(ss: seq<State>, es: seq<Event>, i: nat, j: nat, now: int)
    requires IsRun(ss, es) && i <= j <= |es| && ss[i].bucket.Some? && ss[i].bucket.value.last <= ss[i].now
    requires forall k :: i <= k < j ==> es[k].Call? && ss[k + 1].granted == ss[k].granted
    requires now >= ss[j].now
    ensures ss[j].bucket.Some? && ss[j].bucket.value.last <= ss[j].now && ss[i].now <= ss[j].now
    ensures Level(ss[j].bucket.value, now) == Level(ss[i].bucket.value, now)
  {
    if i < j {
      DenialsAreFree(ss, es, i, j - 1, now);
      LevelComposes(ss[j - 1].bucket.value, es[j - 1].at, now);
    }
  }

  /** A denial always reports one second, and a call that waits it out is granted unless another was granted first. */
  lemma RetryAfterSuffices(ss: seq<State>, es: seq<Event>, i: nat, j: nat)
    requires IsRun(ss, es) && i < j < |es| && Enabled(ss[i], es[i]) && es[i].Call? && es[j].Call?
    requires ss[i].bucket.Some? ==> ss[i].bucket.value.last <= ss[i].now && ss[i].bucket.value.tokens >= 0
    requires var d := Decide(Level(Found(ss[i], es[i]), es[i].at));
             !d.ok && es[j].at >= es[i].at + 1000 * d.retryAfterS
    requires forall k :: i <= k < j ==> es[k].Call? && ss[k + 1].granted == ss[k].granted
    ensures var d := Decide(Level(Found(ss[i], es[i]), es[i].at)); d.retryAfterS == 1 && d.remaining == 0
    ensures Decide(Level(Found(ss[j], es[j]), es[j].at)).ok && |ss[j + 1].granted| == |ss[j].granted| + 1
  {
    DenialsAreFree(ss, es, i + 1, j, es[j].at);
  }

  // ----- what the audit log must hold

  lemma Burst(s: State, k: nat) returns (ss: seq<State>, es: seq<Event>)
    requires s.bucket.Some? && s.bucket.value.last == s.now && COST * k <= s.bucket.value.tokens <= CAP
    ensures IsRun(ss, es) && |es| == k && ss[0] == s
    ensures ss[k] == State(Some(Bucket(s.bucket.value.tokens - COST * k, s.now)), s.granted + seq(k, _ => s.now), s.now)
    ensures forall i :: 0 <= i < k ==> es[i] == Call(s.now, 0)
  {
    if k == 0 {
      ss, es := [s], [];
      assert s.granted + seq(0, _ => s.now) == s.granted;
    } else {
      ss, es := Burst(s, k - 1);
      var e := Call(s.now, 0);
      assert s.granted + seq(k - 1, _ => s.now) + [s.now] == s.granted + seq(k, _ => s.now);
      ss, es := ss + [Apply(ss[k - 1], e)], es + [e];
    }
  }

  lemma {:induction false} AllInside(granted: seq<int>, a: int, b: int)
    requires forall i :: 0 <= i < |granted| ==> a <= granted[i] <= b
    ensures CountIn(granted, a, b) == |granted|
  {
    if granted != [] {
      AllInside(granted[..|granted| - 1], a, b);
    }
  }

  /** When the audit rows are lost, a restart refills the bucket: sixty calls are granted in one millisecond. */
  lemma LostRowsBreakTheBound(now: int) returns (ss: seq<State>, es: seq<Event>)
    ensures IsRun(ss, es) && Start(ss[0])
    ensures CountIn(ss[|es|].granted, now, now) == 60
  {
    var s0 := State(None, [], now);
    var s1 := Apply(s0, Call(now, 0));
    var burst, calls := Burst(s1, 29);
    var full := burst[29];
    assert full.granted == seq(30, _ => now);
    var s2 := Apply(full, Restart);
    var s3 := Apply(s2, Call(now, 0));
    var again, more := Burst(s3, 29);
    ss := [s0] + burst + [s2] + again;
    es := [Call(now, 0)] + calls + [Restart, Call(now, 0)] + more;
    forall i | 0 <= i < |es|
      ensures Enabled(ss[i], es[i]) && ss[i + 1] == Apply(ss[i], es[i])
    {
      if 1 <= i < 30 {
        assert ss[i] == burst[i - 1] && ss[i + 1] == burst[i];
      } else if i >= 32 {
        assert ss[i] == again[i - 32] && ss[i + 1] == again[i - 31] && es[i] == more[i - 32];
      }
    }
    assert ss[|es|].granted == seq(60, _ => now);
    AllInside(seq(60, _ => now), now, now);
  }

  // ----- and no call is denied without need

  /** A process's first call is granted exactly if the audit log shows fewer than thirty, and leaves the rest. */
  lemma FirstCall(s: State, e: Event)
    requires s.bucket.None? && e.Call?
    ensures var d := Decide(Level(Found(s, e), e.at));
            && (d.ok <==> e.recent < 30)
            && (d.ok ==> d.remaining == 29 - e.recent && d.retryAfterS == 0)
            && (d.ok <==> Apply(s, e).granted == s.granted + [e.at])
            && (!d.ok ==> Apply(s, e).granted == s.granted)
  {
  }

  /** `remaining` is exact: that many further calls are granted at the same instant, and the next is denied. */
  lemma RemainingIsExact(s: State, e: Event) returns (ss: seq<State>, es: seq<Event>)
    requires e.Call? && Decide(Level(Found(s, e), e.at)).ok
    ensures IsRun(ss, es) && ss[0] == Apply(s, e) && |es| == Decide(Level(Found(s, e), e.at)).remaining
    ensures Decide(Level(Found(s, e), e.at)).retryAfterS == 0
    ensures forall i :: 0 <= i < |es| ==> es[i].Call? && es[i].at == e.at
    ensures |ss[|es|].granted| == |ss[0].granted| + |es|
    ensures forall recent :: Apply(ss[|es|], Call(e.at, recent)).granted == ss[|es|].granted
  {
    ss, es := Burst(Apply(s, e), Decide(Level(Found(s, e), e.at)).remaining);
  }

  ghost predicate Within(es: seq<Event>, a: int, b: int) {
    forall i :: 0 <= i < |es| ==> es[i].Call? && a <= es[i].at <= b
  }

  /** `t` is `s` after `n` more grants between `a` and `b`. */
  ghost predicate Gained(s: State, t: State, n: nat, a: int, b: int) {
    && |t.granted| == |s.granted| + n && t.granted[..|s.granted|] == s.granted
    && forall i :: |s.granted| <= i < |t.granted| ==> a <= t.granted[i] <= b
  }

  lemma JoinRuns(ss: seq<State>, es: seq<Event>, ts: seq<State>, fs: seq<Event>)
    requires IsRun(ss, es) && IsRun(ts, fs) && ss[|es|] == ts[0]
    ensures IsRun(ss + ts[1..], es + fs) && (ss + ts[1..])[|es + fs|] == ts[|fs|]
  {
    var all, calls := ss + ts[1..], es + fs;
    forall i | 0 <= i < |calls|
      ensures Enabled(all[i], calls[i]) && all[i + 1] == Apply(all[i], calls[i])
    {
      if i >= |es| {
        assert all[i] == ts[i - |es|] && all[i + 1] == ts[i - |es| + 1];
      }
    }
  }

  /** `k` calls at `at`, all of which the bucket can afford. */
  lemma Spend(s: State, at: int, k: nat) returns (ss: seq<State>, es: seq<Event>)
    requires s.bucket.Some? && at >= s.now && 0 < k && COST * k <= Level(s.bucket.value, at)
    ensures IsRun(ss, es) && |es| == k && ss[0] == s && Within(es, at, at) && Gained(s, ss[k], k, at, at)
    ensures ss[k].bucket == Some(Bucket(Level(s.bucket.value, at) - COST * k, at)) && ss[k].now == at
  {
    var e := Call(at, 0);
    var t := Apply(s, e);
    var rest, calls := Burst(t, k - 1);
    JoinRuns([s, t], [e], rest, calls);
    ss, es := [s, t] + rest[1..], [e] + calls;
  }

  lemma GainedTwice(s: State, t: State, u: State, n: nat, m: nat, a: int, c: int, b: int)
    requires Gained(s, t, n, c, c) && Gained(t, u, m, c, b) && a <= c <= b
    ensures Gained(s, u, n + m, a, b)
  {
    assert u.granted[..|s.granted|] == u.granted[..|t.granted|][..|s.granted|];
    forall i | |s.granted| <= i < |t.granted|
      ensures u.granted[i] == t.granted[i]
    {
      assert u.granted[i] == u.granted[..|t.granted|][i];
    }
  }

  /** From an empty bucket, three calls a second can be granted for as long as one likes. */
  lemma {:induction false} Refilled(s: State, ms: nat) returns (ss: seq<State>, es: seq<Event>)
    requires s.bucket == Some(Bucket(0, s.now))
    ensures IsRun(ss, es) && ss[0] == s && Within(es, s.now, s.now + ms)
    ensures Gained(s, ss[|es|], 3 * ms / 1000, s.now, s.now + ms)
    decreases ms
  {
    if ms < WINDOW_MS {
      var k := 3 * ms / 1000;
      if k == 0 {
        ss, es := [s], [];
      } else {
        ss, es := Spend(s, s.now + ms, k);
      }
    } else {
      var full, calls := Spend(s, s.now + WINDOW_MS, 30);
      var t := full[30];
      var rest, more := Refilled(t, ms - WINDOW_MS);
      JoinRuns(full, calls, rest, more);
      GainedTwice(s, t, rest[|more|], 30, 3 * (ms - WINDOW_MS) / 1000, s.now, t.now, s.now + ms);
      ss, es := full + rest[1..], calls + more;
    }
  }

  /** The bound is exact: for every length of time some run is granted 30 + 3 ms / 1000 calls in it. */
  lemma BoundIsReached(a: int, ms: nat) returns (ss: seq<State>, es: seq<Event>)
    ensures IsRun(ss, es) && Start(ss[0]) && forall k :: 0 <= k < |es| ==> Logged(ss[k], es[k])
    ensures CountIn(ss[|es|].granted, a, a + ms) == 30 + 3 * ms / 1000
  {
    var s0 := State(None, [], a);
    var e := Call(a, 0);
    var s1 := Apply(s0, e);
    var burst, calls := Burst(s1, 29);
    JoinRuns([s0, s1], [e], burst, calls);
    var first, firsts := [s0, s1] + burst[1..], [e] + calls;
    var t := burst[29];
    var rest, more := Refilled(t, ms);
    JoinRuns(first, firsts, rest, more);
    ss, es := first + rest[1..], firsts + more;
    var granted := ss[|es|].granted;
    assert granted[..30] == t.granted;
    forall i | 0 <= i < |granted|
      ensures a <= granted[i] <= a + ms
    {
      if i < 30 {
        assert granted[i] == t.granted[i];
      }
    }
    AllInside(granted, a, a + ms);
    OneProcess(ss, es);
  }

  /** Only the first call of a run without restarts asks the audit log. */
  lemma OneProcess(ss: seq<State>, es: seq<Event>)
    requires IsRun(ss, es) && Start(ss[0]) && forall k :: 0 <= k < |es| ==> es[k].Call?
    ensures forall k :: 0 <= k < |es| ==> Logged(ss[k], es[k])
  {
    forall k | 0 <= k < |es|
      ensures Logged(ss[k], es[k])
    {
      if k > 0 {
        assert ss[k] == Apply(ss[k - 1], es[k - 1]);
      }
    }
  }

  // ----- the limiter

  class Limiter {
    var buckets: map<string, Bucket>

    constructor ()
      ensures buckets == map[]
    {
      buckets := map[];
    }

    /** The history-free view of one key. */
    ghost function BucketOf(key: string): Option<Bucket>
      reads this
    {
      if key in buckets then Some(buckets[key]) else None
    }

    /** `acquire`: this key takes the step above, every other key is untouched. */
    method Acquire(key: string, now: int, recent: nat) returns (d: Decision)
      modifies this
      ensures forall g: seq<int>, t: int ::
        BucketOf(key) == Apply(State(old(BucketOf(key)), g, t), Call(now, recent)).bucket
      ensures forall t: int :: d == Decide(Level(Found(State(old(BucketOf(key)), [], t), Call(now, recent)), now))
      ensures forall k :: k != key ==> BucketOf(k) == old(BucketOf(k))
    {
      var b := if key in buckets then buckets[key] else Backfilled(recent, now);
      var tokens := b.tokens + (now - b.last) * PER_MS;
      if tokens > CAP {
        tokens := CAP;
      }
      b := Bucket(tokens, now);
      if b.tokens < COST {
        buckets := buckets[key := b];
        return Decision(false, 0, RetryAfter(b.tokens));
      }
      b := b.(tokens := b.tokens - COST);
      buckets := buckets[key := b];
      return Decision(true, b.tokens / COST, 0);
    }
  }
}
