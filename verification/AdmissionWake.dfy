/**
 * The admission loop of the daemon against its writer thread and event bus, one atomic step at a time.
 * A commit is known by its number, so a snapshot is as new as the number of commits it saw.
 */
module AdmissionWake {

  /** Store reads of one snapshot, made one after the other in one reader job. */
  const READS: nat := 6

  /** A bus event: the commit it announces, and whether it is one the loop waits for. */
  datatype Note = Note(commit: nat, relevant: bool)

  /** `marks` holds, for each store read so far, how many commits it saw. */
  datatype Phase =
    | Draining
    | Reading(marks: seq<nat>)
    | Deciding(marks: seq<nat>)
    | Blocked(wake: bool, retry: bool)
    | Stopped

  /**
   * `unsent` are the events of the last commit that the writer has still to send. `queue` and `lagged` are the
   * loop's receiver on a bus that keeps `capacity` events. `seen` are the marks of the last successful pass,
   * `announced` the newest commit with a relevant event sent, and `due` the newest commit that has one to send.
   */
  datatype State = State(
    commits: nat, unsent: seq<Note>, capacity: nat, queue: seq<Note>, lagged: bool, kicked: bool,
    phase: Phase, seen: seq<nat>, announced: nat, due: nat)

  datatype Event =
    | Commit(relevant: seq<bool>)
    | Send
    | Kick
    | DrainOne
    | DrainLag
    | DrainEmpty
    | ReadPart
    | PassOk(wake: bool)
    | PassFails
    | TakeKick
    | TakeNote
    | TakeLag
    | Wake
    | Shutdown

  predicate CanFail(p: Phase) { p.Reading? || p.Deciding? }

  predicate Enabled(s: State, e: Event) {
    match e
    case Commit(_) => s.unsent == []
    case Send => s.unsent != []
    case Kick => true
    case DrainOne => s.phase.Draining? && !s.lagged && s.queue != []
    case DrainLag => s.phase.Draining? && s.lagged
    case DrainEmpty => s.phase.Draining? && !s.lagged && s.queue == []
    case ReadPart => s.phase.Reading?
    case PassOk(_) => s.phase.Deciding?
    case PassFails => CanFail(s.phase)
    case TakeKick => s.phase.Blocked? && s.kicked
    case TakeNote => s.phase.Blocked? && !s.lagged && s.queue != []
    case TakeLag => s.phase.Blocked? && s.lagged
    case Wake => s.phase.Blocked? && s.phase.wake
    case Shutdown => s.phase.Blocked?
  }

  function Tagged(commit: nat, relevant: seq<bool>): seq<Note> {
    seq(|relevant|, i requires 0 <= i < |relevant| => Note(commit, relevant[i]))
  }

  /** The bus keeps the newest events; a receiver that was pushed past one learns it on its next receive. */
  function Sent(s: State, n: Note): State
    requires s.unsent != []
  {
    var queue := s.queue + [n];
    var over := |queue| > s.capacity;
    s.(unsent := s.unsent[1..],
       queue := if over then queue[1..] else queue,
       lagged := s.lagged || over,
       announced := if n.relevant && n.commit > s.announced then n.commit else s.announced)
  }

  function Apply(s: State, e: Event): State
    requires Enabled(s, e)
  {
    match e
    case Commit(relevant) => s.(commits := s.commits + 1, unsent := Tagged(s.commits + 1, relevant),
                                due := if true in relevant then s.commits + 1 else s.due)
    case Send => Sent(s, s.unsent[0])
    case Kick => s.(kicked := true)
    case DrainOne => s.(queue := s.queue[1..])
    case DrainLag => s.(lagged := false)
    case DrainEmpty => s.(phase := Reading([]))
    case ReadPart =>
      var marks := s.phase.marks + [s.commits];
      s.(phase := if |marks| == READS then Deciding(marks) else Reading(marks))
    case PassOk(wake) => s.(phase := Blocked(wake, false), seen := s.phase.marks)
    case PassFails => s.(phase := Blocked(true, true))
    case TakeKick => s.(kicked := false, phase := Draining)
    case TakeNote => s.(queue := s.queue[1..], phase := if s.queue[0].relevant then Draining else s.phase)
    case TakeLag => s.(lagged := false, phase := Draining)
    case Wake => s.(phase := Draining)
    case Shutdown => s.(phase := Stopped)
  }

  // ----- runs

  predicate IsRun(ss: seq<State>, es: seq<Event>) {
    && |ss| == |es| + 1
    && forall i :: 0 <= i < |es| ==> Enabled(ss[i], es[i]) && ss[i + 1] == Apply(ss[i], es[i])
  }

  /** The loop subscribes before its first pass, whatever the writer has committed or is still sending. */
  predicate Init(s: State) {
    s.queue == [] && !s.lagged && s.phase.Draining? && s.seen == [] && WriterOk(s)
  }

  /** Every one of `marks` saw commit `n`. */
  predicate Covers(marks: seq<nat>, n: nat) {
    forall i :: 0 <= i < |marks| ==> marks[i] >= n
  }

  predicate Queued(s: State) {
    s.lagged || exists i :: 0 <= i < |s.queue| && s.queue[i].relevant
  }

  /** Reads already made see every announced commit, or the loop will hear of one it missed. */
  predicate Warned(s: State) {
    match s.phase
    case Reading(marks) => Covers(marks, s.announced) || Queued(s)
    case Deciding(marks) => Covers(marks, s.announced) || Queued(s)
    case Blocked(_, retry) => retry || Covers(s.seen, s.announced) || Queued(s)
    case Draining => true
    case Stopped => true
  }

  /** Every commit with a relevant event is announced, or the writer is still sending the last one's events. */
  predicate Announces(s: State) {
    s.announced == s.due || (s.due == s.commits && exists i :: 0 <= i < |s.unsent| && s.unsent[i].relevant)
  }

  /** What is still to send belongs to the last commit. */
  predicate WriterOk(s: State) {
    && Announces(s)
    && s.announced <= s.due <= s.commits
    && forall i :: 0 <= i < |s.unsent| ==>
                     s.unsent[i].commit == s.commits && (s.unsent[i].relevant ==> s.due == s.commits)
  }

  predicate Numbered(s: State) {
    && WriterOk(s)
    && (s.phase.Reading? ==> |s.phase.marks| < READS)
    && (s.phase.Deciding? ==> |s.phase.marks| == READS)
    && (s.phase.Blocked? ==> (s.phase.retry ==> s.phase.wake) && (!s.phase.retry ==> |s.seen| == READS))
  }

  predicate Inv(s: State) { Numbered(s) && Warned(s) }

  lemma InitHolds(s: State)
    requires Init(s)
    ensures Inv(s)
  {
  }

  lemma QueuedAfterSend(s: State)
    requires s.unsent != []
    ensures Queued(s) ==> Queued(Sent(s, s.unsent[0]))
    ensures s.unsent[0].relevant ==> Queued(Sent(s, s.unsent[0]))
  {
    var n := s.unsent[0];
    var t := Sent(s, n);
    if |s.queue| + 1 <= s.capacity {
      assert t.queue[|s.queue|] == n;
      assert forall i :: 0 <= i < |s.queue| ==> t.queue[i] == s.queue[i];
    }
  }

  lemma StepNumbered(s: State, e: Event)
    requires Inv(s) && Enabled(s, e)
    ensures Numbered(Apply(s, e))
  {
    if e.Commit? {
      CommitAnnounces(s, e.relevant);
    } else if e.Send? {
      SendAnnounces(s);
    }
  }

  lemma CommitAnnounces(s: State, relevant: seq<bool>)
    requires Announces(s) && s.unsent == []
    ensures Announces(Apply(s, Commit(relevant)))
  {
    if true in relevant {
      var i :| 0 <= i < |relevant| && relevant[i];
      assert Tagged(s.commits + 1, relevant)[i].relevant;
    }
  }

  lemma SendAnnounces(s: State)
    requires Numbered(s) && s.unsent != []
    ensures Announces(Apply(s, Send))
  {
    if s.announced != s.due && !s.unsent[0].relevant {
      var i :| 0 <= i < |s.unsent| && s.unsent[i].relevant;
      assert s.unsent[1..][i - 1] == s.unsent[i];
    }
  }

  lemma StepWarned(s: State, e: Event)
    requires Inv(s) && Enabled(s, e)
    ensures Warned(Apply(s, e))
  {
    if e.Send? {
      QueuedAfterSend(s);
    } else if e.TakeNote? && !s.lagged && Queued(s) && !s.queue[0].relevant {
      var i :| 0 <= i < |s.queue| && s.queue[i].relevant;
      assert s.queue[1..][i - 1] == s.queue[i];
    }
  }

  lemma {:induction false} InvAlong(ss: seq<State>, es: seq<Event>, i: nat)
    requires IsRun(ss, es) && Init(ss[0]) && i < |ss|
    ensures Inv(ss[i])
  {
    if i == 0 {
      InitHolds(ss[0]);
    } else {
      InvAlong(ss, es, i - 1);
      StepNumbered(ss[i - 1], es[i - 1]);
      StepWarned(ss[i - 1], es[i - 1]);
    }
  }

  // ----- no wake-up is lost

  /** The loop sleeps and nothing in its receiver would wake it. */
  predicate Asleep(s: State) { s.phase.Blocked? && !Queued(s) }

  /** While the loop sleeps, all six parts of its last snapshot have every announced commit, unless a retry is due. */
  lemma NoLostWakeup(ss: seq<State>, es: seq<Event>, i: nat)
    requires IsRun(ss, es) && Init(ss[0]) && i < |ss| && Asleep(ss[i])
    ensures var s := ss[i];
            (|s.seen| == 6 && Covers(s.seen, s.announced)) || (s.phase.retry && Enabled(s, Wake))
  {
    InvAlong(ss, es, i);
  }

  /** Once the writer has replied, that holds of every commit the loop cares about, announced or not. */
  lemma RepliedIsCovered(ss: seq<State>, es: seq<Event>, i: nat)
    requires IsRun(ss, es) && Init(ss[0]) && i < |ss| && Asleep(ss[i]) && ss[i].unsent == []
    ensures Covers(ss[i].seen, ss[i].due) || (ss[i].phase.retry && Enabled(ss[i], Wake))
  {
    InvAlong(ss, es, i);
  }

  /** The loop's own steps while it is blocked. */
  predicate Listens(e: Event) { e.TakeNote? || e.TakeLag? || e.Wake? || e.TakeKick? }

  lemma OneStep(s: State, e: Event)
    requires Enabled(s, e)
    ensures IsRun([s, Apply(s, e)], [e])
  {
  }

  lemma StepThen(s: State, e: Event, ss: seq<State>, es: seq<Event>)
    requires Enabled(s, e) && IsRun(ss, es) && ss[0] == Apply(s, e)
    ensures IsRun([s] + ss, [e] + es) && ([s] + ss)[|es| + 1] == ss[|es|]
  {
    var all, evs := [s] + ss, [e] + es;
    forall i | 0 <= i < |evs|
      ensures Enabled(all[i], evs[i]) && all[i + 1] == Apply(all[i], evs[i])
    {
      if i > 0 {
        assert all[i] == ss[i - 1] && evs[i] == es[i - 1];
      }
    }
  }

  /** A blocked loop with a warning, a kick or a wake-up reaches its next pass by its own steps, at most one more than
      it has queued events. */
  lemma {:induction false} ListensUntilAwake(s: State) returns (ss: seq<State>, es: seq<Event>)
    requires s.phase.Blocked? && (Queued(s) || s.phase.wake || s.kicked)
    ensures IsRun(ss, es) && ss[0] == s && ss[|es|].phase.Draining?
    ensures |es| <= |s.queue| + 1 && forall i :: 0 <= i < |es| ==> Listens(es[i])
    decreases |s.queue|
  {
    if s.lagged {
      OneStep(s, TakeLag);
      ss, es := [s, Apply(s, TakeLag)], [TakeLag];
    } else if s.kicked {
      OneStep(s, TakeKick);
      ss, es := [s, Apply(s, TakeKick)], [TakeKick];
    } else if s.queue == [] {
      OneStep(s, Wake);
      ss, es := [s, Apply(s, Wake)], [Wake];
    } else if s.queue[0].relevant {
      OneStep(s, TakeNote);
      ss, es := [s, Apply(s, TakeNote)], [TakeNote];
    } else {
      var t := Apply(s, TakeNote);
      if Queued(s) {
        var i :| 0 <= i < |s.queue| && s.queue[i].relevant;
        assert t.queue[i - 1] == s.queue[i];
      }
      ss, es := ListensUntilAwake(t);
      StepThen(s, TakeNote, ss, es);
      ss, es := [s] + ss, [TakeNote] + es;
    }
  }

  /** A sleeping loop that missed an announced commit is always a few of its own steps from its next pass. */
  lemma MissedWakesUp(ss: seq<State>, es: seq<Event>, i: nat) returns (ts: seq<State>, fs: seq<Event>)
    requires IsRun(ss, es) && Init(ss[0]) && i < |ss| && ss[i].phase.Blocked? && !Covers(ss[i].seen, ss[i].announced)
    ensures IsRun(ts, fs) && ts[0] == ss[i] && ts[|fs|].phase.Draining?
    ensures |fs| <= |ss[i].queue| + 1 && forall k :: 0 <= k < |fs| ==> Listens(fs[k])
  {
    InvAlong(ss, es, i);
    ts, fs := ListensUntilAwake(ss[i]);
  }

  // ----- what one wake-up covers

  /** Any read made since commit `c`, and any pass that succeeded since, saw `c`. */
  predicate Since(s: State, c: nat) {
    && s.commits >= c
    && (s.phase.Reading? ==> Covers(s.phase.marks, c))
    && (s.phase.Deciding? ==> Covers(s.phase.marks, c))
  }

  lemma SinceStep(s: State, e: Event, c: nat)
    requires Since(s, c) && Enabled(s, e)
    ensures Since(Apply(s, e), c)
  {
  }

  lemma {:induction false} SinceAlong(ss: seq<State>, es: seq<Event>, i: nat, j: nat, c: nat)
    requires IsRun(ss, es) && i <= j < |ss| && Since(ss[i], c)
    ensures Since(ss[j], c)
  {
    if i < j {
      SinceAlong(ss, es, i, j - 1, c);
      SinceStep(ss[j - 1], es[j - 1], c);
    }
  }

  lemma PassOkSees(s: State, wake: bool, c: nat)
    requires Numbered(s) && Since(s, c) && s.phase.Deciding?
    ensures var t := Apply(s, PassOk(wake)); |t.seen| == READS && Covers(t.seen, c)
  {
  }

  /** Events are drained before the read, and still a pass sees every commit made before it began to drain. */
  lemma PassSeesDrained(ss: seq<State>, es: seq<Event>, i: nat, j: nat)
    requires IsRun(ss, es) && Init(ss[0]) && i < j < |ss| && ss[i].phase.Draining? && es[j - 1].PassOk?
    ensures |ss[j].seen| == READS && Covers(ss[j].seen, ss[i].commits)
  {
    InvAlong(ss, es, j - 1);
    SinceAlong(ss, es, i, j - 1, ss[i].commits);
    PassOkSees(ss[j - 1], es[j - 1].wake, ss[i].commits);
  }

  // ----- the wake-up a pass asks for

  /** What arms the loop's timer: a pass that asked for it, or a pass that failed. */
  predicate Arms(e: Event) { e.PassFails? || (e.PassOk? && e.wake) }

  predicate EndsPass(e: Event) { e.PassOk? || e.PassFails? }

  /** Event `j` ended the loop's last pass, and the loop has been blocked since. */
  ghost predicate BlockedSince(ss: seq<State>, es: seq<Event>, j: nat, k: nat)
    requires |ss| == |es| + 1 && j < k <= |es|
  {
    EndsPass(es[j]) && forall n :: j < n <= k ==> ss[n].phase.Blocked?
  }

  /** From the end of a pass until the loop leaves its wait, its timer is armed exactly if that pass asked for a wake-up
      or failed, and a retry is due exactly if it failed. */
  lemma {:induction false} TimerIsArmed(ss: seq<State>, es: seq<Event>, j: nat, k: nat)
    requires IsRun(ss, es) && j < k <= |es| && BlockedSince(ss, es, j, k)
    ensures Enabled(ss[k], Wake) <==> Arms(es[j])
    ensures ss[k].phase.retry <==> es[j].PassFails?
  {
    if j + 1 < k {
      TimerIsArmed(ss, es, j, k - 1);
    }
  }

  /** Each event of the loop comes at its own point of the loop and takes it to the next; the writer's move it nowhere.
      */
  lemma NextPhase(ss: seq<State>, es: seq<Event>, i: nat)
    requires IsRun(ss, es) && i < |es|
    ensures var p, q := ss[i].phase, ss[i + 1].phase;
            match es[i]
            case DrainOne => p.Draining? && q == p
            case DrainLag => p.Draining? && q == p
            case DrainEmpty => p.Draining? && q == Reading([])
            case ReadPart =>
              && p.Reading? && q.marks == p.marks + [ss[i].commits]
              && if |p.marks| == READS - 1 then q.Deciding? else q.Reading?
            case PassOk(_) => p.Deciding? && q.Blocked? && ss[i + 1].seen == p.marks
            case PassFails => (p.Reading? || p.Deciding?) && q.Blocked? && ss[i + 1].seen == ss[i].seen
            case TakeKick => p.Blocked? && q.Draining?
            case TakeNote => p.Blocked? && if ss[i].queue[0].relevant then q.Draining? else q == p
            case TakeLag => p.Blocked? && q.Draining?
            case Wake => p.Blocked? && q.Draining?
            case Shutdown => p.Blocked? && q.Stopped?
            case _ => q == p
  {
  }

  /** The loop is never stuck: while it drains exactly one receive is possible, a snapshot can go on or fail, a blocked
      loop can be shut down, and the writer can always commit or send. */
  lemma NeverStuck(s: State, wake: bool, relevant: seq<bool>)
    ensures s.phase.Draining? ==>
              var one, lag, none := Enabled(s, DrainOne), Enabled(s, DrainLag), Enabled(s, DrainEmpty);
              (one && !lag && !none) || (!one && lag && !none) || (!one && !lag && none)
    ensures s.phase.Reading? ==> Enabled(s, ReadPart) && Enabled(s, PassFails)
    ensures s.phase.Deciding? ==> Enabled(s, PassOk(wake)) && Enabled(s, PassFails)
    ensures s.phase.Blocked? ==> Enabled(s, Shutdown)
    ensures s.phase.Blocked? && (s.queue != [] || s.lagged) ==> Enabled(s, TakeNote) != Enabled(s, TakeLag)
    ensures Enabled(s, Kick) && Enabled(s, Commit(relevant)) != Enabled(s, Send)
  {
  }

  // ----- kicks and events are kept until they are heard

  /** Step `i` kicked the loop and it has not heard it before step `j`. */
  ghost predicate Unheard(es: seq<Event>, i: nat, j: nat) {
    i < j <= |es| && es[i].Kick? && forall n :: i < n < j ==> !es[n].TakeKick?
  }

  lemma {:induction false} KickIsKept(ss: seq<State>, es: seq<Event>, i: nat, j: nat)
    requires IsRun(ss, es) && Unheard(es, i, j)
    ensures ss[j].kicked
  {
    if i + 1 < j {
      KickIsKept(ss, es, i, j - 1);
    }
  }

  lemma {:induction false} KickWasGiven(ss: seq<State>, es: seq<Event>, j: nat) returns (i: nat)
    requires IsRun(ss, es) && j <= |es| && ss[j].kicked && !ss[0].kicked
    ensures Unheard(es, i, j)
  {
    assert Enabled(ss[j - 1], es[j - 1]) && ss[j] == Apply(ss[j - 1], es[j - 1]);
    i := j - 1;
    if !es[j - 1].Kick? {
      i := KickWasGiven(ss, es, j - 1);
      assert !es[j - 1].TakeKick?;
    }
  }

  /** A kick is heard only if one was given since the last one heard. */
  lemma KickIsReal(ss: seq<State>, es: seq<Event>, j: nat) returns (i: nat)
    requires IsRun(ss, es) && j < |es| && es[j].TakeKick? && !ss[0].kicked
    ensures Unheard(es, i, j)
  {
    assert Enabled(ss[j], es[j]);
    i := KickWasGiven(ss, es, j);
  }

  /** Step `i` sends to a full receiver, which loses its oldest event. */
  ghost predicate Overflows(ss: seq<State>, es: seq<Event>, i: nat) {
    i < |es| && i < |ss| && es[i].Send? && |ss[i].queue| >= ss[i].capacity
  }

  predicate TellsLag(e: Event) { e.DrainLag? || e.TakeLag? }

  /** The last overflow before step `j` has not been told yet. */
  ghost predicate Untold(ss: seq<State>, es: seq<Event>, i: nat, j: nat) {
    i < j <= |es| && Overflows(ss, es, i) && forall n :: i < n < j ==> !TellsLag(es[n])
  }

  /** The receiver is marked lagged exactly from an overflow until it is told. */
  lemma {:induction false} LagIsOverflow(ss: seq<State>, es: seq<Event>, j: nat)
    requires IsRun(ss, es) && j <= |es| && !ss[0].lagged
    ensures ss[j].lagged <==> exists i :: Untold(ss, es, i, j)
  {
    if j > 0 {
      var k := j - 1;
      LagIsOverflow(ss, es, k);
      LagStep(ss, es, k, j);
      assert Enabled(ss[k], es[k]) && ss[j] == Apply(ss[k], es[k]);
      if i :| Untold(ss, es, i, k) {
        assert !TellsLag(es[k]) ==> Untold(ss, es, i, j);
      }
    }
  }

  /** And it is told only then. */
  lemma LagIsReal(ss: seq<State>, es: seq<Event>, j: nat)
    requires IsRun(ss, es) && j < |es| && !ss[0].lagged && TellsLag(es[j])
    ensures exists i :: Untold(ss, es, i, j)
  {
    assert Enabled(ss[j], es[j]);
    LagIsOverflow(ss, es, j);
  }

  lemma LagStep(ss: seq<State>, es: seq<Event>, k: nat, j: nat)
    requires IsRun(ss, es) && k < |es| && j == k + 1
    ensures Overflows(ss, es, k) ==> Untold(ss, es, k, j)
    ensures forall i :: Untold(ss, es, i, j) ==> i == k || (Untold(ss, es, i, k) && !TellsLag(es[k]))
    ensures Overflows(ss, es, k) ==> !TellsLag(es[k])
  {
  }

  /** Every event of every commit before step `i`, in order of the commits and of each commit's list. */
  function Published(es: seq<Event>, i: nat, first: nat): seq<Note>
    requires i <= |es|
  {
    if i == 0 then [] else Published(es, i - 1, first) + PublishedBy(es[i - 1], first + CommitsIn(es, i - 1))
  }

  function PublishedBy(e: Event, commits: nat): seq<Note> {
    if e.Commit? then Tagged(commits + 1, e.relevant) else []
  }

  function CommitsIn(es: seq<Event>, i: nat): nat
    requires i <= |es|
  {
    if i == 0 then 0 else CommitsIn(es, i - 1) + if es[i - 1].Commit? then 1 else 0
  }

  /** `a` ends with `b`. */
  predicate EndsWith(a: seq<Note>, b: seq<Note>) { |b| <= |a| && a[|a| - |b|..] == b }

  /** The receiver holds the newest events sent, and the writer those still to send, in the order they were published:
      nothing is sent twice, out of order or before its commit. */
  lemma {:induction false} PublishedInOrder(ss: seq<State>, es: seq<Event>, i: nat)
    requires IsRun(ss, es) && i <= |es| && ss[0].queue == [] && ss[0].unsent == []
    ensures InOrder(ss[i], Published(es, i, ss[0].commits), ss[0].commits + CommitsIn(es, i))
  {
    var first := ss[0].commits;
    if i == 0 {
      NothingPublished(ss[0]);
    } else {
      var s, e, before, commits := ss[i - 1], es[i - 1], Published(es, i - 1, first), first + CommitsIn(es, i - 1);
      PublishedInOrder(ss, es, i - 1);
      StepInOrder(s, e, before, commits);
      assert ss[i] == Apply(s, e);
      assert Published(es, i, first) == before + PublishedBy(e, commits);
    }
  }

  lemma NothingPublished(s: State)
    requires s.queue == [] && s.unsent == []
    ensures InOrder(s, [], s.commits)
  {
  }

  /** What is queued and unsent at `s` is the end of all that was published by then. */
  ghost predicate InOrder(s: State, all: seq<Note>, commits: nat) {
    s.commits == commits && EndsWith(all, s.queue + s.unsent)
  }

  lemma StepInOrder(s: State, e: Event, all: seq<Note>, commits: nat)
    requires Enabled(s, e) && InOrder(s, all, commits)
    ensures InOrder(Apply(s, e), all + PublishedBy(e, commits), commits + if e.Commit? then 1 else 0)
  {
    assert all + [] == all;
    match e
    case Commit(relevant) => Appended(all, s.queue, Tagged(s.commits + 1, relevant));
    case Send => SendInOrder(s, all);
    case DrainOne => Suffixes(all, s.queue, s.unsent);
    case TakeNote => Suffixes(all, s.queue, s.unsent);
    case _ =>
  }

  lemma SendInOrder(s: State, all: seq<Note>)
    requires s.unsent != [] && EndsWith(all, s.queue + s.unsent)
    ensures var t := Sent(s, s.unsent[0]); EndsWith(all, t.queue + t.unsent)
  {
    var queue, rest := s.queue + [s.unsent[0]], s.unsent[1..];
    assert s.queue + s.unsent == queue + rest;
    Suffixes(all, queue, rest);
  }

  lemma Appended(all: seq<Note>, queue: seq<Note>, more: seq<Note>)
    requires EndsWith(all, queue + [])
    ensures EndsWith(all + more, queue + more)
  {
    assert queue + [] == queue;
    assert (all + more)[|all| - |queue|..] == queue + more;
  }

  lemma Suffixes(all: seq<Note>, queue: seq<Note>, rest: seq<Note>)
    requires queue != [] && EndsWith(all, queue + rest)
    ensures EndsWith(all, queue[1..] + rest)
  {
    var held := queue + rest;
    assert held[1..] == queue[1..] + rest;
    assert all[|all| - |held| + 1..] == all[|all| - |held|..][1..];
  }

  /** An event leaves the receiver only by being taken or drained, or by a lag the receiver is told of. */
  lemma NothingVanishes(ss: seq<State>, es: seq<Event>, i: nat)
    requires IsRun(ss, es) && i < |es|
    ensures var s, t := ss[i], ss[i + 1];
            match es[i]
            case Send =>
              var queue := s.queue + [s.unsent[0]];
              if |queue| <= s.capacity then t.queue == queue && t.lagged == s.lagged
              else t.queue == queue[1..] && t.lagged
            case DrainOne => s.queue == [s.queue[0]] + t.queue && t.lagged == s.lagged
            case TakeNote => s.queue == [s.queue[0]] + t.queue && t.lagged == s.lagged
            case DrainLag => t.queue == s.queue && !t.lagged
            case TakeLag => t.queue == s.queue && !t.lagged
            case _ => t.queue == s.queue && t.lagged == s.lagged
  {
  }
}
