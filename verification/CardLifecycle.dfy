/** The card lifecycle of agora-core: which moves an actor may make, and what every run of accepted moves looks like. */
module CardLifecycle {

  datatype Role = Observer | Worker | Supervisor | Controller | Owner
  datatype Card = Backlog | Ready | Claimed | Doing | Review | Done | Blocked | Cancelled
  datatype Gate = Gate(evidence: bool, approval: bool, requireReview: bool)
  datatype Verdict = Accepted | Illegal | Forbidden | EvidenceRequired | ReviewRequired

  function Rank(r: Role): nat {
    match r
    case Observer => 0
    case Worker => 1
    case Supervisor => 2
    case Controller => 3
    case Owner => 4
  }

  predicate Open(c: Card) { c.Backlog? || c.Ready? || c.Claimed? || c.Doing? || c.Review? }
  predicate Final(c: Card) { c.Done? || c.Cancelled? }

  predicate Legal(from: Card, to: Card) {
    match (from, to)
    case (Backlog, Ready) => true
    case (Ready, Claimed) => true
    case (Claimed, Doing) => true
    case (Claimed, Ready) => true
    case (Doing, Review) => true
    case (Doing, Done) => true
    case (Review, Doing) => true
    case (Review, Done) => true
    case (Blocked, Ready) => true
    case (_, Blocked) => Open(from)
    case (_, Cancelled) => Open(from) || from.Blocked?
    case _ => false
  }

  function CheckTransition(from: Card, to: Card, role: Role, gate: Gate): Verdict {
    if !Legal(from, to) then Illegal
    else if (to.Ready? && from.Backlog?) || to.Cancelled? then
      if Rank(role) < Rank(Supervisor) then Forbidden else Accepted
    else if Rank(role) < Rank(Worker) then Forbidden
    else if !to.Done? then Accepted
    else if !gate.evidence then EvidenceRequired
    else if gate.requireReview && !gate.approval then ReviewRequired
    else Accepted
  }

  // ----- runs

  datatype Move = Move(to: Card, role: Role, gate: Gate)

  /** The states of a card over a run of accepted moves. */
  predicate IsRun(cs: seq<Card>, ms: seq<Move>) {
    && |cs| == |ms| + 1
    && cs[0] == Backlog
    && forall i :: 0 <= i < |ms| ==>
                     CheckTransition(cs[i], ms[i].to, ms[i].role, ms[i].gate).Accepted? && cs[i + 1] == ms[i].to
  }

  lemma Moved(cs: seq<Card>, ms: seq<Move>, i: nat)
    requires IsRun(cs, ms) && 0 < i < |cs|
    ensures Legal(cs[i - 1], cs[i])
  {
    assert CheckTransition(cs[i - 1], ms[i - 1].to, ms[i - 1].role, ms[i - 1].gate).Accepted?;
  }

  /** Done and Cancelled end a run. */
  lemma FinalIsLast(cs: seq<Card>, ms: seq<Move>, i: nat)
    requires IsRun(cs, ms) && i < |cs| && Final(cs[i])
    ensures i == |cs| - 1
  {
    if i + 1 < |cs| {
      Moved(cs, ms, i + 1);
    }
  }

  predicate InWork(c: Card) { c.Doing? || c.Review? }

  /** Work in progress began with a claim of a ready card, and nothing came between. */
  lemma {:induction false} WorkWasClaimed(cs: seq<Card>, ms: seq<Move>, j: nat) returns (b: nat)
    requires IsRun(cs, ms) && j < |cs| && InWork(cs[j])
    ensures 1 <= b < j && cs[b - 1] == Ready && cs[b] == Claimed && cs[b + 1] == Doing
    ensures forall k :: b < k <= j ==> InWork(cs[k])
  {
    Moved(cs, ms, j);
    if cs[j - 1].Claimed? {
      b := j - 1;
      Moved(cs, ms, b);
    } else {
      b := WorkWasClaimed(cs, ms, j - 1);
    }
  }

  /** A done card was ready, then claimed, then worked on without a break to the end, and the gate was met. */
  lemma DoneWasEarned(cs: seq<Card>, ms: seq<Move>, j: nat) returns (b: nat)
    requires IsRun(cs, ms) && j < |cs| && cs[j].Done?
    ensures 1 <= b < j - 1 && cs[b - 1] == Ready && cs[b] == Claimed && cs[b + 1] == Doing
    ensures forall k :: b < k < j ==> InWork(cs[k])
    ensures var m := ms[j - 1];
            m.gate.evidence && (m.gate.requireReview ==> m.gate.approval) && Rank(m.role) >= Rank(Worker)
  {
    Moved(cs, ms, j);
    b := WorkWasClaimed(cs, ms, j - 1);
    assert CheckTransition(cs[j - 1], ms[j - 1].to, ms[j - 1].role, ms[j - 1].gate).Accepted?;
  }

  /** A higher role, or a gate with more met, never loses a move. */
  lemma RaisingNeverDisables(from: Card, to: Card, low: Role, high: Role, g: Gate, h: Gate)
    requires Rank(low) <= Rank(high)
    requires (g.evidence ==> h.evidence) && (g.approval ==> h.approval) && (h.requireReview ==> g.requireReview)
    ensures CheckTransition(from, to, low, g).Accepted? ==> CheckTransition(from, to, high, h).Accepted?
  {
  }

  /** A refusal names what stands in the way: nothing helps, or a higher role, evidence or an approval would change
      it. */
  lemma VerdictNamesTheObstacle(from: Card, to: Card, role: Role, g: Gate)
    ensures var v := CheckTransition(from, to, role, g);
            && (v.Illegal? <==> forall r, h :: !CheckTransition(from, to, r, h).Accepted?)
            && (v.Forbidden? <==> CheckTransition(from, to, Owner, g) != v)
            && (v.EvidenceRequired? <==> CheckTransition(from, to, role, g.(evidence := true)) != v)
            && (v.ReviewRequired? <==> CheckTransition(from, to, role, g.(approval := true)) != v)
  {
    assert Legal(from, to) ==> CheckTransition(from, to, Owner, Gate(true, true, true)).Accepted?;
  }

  /** A supervisor can call off every card that is not final, and nobody below can. */
  lemma SupervisorsCancel(from: Card, role: Role, g: Gate)
    ensures CheckTransition(from, Cancelled, role, g).Accepted? <==> !Final(from) && Rank(role) >= Rank(Supervisor)
  {
  }

  /** Where a worker can move a card that is being worked on: on, back, to a stop, and to done through the gate. */
  predicate WorkerMoves(from: Card, to: Card, g: Gate) {
    match to
    case Backlog => false
    case Ready => from.Claimed? || from.Blocked?
    case Claimed => from.Ready?
    case Doing => from.Claimed? || from.Review?
    case Review => from.Doing?
    case Done => InWork(from) && g.evidence && (g.requireReview ==> g.approval)
    case Blocked => !Final(from) && !from.Blocked?
    case Cancelled => false
  }

  /** Claiming, release, rework, blocking and completion with or without review: a worker's moves are exactly these, an
      observer has none, and a supervisor adds only promotion and cancelling. */
  lemma MovesByRole(from: Card, to: Card, role: Role, g: Gate)
    ensures CheckTransition(from, to, role, g).Accepted? <==>
            || (role != Observer && WorkerMoves(from, to, g))
            || (role != Observer && role != Worker && ((from.Backlog? && to.Ready?) || (to.Cancelled? && !Final(from))))
  {
  }

  // ----- runs without a supervisor

  ghost predicate Unsupervised(ms: seq<Move>) {
    forall i :: 0 <= i < |ms| ==> Rank(ms[i].role) < Rank(Supervisor)
  }

  /** The card left the backlog as blocked, or is still there. */
  predicate LeftBlocked(cs: seq<Card>, k: nat) {
    0 < k < |cs| && cs[k] == Blocked && forall i :: 0 <= i < k ==> cs[i] == Backlog
  }

  lemma {:induction false} WithoutSupervisor(cs: seq<Card>, ms: seq<Move>, j: nat) returns (k: nat)
    requires IsRun(cs, ms) && Unsupervised(ms) && j < |cs|
    ensures !cs[j].Cancelled?
    ensures cs[j] != Backlog ==> LeftBlocked(cs, k) && k <= j
    ensures cs[j] == Backlog ==> forall i :: 0 <= i <= j ==> cs[i] == Backlog
  {
    k := 0;
    if j > 0 {
      k := WithoutSupervisor(cs, ms, j - 1);
      assert CheckTransition(cs[j - 1], ms[j - 1].to, ms[j - 1].role, ms[j - 1].gate).Accepted?;
      if cs[j - 1] == Backlog {
        k := j;
      }
    }
  }

  /** Promotion asks for a supervisor, but blocking and unblocking a card promotes it without one. */
  lemma WorkersCanPromote(g: Gate) returns (cs: seq<Card>, ms: seq<Move>)
    ensures IsRun(cs, ms) && Unsupervised(ms) && cs[|cs| - 1] == Ready
    ensures CheckTransition(Backlog, Ready, Worker, g).Forbidden?
  {
    cs, ms := [Backlog, Blocked, Ready], [Move(Blocked, Worker, g), Move(Ready, Worker, g)];
  }

  /** Which states a card can come to: everything with a supervisor, everything but Cancelled without one. */
  lemma WorkersReachAll(c: Card) returns (cs: seq<Card>, ms: seq<Move>)
    requires !c.Cancelled?
    ensures IsRun(cs, ms) && Unsupervised(ms) && cs[|cs| - 1] == c
  {
    var n :=
      match c
      case Backlog => 0
      case Blocked => 1
      case Ready => 2
      case Claimed => 3
      case Doing => 4
      case Review => 5
      case Done => 6;
    cs := seq(n + 1, i requires 0 <= i <= n => ByWorkers(i));
    ms := seq(n, i requires 0 <= i < n => Move(ByWorkers(i + 1), Worker, Gate(true, false, false)));
    forall i | 0 <= i < n
      ensures CheckTransition(cs[i], ms[i].to, ms[i].role, ms[i].gate).Accepted? && cs[i + 1] == ms[i].to
    {
      WorkerStep(i);
    }
  }

  /** The way of a card that only workers move. */
  function ByWorkers(i: nat): Card {
    if i == 0 then Backlog else if i == 1 then Blocked else if i == 2 then Ready
    else if i == 3 then Claimed else if i == 4 then Doing else if i == 5 then Review else Done
  }

  lemma WorkerStep(i: nat)
    requires i < 6
    ensures CheckTransition(ByWorkers(i), ByWorkers(i + 1), Worker, Gate(true, false, false)).Accepted?
  {
  }
}
