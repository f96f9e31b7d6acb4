/** What the message table holds and how each migrator left, read off the events of a run. */
module MigrationHistory {
  import opened Options
  import opened Migrations

  // ----- what the writers asked for

  /** A row still to be numbered: `ticket` counts the reservations before its own. */
  datatype Draft = Draft(id: string, ticket: nat, parent: Option<string>, body: string)

  datatype Ledger = Ledger(olds: seq<OldRow>, tickets: nat, held: map<nat, nat>, news: seq<Draft>)

  const Blank: Ledger := Ledger([], 0, map[], [])

  function Noted(l: Ledger, e: Event): Ledger {
    match e
    case InsertOld(row) => l.(olds := l.olds + [row])
    case Reserve(w) => l.(tickets := l.tickets + 1, held := l.held[w := l.tickets])
    case InsertNew(w, id, parent, body) =>
      if w in l.held then l.(news := l.news + [Draft(id, l.held[w], parent, body)], held := l.held - {w}) else l
    case _ => l
  }

  /** The writers' ledger before step `i`, whatever the migrators did. */
  function LedgerAt(es: seq<Event>, i: nat): Ledger
    requires i <= |es|
  {
    if i == 0 then Blank else Noted(LedgerAt(es, i - 1), es[i - 1])
  }

  function Number(first: nat, d: Draft): NewRow {
    NewRow(d.id, first + d.ticket, d.parent, d.body)
  }

  function Numbered(first: nat, ds: seq<Draft>): seq<NewRow> {
    seq(|ds|, i requires 0 <= i < |ds| => Number(first, ds[i]))
  }

  function Tickets(first: nat, held: map<nat, nat>): map<nat, nat> {
    map w | w in held :: first + held[w]
  }

  /** The rows there are before any writer of new rows, and the first number such a writer gets. */
  function Base(start: Store, olds: seq<OldRow>): (seq<NewRow>, nat) {
    match start
    case Before(legacy) =>
      var all := legacy + olds;
      (seq(|all|, i requires 0 <= i < |all| => Converted(all[i])), MaxId(all) + 1)
    case After(rows, next) => (rows, next)
  }

  /** The table is what the ledger says over what it started with. */
  ghost predicate Agrees(start: Store, l: Ledger, s: State) {
    match s.db.store
    case Before(legacy) =>
      start.Before? && legacy == start.legacy + l.olds && l == Blank.(olds := l.olds) && s.reserved == map[]
    case After(rows, next) =>
      var (base, first) := Base(start, l.olds);
      && rows == base + Numbered(first, l.news)
      && next == first + l.tickets && s.reserved == Tickets(first, l.held)
  }

  lemma NoTickets(first: nat)
    ensures Tickets(first, map[]) == map[]
  {
  }

  lemma AgreesAtStart(s: State)
    requires Init(s)
    ensures Agrees(s.db.store, Blank, s)
  {
    if s.db.store.Before? {
      assert s.db.store.legacy + [] == s.db.store.legacy;
    } else {
      assert s.db.store.rows + [] == s.db.store.rows;
      NoTickets(s.db.store.next);
    }
  }

  lemma CommitAgrees(start: Store, l: Ledger, s: State, p: nat)
    requires Inv(s) && Enabled(s, Commit(p)) && Agrees(start, l, s)
    ensures Agrees(start, l, Apply(s, Commit(p)))
  {
    CommitDb(s, p);
    var t := Apply(s, Commit(p));
    if s.db.store.Before? && t.db.store.After? {
      var (base, first) := Base(start, l.olds);
      assert t.db.store == Rebuilt(s.db.store.legacy);
      assert t.db.store.rows == base + [];
      NoTickets(first);
    }
  }

  lemma InsertOldAgrees(start: Store, l: Ledger, s: State, row: OldRow)
    requires Enabled(s, InsertOld(row)) && Agrees(start, l, s)
    ensures Agrees(start, Noted(l, InsertOld(row)), Apply(s, InsertOld(row)))
  {
    assert start.legacy + (l.olds + [row]) == start.legacy + l.olds + [row];
  }

  lemma ReserveAgrees(start: Store, l: Ledger, s: State, w: nat)
    requires Enabled(s, Reserve(w)) && Agrees(start, l, s)
    ensures Agrees(start, Noted(l, Reserve(w)), Apply(s, Reserve(w)))
  {
    var (base, first) := Base(start, l.olds);
    assert Tickets(first, l.held[w := l.tickets]) == Tickets(first, l.held)[w := first + l.tickets];
  }

  lemma InsertNewAgrees(start: Store, l: Ledger, s: State, w: nat, id: string, parent: Option<string>, body: string)
    requires Enabled(s, InsertNew(w, id, parent, body)) && Agrees(start, l, s)
    ensures Agrees(start, Noted(l, InsertNew(w, id, parent, body)), Apply(s, InsertNew(w, id, parent, body)))
  {
    var (base, first) := Base(start, l.olds);
    assert w in l.held;
    var d := Draft(id, l.held[w], parent, body);
    assert Tickets(first, l.held - {w}) == Tickets(first, l.held) - {w};
    assert Numbered(first, l.news + [d]) == Numbered(first, l.news) + [Number(first, d)];
  }

  lemma StepAgrees(start: Store, l: Ledger, s: State, e: Event)
    requires Inv(s) && Enabled(s, e) && Agrees(start, l, s)
    ensures Agrees(start, Noted(l, e), Apply(s, e))
  {
    match e
    case Commit(p) => CommitAgrees(start, l, s, p);
    case InsertOld(row) => InsertOldAgrees(start, l, s, row);
    case Reserve(w) => ReserveAgrees(start, l, s, w);
    case InsertNew(w, id, parent, body) => InsertNewAgrees(start, l, s, w, id, parent, body);
    case _ =>
      assert Apply(s, e).db == s.db && Apply(s, e).reserved == s.reserved;
  }

  /** In every interleaving the table holds exactly what was there and what the writers wrote, in that order, each new
      row under the number its writer reserved, whichever migrators ran, failed or died in between. */
  lemma {:induction false} TableIsTheLedger(ss: seq<State>, es: seq<Event>, i: nat)
    requires IsRun(ss, es) && Init(ss[0]) && i <= |es|
    ensures Agrees(ss[0].db.store, LedgerAt(es, i), ss[i])
  {
    if i == 0 {
      AgreesAtStart(ss[0]);
    } else {
      var s, e, l := ss[i - 1], es[i - 1], LedgerAt(es, i - 1);
      TableIsTheLedger(ss, es, i - 1);
      InvAlong(ss, es, i - 1);
      StepAgrees(ss[0].db.store, l, s, e);
      assert ss[i] == Apply(s, e) && LedgerAt(es, i) == Noted(l, e);
    }
  }

  // ----- the version

  function Commits(es: seq<Event>, i: nat): nat
    requires i <= |es|
  {
    if i == 0 then 0 else Commits(es, i - 1) + if es[i - 1].Commit? then 1 else 0
  }

  lemma StepVersion(s: State, e: Event)
    requires Inv(s) && Enabled(s, e)
    ensures Apply(s, e).db.version == s.db.version + if e.Commit? then 1 else 0
    ensures e.Fail? || e.Die? || e.Busy? || e.Refuse? ==> Apply(s, e).db == s.db
  {
    if e.Commit? {
      CommitDb(s, e.p);
    }
  }

  /** Each committed step raises the version by one, nothing else moves it, and a step that fails or dies changes
      nothing. */
  lemma {:induction false} VersionCountsCommits(ss: seq<State>, es: seq<Event>, i: nat)
    requires IsRun(ss, es) && Init(ss[0]) && i <= |es|
    ensures ss[i].db.version == ss[0].db.version + Commits(es, i)
    ensures i < |es| && (es[i].Fail? || es[i].Die? || es[i].Busy? || es[i].Refuse?) ==> ss[i + 1].db == ss[i].db
  {
    InvAlong(ss, es, i);
    if i < |es| {
      StepVersion(ss[i], es[i]);
    }
    if i > 0 {
      VersionCountsCommits(ss, es, i - 1);
      InvAlong(ss, es, i - 1);
      StepVersion(ss[i - 1], es[i - 1]);
    }
  }

  // ----- how a migrator left

  /** How `e` takes its migrator out of `migrate`, if it does. */
  function Leaves(e: Event, version: nat): Option<Pc> {
    match e
    case Enter(_) => if version == STEPS then Some(Returned(true)) else None
    case Busy(_) => Some(Returned(false))
    case Refuse(_) => Some(Threw)
    case Fail(_, busy) => Some(if busy then Returned(false) else Threw)
    case Finish(_) => Some(Returned(true))
    case Die(_) => Some(Outside)
    case _ => None
  }

  /** Event `k` is the last of migrator `p` before step `j`. */
  ghost predicate LastOf(es: seq<Event>, k: nat, j: nat, p: nat) {
    k < j <= |es| && Moves(es[k], p) && forall n :: k < n < j ==> !Moves(es[n], p)
  }

  lemma StepLeaves(s: State, e: Event, p: nat)
    requires Inv(s) && Enabled(s, e) && Moves(e, p)
    ensures p in s.migrators && p in Apply(s, e).migrators
    ensures var pc := Apply(s, e).migrators[p].pc;
            if Leaves(e, s.db.version).Some? then pc == Leaves(e, s.db.version).value else !Idle(pc)
  {
    assert p in s.migrators && MigratorOk(s.db, s.owner, p, s.migrators[p]);
  }

  /** A migrator is out of `migrate` exactly as its last event took it out: complete after its last step or at the
      newest version, stalled when the database was busy, thrown on any other error. */
  lemma {:induction false} LeftAs(ss: seq<State>, es: seq<Event>, k: nat, j: nat, p: nat)
    requires IsRun(ss, es) && Init(ss[0]) && LastOf(es, k, j, p)
    ensures p in ss[j].migrators
    ensures var pc, left := ss[j].migrators[p].pc, Leaves(es[k], ss[k].db.version);
            if left.Some? then pc == left.value else !Idle(pc)
  {
    InvAlong(ss, es, j - 1);
    if j == k + 1 {
      StepLeaves(ss[k], es[k], p);
    } else {
      LeftAs(ss, es, k, j - 1, p);
      StepOthers(ss[j - 1], es[j - 1], p);
    }
  }

  // ----- where a migrator is

  /** What takes a migrator to its next step, and what keeps it inside `migrate`. */
  predicate Passes(e: Event) { e.Skip? || e.Recheck? || e.Commit? }
  predicate Stays(e: Event) { Passes(e) || e.Begin? || e.Up? }

  /** `p` entered at event `k` and has not left before event `j`. */
  ghost predicate Inside(es: seq<Event>, k: nat, j: nat, p: nat) {
    k < j <= |es| && es[k] == Enter(p) && forall n :: k < n < j && Moves(es[n], p) ==> Stays(es[n])
  }

  function Gain(e: Event, p: nat): nat { if Moves(e, p) && Passes(e) then 1 else 0 }

  function Passed(es: seq<Event>, k: nat, j: nat, p: nat): nat
    requires k < j <= |es|
    decreases j
  {
    if j == k + 1 then 0
    else Passed(es, k, j - 1, p) + Gain(es[j - 1], p)
  }

  lemma StepInside(s: State, e: Event, p: nat)
    requires Inv(s) && Enabled(s, e) && p in s.migrators && !Idle(PcOf(s, p)) && (Moves(e, p) ==> Stays(e))
    ensures var t := Apply(s, e);
            AtStep(t, p, PcOf(s, p).have, PcOf(s, p).i + Gain(e, p))
  {
    if !Moves(e, p) {
      StepOthers(s, e, p);
    }
  }

  /** `p` is inside, entered at version `have` and is at step `i`. */
  ghost predicate AtStep(s: State, p: nat, have: nat, i: nat) {
    At(s, p) && !Idle(PcOf(s, p)) && PcOf(s, p).have == have && PcOf(s, p).i == i
  }

  lemma EnterIs(s: State, p: nat)
    requires Enabled(s, Enter(p)) && s.db.version < STEPS
    ensures AtStep(Apply(s, Enter(p)), p, s.db.version, 0)
  {
  }

  lemma AtStepNext(ss: seq<State>, es: seq<Event>, n: nat, p: nat, have: nat, i: nat)
    requires IsRun(ss, es) && Init(ss[0]) && n < |es| && AtStep(ss[n], p, have, i)
    requires Moves(es[n], p) ==> Stays(es[n])
    ensures AtStep(ss[n + 1], p, have, i + Gain(es[n], p))
  {
    InvAlong(ss, es, n);
    StepInside(ss[n], es[n], p);
  }

  lemma AtStepFirst(ss: seq<State>, es: seq<Event>, k: nat, p: nat)
    requires IsRun(ss, es) && k < |es| && es[k] == Enter(p) && ss[k].db.version < STEPS
    ensures AtStep(ss[k + 1], p, ss[k].db.version, 0)
  {
    EnterIs(ss[k], p);
  }

  /** If `p` is inside at `s`, it is inside and as far on at `t` as `e` takes it. */
  ghost predicate Advances(s: State, e: Event, t: State, p: nat, have: nat) {
    At(s, p) && !Idle(PcOf(s, p)) && PcOf(s, p).have == have ==> AtStep(t, p, have, PcOf(s, p).i + Gain(e, p))
  }

  lemma {:induction false} AtStepChain(ss: seq<State>, es: seq<Event>, k: nat, j: nat, p: nat, have: nat)
    requires |ss| == |es| + 1 && k < j <= |es| && AtStep(ss[k + 1], p, have, 0)
    requires forall n :: k < n < j ==> Advances(ss[n], es[n], ss[n + 1], p, have)
    ensures AtStep(ss[j], p, have, Passed(es, k, j, p))
  {
    if k < j - 1 {
      AtStepChain(ss, es, k, j - 1, p, have);
      assert Advances(ss[j - 1], es[j - 1], ss[j - 1 + 1], p, have);
    }
  }

  lemma AtStepAlong(ss: seq<State>, es: seq<Event>, k: nat, j: nat, p: nat)
    requires IsRun(ss, es) && Init(ss[0]) && Inside(es, k, j, p) && ss[k].db.version < STEPS
    ensures AtStep(ss[j], p, ss[k].db.version, Passed(es, k, j, p))
  {
    var have := ss[k].db.version;
    AtStepFirst(ss, es, k, p);
    forall n | k < n < j
      ensures Advances(ss[n], es[n], ss[n + 1], p, have)
    {
      if At(ss[n], p) && !Idle(PcOf(ss[n], p)) && PcOf(ss[n], p).have == have {
        AtStepNext(ss, es, n, p, have, PcOf(ss[n], p).i);
      }
    }
    AtStepChain(ss, es, k, j, p, have);
  }

  lemma SkipsWhatItHad(s: State, p: nat, have: nat, i: nat)
    requires AtStep(s, p, have, i)
    ensures Enabled(s, Skip(p)) ==> i < have
    ensures Enabled(s, Begin(p)) ==> i >= have
  {
  }

  /** Inside `migrate` a migrator goes through the steps from the first on, one at a time, and skips exactly those up to
      the version it read on entering. */
  lemma StepsInOrder(ss: seq<State>, es: seq<Event>, k: nat, j: nat, p: nat)
    requires IsRun(ss, es) && Init(ss[0]) && Inside(es, k, j, p) && ss[k].db.version < STEPS
    ensures AtStep(ss[j], p, ss[k].db.version, Passed(es, k, j, p))
    ensures j < |es| && es[j] == Skip(p) ==> Passed(es, k, j, p) < ss[k].db.version
    ensures j < |es| && es[j] == Begin(p) ==> Passed(es, k, j, p) >= ss[k].db.version
  {
    AtStepAlong(ss, es, k, j, p);
    SkipsWhatItHad(ss[j], p, ss[k].db.version, Passed(es, k, j, p));
  }

  // ----- nobody is in the way of a migrator that holds the lock or finds it free

  ghost predicate Follows(s: State, es: seq<Event>, t: State)
    decreases |es|
  {
    if es == [] then s == t else Enabled(s, es[0]) && Follows(Apply(s, es[0]), es[1..], t)
  }

  /** A bound on the steps `p` still has to make. */
  function ToGo(pc: Pc): nat {
    match pc
    case Between(_, i) => if i <= STEPS then 4 * (STEPS - i) + 1 else 0
    case Opened(_, i, _) => if i <= STEPS then 4 * (STEPS - i) else 0
    case Stepped(_, i, _) => if i < STEPS then 4 * (STEPS - i) - 1 else 0
    case _ => 4 * STEPS + 2
  }

  /** The next step of a migrator. */
  function NextOf(s: State, p: nat): Event
    requires At(s, p)
  {
    var pc := PcOf(s, p);
    match pc
    case Between(_, i) => if i == STEPS then Finish(p) else if Pending(pc) then Begin(p) else Skip(p)
    case Opened(_, i, txn) => if txn.version > i then Recheck(p) else Up(p)
    case Stepped(_, _, _) => Commit(p)
    case _ => Enter(p)
  }

  lemma NextIsEnabled(s: State, p: nat)
    requires Inv(s) && At(s, p) && (s.owner.None? || s.owner == Some(p))
    ensures Enabled(s, NextOf(s, p)) && Moves(NextOf(s, p), p)
    ensures var t := Apply(s, NextOf(s, p));
            && At(t, p) && (t.owner.None? || t.owner == Some(p))
            && (PcOf(t, p) == Returned(true) || (!Idle(PcOf(t, p)) && ToGo(PcOf(t, p)) < ToGo(PcOf(s, p))))
  {
    assert MigratorOk(s.db, s.owner, p, s.migrators[p]);
  }

  /** From every state in which nobody else holds the lock, a migrator's own next steps, at most eighteen, bring the
      schema to the newest version and the migrator back complete. */
  lemma {:induction false} FinishesAlone(s: State, p: nat) returns (es: seq<Event>, t: State)
    requires Inv(s) && At(s, p) && (s.owner.None? || s.owner == Some(p))
    ensures Follows(s, es, t) && Inv(t) && |es| <= ToGo(PcOf(s, p)) <= 18
    ensures forall k :: 0 <= k < |es| ==> Moves(es[k], p)
    ensures At(t, p) && PcOf(t, p) == Returned(true) && t.db.version == STEPS && t.owner.None?
    decreases ToGo(PcOf(s, p))
  {
    var e := NextOf(s, p);
    NextIsEnabled(s, p);
    StepKeeps(s, e);
    var u := Apply(s, e);
    if PcOf(u, p) == Returned(true) {
      es, t := [e], u;
      assert MigratorOk(u.db, u.owner, p, u.migrators[p]);
      assert Follows(u, [], u) && [e][1..] == [];
    } else {
      var more;
      more, t := FinishesAlone(u, p);
      es := [e] + more;
      assert es[1..] == more;
    }
  }

  /** And a writer whose id is new gets its row in, under the counter's number, whenever nobody holds the lock. */
  lemma WriterGetsIn(s: State, w: nat, id: string, parent: Option<string>, body: string)
    requires Inv(s) && s.owner.None? && w !in s.reserved && s.db.store.After?
    requires forall i :: 0 <= i < |s.db.store.rows| ==> s.db.store.rows[i].id != id
    ensures Enabled(s, Reserve(w)) && Enabled(Apply(s, Reserve(w)), InsertNew(w, id, parent, body))
    ensures var t := Apply(Apply(s, Reserve(w)), InsertNew(w, id, parent, body));
            && t.db.store.After? && t.reserved == s.reserved
            && t.db.store.rows == s.db.store.rows + [NewRow(id, s.db.store.next, parent, body)]
  {
    assert s.reserved[w := s.db.store.next] - {w} == s.reserved;
  }
}
