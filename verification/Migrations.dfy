/** Any number of processes migrating one SQLite database: `migrate` of legacy/src/migrations.ts, statement by
    statement. */
module Migrations {
  import opened Options

  /** Step `i` of the list has version `i + 1`. */
  const STEPS: nat := 4
  const REBUILD: nat := 3

  // ----- the message table

  datatype OldRow = OldRow(id: nat, parent: Option<nat>, body: string)
  datatype NewRow = NewRow(id: string, no: nat, parent: Option<string>, body: string)

  /** Before step 3 a message is known by its number; after it by text, with the number kept as `no`. */
  datatype Store = Before(legacy: seq<OldRow>) | After(rows: seq<NewRow>, next: nat)

  function Digit(d: nat): char
    requires d < 10
  {
    ['0', '1', '2', '3', '4', '5', '6', '7', '8', '9'][d]
  }

  /** `CAST(id AS TEXT)`. */
  function Decimal(n: nat): string {
    if n < 10 then [Digit(n)] else Decimal(n / 10) + [Digit(n % 10)]
  }

  function MaxId(legacy: seq<OldRow>): nat {
    if legacy == [] then 0
    else
      var m := MaxId(legacy[..|legacy| - 1]);
      if legacy[|legacy| - 1].id > m then legacy[|legacy| - 1].id else m
  }

  function Converted(r: OldRow): NewRow {
    NewRow(Decimal(r.id), r.id, if r.parent.Some? then Some(Decimal(r.parent.value)) else None, r.body)
  }

  function Rebuilt(legacy: seq<OldRow>): Store {
    After(seq(|legacy|, i requires 0 <= i < |legacy| => Converted(legacy[i])), MaxId(legacy) + 1)
  }

  // ----- the database and the processes

  datatype Db = Db(version: nat, applied: seq<nat>, store: Store)

  function Upped(version: nat, db: Db): Db {
    db.(applied := db.applied + [version],
        store := if version == REBUILD && db.store.Before? then Rebuilt(db.store.legacy) else db.store)
  }

  /** Where a migrator is. `have` is the version it read on entry, `i` the step it is at, `txn` what its transaction
      sees. */
  datatype Pc =
    | Outside
    | Between(have: nat, i: nat)
    | Opened(have: nat, i: nat, txn: Db)
    | Stepped(have: nat, i: nat, txn: Db)
    | Returned(complete: bool)
    | Threw

  /** `fk` is the connection's foreign-key enforcement. */
  datatype Migrator = Migrator(pc: Pc, fk: bool)

  /** `reserved` are numbers taken from the counter for rows that are not inserted yet. */
  datatype State = State(db: Db, owner: Option<nat>, migrators: map<nat, Migrator>, reserved: map<nat, nat>)

  datatype Event =
    | Enter(p: nat)
    | Skip(p: nat)
    | Begin(p: nat)
    | Busy(p: nat)
    | Refuse(p: nat)
    | Recheck(p: nat)
    | Up(p: nat)
    | Fail(p: nat, busy: bool)
    | Commit(p: nat)
    | Finish(p: nat)
    | Die(p: nat)
    | InsertOld(row: OldRow)
    | Reserve(w: nat)
    | InsertNew(w: nat, id: string, parent: Option<string>, body: string)

  predicate At(s: State, p: nat) { p in s.migrators }

  function PcOf(s: State, p: nat): Pc
    requires At(s, p)
  {
    s.migrators[p].pc
  }

  predicate InTransaction(pc: Pc) { pc.Opened? || pc.Stepped? }

  predicate Idle(pc: Pc) { pc.Outside? || pc.Returned? || pc.Threw? }

  predicate Pending(pc: Pc) { pc.Between? && pc.i < STEPS && pc.i + 1 > pc.have }

  predicate Enabled(s: State, e: Event) {
    match e
    case Enter(p) => At(s, p) && Idle(PcOf(s, p))
    case Skip(p) => At(s, p) && PcOf(s, p).Between? && PcOf(s, p).i < STEPS && !Pending(PcOf(s, p))
    case Begin(p) => At(s, p) && Pending(PcOf(s, p)) && s.owner.None?
    case Busy(p) => At(s, p) && Pending(PcOf(s, p))
    case Refuse(p) => At(s, p) && Pending(PcOf(s, p))
    case Recheck(p) => At(s, p) && PcOf(s, p).Opened? && PcOf(s, p).txn.version >= PcOf(s, p).i + 1
    case Up(p) => At(s, p) && PcOf(s, p).Opened? && PcOf(s, p).txn.version < PcOf(s, p).i + 1
    case Fail(p, _) => At(s, p) && InTransaction(PcOf(s, p))
    case Commit(p) => At(s, p) && PcOf(s, p).Stepped?
    case Finish(p) => At(s, p) && PcOf(s, p).Between? && PcOf(s, p).i == STEPS
    case Die(p) => At(s, p)
    case InsertOld(row) => s.owner.None? && s.db.store.Before? && row.id > MaxId(s.db.store.legacy)
    case Reserve(w) => s.owner.None? && s.db.store.After? && w !in s.reserved
    case InsertNew(w, id, _, _) =>
      s.owner.None? && s.db.store.After? && w in s.reserved
      && forall i :: 0 <= i < |s.db.store.rows| ==> s.db.store.rows[i].id != id
  }

  function Moved(s: State, p: nat, pc: Pc): State
    requires At(s, p)
  {
    s.(migrators := s.migrators[p := s.migrators[p].(pc := pc)])
  }

  /** Leaving `migrate` puts foreign-key enforcement back. */
  function Left(s: State, p: nat, pc: Pc): State
    requires At(s, p)
  {
    s.(migrators := s.migrators[p := Migrator(pc, true)])
  }

  function Freed(s: State, p: nat): State {
    if s.owner == Some(p) then s.(owner := None) else s
  }

  function Apply(s: State, e: Event): State
    requires Enabled(s, e)
  {
    match e
    case Enter(p) =>
      if s.db.version >= STEPS then Moved(s, p, Returned(true))
      else s.(migrators := s.migrators[p := Migrator(Between(s.db.version, 0), false)])
    case Skip(p) => Moved(s, p, Between(PcOf(s, p).have, PcOf(s, p).i + 1))
    case Begin(p) => Moved(s, p, Opened(PcOf(s, p).have, PcOf(s, p).i, s.db)).(owner := Some(p))
    case Busy(p) => Left(s, p, Returned(false))
    case Refuse(p) => Left(s, p, Threw)
    case Recheck(p) => Moved(Freed(s, p), p, Between(PcOf(s, p).have, PcOf(s, p).i + 1))
    case Up(p) => Moved(s, p, Stepped(PcOf(s, p).have, PcOf(s, p).i, Upped(PcOf(s, p).i + 1, PcOf(s, p).txn)))
    case Fail(p, busy) => Left(Freed(s, p), p, if busy then Returned(false) else Threw)
    case Commit(p) =>
      var pc := PcOf(s, p);
      Moved(Freed(s, p), p, Between(pc.have, pc.i + 1)).(db := pc.txn.(version := pc.i + 1))
    case Finish(p) => Left(s, p, Returned(true))
    case Die(p) => Left(Freed(s, p), p, Outside)
    case InsertOld(row) => s.(db := s.db.(store := Before(s.db.store.legacy + [row])))
    case Reserve(w) =>
      s.(reserved := s.reserved[w := s.db.store.next], db := s.db.(store := s.db.store.(next := s.db.store.next + 1)))
    case InsertNew(w, id, parent, body) =>
      var row := NewRow(id, s.reserved[w], parent, body);
      s.(reserved := s.reserved - {w}, db := s.db.(store := s.db.store.(rows := s.db.store.rows + [row])))
  }

  // ----- what every database has

  function Upto(n: nat): seq<nat> {
    if n == 0 then [] else Upto(n - 1) + [n]
  }

  /** The old ids are told apart; the new ids and numbers too, and the counter is past every number. */
  predicate StoreOk(t: Store) {
    match t
    case Before(legacy) => forall i, j :: 0 <= i < j < |legacy| ==> legacy[i].id < legacy[j].id
    case After(rows, next) =>
      && (forall i, j :: 0 <= i < j < |rows| ==> rows[i].no != rows[j].no && rows[i].id != rows[j].id)
      && (forall i :: 0 <= i < |rows| ==> rows[i].no < next)
  }

  /** Exactly the steps up to the version were applied, in order, once each. */
  predicate DbOk(db: Db) {
    && db.applied == Upto(db.version)
    && db.version <= STEPS
    && (db.version >= REBUILD <==> db.store.After?)
    && StoreOk(db.store)
  }

  predicate ReservedOk(t: Store, reserved: map<nat, nat>) {
    && (t.Before? ==> reserved == map[])
    && (t.After? ==> forall w :: w in reserved ==> reserved[w] < t.next)
    && (t.After? ==> forall w, i :: w in reserved && 0 <= i < |t.rows| ==> t.rows[i].no != reserved[w])
    && (forall v, w :: v in reserved && w in reserved && v != w ==> reserved[v] != reserved[w])
  }

  predicate MigratorOk(db: Db, owner: Option<nat>, p: nat, m: Migrator) {
    && (InTransaction(m.pc) <==> owner == Some(p))
    && (Idle(m.pc) <==> m.fk)
    && (m.pc.Between? ==> m.pc.i <= STEPS && m.pc.i <= db.version && m.pc.have <= db.version)
    && (InTransaction(m.pc) ==> m.pc.have <= m.pc.i < STEPS && m.pc.i <= db.version)
    && (m.pc.Opened? ==> m.pc.txn == db)
    && (m.pc.Stepped? ==> db.version == m.pc.i && m.pc.txn == Upped(m.pc.i + 1, db))
    && (m.pc.Returned? && m.pc.complete ==> db.version == STEPS)
  }

  ghost predicate AllOk(s: State) {
    forall p :: p in s.migrators ==> MigratorOk(s.db, s.owner, p, s.migrators[p])
  }

  ghost predicate Inv(s: State) {
    DbOk(s.db) && ReservedOk(s.db.store, s.reserved) && AllOk(s) && (s.owner.Some? ==> s.owner.value in s.migrators)
  }

  /** A database at some version with its steps applied, and nobody in `migrate` yet. */
  ghost predicate Init(s: State) {
    && DbOk(s.db) && s.owner.None? && s.reserved == map[]
    && forall p :: p in s.migrators ==> s.migrators[p] == Migrator(Outside, true)
  }

  ghost predicate IsRun(ss: seq<State>, es: seq<Event>) {
    |ss| == |es| + 1 && forall i :: 0 <= i < |es| ==> Enabled(ss[i], es[i]) && ss[i + 1] == Apply(ss[i], es[i])
  }

  lemma InitHolds(s: State)
    requires Init(s)
    ensures Inv(s)
  {
  }

  // ----- the rebuild

  lemma {:induction false} MaxIdBounds(legacy: seq<OldRow>, i: nat)
    requires i < |legacy|
    ensures legacy[i].id <= MaxId(legacy)
  {
    if i < |legacy| - 1 {
      MaxIdBounds(legacy[..|legacy| - 1], i);
    }
  }

  /** It is the largest id, and 0 without one. */
  lemma {:induction false} MaxIdIs(legacy: seq<OldRow>)
    ensures legacy == [] ==> MaxId(legacy) == 0
    ensures legacy != [] ==>
              MaxId(legacy) == 0 || exists i :: 0 <= i < |legacy| && legacy[i].id == MaxId(legacy)
  {
    if legacy != [] {
      var n := |legacy| - 1;
      MaxIdIs(legacy[..n]);
      if MaxId(legacy) != legacy[n].id && MaxId(legacy) != 0 {
        var i :| 0 <= i < n && legacy[..n][i].id == MaxId(legacy[..n]);
        assert legacy[i].id == MaxId(legacy);
      }
    }
  }

  lemma RebuildIsOk(legacy: seq<OldRow>)
    requires StoreOk(Before(legacy))
    ensures StoreOk(Rebuilt(legacy))
  {
    var t := Rebuilt(legacy);
    forall i, j | 0 <= i < j < |legacy|
      ensures t.rows[i].id != t.rows[j].id
    {
      if t.rows[i].id == t.rows[j].id {
        DecimalInjective(legacy[i].id, legacy[j].id);
      }
    }
    forall i | 0 <= i < |legacy|
      ensures t.rows[i].no < t.next
    {
      MaxIdBounds(legacy, i);
    }
  }

  lemma DigitInjective(a: nat, b: nat)
    requires a < 10 && b < 10 && Digit(a) == Digit(b)
    ensures a == b
  {
  }

  lemma {:induction false} DecimalInjective(a: nat, b: nat)
    requires Decimal(a) == Decimal(b)
    ensures a == b
  {
    DecimalLast(a);
    DecimalLast(b);
    DigitInjective(a % 10, b % 10);
    if a >= 10 && b >= 10 {
      assert Decimal(a)[..|Decimal(a)| - 1] == Decimal(a / 10);
      assert Decimal(b)[..|Decimal(b)| - 1] == Decimal(b / 10);
      DecimalInjective(a / 10, b / 10);
    }
  }

  lemma DecimalLast(n: nat)
    ensures Decimal(n) != "" && Decimal(n)[|Decimal(n)| - 1] == Digit(n % 10)
    ensures |Decimal(n)| == 1 <==> n < 10
  {
  }

  /** Every message survives with its number and body, and replies point to the same messages as before. */
  lemma RebuildKeepsLinks(legacy: seq<OldRow>, i: nat, j: nat)
    requires i < |legacy| && j < |legacy|
    ensures var t := Rebuilt(legacy);
            && |t.rows| == |legacy|
            && t.rows[i].no == legacy[i].id && t.rows[i].body == legacy[i].body
            && (t.rows[i].id == t.rows[j].id <==> legacy[i].id == legacy[j].id)
            && (t.rows[i].parent == Some(t.rows[j].id) <==> legacy[i].parent == Some(legacy[j].id))
            && (t.rows[i].parent.None? <==> legacy[i].parent.None?)
  {
    if Decimal(legacy[i].id) == Decimal(legacy[j].id) {
      DecimalInjective(legacy[i].id, legacy[j].id);
    }
    if legacy[i].parent.Some? && Decimal(legacy[i].parent.value) == Decimal(legacy[j].id) {
      DecimalInjective(legacy[i].parent.value, legacy[j].id);
    }
  }

  lemma UppedIsOk(db: Db)
    requires DbOk(db) && db.version < STEPS
    ensures DbOk(Upped(db.version + 1, db).(version := db.version + 1))
  {
    if db.store.Before? {
      RebuildIsOk(db.store.legacy);
    }
  }

  // ----- every step keeps it

  lemma CommitDb(s: State, p: nat)
    requires Inv(s) && Enabled(s, Commit(p))
    ensures s.owner == Some(p) && Apply(s, Commit(p)).db == Upped(s.db.version + 1, s.db).(version := s.db.version + 1)
    ensures DbOk(Apply(s, Commit(p)).db)
  {
    assert MigratorOk(s.db, s.owner, p, s.migrators[p]);
    UppedIsOk(s.db);
  }

  lemma InsertOldDb(s: State, row: OldRow)
    requires Inv(s) && Enabled(s, InsertOld(row))
    ensures DbOk(Apply(s, InsertOld(row)).db)
  {
    forall i | 0 <= i < |s.db.store.legacy|
      ensures s.db.store.legacy[i].id < row.id
    {
      MaxIdBounds(s.db.store.legacy, i);
    }
  }

  lemma StepDb(s: State, e: Event)
    requires Inv(s) && Enabled(s, e)
    ensures DbOk(Apply(s, e).db)
  {
    match e
    case Commit(p) => CommitDb(s, p);
    case InsertOld(row) => InsertOldDb(s, row);
    case InsertNew(w, id, parent, body) => InsertNewDb(s, w, id, parent, body);
    case _ =>
  }

  lemma InsertNewDb(s: State, w: nat, id: string, parent: Option<string>, body: string)
    requires Inv(s) && Enabled(s, InsertNew(w, id, parent, body))
    ensures DbOk(Apply(s, InsertNew(w, id, parent, body)).db)
  {
  }

  lemma StepReserved(s: State, e: Event)
    requires Inv(s) && Enabled(s, e)
    ensures ReservedOk(Apply(s, e).db.store, Apply(s, e).reserved)
  {
    match e
    case Commit(p) => CommitDb(s, p);
    case _ =>
  }

  lemma StepOwner(s: State, e: Event)
    requires Inv(s) && Enabled(s, e)
    ensures Apply(s, e).owner.Some? ==> Apply(s, e).owner.value in Apply(s, e).migrators
  {
  }

  predicate Moves(e: Event, p: nat) {
    match e
    case InsertOld(_) => false
    case Reserve(_) => false
    case InsertNew(_, _, _, _) => false
    case Enter(q) => p == q
    case Skip(q) => p == q
    case Begin(q) => p == q
    case Busy(q) => p == q
    case Refuse(q) => p == q
    case Recheck(q) => p == q
    case Up(q) => p == q
    case Fail(q, _) => p == q
    case Commit(q) => p == q
    case Finish(q) => p == q
    case Die(q) => p == q
  }

  lemma StepMover(s: State, e: Event, p: nat)
    requires Inv(s) && Enabled(s, e) && Moves(e, p)
    ensures p in Apply(s, e).migrators && MigratorOk(Apply(s, e).db, Apply(s, e).owner, p, Apply(s, e).migrators[p])
  {
    assert MigratorOk(s.db, s.owner, p, s.migrators[p]);
  }

  lemma StepOthers(s: State, e: Event, p: nat)
    requires Inv(s) && Enabled(s, e) && !Moves(e, p) && p in s.migrators
    ensures var t := Apply(s, e);
            p in t.migrators && t.migrators[p] == s.migrators[p] && MigratorOk(t.db, t.owner, p, t.migrators[p])
  {
    assert MigratorOk(s.db, s.owner, p, s.migrators[p]);
    match e
    case Commit(q) => CommitDb(s, q);
    case Recheck(q) => assert MigratorOk(s.db, s.owner, q, s.migrators[q]);
    case Fail(q, _) => assert MigratorOk(s.db, s.owner, q, s.migrators[q]);
    case Die(q) => assert MigratorOk(s.db, s.owner, q, s.migrators[q]);
    case _ =>
  }

  lemma StepKeeps(s: State, e: Event)
    requires Inv(s) && Enabled(s, e)
    ensures Inv(Apply(s, e))
  {
    StepDb(s, e);
    StepReserved(s, e);
    StepOwner(s, e);
    forall p | p in Apply(s, e).migrators
      ensures MigratorOk(Apply(s, e).db, Apply(s, e).owner, p, Apply(s, e).migrators[p])
    {
      if Moves(e, p) {
        StepMover(s, e, p);
      } else {
        StepOthers(s, e, p);
      }
    }
  }

  lemma {:induction false} InvAlong(ss: seq<State>, es: seq<Event>, i: nat)
    requires IsRun(ss, es) && Init(ss[0]) && i < |ss|
    ensures Inv(ss[i])
  {
    if i == 0 {
      InitHolds(ss[0]);
    } else {
      InvAlong(ss, es, i - 1);
      StepKeeps(ss[i - 1], es[i - 1]);
    }
  }
}
