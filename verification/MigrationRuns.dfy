/** What holds of every database any number of migrators can reach. */
module MigrationRuns {
  import opened Options
  import opened Migrations

  lemma {:induction false} UptoIs(n: nat)
    ensures |Upto(n)| == n && forall k :: 0 <= k < n ==> Upto(n)[k] == k + 1
  {
    if n > 0 {
      UptoIs(n - 1);
    }
  }

  /** Steps 1 to `user_version` were applied, in order, once each, and nothing else. */
  lemma StepsAppliedOnce(ss: seq<State>, es: seq<Event>, i: nat)
    requires IsRun(ss, es) && Init(ss[0]) && i < |ss|
    ensures var db := ss[i].db;
            |db.applied| == db.version <= STEPS && forall k :: 0 <= k < |db.applied| ==> db.applied[k] == k + 1
  {
    InvAlong(ss, es, i);
    UptoIs(ss[i].db.version);
  }

  /** After step 3 no stored number repeats, and the counter is past each, so the next one taken is new. */
  lemma CounterIsAhead(ss: seq<State>, es: seq<Event>, i: nat)
    requires IsRun(ss, es) && Init(ss[0]) && i < |ss| && ss[i].db.version >= REBUILD
    ensures var t := ss[i].db.store;
            && t.After?
            && (forall k :: 0 <= k < |t.rows| ==> t.rows[k].no < t.next)
            && (forall k, l :: 0 <= k < l < |t.rows| ==> t.rows[k].no != t.rows[l].no && t.rows[k].id != t.rows[l].id)
            && (forall w, k :: w in ss[i].reserved && 0 <= k < |t.rows| ==> t.rows[k].no != ss[i].reserved[w])
  {
    InvAlong(ss, es, i);
  }

  /** A migrator that ran to its end left the newest schema, and foreign keys are off exactly while one is migrating. */
  lemma LeavingIsSafe(ss: seq<State>, es: seq<Event>, i: nat, p: nat)
    requires IsRun(ss, es) && Init(ss[0]) && i < |ss| && p in ss[i].migrators
    ensures Idle(ss[i].migrators[p].pc) <==> ss[i].migrators[p].fk
    ensures ss[i].migrators[p].pc == Returned(true) ==> ss[i].db.version == STEPS
  {
    InvAlong(ss, es, i);
    assert MigratorOk(ss[i].db, ss[i].owner, p, ss[i].migrators[p]);
  }

  // ----- messages over a whole run

  /** `u` has every message of `t`, in its place, converted when the table was rebuilt in between. */
  predicate Carries(t: Store, u: Store) {
    match (t, u)
    case (Before(a), Before(b)) => a <= b
    case (Before(a), After(rows, _)) => |a| <= |rows| && forall k :: 0 <= k < |a| ==> rows[k] == Converted(a[k])
    case (After(a, m), After(b, n)) => a <= b && m <= n
    case (After(_, _), Before(_)) => false
  }

  lemma CarriesTwice(t: Store, u: Store, v: Store)
    requires Carries(t, u) && Carries(u, v)
    ensures Carries(t, v)
  {
    if t.Before? && u.After? {
      assert forall k :: 0 <= k < |t.legacy| ==> v.rows[k] == u.rows[k];
    }
  }

  lemma UppedCarries(version: nat, db: Db)
    ensures Carries(db.store, Upped(version, db).store)
  {
  }

  lemma StepCarries(s: State, e: Event)
    requires Inv(s) && Enabled(s, e)
    ensures Carries(s.db.store, Apply(s, e).db.store)
    ensures s.db.version <= Apply(s, e).db.version && s.db.applied <= Apply(s, e).db.applied
  {
    if e.Commit? {
      CommitDb(s, e.p);
      UppedCarries(s.db.version + 1, s.db);
    }
  }

  /** `b` has every step and message of `a`. */
  ghost predicate Grows(a: Db, b: Db) {
    Carries(a.store, b.store) && a.version <= b.version && a.applied <= b.applied
  }

  lemma StepGrows(ss: seq<State>, es: seq<Event>, k: nat)
    requires IsRun(ss, es) && Init(ss[0]) && k < |es|
    ensures Grows(ss[k].db, ss[k + 1].db)
  {
    InvAlong(ss, es, k);
    StepCarries(ss[k], es[k]);
  }

  lemma {:induction false} GrowsAlong(dbs: seq<Db>, i: nat, j: nat)
    requires i <= j < |dbs| && forall k :: 0 <= k < |dbs| - 1 ==> Grows(dbs[k], dbs[k + 1])
    ensures Grows(dbs[i], dbs[j])
  {
    if i == j {
      CarriesSelf(dbs[i].store);
    } else {
      GrowsAlong(dbs, i, j - 1);
      assert Grows(dbs[j - 1], dbs[j - 1 + 1]);
      CarriesTwice(dbs[i].store, dbs[j - 1].store, dbs[j].store);
    }
  }

  /** Nothing is lost: schema steps and messages only accumulate, whoever dies, stalls or rolls back. */
  lemma NothingIsLost(ss: seq<State>, es: seq<Event>, i: nat, j: nat)
    requires IsRun(ss, es) && Init(ss[0]) && i <= j < |ss|
    ensures Carries(ss[i].db.store, ss[j].db.store)
    ensures ss[i].db.version <= ss[j].db.version && ss[i].db.applied <= ss[j].db.applied
  {
    var dbs := seq(|ss|, k requires 0 <= k < |ss| => ss[k].db);
    forall k | 0 <= k < |dbs| - 1
      ensures Grows(dbs[k], dbs[k + 1])
    {
      StepGrows(ss, es, k);
    }
    GrowsAlong(dbs, i, j);
  }

  /** A reply written before the rebuild still answers the same message after it, and no other. */
  lemma RepliesStayPut(ss: seq<State>, es: seq<Event>, i: nat, j: nat, k: nat, l: nat)
    requires IsRun(ss, es) && Init(ss[0]) && i <= j < |ss| && ss[i].db.store.Before? && ss[j].db.store.After?
    requires k < |ss[i].db.store.legacy| && l < |ss[i].db.store.legacy|
    ensures var a, b := ss[i].db.store.legacy, ss[j].db.store.rows;
            && |a| <= |b| && b[k].no == a[k].id && b[k].body == a[k].body
            && (b[k].parent == Some(b[l].id) <==> a[k].parent == Some(a[l].id))
  {
    NothingIsLost(ss, es, i, j);
    RebuildKeepsLinks(ss[i].db.store.legacy, k, l);
  }

  // ----- one migrator, with the others' progress from outside

  /** What others have done by the time the lock is asked for, and what comes of asking and of the step. */
  datatype Turn = Turn(others: nat, busy: bool, fails: bool)
  datatype Outcome = Complete | Stalled | Thrown

  /** The steps others commit, up to version `v`. */
  function Advanced(db: Db, v: nat): Db
    decreases v - db.version
  {
    if db.version >= v || db.version >= STEPS then db
    else Advanced(Upped(db.version + 1, db).(version := db.version + 1), v)
  }

  lemma {:induction false} AdvancedSpec(db: Db, v: nat)
    requires DbOk(db)
    ensures DbOk(Advanced(db, v)) && db.version <= Advanced(db, v).version && Carries(db.store, Advanced(db, v).store)
    ensures Advanced(db, v).version == if v <= db.version then db.version else if v < STEPS then v else STEPS
    decreases v - db.version
  {
    if db.version < v && db.version < STEPS {
      var next := Upped(db.version + 1, db).(version := db.version + 1);
      UppedIsOk(db);
      UppedCarries(db.version + 1, db);
      AdvancedSpec(next, v);
      CarriesTwice(db.store, next.store, Advanced(next, v).store);
    }
  }

  lemma AdvancedOnce(before: Db, db: Db)
    requires DbOk(db) && db.version < STEPS && Carries(before.store, db.store)
    ensures var next := Upped(db.version + 1, db).(version := db.version + 1);
            DbOk(next) && Carries(before.store, next.store)
  {
    UppedIsOk(db);
    UppedCarries(db.version + 1, db);
    CarriesTwice(before.store, db.store, Upped(db.version + 1, db).store);
  }

  class Connection {
    var db: Db
    var fk: bool

    constructor (db: Db)
      ensures this.db == db && fk
    {
      this.db, fk := db, true;
    }

    /** Begins, re-checks, applies and commits step `i`; on failure the transaction is rolled back. */
    method TryStep(i: nat, turn: Turn) returns (ok: bool)
      requires DbOk(db) && i < STEPS && i <= db.version
      modifies this`db
      ensures DbOk(db) && old(db.version) <= db.version && Carries(old(db.store), db.store)
      ensures ok ==> db.version >= i + 1
      ensures ok <==> !turn.busy && (old(db.version) >= i + 1 || turn.others >= i + 1 || !turn.fails)
    {
      db := Advanced(db, turn.others);
      AdvancedSpec(old(db), turn.others);
      if turn.busy {
        return false;
      }
      if db.version >= i + 1 {
        return true;
      }
      var txn := Upped(i + 1, db);
      if turn.fails {
        return false;
      }
      AdvancedOnce(old(db), db);
      db := txn.(version := i + 1);
      return true;
    }

    method Migrate(turns: nat -> Turn) returns (outcome: Outcome)
      requires DbOk(db) && fk
      modifies this
      ensures fk && DbOk(db) && old(db.version) <= db.version && Carries(old(db.store), db.store)
      ensures outcome.Complete? ==> db.version == STEPS
      ensures outcome.Stalled? ==> exists n :: old(db.version) <= n < STEPS && turns(n).busy
      ensures outcome.Thrown? ==> exists n :: old(db.version) <= n < STEPS && turns(n).fails && !turns(n).busy
      ensures (forall n :: !turns(n).busy && !turns(n).fails) ==> outcome.Complete?
    {
      var have := db.version;
      if have >= STEPS {
        CarriesSelf(db.store);
        return Complete;
      }
      fk := false;
      CarriesSelf(db.store);
      for i := 0 to STEPS
        invariant !fk && DbOk(db) && have <= db.version && i <= db.version
        invariant have == old(db.version) && Carries(old(db.store), db.store)
      {
        if i + 1 > have {
          ghost var before := db.store;
          var ok := TryStep(i, turns(i));
          CarriesTwice(old(db.store), before, db.store);
          if !ok {
            fk := true;
            return if turns(i).busy then Stalled else Thrown;
          }
        }
      }
      fk := true;
      return Complete;
    }
  }

  lemma CarriesSelf(t: Store)
    ensures Carries(t, t)
  {
  }
}
