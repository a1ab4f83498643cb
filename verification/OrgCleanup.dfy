/** The program: identifying, cleaning up and recounting, on a database updated in place. */
module OrgCleanup {
  import opened Wrappers
  import opened OrgStore
  import opened OrgSafety

  class Database {
    const schema: Schema
    var rows: map<string, map<int, Row>>
    var users: map<int, User>
    var tenants: map<int, Tenant>

    constructor (db: Db)
      ensures State() == db
    {
      schema, rows, users, tenants := db.schema, db.rows, db.users, db.tenants;
    }

    function State(): Db
      reads this
    {
      Db(schema, rows, users, tenants)
    }

    method Identify(w: World, stamp: string, tenantId: Option<int>, allowed: Option<set<int>>)
      returns (o: Result<Org, Refusal>)
      requires WellFormed(State())
      ensures Identifies(w, State(), stamp, tenantId, allowed, o)
    {
      var when := w.stampTime(stamp);
      if when.None? {
        return Failure(BadStamp);
      }
      var records := SeedRecords(State(), stamp, tenantId);
      if records == {} {
        return Failure(NoRecord);
      }
      if |records| > 1 {
        return Failure(ManyRecords);
      }
      ghost var some := OneOf(records);
      var r :| r in records;
      o := CheckRecord(w, State(), stamp, when.value, r, allowed);
    }

    /** One pass over the tables still pending; a refused delete leaves its table for the next pass. */
    method Pass(o: Org, ch: Chance, pass: nat, pending: set<string>, ghost before: Db, deleted: map<string, nat>,
                failed: set<string>)
      returns (left: set<string>, deleted': map<string, nat>, failed': set<string>)
      requires WellFormed(before) && schema == before.schema
      requires pending == Stuck(before, o, ch, pass) && rows == Emptied(before, o, Pending(before, o) - pending)
      requires deleted == Counts(before, o, Pending(before, o) - pending) && failed <= pending
      modifies this`rows
      ensures left == Stuck(before, o, ch, pass + 1) && rows == Emptied(before, o, Pending(before, o) - left)
      ensures deleted' == Counts(before, o, Pending(before, o) - left) && failed' == left
    {
      left, deleted', failed' := {}, deleted, failed;
      var todo := pending;
      hide Pending;
      hide Emptied;
      hide Counts;
      hide OwnedRows;
      ghost var all := Pending(before, o);
      ghost var done := all - pending;
      while todo != {}
        invariant todo <= pending && left <= pending && left !! todo
        invariant forall t | t in pending - todo :: t in left <==> ch.refuses(pass, t)
        invariant done == all - (todo + left)
        invariant rows == Emptied(before, o, done)
        invariant deleted' == Counts(before, o, done)
        invariant failed' <= todo + left && left <= failed'
        decreases todo
      {
        var t :| t in todo;
        todo := todo - {t};
        if ch.refuses(pass, t) {
          failed' := failed' + {t};
          left := left + {t};
          assert all - (todo + left) == done;
        } else {
          EmptyOne(before, o, done, t, State());
          var gone := OwnedRows(State(), t, o.tid, o.uids);
          rows := rows[t := rows[t] - gone];
          deleted' := deleted'[t := |gone|];
          failed' := failed' - {t};
          done := done + {t};
          assert all - (todo + left) == done;
        }
      }
      assert forall t | t in pending :: t in left <==> ch.refuses(pass, t);
      assert {} + left == left;
      StuckNext(before, o, ch, pass, pending, left);
    }

    /** Foreign rows were found: the organisation is made inert and everything stays. */
    method MakeAllInert(o: Org, ch: Chance)
      requires WellFormed(State())
      modifies this
      ensures State() == MadeInert(old(State()), o, ch)
    {
      var inert := o.tid in tenants && tenants[o.tid].status == "suspended"
        && forall u | u in o.uids && u in users :: !users[u].active;
      users := MakeInert(users, o.uids, ch.tombstone);
      tenants := Suspend(tenants, o.tid, REFUSED);
      if !inert {
        rows := rows[AUDIT := rows[AUDIT][ch.auditId := ch.auditRow]];
      }
    }

    /** What a second look at the store reports. */
    method Count(o: Org, ch: Chance, ghost d: Deletion, deleted: map<string, nat>, failed: set<string>)
      returns (r: Report)
      requires WellFormed(State()) && deleted == d.deleted && failed == d.failed
      ensures r == Recount(State(), o, ch, d)
    {
      var left := UsersOf(State(), o.tid);
      var owned := Owned(State(), o.tid, left);
      var remaining := Allowed(owned) + Other(owned);
      var inert := forall u | u in left :: !users[u].active && users[u].hash == ch.tombstone;
      var suspended := o.tid in tenants && tenants[o.tid].status == "suspended";
      r := Report(deleted, failed, Ledger(owned), remaining, left,
                  remaining == map[] && failed == {} && suspended && inert);
    }

    /** At most three passes over the tables. */
    method RunPasses(o: Org, ch: Chance) returns (deleted: map<string, nat>, failed: set<string>)
      requires WellFormed(State())
      modifies this`rows
      ensures State() == Mid(old(State()), o, Done(old(State()), o, ch))
      ensures deleted == Counts(old(State()), o, Done(old(State()), o, ch))
              && failed == Stuck(old(State()), o, ch, PASSES)
    {
      ghost var before := State();
      var pending := Allowed(Owned(State(), o.tid, o.uids)).Keys;
      deleted, failed := map[], {};
      StuckNone(before, o, ch);
      assert pending == Pending(before, o);
      var pass := 0;
      hide Pending;
      hide Owned;
      hide Allowed;
      hide Emptied;
      hide Counts;
      hide Stuck;
      while pass < PASSES && pending != {}
        invariant pass <= PASSES && pending == Stuck(before, o, ch, pass)
        invariant rows == Emptied(before, o, Pending(before, o) - pending)
        invariant deleted == Counts(before, o, Pending(before, o) - pending)
        invariant failed <= pending && (pass > 0 ==> failed == pending)
        decreases PASSES - pass
      {
        pending, deleted, failed := Pass(o, ch, pass, pending, before, deleted, failed);
        pass := pass + 1;
      }
      StuckNoMore(before, o, ch, pass, PASSES);
    }

    /** The users no row names any more are deleted, unless a foreign key refuses. */
    method DropUsers(o: Org, ch: Chance, ghost before: Db, deleted: map<string, nat>, failed: set<string>)
      returns (deleted': map<string, nat>, failed': set<string>, keep: set<int>)
      requires WellFormed(before) && State() == Mid(before, o, Done(before, o, ch))
      requires deleted == Counts(before, o, Done(before, o, ch)) && failed == Stuck(before, o, ch, PASSES)
      modifies this`users
      ensures Delete(before, o, ch) == Deletion(State(), deleted', failed', keep)
      ensures WellFormed(State()) && forall u | u in old(users) && u !in users :: u in o.uids && !Referred(State(), u)
      ensures !ch.refusesUsers ==> forall u | u in o.uids && u in users :: Referred(State(), u)
    {
      DroppedAreFree(State(), o);
      hide Referred;
      hide IsNamed;
      hide Done;
      hide Stuck;
      hide Counts;
      hide NamedOf;
      hide Emptied;
      var named := NamedOf(State(), o.uids);
      var drop := o.uids - named;
      deleted', failed', keep := deleted, failed, named;
      if drop != {} {
        if ch.refusesUsers {
          failed' := failed + {"users"};
          keep := o.uids;
        } else {
          users := users - drop;
          deleted' := deleted["users" := |drop|];
        }
      }
    }

    /** Everything after the organisation is identified and nothing foreign is found. */
    method RemoveAndSuspend(o: Org, ch: Chance)
      returns (ghost d: Deletion, deleted: map<string, nat>, failed: set<string>)
      requires WellFormed(State())
      modifies this
      ensures d == Delete(old(State()), o, ch) && deleted == d.deleted && failed == d.failed
      ensures State() == Cleaned(old(State()), o, ch)
    {
      ghost var before := State();
      var loaded := users;
      hide Mid;
      hide Done;
      hide Stuck;
      hide Counts;
      hide Delete;
      hide Suspend;
      hide MakeInert;
      deleted, failed := RunPasses(o, ch);
      var keep;
      deleted, failed, keep := DropUsers(o, ch, before, deleted, failed);
      d := Deletion(State(), deleted, failed, keep);
      var sawActive := exists u | u in o.uids && u in loaded :: loaded[u].active && !(ch.synchronised && u in keep);
      var changed := deleted != map[] || o.tid !in tenants || tenants[o.tid].status != "suspended" || sawActive;
      SameTenants(before, o, ch);
      assert changed == Changed(before, o, ch, d);
      users := MakeInert(users, keep, ch.tombstone);
      tenants := Suspend(tenants, o.tid, CLEANED);
      if changed {
        rows := rows[AUDIT := rows[AUDIT][ch.auditId := ch.auditRow]];
      }
    }
  }

  /** The users that are named are those some row holds, whoever the users are. */
  lemma DroppedAreFree(db: Db, o: Org)
    requires WellFormed(db)
    ensures forall users: map<int, User>, u ::
              u in o.uids ==> (u in NamedOf(db, o.uids) <==> Referred(db.(users := users), u))
  {
    hide IsNamed;
    hide Referred;
    forall users: map<int, User>, u | u in o.uids
      ensures u in NamedOf(db, o.uids) <==> Referred(db.(users := users), u)
    {
      NamedIsReferred(db, u);
      SameReferences(db, users, u);
    }
  }

  lemma SameReferences(db: Db, users: map<int, User>, u: int)
    requires WellFormed(db)
    ensures Referred(db.(users := users), u) <==> Referred(db, u)
  {}

  lemma SameTenants(before: Db, o: Org, ch: Chance)
    requires WellFormed(before)
    ensures Delete(before, o, ch).db.tenants == before.tenants
  {
    hide Done;
    hide Stuck;
    hide Counts;
    hide NamedOf;
    hide Emptied;
  }

  lemma EmptyOne(before: Db, o: Org, done: set<string>, t: string, now: Db)
    requires WellFormed(before) && t in Pending(before, o) && t !in done
    requires now.schema == before.schema && now.rows == Emptied(before, o, done)
    ensures WellFormed(now) && t in now.rows && OwnedRows(now, t, o.tid, o.uids) == OwnedRows(before, t, o.tid, o.uids)
    ensures now.rows[t := now.rows[t] - OwnedRows(before, t, o.tid, o.uids)] == Emptied(before, o, done + {t})
    ensures Counts(before, o, done)[t := |OwnedRows(before, t, o.tid, o.uids)|] == Counts(before, o, done + {t})
  {}

  lemma StuckNone(before: Db, o: Org, ch: Chance)
    requires WellFormed(before)
    ensures Stuck(before, o, ch, 0) == Pending(before, o)
    ensures Emptied(before, o, {}) == before.rows && Counts(before, o, {}) == map[]
    ensures Pending(before, o) - Pending(before, o) == {}
  {}

  lemma StuckNext(before: Db, o: Org, ch: Chance, pass: nat, pending: set<string>, left: set<string>)
    requires WellFormed(before) && pending == Stuck(before, o, ch, pass) && left <= pending
    requires forall t | t in pending :: t in left <==> ch.refuses(pass, t)
    ensures left == Stuck(before, o, ch, pass + 1)
  {
    hide Pending;
    forall t
      ensures t in left <==> t in Stuck(before, o, ch, pass + 1)
    {
      if t in pending && ch.refuses(pass, t) {
        assert AlwaysRefused(ch, t, pass + 1);
      }
      if AlwaysRefused(ch, t, pass + 1) {
        assert AlwaysRefused(ch, t, pass) && ch.refuses(pass, t);
      }
    }
  }

  lemma StuckShrinks(before: Db, o: Org, ch: Chance, pass: nat, passes: nat)
    requires WellFormed(before) && pass <= passes
    ensures Stuck(before, o, ch, passes) <= Stuck(before, o, ch, pass)
  {}

  /** Stopping early, with nothing pending, is stopping after all passes. */
  lemma StuckNoMore(before: Db, o: Org, ch: Chance, pass: nat, passes: nat)
    requires WellFormed(before) && pass <= passes && (pass == passes || Stuck(before, o, ch, pass) == {})
    ensures Stuck(before, o, ch, pass) == Stuck(before, o, ch, passes)
  {
    hide Stuck;
    StuckShrinks(before, o, ch, pass, passes);
  }

  // ---- the command ----

  datatype Answer = Refused(why: Refusal) | NothingSeeded | Reported(report: Report)

  /** `cleanup`: refused by identify, refused for foreign rows, or carried out and counted again. */
  method Cleanup(db: Database, w: World, stamp: string, tenantId: Option<int>, allowed: Option<set<int>>,
                 absentOk: bool, ch: Chance)
    returns (r: Answer, ghost o: Result<Org, Refusal>)
    requires WellFormed(db.State())
    modifies db
    ensures r == NothingSeeded <==> absentOk && tenantId.None? && old(SeedRecords(db.State(), stamp, None)) == {}
    ensures r == NothingSeeded ==> db.State() == old(db.State())
    ensures r != NothingSeeded ==> Identifies(w, old(db.State()), stamp, tenantId, allowed, o)
    ensures r != NothingSeeded && o.Failure? ==> r == Refused(o.error) && db.State() == old(db.State())
    ensures r != NothingSeeded && o.Success? ==>
              if Other(Owned(old(db.State()), o.value.tid, o.value.uids)) != map[]
              then r == Refused(ForeignRows) && db.State() == MadeInert(old(db.State()), o.value, ch)
              else db.State() == Cleaned(old(db.State()), o.value, ch) && WellFormed(db.State())
                   && r == Reported(Recount(db.State(), o.value, ch, Delete(old(db.State()), o.value, ch)))
                   && (ProperAudit(old(db.State()), o.value, ch) ==>
                         UsersSettled(old(db.State()), db.State(), o.value, ch))
  {
    ghost var before := db.State();
    o := Failure(NoRecord);
    if absentOk && tenantId.None? && SeedRecords(db.State(), stamp, None) == {} {
      return NothingSeeded, o;
    }
    hide CheckRecord;
    hide Delete;
    hide Cleaned;
    hide MadeInert;
    hide Owned;
    hide Recount;
    var found := db.Identify(w, stamp, tenantId, allowed);
    o := found;
    if found.Failure? {
      return Refused(found.error), o;
    }
    IdentifiedMembers(w, before, stamp, tenantId, allowed, found.value);
    var owned := Owned(db.State(), found.value.tid, found.value.uids);
    if Other(owned) != map[] {
      db.MakeAllInert(found.value, ch);
      return Refused(ForeignRows), o;
    }
    var d, deleted, failed := db.RemoveAndSuspend(found.value, ch);
    CleanedWellFormed(before, found.value, ch);
    if ProperAudit(before, found.value, ch) {
      UsersSafe(before, found.value, ch);
    }
    hide UsersSettled;
    var report := db.Count(found.value, ch, d, deleted, failed);
    r := Reported(report);
  }

  lemma CleanedWellFormed(db: Db, o: Org, ch: Chance)
    requires WellFormed(db)
    ensures WellFormed(Cleaned(db, o, ch))
  {
    CleanedIs(db, o, ch);
    AuditWellFormed(Updated(db, o, ch), ch);
  }
}
