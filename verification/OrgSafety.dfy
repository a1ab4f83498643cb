/** What a cleanup may take away, under any pattern of refused deletes, and what a second cleanup changes. */
module OrgSafety {
  import opened Wrappers
  import opened OrgStore

  // ---- references ----

  /** A row holds the user in a column that references users, or in a plain "user_id". */
  ghost predicate HoldsUser(columns: seq<Column>, row: Row, u: int) {
    exists c | c in columns ::
      && (c.refersToUsers || (c.name == "user_id" && !c.hasForeignKey))
      && c.name in row.ids && row.ids[c.name] == Some(u)
  }

  /** A row of some table holds the user, or an organisation's own row does. */
  ghost predicate Referred(db: Db, u: int)
    requires WellFormed(db)
  {
    || (exists t, r | t in db.rows && r in db.rows[t] :: HoldsUser(db.schema[t], db.rows[t][r], u))
    || (exists x | x in db.tenants :: u in db.tenants[x].names)
  }

  lemma NamedIsReferred(db: Db, u: int)
    requires WellFormed(db)
    ensures IsNamed(db, u) <==> Referred(db, u)
  {
    forall t, r | t in db.rows && r in db.rows[t]
      ensures RowNames(db.schema[t], db.rows[t][r], u) <==> HoldsUser(db.schema[t], db.rows[t][r], u)
    {}
    hide RowNames;
    hide HoldsUser;
    if t :| t in db.rows && TableNames(db, t, u) {
      var r :| r in db.rows[t] && RowNames(db.schema[t], db.rows[t][r], u);
      assert HoldsUser(db.schema[t], db.rows[t][r], u);
    }
    if t, r :| t in db.rows && r in db.rows[t] && HoldsUser(db.schema[t], db.rows[t][r], u) {
      assert TableNames(db, t, u);
    }
  }

  /** A new audit row whose reference columns are empty names nobody. */
  lemma NewRowNamesNobody(db: Db, ch: Chance, u: int)
    requires WellFormed(db) && ch.auditId !in db.rows[AUDIT]
    requires forall c | c in db.schema[AUDIT] && NamesUsers(c) :: Id(ch.auditRow, c.name) == None
    ensures WellFormed(WithAudit(db, ch))
    ensures IsNamed(WithAudit(db, ch), u) <==> IsNamed(db, u)
  {
    var after := WithAudit(db, ch);
    forall t | t in db.rows
      ensures TableNames(after, t, u) <==> TableNames(db, t, u)
    {
      if TableNames(after, t, u) {
        var r :| r in after.rows[t] && RowNames(db.schema[t], after.rows[t][r], u);
        assert r in db.rows[t] && after.rows[t][r] == db.rows[t][r];
      }
      if TableNames(db, t, u) {
        var r :| r in db.rows[t] && RowNames(db.schema[t], db.rows[t][r], u);
        assert r in after.rows[t] && after.rows[t][r] == db.rows[t][r];
      }
    }
  }

  lemma AuditNamesNobody(db: Db, o: Org, ch: Chance, u: int)
    requires WellFormed(db) && ProperAudit(db, o, ch)
    ensures WellFormed(WithAudit(db, ch))
    ensures IsNamed(WithAudit(db, ch), u) <==> IsNamed(db, u)
  {
    NewRowNamesNobody(db, ch, u);
  }

  /** Being named depends on the tables and on what the organisations' own rows name. */
  lemma NamedByRows(a: Db, b: Db, u: int)
    requires WellFormed(a) && WellFormed(b) && a.schema == b.schema && a.rows == b.rows
    requires a.tenants.Keys == b.tenants.Keys && forall o | o in a.tenants :: a.tenants[o].names == b.tenants[o].names
    ensures IsNamed(a, u) <==> IsNamed(b, u)
  {
    forall t | t in a.rows
      ensures TableNames(a, t, u) <==> TableNames(b, t, u)
    {}
  }

  /** The state after the deletes and the updates, before the audit row. */
  function Updated(db: Db, o: Org, ch: Chance): (after: Db)
    requires WellFormed(db)
    ensures WellFormed(after)
  {
    var d := Delete(db, o, ch);
    d.db.(users := MakeInert(d.db.users, d.kept, ch.tombstone), tenants := Suspend(d.db.tenants, o.tid, CLEANED))
  }

  lemma UpdatedIs(db: Db, o: Org, ch: Chance)
    requires WellFormed(db)
    ensures var d, u := Delete(db, o, ch), Updated(db, o, ch);
            && u.rows == Mid(db, o, Done(db, o, ch)).rows && u.schema == db.schema
            && u.tenants == Suspend(db.tenants, o.tid, CLEANED)
            && u.users == MakeInert(d.db.users, d.kept, ch.tombstone)
  {
    hide Done;
    hide Stuck;
    hide Counts;
    hide NamedOf;
    hide Suspend;
    hide MakeInert;
    hide Emptied;
  }

  lemma CleanedIs(db: Db, o: Org, ch: Chance)
    requires WellFormed(db)
    ensures Cleaned(db, o, ch)
            == if Changed(db, o, ch, Delete(db, o, ch)) then WithAudit(Updated(db, o, ch), ch) else Updated(db, o, ch)
    ensures Updated(db, o, ch).rows == Mid(db, o, Done(db, o, ch)).rows && Updated(db, o, ch).schema == db.schema
    ensures Updated(db, o, ch).tenants == Suspend(db.tenants, o.tid, CLEANED)
  {
    UpdatedIs(db, o, ch);
    hide Delete;
    hide Changed;
    hide Mid;
    hide Done;
    hide Suspend;
    hide MakeInert;
  }

  lemma ProperUpdated(db: Db, o: Org, ch: Chance)
    requires WellFormed(db) && ProperAudit(db, o, ch)
    ensures ProperAudit(Updated(db, o, ch), o, ch)
  {
    CleanedIs(db, o, ch);
  }

  lemma NamedUpdated(db: Db, o: Org, ch: Chance, u: int)
    requires WellFormed(db)
    ensures IsNamed(Updated(db, o, ch), u) <==> IsNamed(Mid(db, o, Done(db, o, ch)), u)
  {
    CleanedIs(db, o, ch);
    SuspendNames(db.tenants, o.tid, CLEANED);
    hide Updated;
    hide Emptied;
    hide Done;
    hide IsNamed;
    hide Suspend;
    NamedByRows(Updated(db, o, ch), Mid(db, o, Done(db, o, ch)), u);
  }

  lemma SuspendNames(tenants: map<int, Tenant>, tid: int, reason: string)
    ensures Suspend(tenants, tid, reason).Keys == tenants.Keys
    ensures forall x | x in tenants :: Suspend(tenants, tid, reason)[x].names == tenants[x].names
  {}

  /** A user a cleanup drops is named by no row that is left, the cleanup's own audit row included. */
  lemma NamedAfter(db: Db, o: Org, ch: Chance, u: int)
    requires WellFormed(db) && ProperAudit(db, o, ch)
    ensures WellFormed(Cleaned(db, o, ch))
    ensures IsNamed(Cleaned(db, o, ch), u) <==> IsNamed(Mid(db, o, Done(db, o, ch)), u)
  {
    CleanedIs(db, o, ch);
    ProperUpdated(db, o, ch);
    AuditWellFormed(Updated(db, o, ch), ch);
    hide Updated;
    hide Cleaned;
    hide IsNamed;
    hide Mid;
    hide Done;
    hide ProperAudit;
    hide WithAudit;
    hide Changed;
    NamedUpdated(db, o, ch, u);
    AuditNamesNobody(Updated(db, o, ch), o, ch, u);
  }

  lemma AuditWellFormed(db: Db, ch: Chance)
    requires WellFormed(db)
    ensures WellFormed(WithAudit(db, ch))
  {}

  // ---- safety ----

  /** A row that is gone was of an allowlisted table and of this organisation. */
  predicate RowKept(db: Db, after: Db, o: Org, t: string, r: int)
    requires t in db.rows && t in db.schema && t in after.rows && r in db.rows[t]
  {
    || (r in after.rows[t] && after.rows[t][r] == db.rows[t][r])
    || (IsAllowed(t) && r !in after.rows[t] && Owns(db.schema[t], db.rows[t][r], o.tid, o.uids))
  }

  lemma LedgersApart()
    ensures (forall t | IsAllowed(t) :: !IsLedger(t)) && IsLedger(AUDIT)
  {}

  lemma MidRows(db: Db, o: Org, done: set<string>, t: string)
    requires WellFormed(db) && t in db.rows && done <= Pending(db, o)
    ensures forall r | r in db.rows[t] :: RowKept(db, Mid(db, o, done), o, t, r)
    ensures Mid(db, o, done).rows[t].Keys <= db.rows[t].Keys
    ensures !IsAllowed(t) ==> Mid(db, o, done).rows[t] == db.rows[t]
  {}

  lemma MidSafe(db: Db, o: Org, done: set<string>)
    requires WellFormed(db) && done <= Pending(db, o)
    ensures var mid := Mid(db, o, done);
            && mid.rows.Keys == db.rows.Keys
            && (forall t, r | t in db.rows && r in db.rows[t] :: RowKept(db, mid, o, t, r))
            && (forall t | t in db.rows :: mid.rows[t].Keys <= db.rows[t].Keys)
            && (forall t | t in db.rows && IsLedger(t) :: mid.rows[t] == db.rows[t])
  {
    LedgersApart();
    hide IsAllowed;
    hide IsLedger;
    hide RowKept;
    hide Pending;
    forall t | t in db.rows
      ensures (forall r | r in db.rows[t] :: RowKept(db, Mid(db, o, done), o, t, r))
      ensures Mid(db, o, done).rows[t].Keys <= db.rows[t].Keys
              && (IsLedger(t) ==> Mid(db, o, done).rows[t] == db.rows[t])
    {
      MidRows(db, o, done, t);
    }
  }

  /** Tables: only owned rows of allowlisted tables disappear, nothing is altered, one audit row at most appears. */
  lemma RowsSafe(db: Db, o: Org, ch: Chance)
    requires WellFormed(db) && ProperAudit(db, o, ch)
    ensures var after := Cleaned(db, o, ch);
            && after.rows.Keys == db.rows.Keys
            && (forall t, r | t in db.rows && r in db.rows[t] :: RowKept(db, after, o, t, r))
            && (forall t | t in db.rows && IsLedger(t) && t != AUDIT :: after.rows[t] == db.rows[t])
            && (forall t | t in db.rows && t != AUDIT :: after.rows[t].Keys <= db.rows[t].Keys)
            && (after.rows[AUDIT] == db.rows[AUDIT] || after.rows[AUDIT] == db.rows[AUDIT][ch.auditId := ch.auditRow])
  {
    CleanedIs(db, o, ch);
    MidSafe(db, o, Done(db, o, ch));
    LedgersApart();
    var after, mid := Cleaned(db, o, ch), Mid(db, o, Done(db, o, ch));
    AuditRows(Updated(db, o, ch), ch);
    hide Cleaned;
    hide Updated;
    hide IsAllowed;
    hide IsLedger;
    hide Changed;
    hide Mid;
    hide Done;
    hide RowKept;
    hide WithAudit;
    forall t, r | t in db.rows && r in db.rows[t]
      ensures RowKept(db, after, o, t, r)
    {
      assert RowKept(db, mid, o, t, r);
      StillKept(db, mid, after, o, t, r);
    }
  }

  lemma AuditRows(db: Db, ch: Chance)
    requires WellFormed(db)
    ensures WithAudit(db, ch).rows.Keys == db.rows.Keys
    ensures forall t | t in db.rows && t != AUDIT :: WithAudit(db, ch).rows[t] == db.rows[t]
    ensures WithAudit(db, ch).rows[AUDIT] == db.rows[AUDIT][ch.auditId := ch.auditRow]
  {}

  lemma StillKept(db: Db, mid: Db, after: Db, o: Org, t: string, r: int)
    requires t in db.rows && t in db.schema && t in mid.rows && t in after.rows && r in db.rows[t]
    requires RowKept(db, mid, o, t, r) && (r in mid.rows[t] <==> r in after.rows[t])
    requires r in mid.rows[t] ==> after.rows[t][r] == mid.rows[t][r]
    ensures RowKept(db, after, o, t, r)
  {}

  lemma DeleteUsers(db: Db, o: Org, ch: Chance)
    requires WellFormed(db)
    ensures var d := Delete(db, o, ch); var named := NamedOf(Mid(db, o, Done(db, o, ch)), o.uids);
            && d.db.users == db.users - (if ch.refusesUsers then {} else o.uids - named)
            && d.kept == if ch.refusesUsers && o.uids - named != {} then o.uids else named
  {
    hide Done;
    hide Stuck;
    hide Counts;
    hide NamedOf;
    hide Emptied;
    assert db.users - {} == db.users;
  }

  lemma UsersAudited(db: Db, o: Org, ch: Chance)
    requires WellFormed(db)
    ensures Cleaned(db, o, ch).users == Updated(db, o, ch).users
  {
    CleanedIs(db, o, ch);
    hide Updated;
    hide Cleaned;
    hide Changed;
  }

  /** Who is left, and how. */
  lemma UsersAfter(db: Db, o: Org, ch: Chance)
    requires WellFormed(db)
    ensures var mid := Mid(db, o, Done(db, o, ch)); var named := NamedOf(mid, o.uids);
            var drop := if ch.refusesUsers then {} else o.uids - named;
            var keep := if ch.refusesUsers && o.uids - named != {} then o.uids else named;
            Cleaned(db, o, ch).users == MakeInert(db.users - drop, keep, ch.tombstone)
  {
    UsersAudited(db, o, ch);
    UpdatedIs(db, o, ch);
    DeleteUsers(db, o, ch);
    hide Cleaned;
    hide Updated;
    hide Delete;
    hide Mid;
    hide Done;
    hide NamedOf;
    hide MakeInert;
  }

  /** Who is gone is referred to by nothing that is left; who is kept is, unless the delete was refused. */
  ghost predicate UsersSettled(db: Db, after: Db, o: Org, ch: Chance)
    requires WellFormed(after)
  {
    && (forall u | u in db.users && u !in after.users :: u in o.uids && !Referred(after, u))
    && (!ch.refusesUsers ==> forall u | u in o.uids && u in after.users :: Referred(after, u))
  }

  lemma UsersSettle(db: Db, o: Org, ch: Chance)
    requires WellFormed(db) && ProperAudit(db, o, ch)
    ensures WellFormed(Cleaned(db, o, ch)) && UsersSettled(db, Cleaned(db, o, ch), o, ch)
  {
    var after, mid := Cleaned(db, o, ch), Mid(db, o, Done(db, o, ch));
    hide Cleaned;
    hide Mid;
    hide Done;
    hide ProperAudit;
    hide Referred;
    hide IsNamed;
    hide MakeInert;
    NamedAfter(db, o, ch, 0);
    UsersAfter(db, o, ch);
    KeysInert();
    forall u
      ensures IsNamed(mid, u) <==> Referred(after, u)
    {
      NamedAfter(db, o, ch, u);
      NamedIsReferred(after, u);
    }
  }

  lemma KeysInert()
    ensures forall users: map<int, User>, who, tombstone :: MakeInert(users, who, tombstone).Keys == users.Keys
  {}

  /** Users: one that is gone was of this organisation and no row that is left names it; the others are as before. */
  lemma UsersSafe(db: Db, o: Org, ch: Chance)
    requires WellFormed(db) && ProperAudit(db, o, ch) && o.uids == UsersOf(db, o.tid)
    ensures WellFormed(Cleaned(db, o, ch))
    ensures var after := Cleaned(db, o, ch);
            && after.users.Keys <= db.users.Keys && UsersSettled(db, after, o, ch)
            && (forall u | u in db.users && db.users[u].tenant != o.tid ::
                  u in after.users && after.users[u] == db.users[u])
            && (forall u | u in after.users && db.users[u].tenant == o.tid ::
                  after.users[u] == Inert(db.users[u], ch.tombstone))
  {
    UsersSettle(db, o, ch);
    UsersAfter(db, o, ch);
    hide Cleaned;
    hide Mid;
    hide Done;
    hide ProperAudit;
    hide UsersSettled;
    hide IsNamed;
  }

  /** Organisations: only the status and the reason of this one change. */
  lemma TenantsSafe(db: Db, o: Org, ch: Chance)
    requires WellFormed(db)
    ensures var after := Cleaned(db, o, ch);
            && after.tenants.Keys == db.tenants.Keys
            && (forall x | x in db.tenants && x != o.tid :: after.tenants[x] == db.tenants[x])
            && (o.tid in db.tenants ==>
                  after.tenants[o.tid] == db.tenants[o.tid].(status := "suspended", reason := CLEANED))
  {
    CleanedIs(db, o, ch);
    hide Delete;
    hide Changed;
    hide Mid;
  }

  /** A refused cleanup deletes nothing: every row and every user is still there. */
  lemma RefusedDeletesNothing(db: Db, o: Org, ch: Chance)
    requires WellFormed(db) && ProperAudit(db, o, ch) && o.uids == UsersOf(db, o.tid)
    ensures var after := MadeInert(db, o, ch);
            && after.rows.Keys == db.rows.Keys && after.users.Keys == db.users.Keys
            && after.tenants.Keys == db.tenants.Keys
            && (forall t | t in db.rows && t != AUDIT :: after.rows[t] == db.rows[t])
            && (after.rows[AUDIT] == db.rows[AUDIT] || after.rows[AUDIT] == db.rows[AUDIT][ch.auditId := ch.auditRow])
            && (forall u | u in db.users && u !in o.uids :: after.users[u] == db.users[u])
            && (forall u | u in o.uids :: after.users[u] == Inert(db.users[u], ch.tombstone))
            && (forall x | x in db.tenants && x != o.tid :: after.tenants[x] == db.tenants[x])
  {}

  /** A repeated refusal finds everybody inert: no further audit row, and only the hashes change. */
  lemma RefusalRepeats(db: Db, o: Org, ch: Chance, ch2: Chance)
    requires WellFormed(db) && o.tid in db.tenants
    ensures var once := MadeInert(db, o, ch);
            && WellFormed(once) && MadeInert(once, o, ch2).rows == once.rows
            && MadeInert(once, o, ch2).tenants == once.tenants
            && forall u | u in once.users ::
                 MadeInert(once, o, ch2).users[u]
                 == if u in o.uids then once.users[u].(hash := ch2.tombstone) else once.users[u]
  {
    var once := MadeInert(db, o, ch);
    assert once.tenants[o.tid].status == "suspended"
           && forall u | u in o.uids && u in once.users :: !once.users[u].active;
    assert Suspend(once.tenants, o.tid, REFUSED) == once.tenants;
  }

  // ---- idempotence ----

  lemma OwnedSame(a: Db, b: Db, tid: int, uids: set<int>)
    requires WellFormed(a) && WellFormed(b) && a.schema == b.schema && a.rows == b.rows
    ensures Owned(a, tid, uids) == Owned(b, tid, uids)
  {
    forall t | t in a.rows
      ensures OwnedRows(a, t, tid, uids) == OwnedRows(b, t, tid, uids)
    {}
  }

  /** The audit rows that were there are there, and the only new one is not a seed record. */
  lemma AuditKept(db: Db, o: Org, ch: Chance)
    requires WellFormed(db) && ProperAudit(db, o, ch)
    ensures WellFormed(Cleaned(db, o, ch))
    ensures forall r | r in db.rows[AUDIT] ::
              r in Cleaned(db, o, ch).rows[AUDIT] && Cleaned(db, o, ch).rows[AUDIT][r] == db.rows[AUDIT][r]
    ensures forall r | r in Cleaned(db, o, ch).rows[AUDIT] && r !in db.rows[AUDIT] ::
              Cleaned(db, o, ch).rows[AUDIT][r] == ch.auditRow
  {
    NamedAfter(db, o, ch, 0);
    RowsSafe(db, o, ch);
    hide Cleaned;
    hide IsNamed;
  }

  lemma NotSeed(row: Row, stamp: string)
    requires Text(row, "event") == CLEAN_EVENT
    ensures !IsSeedRecord(row, stamp)
  {
    assert |SEED_EVENT| == |CLEAN_EVENT| - 1;
  }

  lemma SeedRowsMore(audit: map<int, Row>, more: map<int, Row>, stamp: string, tenantId: Option<int>)
    requires forall r | r in audit :: r in more && more[r] == audit[r]
    requires forall r | r in more && r !in audit :: !IsSeedRecord(more[r], stamp)
    ensures SeedRows(more, stamp, tenantId) == SeedRows(audit, stamp, tenantId)
  {
    hide IsSeedRecord;
    hide Id;
    forall r
      ensures r in SeedRows(more, stamp, tenantId) <==> r in SeedRows(audit, stamp, tenantId)
    {}
  }

  lemma SeedRecordsKept(db: Db, o: Org, ch: Chance, stamp: string, tenantId: Option<int>)
    requires WellFormed(db) && ProperAudit(db, o, ch)
    ensures WellFormed(Cleaned(db, o, ch))
    ensures SeedRecords(Cleaned(db, o, ch), stamp, tenantId) == SeedRecords(db, stamp, tenantId)
  {
    AuditKept(db, o, ch);
    assert Text(ch.auditRow, "event") == CLEAN_EVENT;
    hide Cleaned;
    hide IsSeedRecord;
    hide ProperAudit;
    hide SeedRows;
    NotSeed(ch.auditRow, stamp);
    SeedRowsMore(db.rows[AUDIT], Cleaned(db, o, ch).rows[AUDIT], stamp, tenantId);
  }

  /** A seed record is judged the same while its organisation keeps its name and its members theirs. */
  lemma CheckAgain(w: World, db: Db, after: Db, stamp: string, when: int, r: int, allowed: Option<set<int>>, o: Org)
    requires WellFormed(db) && WellFormed(after) && r in db.rows[AUDIT] && r in after.rows[AUDIT]
    requires after.rows[AUDIT][r] == db.rows[AUDIT][r] && CheckRecord(w, db, stamp, when, r, allowed) == Success(o)
    requires o.tid in db.tenants && o.tid in after.tenants
    requires after.tenants[o.tid].name == db.tenants[o.tid].name
             && after.tenants[o.tid].createdAt == db.tenants[o.tid].createdAt
    requires forall u | u in UsersOf(after, o.tid) :: u in o.uids && u in db.users
               && after.users[u].email == db.users[u].email && after.users[u].createdAt == db.users[u].createdAt
    ensures var left := UsersOf(after, o.tid);
            CheckRecord(w, after, stamp, when, r, allowed)
            == if left == {} then Failure(NoMember) else Success(Org(o.tid, left))
  {
    hide IsLoadtestEmail;
    var left := UsersOf(after, o.tid);
    forall u | u in left
      ensures !IsForeign(after, u, stamp, allowed, db.rows[AUDIT][r].createdAt)
    {
      assert !IsForeign(db, u, stamp, allowed, db.rows[AUDIT][r].createdAt);
    }
  }

  /** Whoever is left of an organisation after a cleanup was in it, with the same address and age. */
  lemma LeftWereMembers(db: Db, o: Org, ch: Chance)
    requires WellFormed(db) && ProperAudit(db, o, ch) && o.uids == UsersOf(db, o.tid)
    ensures WellFormed(Cleaned(db, o, ch))
    ensures forall u | u in UsersOf(Cleaned(db, o, ch), o.tid) :: u in o.uids && u in db.users
              && Cleaned(db, o, ch).users[u].email == db.users[u].email
              && Cleaned(db, o, ch).users[u].createdAt == db.users[u].createdAt
  {
    UsersSafe(db, o, ch);
    hide Cleaned;
    hide IsNamed;
    hide WellFormed;
    hide ProperAudit;
  }

  /** The same seed record proves the organisation again, with the members that are left; with none left it refuses. */
  lemma RecordAgain(w: World, db: Db, o: Org, ch: Chance, stamp: string, when: int, r: int, allowed: Option<set<int>>)
    requires WellFormed(db) && ProperAudit(db, o, ch) && r in db.rows[AUDIT]
    requires CheckRecord(w, db, stamp, when, r, allowed) == Success(o)
    ensures WellFormed(Cleaned(db, o, ch)) && r in Cleaned(db, o, ch).rows[AUDIT]
    ensures var left := UsersOf(Cleaned(db, o, ch), o.tid);
            CheckRecord(w, Cleaned(db, o, ch), stamp, when, r, allowed)
            == if left == {} then Failure(NoMember) else Success(Org(o.tid, left))
  {
    assert o.uids == UsersOf(db, o.tid) && o.tid in db.tenants;
    hide Cleaned;
    hide CheckRecord;
    hide ProperAudit;
    hide IsForeign;
    AuditKept(db, o, ch);
    LeftWereMembers(db, o, ch);
    TenantsSafe(db, o, ch);
    CheckAgain(w, db, Cleaned(db, o, ch), stamp, when, r, allowed, o);
  }

  lemma IdentifiedAgain(w: World, db: Db, stamp: string, tenantId: Option<int>, allowed: Option<set<int>>, o: Org,
                        ch: Chance, again: Result<Org, Refusal>)
    requires WellFormed(db) && ProperAudit(db, o, ch) && WellFormed(Cleaned(db, o, ch))
    requires Identifies(w, db, stamp, tenantId, allowed, Success(o))
    requires Identifies(w, Cleaned(db, o, ch), stamp, tenantId, allowed, again)
    ensures var left := UsersOf(Cleaned(db, o, ch), o.tid);
            again == if left == {} then Failure(NoMember) else Success(Org(o.tid, left))
  {
    SeedRecordsKept(db, o, ch, stamp, tenantId);
    var records := SeedRecords(db, stamp, tenantId);
    var when := w.stampTime(stamp).value;
    var r :| r in records && Success(o) == CheckRecord(w, db, stamp, when, r, allowed);
    RecordAgain(w, db, o, ch, stamp, when, r, allowed);
    hide Cleaned;
    hide CheckRecord;
    var q :| q in records && again == CheckRecord(w, Cleaned(db, o, ch), stamp, when, q, allowed);
    OnlyOne(records, r, q);
  }

  lemma OneOf<T>(s: set<T>) returns (r: T)
    requires s != {}
    ensures r in s
  {
    r :| r in s;
  }

  lemma OnlyOne(s: set<int>, a: int, b: int)
    requires |s| <= 1 && a in s && b in s
    ensures a == b
  {
    if a != b {
      TwoElements(s, a, b);
    }
  }

  lemma TwoElements(s: set<int>, a: int, b: int)
    requires a in s && b in s && a != b
    ensures |s| >= 2
  {
    assert {a, b} <= s;
    assert |s - {a, b}| == |s| - 2;
  }

  lemma IdentifiedMembers(w: World, db: Db, stamp: string, tenantId: Option<int>, allowed: Option<set<int>>, o: Org)
    requires WellFormed(db) && Identifies(w, db, stamp, tenantId, allowed, Success(o))
    ensures o.uids == UsersOf(db, o.tid) && o.tid in db.tenants
  {}

  /** Nothing owned but ledger rows, everybody left named and inert: a second run has nothing to do. */
  lemma NothingToDo(db: Db, o: Org, ch: Chance)
    requires WellFormed(db) && o.uids == UsersOf(db, o.tid)
    requires Pending(db, o) == {} && (forall u | u in o.uids :: IsNamed(db, u))
    requires o.tid in db.tenants && db.tenants[o.tid].status == "suspended" && db.tenants[o.tid].reason == CLEANED
    requires forall u | u in o.uids :: !db.users[u].active && db.users[u] == Inert(db.users[u], db.users[u].hash)
    ensures Delete(db, o, ch).deleted == map[] && Delete(db, o, ch).failed == {}
    ensures var after := Cleaned(db, o, ch);
            && after.rows == db.rows && after.tenants == db.tenants && after.users.Keys == db.users.Keys
            && (forall u | u in db.users ::
                  after.users[u] == if u in o.uids then db.users[u].(hash := ch.tombstone) else db.users[u])
  {
    assert Done(db, o, ch) == {} && Stuck(db, o, ch, PASSES) == {};
    assert Emptied(db, o, {}) == db.rows;
    assert Mid(db, o, {}) == db;
    hide IsNamed;
    assert NamedOf(db, o.uids) == o.uids;
    assert Counts(db, o, {}) == map[];
    assert Delete(db, o, ch) == Deletion(db, map[], {}, o.uids);
    assert Suspend(db.tenants, o.tid, CLEANED) == db.tenants;
    hide Delete;
  }

  /** And the second run's own count is clean again. */
  lemma NothingToDoIsClean(db: Db, o: Org, ch: Chance)
    requires WellFormed(db) && o.uids == UsersOf(db, o.tid)
    requires Pending(db, o) == {} && (forall u | u in o.uids :: IsNamed(db, u))
    requires o.tid in db.tenants && db.tenants[o.tid].status == "suspended" && db.tenants[o.tid].reason == CLEANED
    requires forall u | u in o.uids :: !db.users[u].active && db.users[u] == Inert(db.users[u], db.users[u].hash)
    requires Other(Owned(db, o.tid, o.uids)) == map[] && WellFormed(Cleaned(db, o, ch))
    ensures Recount(Cleaned(db, o, ch), o, ch, Delete(db, o, ch)).clean
  {
    NothingToDo(db, o, ch);
    var after := Cleaned(db, o, ch);
    assert after.schema == db.schema by {
      CleanedIs(db, o, ch);
    }
    hide Cleaned;
    hide Delete;
    hide IsNamed;
    assert UsersOf(after, o.tid) == o.uids;
    OwnedSame(after, db, o.tid, o.uids);
    hide Owned;
    assert Allowed(Owned(db, o.tid, o.uids)) == map[];
  }

  /** A clean report: nobody is left that no row names, and nothing but ledger rows is owned. */
  lemma CleanState(db: Db, o: Org, ch: Chance)
    requires WellFormed(db) && ProperAudit(db, o, ch) && o.uids == UsersOf(db, o.tid)
    requires WellFormed(Cleaned(db, o, ch)) && Recount(Cleaned(db, o, ch), o, ch, Delete(db, o, ch)).clean
    ensures var after := Cleaned(db, o, ch); var left := Org(o.tid, UsersOf(after, o.tid));
            && Pending(after, left) == {} && Other(Owned(after, left.tid, left.uids)) == map[]
            && (forall u | u in left.uids :: IsNamed(after, u))
            && o.tid in after.tenants && after.tenants[o.tid].status == "suspended"
            && after.tenants[o.tid].reason == CLEANED
            && (forall u | u in left.uids ::
                  !after.users[u].active && after.users[u] == Inert(after.users[u], after.users[u].hash))
  {
    var after := Cleaned(db, o, ch);
    var left := UsersOf(after, o.tid);
    TenantsSafe(db, o, ch);
    UsersSafe(db, o, ch);
    LeftAreNamed(db, o, ch);
    var owned := Owned(after, o.tid, left);
    assert Allowed(owned) + Other(owned) == map[];
    hide Cleaned;
    hide Delete;
    hide IsNamed;
    assert Allowed(owned) == map[] by {
      assert Allowed(owned).Keys <= (Allowed(owned) + Other(owned)).Keys;
    }
    assert Other(owned) == map[] by {
      assert Other(owned).Keys <= (Allowed(owned) + Other(owned)).Keys;
    }
    assert Pending(after, Org(o.tid, left)) == Allowed(owned).Keys;
    assert forall u | u in left :: u in after.users && db.users[u].tenant == o.tid by {
      assert forall u | u in after.users :: u in db.users;
    }
  }

  lemma NotFailed(db: Db, o: Org, ch: Chance)
    requires WellFormed(db) && Delete(db, o, ch).failed == {}
    ensures ch.refusesUsers ==> o.uids <= NamedOf(Mid(db, o, Done(db, o, ch)), o.uids)
  {
    hide Mid;
    hide Done;
    hide Stuck;
    hide Counts;
    hide NamedOf;
    var named := NamedOf(Mid(db, o, Done(db, o, ch)), o.uids);
    PlusNotEmpty(Stuck(db, o, ch, PASSES));
    assert ch.refusesUsers ==> o.uids - named == {};
    if ch.refusesUsers {
      SubsetByDifference(o.uids, named);
    }
  }

  lemma PlusNotEmpty(s: set<string>)
    ensures s + {"users"} != {}
  {
    assert "users" in s + {"users"};
  }

  lemma SubsetByDifference(a: set<int>, b: set<int>)
    requires a - b == {}
    ensures a <= b
  {
    forall u | u in a
      ensures u in b
    {
      assert u in b || u in a - b;
    }
  }

  lemma LeftAreNamed(db: Db, o: Org, ch: Chance)
    requires WellFormed(db) && ProperAudit(db, o, ch) && o.uids == UsersOf(db, o.tid) && Delete(db, o, ch).failed == {}
    requires WellFormed(Cleaned(db, o, ch))
    ensures forall u | u in UsersOf(Cleaned(db, o, ch), o.tid) :: IsNamed(Cleaned(db, o, ch), u)
  {
    UsersSafe(db, o, ch);
    UsersAfter(db, o, ch);
    NotFailed(db, o, ch);
    hide Cleaned;
    hide Delete;
    hide Mid;
    hide Done;
    hide IsNamed;
    forall u | u in UsersOf(Cleaned(db, o, ch), o.tid)
      ensures IsNamed(Cleaned(db, o, ch), u)
    {
      NamedAfter(db, o, ch, u);
      assert u in db.users && u in o.uids;
    }
  }

  /**
  After a run that reports clean, a second run - with any foreign-key refusals and any new secret - either refuses
  because no member is left, or deletes nothing and writes no audit row: only the tombstones' hashes change.
  */
  lemma CleanupIdempotent(w: World, db: Db, stamp: string, tenantId: Option<int>, allowed: Option<set<int>>, o: Org,
                          ch: Chance, again: Result<Org, Refusal>, ch2: Chance)
    requires WellFormed(db) && ProperAudit(db, o, ch)
    requires Identifies(w, db, stamp, tenantId, allowed, Success(o))
    requires WellFormed(Cleaned(db, o, ch)) && Recount(Cleaned(db, o, ch), o, ch, Delete(db, o, ch)).clean
    requires Identifies(w, Cleaned(db, o, ch), stamp, tenantId, allowed, again)
    ensures var once := Cleaned(db, o, ch); var left := UsersOf(once, o.tid);
            if left == {} then again == Failure(NoMember)
            else
              && again == Success(Org(o.tid, left))
              && Other(Owned(once, o.tid, left)) == map[]
              && Delete(once, Org(o.tid, left), ch2).deleted == map[]
              && Delete(once, Org(o.tid, left), ch2).failed == {}
              && var twice := Cleaned(once, Org(o.tid, left), ch2);
              && twice.rows == once.rows && twice.tenants == once.tenants && twice.users.Keys == once.users.Keys
              && (forall u | u in once.users ::
                       twice.users[u] == if u in left then once.users[u].(hash := ch2.tombstone) else once.users[u])
                 && WellFormed(twice)
                 && Recount(twice, Org(o.tid, left), ch2, Delete(once, Org(o.tid, left), ch2)).clean
  {
    IdentifiedMembers(w, db, stamp, tenantId, allowed, o);
    IdentifiedAgain(w, db, stamp, tenantId, allowed, o, ch, again);
    CleanState(db, o, ch);
    var once := Cleaned(db, o, ch);
    var left := Org(o.tid, UsersOf(once, o.tid));
    hide Cleaned;
    hide Delete;
    hide IsNamed;
    hide Identifies;
    hide Recount;
    if left.uids != {} {
      NothingToDo(once, left, ch2);
      CleanedIs(once, left, ch2);
      AuditWellFormed(Updated(once, left, ch2), ch2);
      NothingToDoIsClean(once, left, ch2);
    }
  }
}
