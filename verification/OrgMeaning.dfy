/** What identifying and cleaning up come to, said of the rows, columns and fields of the store alone. */
module OrgMeaning {
  import opened Wrappers
  import opened OrgStore
  import opened OrgSafety

  // ---- whose row it is ----

  /** The row's own value in a column of the table. */
  predicate Holds(columns: seq<Column>, row: Row, column: string, v: int) {
    (exists c | c in columns :: c.name == column) && column in row.ids && row.ids[column] == Some(v)
  }

  /** By its organisation where the table has that column, by its user where it has only that one. */
  lemma OwnsExactly(columns: seq<Column>, row: Row, tid: int, uids: set<int>)
    ensures (exists c | c in columns :: c.name == "tenant_id") ==>
              (Owns(columns, row, tid, uids) <==> Holds(columns, row, "tenant_id", tid))
    ensures (forall c | c in columns :: c.name != "tenant_id") ==>
              (Owns(columns, row, tid, uids) <==> exists u | u in uids :: Holds(columns, row, "user_id", u))
  {
    if HasColumn(columns, "user_id") && Id(row, "user_id").Some? && Id(row, "user_id").value in uids {
      assert Holds(columns, row, "user_id", Id(row, "user_id").value);
    }
  }

  /** The delete of a table was refused in every one of the three passes. */
  predicate RefusedThrice(ch: Chance, t: string) { ch.refuses(0, t) && ch.refuses(1, t) && ch.refuses(2, t) }

  /** No row of the organisation is left in an allowlisted table whose delete was not refused three times. */
  lemma RowsGone(db: Db, o: Org, ch: Chance, t: string, r: int)
    requires WellFormed(db) && ProperAudit(db, o, ch)
    requires t in ALLOWLIST && t in db.rows && r in db.rows[t] && Owns(db.schema[t], db.rows[t][r], o.tid, o.uids)
    ensures WellFormed(Cleaned(db, o, ch))
    ensures r in Cleaned(db, o, ch).rows[t] <==> RefusedThrice(ch, t)
  {
    NamedAfter(db, o, ch, 0);
    CleanedIs(db, o, ch);
    LedgersApart();
    AuditRows(Updated(db, o, ch), ch);
    MidOwned(db, o, ch, t, r);
    hide Cleaned;
    hide Updated;
    hide WithAudit;
    hide Changed;
    hide Owns;
    hide Mid;
    hide Done;
  }

  lemma MidOwned(db: Db, o: Org, ch: Chance, t: string, r: int)
    requires WellFormed(db)
    requires t in ALLOWLIST && t in db.rows && r in db.rows[t] && Owns(db.schema[t], db.rows[t][r], o.tid, o.uids)
    ensures t in Mid(db, o, Done(db, o, ch)).rows
    ensures r in Mid(db, o, Done(db, o, ch)).rows[t] <==> RefusedThrice(ch, t)
  {
    hide Owns;
    assert r in OwnedRows(db, t, o.tid, o.uids);
    hide OwnedRows;
    assert t in Owned(db, o.tid, o.uids) && t in Pending(db, o);
    AlwaysIsThrice(ch, t);
    hide AlwaysRefused;
    hide RefusedThrice;
    OwnedIs(db, o, t, r);
  }

  lemma AlwaysIsThrice(ch: Chance, t: string)
    ensures AlwaysRefused(ch, t, PASSES) <==> RefusedThrice(ch, t)
  {}

  lemma OwnedIs(db: Db, o: Org, t: string, r: int)
    requires t in db.rows && t in db.schema && r in db.rows[t] && Owns(db.schema[t], db.rows[t][r], o.tid, o.uids)
    ensures r in OwnedRows(db, t, o.tid, o.uids)
  {}

  // ---- who is kept ----

  /** The same user, with no way to log in. */
  predicate IsTombstone(was: User, now: User, hash: string) {
    && now.tenant == was.tenant && now.email == was.email && now.createdAt == was.createdAt
    && !now.active && now.hash == hash && !now.mfaEnabled && now.mfaSecret == None && now.scopeOverrides == None
  }

  /** Whoever is left of the organisation is a tombstone of who was there. */
  lemma KeptAreTombstones(db: Db, o: Org, ch: Chance, u: int)
    requires WellFormed(db) && ProperAudit(db, o, ch) && o.uids == UsersOf(db, o.tid)
    requires u in Cleaned(db, o, ch).users && u in db.users && db.users[u].tenant == o.tid
    ensures IsTombstone(db.users[u], Cleaned(db, o, ch).users[u], ch.tombstone)
  {
    UsersSafe(db, o, ch);
    hide Cleaned;
    hide UsersSettled;
    hide ProperAudit;
  }

  // ---- when an audit row is written ----

  /** A row or a user is gone, or the organisation was not suspended, or a member was active and not yet refreshed. */
  ghost predicate LeavesATrace(db: Db, after: Db, o: Org, ch: Chance) {
    || (exists t, r | t in db.rows && t in after.rows && r in db.rows[t] :: r !in after.rows[t])
    || (exists u | u in db.users :: u !in after.users)
    || o.tid !in db.tenants || db.tenants[o.tid].status != "suspended"
    || (!ch.synchronised && exists u | u in o.uids && u in db.users :: db.users[u].active)
  }

  /** Something was deleted exactly when a table was emptied or a user dropped. */
  lemma DeletedSomething(db: Db, o: Org, ch: Chance)
    requires WellFormed(db) && o.uids <= db.users.Keys
    ensures Delete(db, o, ch).deleted == map[]
            <==> Done(db, o, ch) == {} && Delete(db, o, ch).db.users == db.users
  {
    var done := Done(db, o, ch);
    hide Stuck;
    hide NamedOf;
    hide Mid;
    assert done <= Owned(db, o.tid, o.uids).Keys;
    hide Done;
    hide Owned;
    assert Counts(db, o, done).Keys == done;
    var d := Delete(db, o, ch);
    var drop := o.uids - NamedOf(Mid(db, o, done), o.uids);
    if drop != {} && !ch.refusesUsers {
      var u :| u in drop;
      assert u in db.users && u !in db.users - drop;
      assert "users" in d.deleted;
    }
  }

  /** A table is emptied exactly when a row is gone. */
  lemma EmptiedSomething(db: Db, o: Org, done: set<string>)
    requires WellFormed(db) && done <= Pending(db, o)
    ensures done == {} <==> forall t, r | t in db.rows && r in db.rows[t] :: r in Mid(db, o, done).rows[t]
  {
    if t :| t in done {
      assert t in Owned(db, o.tid, o.uids);
      var r := OneOf(OwnedRows(db, t, o.tid, o.uids));
      assert r in db.rows[t] && r !in Mid(db, o, done).rows[t];
    }
  }

  /** Who is left of the users is who the deletes left. */
  lemma LeftAre(db: Db, o: Org, ch: Chance)
    requires WellFormed(db)
    ensures Cleaned(db, o, ch).users.Keys == Delete(db, o, ch).db.users.Keys
    ensures forall u | u in o.uids && u in Cleaned(db, o, ch).users :: u in Delete(db, o, ch).kept
    ensures Delete(db, o, ch).kept <= o.uids && Delete(db, o, ch).db.users.Keys <= db.users.Keys
    ensures Delete(db, o, ch).db.users == db.users
            <==> forall u | u in db.users :: u in Delete(db, o, ch).db.users
  {
    UsersAudited(db, o, ch);
    UpdatedIs(db, o, ch);
    DeleteUsers(db, o, ch);
    KeysInert();
    hide Cleaned;
    hide Updated;
    hide Delete;
    hide Mid;
    hide Done;
    hide MakeInert;
  }

  lemma ChangedIs(db: Db, o: Org, ch: Chance)
    requires WellFormed(db) && o.uids == UsersOf(db, o.tid)
    ensures Changed(db, o, ch, Delete(db, o, ch)) <==>
              || Done(db, o, ch) != {} || (exists u | u in db.users :: u !in Cleaned(db, o, ch).users)
              || o.tid !in db.tenants || db.tenants[o.tid].status != "suspended"
              || (!ch.synchronised && exists u | u in o.uids && u in db.users :: db.users[u].active)
  {
    DeletedSomething(db, o, ch);
    LeftAre(db, o, ch);
    hide Cleaned;
    hide Delete;
    hide Done;
  }

  lemma AuditedIfChanged(db: Db, o: Org, ch: Chance)
    requires WellFormed(db) && ProperAudit(db, o, ch)
    ensures WellFormed(Cleaned(db, o, ch))
    ensures ch.auditId in Cleaned(db, o, ch).rows[AUDIT] <==> Changed(db, o, ch, Delete(db, o, ch))
    ensures forall t | t in db.rows :: t in Cleaned(db, o, ch).rows && t in Mid(db, o, Done(db, o, ch)).rows
    ensures forall t, r | t in db.rows && r in db.rows[t] ::
              r in Cleaned(db, o, ch).rows[t] <==> r in Mid(db, o, Done(db, o, ch)).rows[t]
  {
    MidSafe(db, o, Done(db, o, ch));
    hide Cleaned;
    hide Updated;
    hide Changed;
    hide Delete;
    hide Mid;
    hide Done;
    hide WithAudit;
    hide RowKept;
    hide IsLedger;
    NamedAfter(db, o, ch, 0);
    CleanedIs(db, o, ch);
    AuditRows(Updated(db, o, ch), ch);
  }

  /** A run writes its audit row exactly when it leaves a trace: a run that finds nothing to do writes none. */
  lemma AuditedExactly(db: Db, o: Org, ch: Chance)
    requires WellFormed(db) && ProperAudit(db, o, ch) && o.uids == UsersOf(db, o.tid)
    ensures WellFormed(Cleaned(db, o, ch))
    ensures ch.auditId in Cleaned(db, o, ch).rows[AUDIT] <==> LeavesATrace(db, Cleaned(db, o, ch), o, ch)
  {
    AuditedIfChanged(db, o, ch);
    ChangedIs(db, o, ch);
    EmptiedSomething(db, o, Done(db, o, ch));
    hide ProperAudit;
    hide Cleaned;
    hide Changed;
    hide Delete;
    hide Mid;
    hide Done;
  }

  // ---- whose organisation it is ----

  predicate SeedRow(row: Row, stamp: string, tenantId: Option<int>) {
    && "event" in row.text && row.text["event"] == "loadtest_org_seeded"
    && "detail" in row.text && "loadtest-" + stamp + ":" <= row.text["detail"]
    && (tenantId.Some? ==> "tenant_id" in row.ids && row.ids["tenant_id"] == tenantId)
  }

  /** At most so many minutes apart. */
  predicate Near(a: int, b: int, minutes: nat) { -60_000_000 * minutes <= a - b <= 60_000_000 * minutes }

  function Numbered(stamp: string, digits: string): string { "lt-" + stamp + "-" + digits + "@example.com" }

  ghost predicate IsNumbered(stamp: string, email: string) {
    exists digits: string | email == Numbered(stamp, digits) ::
      |digits| == 4 && forall i | 0 <= i < 4 :: '0' <= digits[i] <= '9'
  }

  lemma Parts(head: string, middle: string, tail: string, s: string)
    ensures s == head + middle + tail <==>
              && |s| == |head| + |middle| + |tail| && s[..|head|] == head
              && s[|head|..|head| + |middle|] == middle && s[|head| + |middle|..] == tail
  {
    if |s| == |head| + |middle| + |tail| {
      assert s == s[..|head|] + s[|head|..|head| + |middle|] + s[|head| + |middle|..];
    }
  }

  lemma EmailIsNumbered(stamp: string, email: string)
    ensures IsLoadtestEmail(stamp, email) <==> IsNumbered(stamp, email)
  {
    var head, tail := "lt-" + stamp + "-", "@example.com";
    if IsLoadtestEmail(stamp, email) {
      var digits := email[|head|..|head| + 4];
      Parts(head, digits, tail, email);
      assert email == Numbered(stamp, digits);
      assert forall i | 0 <= i < 4 :: digits[i] in digits;
    }
    if digits: string :| email == Numbered(stamp, digits) && |digits| == 4
                         && forall i | 0 <= i < 4 :: '0' <= digits[i] <= '9' {
      Parts(head, digits, tail, email);
      assert Digits(digits);
    }
  }

  /** The member's address is one of the stamp's, and its user is listed or, without a list, as old as the record. */
  ghost predicate SeededMember(user: User, u: int, stamp: string, allowed: Option<set<int>>, seededAt: int) {
    IsNumbered(stamp, user.email)
    && if allowed.Some? then u in allowed.value else Near(user.createdAt, seededAt, 5)
  }

  /** The one seed record is sound, of the stamp's time, and names an organisation made with it, all its members too. */
  ghost predicate Seeded(w: World, db: Db, stamp: string, when: int, tenantId: Option<int>, allowed: Option<set<int>>,
                         o: Org, r: int)
    requires WellFormed(db) && r in db.rows["audit_logs"]
  {
    var row := db.rows["audit_logs"][r];
    && (forall q | q in db.rows["audit_logs"] :: SeedRow(db.rows["audit_logs"][q], stamp, tenantId) <==> q == r)
    && w.auditHash(row) == (if "hash" in row.text then row.text["hash"] else "")
    && "tenant_id" in row.ids && row.ids["tenant_id"] == Some(o.tid)
    && ("user_id" in row.ids ==> row.ids["user_id"] == None)
    && Near(row.createdAt, when, 15)
    && o.tid in db.tenants && db.tenants[o.tid].name == "loadtest-" + stamp
    && Near(db.tenants[o.tid].createdAt, row.createdAt, 5)
    && (forall u :: u in o.uids <==> u in db.users && db.users[u].tenant == o.tid) && o.uids != {}
    && (forall u | u in o.uids :: SeededMember(db.users[u], u, stamp, allowed, row.createdAt))
  }

  /** Which organisation is proven, and when none is. */
  lemma ProvenExactly(w: World, db: Db, stamp: string, tenantId: Option<int>, allowed: Option<set<int>>,
                      answer: Result<Org, Refusal>, o: Org)
    requires WellFormed(db) && Identifies(w, db, stamp, tenantId, allowed, answer)
    ensures answer == Success(o) <==>
              w.stampTime(stamp).Some?
              && exists r | r in db.rows["audit_logs"] ::
                   Seeded(w, db, stamp, w.stampTime(stamp).value, tenantId, allowed, o, r)
  {
    if w.stampTime(stamp).None? {
      return;
    }
    var when, records := w.stampTime(stamp).value, SeedRecords(db, stamp, tenantId);
    RecordsAre(db, stamp, tenantId);
    forall r | r in records && |records| == 1
      ensures CheckRecord(w, db, stamp, when, r, allowed) == Success(o)
              <==> Seeded(w, db, stamp, when, tenantId, allowed, o, r)
    {
      OneRecord(db, stamp, tenantId, r);
      CheckedExactly(w, db, stamp, when, tenantId, allowed, o, r);
    }
    forall r | r in db.rows["audit_logs"] && Seeded(w, db, stamp, when, tenantId, allowed, o, r)
      ensures records == {r}
    {
      OnlyRecord(db, stamp, tenantId, r);
    }
    hide CheckRecord;
    hide Seeded;
    hide SeedRecords;
  }

  lemma RecordsAre(db: Db, stamp: string, tenantId: Option<int>)
    requires WellFormed(db)
    ensures forall r :: r in SeedRecords(db, stamp, tenantId) <==>
                          r in db.rows["audit_logs"] && SeedRow(db.rows["audit_logs"][r], stamp, tenantId)
  {}

  lemma OneRecord(db: Db, stamp: string, tenantId: Option<int>, r: int)
    requires WellFormed(db) && r in SeedRecords(db, stamp, tenantId) && |SeedRecords(db, stamp, tenantId)| == 1
    ensures forall q | q in db.rows["audit_logs"] :: SeedRow(db.rows["audit_logs"][q], stamp, tenantId) <==> q == r
  {
    RecordsAre(db, stamp, tenantId);
    hide SeedRow;
    forall q | q in SeedRecords(db, stamp, tenantId)
      ensures q == r
    {
      OnlyOne(SeedRecords(db, stamp, tenantId), q, r);
    }
  }

  lemma OnlyRecord(db: Db, stamp: string, tenantId: Option<int>, r: int)
    requires WellFormed(db) && r in db.rows["audit_logs"]
    requires forall q | q in db.rows["audit_logs"] ::
               SeedRow(db.rows["audit_logs"][q], stamp, tenantId) <==> q == r
    ensures SeedRecords(db, stamp, tenantId) == {r}
  {
    RecordsAre(db, stamp, tenantId);
    hide SeedRow;
    hide SeedRecords;
    forall q
      ensures q in SeedRecords(db, stamp, tenantId) <==> q in {r}
    {}
  }

  lemma MembersAre(db: Db, u: int, stamp: string, allowed: Option<set<int>>, seededAt: int)
    requires u in db.users
    ensures IsForeign(db, u, stamp, allowed, seededAt) <==>
              !SeededMember(db.users[u], u, stamp, allowed, seededAt)
  {
    EmailIsNumbered(stamp, db.users[u].email);
    hide IsLoadtestEmail;
    hide IsNumbered;
  }

  lemma CheckedExactly(w: World, db: Db, stamp: string, when: int, tenantId: Option<int>, allowed: Option<set<int>>,
                       o: Org, r: int)
    requires WellFormed(db) && r in db.rows["audit_logs"]
    requires forall q | q in db.rows["audit_logs"] ::
               SeedRow(db.rows["audit_logs"][q], stamp, tenantId) <==> q == r
    ensures CheckRecord(w, db, stamp, when, r, allowed) == Success(o)
            <==> Seeded(w, db, stamp, when, tenantId, allowed, o, r)
  {
    var seededAt := db.rows["audit_logs"][r].createdAt;
    forall u | u in db.users
      ensures IsForeign(db, u, stamp, allowed, seededAt) <==>
                !SeededMember(db.users[u], u, stamp, allowed, seededAt)
    {
      MembersAre(db, u, stamp, allowed, seededAt);
    }
    hide IsForeign;
    hide SeededMember;
    hide SeedRow;
    hide IsNumbered;
    if Seeded(w, db, stamp, when, tenantId, allowed, o, r) {
      forall u
        ensures u in o.uids <==> u in UsersOf(db, o.tid)
      {}
      assert o.uids == UsersOf(db, o.tid) && o == Org(o.tid, UsersOf(db, o.tid));
      assert CheckRecord(w, db, stamp, when, r, allowed) == Success(o);
    }
    if CheckRecord(w, db, stamp, when, r, allowed) == Success(o) {
      assert Seeded(w, db, stamp, when, tenantId, allowed, o, r);
    }
  }
}
