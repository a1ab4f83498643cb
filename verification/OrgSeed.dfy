/** Making the load-test organisation, and what a cleanup leaves of it. */
module OrgSeed {
  import opened Sequences
  import opened Wrappers
  import opened OrgStore
  import opened OrgSafety
  import opened OrgCleanup

  const KEYS := "tenant_keys"
  const MAX_USERS := 1000

  /** What the outside decides of a seeding: the new ids, the hashes, and the instant of the check and of every row. */
  datatype Fresh = Fresh(tid: int, keyId: int, auditId: int, uids: seq<int>, hash: string, auditHash: string,
                         checkedAt: int, tenantAt: int, keyAt: int, recordAt: int, userAt: nat -> int)

  function Detail(f: Fresh): string { " " + Decimal(|f.uids|) + " synthetic PAPER users, no broker" }

  function SeedRow(stamp: string, f: Fresh): Row {
    Row(map["tenant_id" := Some(f.tid)],
        map["event" := SEED_EVENT, "detail" := TenantName(stamp) + ":" + Detail(f), "hash" := f.auditHash], f.recordAt)
  }

  function KeyRow(f: Fresh): Row { Row(map["tenant_id" := Some(f.tid)], map[], f.keyAt) }

  function NewUser(stamp: string, f: Fresh, i: nat): User
    requires i < 10000
  {
    User(f.tid, EmailFor(stamp, i), f.userAt(i), true, f.hash, false, None, None)
  }

  function NewUsers(stamp: string, f: Fresh, n: nat): map<int, User>
    requires n <= |f.uids| <= MAX_USERS
  {
    if n == 0 then map[] else NewUsers(stamp, f, n - 1)[f.uids[n - 1] := NewUser(stamp, f, n - 1)]
  }

  /** The one transaction of `seed`. */
  function Seeded(db: Db, stamp: string, f: Fresh): Db
    requires WellFormed(db) && KEYS in db.rows && |f.uids| <= MAX_USERS
  {
    db.(rows := db.rows[KEYS := db.rows[KEYS][f.keyId := KeyRow(f)]]
                       [AUDIT := db.rows[AUDIT][f.auditId := SeedRow(stamp, f)]],
        users := db.users + NewUsers(stamp, f, |f.uids|),
        tenants := db.tenants[f.tid := Tenant(TenantName(stamp), f.tenantAt, "active", "", {})])
  }

  function UidSet(f: Fresh): set<int> { set u | u in f.uids }

  /** Ids just issued: nothing in the database has them or refers to them. */
  ghost predicate Unused(db: Db, f: Fresh)
    requires WellFormed(db) && KEYS in db.rows
  {
    && f.tid !in db.tenants && f.keyId !in db.rows[KEYS] && f.auditId !in db.rows[AUDIT]
    && Distinct(f.uids)
    && (forall u | u in f.uids :: u !in db.users && !IsNamed(db, u))
    && (forall u | u in db.users :: db.users[u].tenant != f.tid)
    && (forall t, r | t in db.rows && r in db.rows[t] :: !Owns(db.schema[t], db.rows[t][r], f.tid, UidSet(f)))
  }

  lemma {:induction false} NewUsersAre(stamp: string, f: Fresh, n: nat)
    requires n <= |f.uids| <= MAX_USERS && Distinct(f.uids)
    ensures forall u :: u in NewUsers(stamp, f, n) <==> u in f.uids[..n]
    ensures forall i | 0 <= i < n ::
              f.uids[i] in NewUsers(stamp, f, n) && NewUsers(stamp, f, n)[f.uids[i]] == NewUser(stamp, f, i)
  {
    hide NewUser;
    if n > 0 {
      NewUsersAre(stamp, f, n - 1);
      assert f.uids[..n] == f.uids[..n - 1] + [f.uids[n - 1]];
    }
  }

  method SeedUsers(stamp: string, f: Fresh) returns (users: map<int, User>)
    requires |f.uids| <= MAX_USERS
    ensures users == NewUsers(stamp, f, |f.uids|)
  {
    hide EmailFor;
    users := map[];
    for i := 0 to |f.uids|
      invariant users == NewUsers(stamp, f, i)
    {
      users := users[f.uids[i] := NewUser(stamp, f, i)];
    }
  }

  /** `seed`: everything, or nothing. */
  method Seed(db: Database, w: World, stamp: string, paperOnly: bool, f: Fresh) returns (r: Result<Org, Refusal>)
    requires WellFormed(db.State()) && KEYS in db.rows
    modifies db
    ensures r == (if w.stampTime(stamp).None? then Failure(BadStamp)
                  else if Distance(w.stampTime(stamp).value, f.checkedAt) > STAMP_SKEW then Failure(StampNotNow)
                  else if !(1 <= |f.uids| <= MAX_USERS) then Failure(BadCount)
                  else if !paperOnly then Failure(NotPaperOnly)
                  else if old(SeedRecords(db.State(), stamp, None)) != {} then Failure(SeededAlready)
                  else Success(Org(f.tid, UidSet(f))))
    ensures r.Failure? ==> db.State() == old(db.State())
    ensures r.Success? ==> db.State() == Seeded(old(db.State()), stamp, f)
  {
    var when := w.stampTime(stamp);
    if when.None? {
      return Failure(BadStamp);
    }
    if Distance(when.value, f.checkedAt) > STAMP_SKEW {
      return Failure(StampNotNow);
    }
    if !(1 <= |f.uids| <= MAX_USERS) {
      return Failure(BadCount);
    }
    if !paperOnly {
      return Failure(NotPaperOnly);
    }
    if SeedRecords(db.State(), stamp, None) != {} {
      return Failure(SeededAlready);
    }
    db.tenants := db.tenants[f.tid := Tenant(TenantName(stamp), f.tenantAt, "active", "", {})];
    db.rows := db.rows[KEYS := db.rows[KEYS][f.keyId := KeyRow(f)]];
    db.rows := db.rows[AUDIT := db.rows[AUDIT][f.auditId := SeedRow(stamp, f)]];
    var users := SeedUsers(stamp, f);
    db.users := db.users + users;
    r := Success(Org(f.tid, UidSet(f)));
  }

  // ---- identify finds what seed made ----

  /** Every new user is of the organisation and has one of the seed's addresses, and its own instant. */
  ghost predicate NewSound(stamp: string, f: Fresh, users: map<int, User>) {
    && users.Keys == UidSet(f)
    && (forall u | u in users :: users[u].tenant == f.tid && IsLoadtestEmail(stamp, users[u].email))
    && (forall i | 0 <= i < |f.uids| :: f.uids[i] in users && users[f.uids[i]].createdAt == f.userAt(i))
  }

  lemma AllNewUsers(stamp: string, f: Fresh)
    requires |f.uids| <= MAX_USERS && Distinct(f.uids)
    ensures NewSound(stamp, f, NewUsers(stamp, f, |f.uids|))
  {
    NewUsersAre(stamp, f, |f.uids|);
    assert f.uids[..|f.uids|] == f.uids;
    var new' := NewUsers(stamp, f, |f.uids|);
    hide NewUsers;
    hide IsLoadtestEmail;
    hide EmailFor;
    forall u
      ensures u in new'.Keys <==> u in UidSet(f)
    {}
    forall u | u in new'
      ensures new'[u].tenant == f.tid && IsLoadtestEmail(stamp, new'[u].email)
    {
      var i :| 0 <= i < |f.uids| && f.uids[i] == u;
      EmailForIsOurs(stamp, i);
    }
  }

  lemma UnusedUids(db: Db, f: Fresh)
    requires WellFormed(db) && KEYS in db.rows && Unused(db, f)
    ensures UidSet(f) !! db.users.Keys
    ensures Distinct(f.uids)
  {
    hide IsNamed;
    hide Owns;
    forall u | u in UidSet(f)
      ensures u !in db.users.Keys
    {}
  }

  lemma SeededFacts(db: Db, stamp: string, f: Fresh)
    requires WellFormed(db) && KEYS in db.rows && |f.uids| <= MAX_USERS && Unused(db, f)
    ensures var new' := NewUsers(stamp, f, |f.uids|);
            Seeded(db, stamp, f).users == db.users + new' && NewSound(stamp, f, new') && UidSet(f) !! db.users.Keys
  {
    hide NewUsers;
    hide NewSound;
    hide Unused;
    UnusedUids(db, f);
    AllNewUsers(stamp, f);
  }

  lemma UsersOfMore(users: map<int, User>, more: map<int, User>, s: Db, tid: int)
    requires s.users == users + more && more.Keys !! users.Keys
    requires (forall u | u in users :: users[u].tenant != tid) && (forall u | u in more :: more[u].tenant == tid)
    ensures UsersOf(s, tid) == more.Keys
  {
    forall u
      ensures u in UsersOf(s, tid) <==> u in more.Keys
    {}
  }

  /** A user row written too long before or after the seed record. */
  predicate Stray(f: Fresh) {
    exists i | 0 <= i < |f.uids| :: Distance(f.userAt(i), f.recordAt) > SAME_TRANSACTION
  }

  lemma SeededUsers(db: Db, stamp: string, f: Fresh, allowed: Option<set<int>>)
    requires WellFormed(db) && KEYS in db.rows && |f.uids| <= MAX_USERS && Unused(db, f)
    requires allowed == None || allowed == Some(UidSet(f))
    ensures UsersOf(Seeded(db, stamp, f), f.tid) == UidSet(f) <= Seeded(db, stamp, f).users.Keys
    ensures (exists u | u in UidSet(f) :: IsForeign(Seeded(db, stamp, f), u, stamp, allowed, f.recordAt))
            <==> allowed.None? && Stray(f)
  {
    hide Seeded;
    hide NewUsers;
    hide IsLoadtestEmail;
    SeededFacts(db, stamp, f);
    assert forall u | u in db.users :: db.users[u].tenant != f.tid;
    hide Unused;
    hide WellFormed;
    var new' := NewUsers(stamp, f, |f.uids|);
    UsersOfMore(db.users, new', Seeded(db, stamp, f), f.tid);
    hide UsersOf;
    forall i | 0 <= i < |f.uids|
      ensures f.uids[i] in UidSet(f) && IsForeign(Seeded(db, stamp, f), f.uids[i], stamp, allowed, f.recordAt)
              == (allowed.None? && Distance(f.userAt(i), f.recordAt) > SAME_TRANSACTION)
    {
      assert Seeded(db, stamp, f).users[f.uids[i]] == new'[f.uids[i]];
    }
    if allowed.None? && Stray(f) {
      var i :| 0 <= i < |f.uids| && Distance(f.userAt(i), f.recordAt) > SAME_TRANSACTION;
      assert IsForeign(Seeded(db, stamp, f), f.uids[i], stamp, allowed, f.recordAt);
    }
  }

  lemma Begins(a: string, b: string)
    ensures a <= a + b
  {}

  lemma SeedTexts(a: string, b: string, c: string)
    ensures var text := map["event" := a, "detail" := b, "hash" := c];
            && "event" in text && text["event"] == a && "detail" in text && text["detail"] == b
            && "hash" in text && text["hash"] == c
  {
    assert "event"[0] == 'e' && "detail"[0] == 'd' && "hash"[0] == 'h';
  }

  lemma SeedRowIs(stamp: string, f: Fresh)
    ensures IsSeedRecord(SeedRow(stamp, f), stamp)
    ensures Id(SeedRow(stamp, f), "tenant_id") == Some(f.tid) && Id(SeedRow(stamp, f), "user_id") == None
    ensures Text(SeedRow(stamp, f), "hash") == f.auditHash
  {
    var start := TenantName(stamp) + ":";
    SeedTexts(SEED_EVENT, start + Detail(f), f.auditHash);
    Begins(start, Detail(f));
    assert "user_id"[0] == 'u' && "tenant_id"[0] == 't';
  }

  /** What identify answers straight after a seeding, by the instants its rows were written at. */
  function FirstIdentity(w: World, stamp: string, f: Fresh, allowed: Option<set<int>>): Result<Org, Refusal>
    requires w.stampTime(stamp).Some?
  {
    if Distance(f.recordAt, w.stampTime(stamp).value) > STAMP_SKEW then Failure(WrongTime)
    else if Distance(f.tenantAt, f.recordAt) > SAME_TRANSACTION then Failure(TenantNotSeeded)
    else if allowed.None? && Stray(f) then Failure(ForeignMember)
    else Success(Org(f.tid, UidSet(f)))
  }

  /**
  Straight after a seeding identify proves exactly its organisation and its users, with the organisation file or
  without, if and only if the record was written near the stamp's time and the other rows near the record.
  */
  lemma SeedIdentifies(w: World, db: Db, stamp: string, f: Fresh, tenantId: Option<int>, allowed: Option<set<int>>)
    requires WellFormed(db) && KEYS in db.rows && 1 <= |f.uids| <= MAX_USERS && Unused(db, f)
    requires w.stampTime(stamp).Some? && SeedRecords(db, stamp, None) == {}
             && w.auditHash(SeedRow(stamp, f)) == f.auditHash
    requires tenantId == None || tenantId == Some(f.tid)
    requires allowed == None || allowed == Some(UidSet(f))
    ensures WellFormed(Seeded(db, stamp, f))
    ensures Identifies(w, Seeded(db, stamp, f), stamp, tenantId, allowed, FirstIdentity(w, stamp, f, allowed))
  {
    var after := Seeded(db, stamp, f);
    SeedRowIs(stamp, f);
    var audit := db.rows[AUDIT];
    assert after.rows[AUDIT] == audit[f.auditId := SeedRow(stamp, f)];
    assert after.tenants[f.tid].name == TenantName(stamp) && after.tenants[f.tid].createdAt == f.tenantAt;
    assert f.uids[0] in UidSet(f);
    OneSeedRecord(audit, stamp, f, tenantId);
    SeededUsers(db, stamp, f, allowed);
    hide Seeded;
    hide IsSeedRecord;
    assert SeedRow(stamp, f).createdAt == f.recordAt;
    hide SeedRow;
    hide IsForeign;
    hide IsNamed;
    hide Owns;
    hide SeedRows;
    hide Stray;
    hide Unused;
    assert CheckRecord(w, after, stamp, w.stampTime(stamp).value, f.auditId, allowed)
           == FirstIdentity(w, stamp, f, allowed);
  }

  /**
  A seeding that begins just inside the stamp's quarter of an hour and writes its record just outside is never proved
  again.
  */
  lemma SlowSeedUnproved(w: World, stamp: string, f: Fresh, when: int)
    requires w.stampTime(stamp) == Some(when) && f.checkedAt == when + STAMP_SKEW && f.recordAt > f.checkedAt
    ensures Distance(when, f.checkedAt) <= STAMP_SKEW && FirstIdentity(w, stamp, f, None) == Failure(WrongTime)
  {}

  lemma OneSeedRecord(audit: map<int, Row>, stamp: string, f: Fresh, tenantId: Option<int>)
    requires SeedRows(audit, stamp, None) == {} && f.auditId !in audit
    requires tenantId == None || tenantId == Some(f.tid)
    ensures SeedRows(audit[f.auditId := SeedRow(stamp, f)], stamp, tenantId) == {f.auditId}
  {
    SeedRowIs(stamp, f);
    hide IsSeedRecord;
    hide SeedRow;
    forall r | r in audit
      ensures !IsSeedRecord(audit[r], stamp)
    {
      assert r !in SeedRows(audit, stamp, None);
    }
  }

  // ---- seed, then cleanup ----

  /** The tables a seeding writes have an organisation column, and that column names no user. */
  predicate ByTenant(columns: seq<Column>) {
    HasColumn(columns, "tenant_id") && forall c | c in columns && NamesUsers(c) :: c.name != "tenant_id"
  }

  predicate NothingRefused(ch: Chance) {
    !ch.refusesUsers && !ch.refuses(0, KEYS)
  }

  lemma KeysApart()
    ensures KEYS != AUDIT && IsAllowed(KEYS) && !IsLedger(KEYS) && IsLedger(AUDIT) && !IsAllowed(AUDIT)
  {
    assert |KEYS| != |AUDIT|;
    LedgersApart();
  }

  /** After a seeding the organisation owns its key row and its seed record, and nothing else. */
  lemma SeededOwned(db: Db, stamp: string, f: Fresh, t: string)
    requires WellFormed(db) && KEYS in db.rows && |f.uids| <= MAX_USERS && Unused(db, f) && t in db.rows
    requires ByTenant(db.schema[KEYS]) && ByTenant(db.schema[AUDIT])
    ensures var s := Seeded(db, stamp, f);
            t in s.rows && t in s.schema
            && OwnedRows(s, t, f.tid, UidSet(f))
               == if t == KEYS then {f.keyId} else if t == AUDIT then {f.auditId} else {}
  {
    KeysApart();
    SeedRowIs(stamp, f);
    var s := Seeded(db, stamp, f);
    assert Id(KeyRow(f), "tenant_id") == Some(f.tid);
    assert Owns(db.schema[KEYS], KeyRow(f), f.tid, UidSet(f))
           && Owns(db.schema[AUDIT], SeedRow(stamp, f), f.tid, UidSet(f));
    assert s.rows[t] == if t == KEYS then db.rows[KEYS][f.keyId := KeyRow(f)]
                        else if t == AUDIT then db.rows[AUDIT][f.auditId := SeedRow(stamp, f)] else db.rows[t];
    assert forall r | r in db.rows[t] :: !Owns(db.schema[t], db.rows[t][r], f.tid, UidSet(f));
    hide Owns;
    hide IsNamed;
    hide SeedRow;
    hide KeyRow;
    hide IsAllowed;
    hide IsLedger;
  }

  lemma SeededPending(db: Db, stamp: string, f: Fresh)
    requires WellFormed(db) && KEYS in db.rows && |f.uids| <= MAX_USERS && Unused(db, f)
    requires ByTenant(db.schema[KEYS]) && ByTenant(db.schema[AUDIT])
    ensures WellFormed(Seeded(db, stamp, f))
    ensures Pending(Seeded(db, stamp, f), Org(f.tid, UidSet(f))) == {KEYS}
    ensures Other(Owned(Seeded(db, stamp, f), f.tid, UidSet(f))) == map[]
  {
    KeysApart();
    var s := Seeded(db, stamp, f);
    assert s.rows.Keys == db.rows.Keys && s.schema == db.schema;
    forall t | t in s.rows
      ensures OwnedRows(s, t, f.tid, UidSet(f)) != {} <==> t == KEYS || t == AUDIT
    {
      SeededOwned(db, stamp, f, t);
    }
    hide Seeded;
    hide Unused;
    hide OwnedRows;
    hide IsAllowed;
    hide IsLedger;
    var owned := Owned(s, f.tid, UidSet(f));
    assert owned.Keys == {KEYS, AUDIT};
    assert Allowed(owned).Keys == {KEYS};
    assert Other(owned).Keys == {};
  }

  /** A seed record in the audit log names nobody. */
  lemma SeededNames(db: Db, stamp: string, f: Fresh, u: int)
    requires WellFormed(db) && ByTenant(db.schema[AUDIT]) && f.auditId !in db.rows[AUDIT]
    ensures var mid := db.(rows := db.rows[AUDIT := db.rows[AUDIT][f.auditId := SeedRow(stamp, f)]]);
            WellFormed(mid) && (IsNamed(mid, u) <==> IsNamed(db, u))
  {
    SeedRowIs(stamp, f);
    var ch := Chance((k, t) => false, false, "", f.auditId, SeedRow(stamp, f), true);
    forall c | c in db.schema[AUDIT] && NamesUsers(c)
      ensures Id(SeedRow(stamp, f), c.name) == None
    {}
    NewRowNamesNobody(db, ch, u);
  }

  lemma SeededDone(db: Db, stamp: string, f: Fresh, ch: Chance)
    requires WellFormed(db) && KEYS in db.rows && |f.uids| <= MAX_USERS && Unused(db, f)
    requires ByTenant(db.schema[KEYS]) && ByTenant(db.schema[AUDIT]) && NothingRefused(ch)
    ensures var s, o := Seeded(db, stamp, f), Org(f.tid, UidSet(f));
            WellFormed(s) && Done(s, o, ch) == {KEYS} && Stuck(s, o, ch, PASSES) == {}
  {
    SeededPending(db, stamp, f);
    assert !AlwaysRefused(ch, KEYS, PASSES) by {
      assert !ch.refuses(0, KEYS);
    }
    hide Pending;
    hide Seeded;
    hide Unused;
    assert Stuck(Seeded(db, stamp, f), Org(f.tid, UidSet(f)), ch, PASSES) == {};
  }

  lemma AddThenDrop<V>(m: map<int, V>, n: map<int, V>, s: set<int>)
    requires n.Keys == s && s !! m.Keys
    ensures (m + n) - s == m
  {}

  lemma AddOneThenDrop<V>(m: map<int, V>, k: int, v: V)
    requires k !in m
    ensures m[k := v] - {k} == m
  {}

  /** The tables once the organisation's own rows are deleted: those before, and the seed record. */
  lemma SeededMid(db: Db, stamp: string, f: Fresh)
    requires WellFormed(db) && KEYS in db.rows && |f.uids| <= MAX_USERS && Unused(db, f)
    requires ByTenant(db.schema[KEYS]) && ByTenant(db.schema[AUDIT])
    ensures WellFormed(Seeded(db, stamp, f))
    ensures Emptied(Seeded(db, stamp, f), Org(f.tid, UidSet(f)), {KEYS})
            == db.rows[AUDIT := db.rows[AUDIT][f.auditId := SeedRow(stamp, f)]]
  {
    KeysApart();
    SeededOwned(db, stamp, f, KEYS);
    AddOneThenDrop(db.rows[KEYS], f.keyId, KeyRow(f));
    var s := Seeded(db, stamp, f);
    assert s.rows == db.rows[KEYS := db.rows[KEYS][f.keyId := KeyRow(f)]]
                            [AUDIT := db.rows[AUDIT][f.auditId := SeedRow(stamp, f)]];
    assert s.schema.Keys == s.rows.Keys;
    hide Seeded;
    hide Unused;
    hide OwnedRows;
    hide SeedRow;
    hide KeyRow;
  }

  /** An organisation whose own row names nobody changes nothing about who is named. */
  lemma TenantNamesNobody(a: Db, b: Db, tid: int, t: Tenant, u: int)
    requires WellFormed(a) && WellFormed(b) && a.schema == b.schema && a.rows == b.rows
    requires tid !in a.tenants && t.names == {} && b.tenants == a.tenants[tid := t]
    ensures IsNamed(a, u) <==> IsNamed(b, u)
  {
    forall x | x in a.rows
      ensures TableNames(a, x, u) <==> TableNames(b, x, u)
    {}
    hide TableNames;
    assert forall x | x in a.tenants :: x in b.tenants && b.tenants[x] == a.tenants[x];
  }

  /** With the organisation's own rows gone, nothing names its users. */
  lemma SeededUnnamed(db: Db, stamp: string, f: Fresh)
    requires WellFormed(db) && KEYS in db.rows && |f.uids| <= MAX_USERS && Unused(db, f)
    requires ByTenant(db.schema[KEYS]) && ByTenant(db.schema[AUDIT])
    ensures WellFormed(Seeded(db, stamp, f))
    ensures NamedOf(Mid(Seeded(db, stamp, f), Org(f.tid, UidSet(f)), {KEYS}), UidSet(f)) == {}
  {
    SeededMid(db, stamp, f);
    var s := Seeded(db, stamp, f);
    var mid := Mid(s, Org(f.tid, UidSet(f)), {KEYS});
    var bare := db.(rows := db.rows[AUDIT := db.rows[AUDIT][f.auditId := SeedRow(stamp, f)]]);
    var t := Tenant(TenantName(stamp), f.tenantAt, "active", "", {});
    assert mid.rows == bare.rows && mid.schema == bare.schema && mid.tenants == bare.tenants[f.tid := t];
    assert f.tid !in db.tenants && f.auditId !in db.rows[AUDIT];
    assert forall u | u in f.uids :: !IsNamed(db, u);
    hide IsNamed;
    hide Mid;
    hide Unused;
    hide Seeded;
    hide ByTenant;
    hide SeedRow;
    forall u | u in f.uids
      ensures !IsNamed(mid, u)
    {
      SeededNames(db, stamp, f, u);
      TenantNamesNobody(bare, mid, f.tid, t, u);
    }
  }

  lemma NobodyInert(users: map<int, User>, tombstone: string)
    ensures MakeInert(users, {}, tombstone) == users
  {}

  lemma UsersBack(db: Db, s: Db, f: Fresh, ch: Chance, new': map<int, User>)
    requires WellFormed(s) && s.users == db.users + new' && new'.Keys == UidSet(f) && UidSet(f) !! db.users.Keys
             && !ch.refusesUsers
    requires Done(s, Org(f.tid, UidSet(f)), ch) == {KEYS}
             && NamedOf(Mid(s, Org(f.tid, UidSet(f)), {KEYS}), UidSet(f)) == {}
    ensures Cleaned(s, Org(f.tid, UidSet(f)), ch).users == db.users
  {
    hide Cleaned;
    hide Done;
    hide Mid;
    hide NamedOf;
    hide MakeInert;
    UsersAfter(s, Org(f.tid, UidSet(f)), ch);
    AddThenDrop(db.users, new', UidSet(f));
    NobodyInert(db.users, ch.tombstone);
    assert UidSet(f) - {} == UidSet(f);
  }

  lemma SeededUsersAfter(db: Db, stamp: string, f: Fresh, ch: Chance)
    requires WellFormed(db) && KEYS in db.rows && |f.uids| <= MAX_USERS && Unused(db, f)
    requires ByTenant(db.schema[KEYS]) && ByTenant(db.schema[AUDIT]) && NothingRefused(ch)
    ensures WellFormed(Seeded(db, stamp, f))
    ensures Cleaned(Seeded(db, stamp, f), Org(f.tid, UidSet(f)), ch).users == db.users
  {
    hide Seeded;
    hide Cleaned;
    hide Unused;
    hide Done;
    hide Stuck;
    hide Mid;
    hide NamedOf;
    hide NewUsers;
    hide ByTenant;
    hide UidSet;
    SeededDone(db, stamp, f, ch);
    SeededUnnamed(db, stamp, f);
    SeededFacts(db, stamp, f);
    UsersBack(db, Seeded(db, stamp, f), f, ch, NewUsers(stamp, f, |f.uids|));
  }

  lemma SeededTenant(db: Db, stamp: string, f: Fresh, ch: Chance)
    requires WellFormed(db) && KEYS in db.rows && |f.uids| <= MAX_USERS && WellFormed(Seeded(db, stamp, f))
    ensures var s, o := Seeded(db, stamp, f), Org(f.tid, UidSet(f));
            && s.schema == db.schema && Changed(s, o, ch, Delete(s, o, ch))
            && Suspend(s.tenants, f.tid, CLEANED)
               == db.tenants[f.tid := Tenant(TenantName(stamp), f.tenantAt, "suspended", CLEANED, {})]
  {
    hide Delete;
    var s := Seeded(db, stamp, f);
    assert s.tenants == db.tenants[f.tid := Tenant(TenantName(stamp), f.tenantAt, "active", "", {})];
    assert "active"[0] != "suspended"[0];
    assert s.tenants[f.tid].status != "suspended";
    hide Seeded;
  }

  /**
  The life of a load-test organisation: with no refused delete, a cleanup right after the seeding puts every user and
  every table back as they were, but for two audit rows and the suspended organisation itself.
  */
  lemma SeedThenCleanup(db: Db, stamp: string, f: Fresh, ch: Chance)
    requires WellFormed(db) && KEYS in db.rows && |f.uids| <= MAX_USERS && Unused(db, f)
    requires ByTenant(db.schema[KEYS]) && ByTenant(db.schema[AUDIT]) && NothingRefused(ch)
    ensures WellFormed(Seeded(db, stamp, f))
    ensures var after := Cleaned(Seeded(db, stamp, f), Org(f.tid, UidSet(f)), ch);
            && after.schema == db.schema && after.users == db.users
            && after.rows == db.rows[AUDIT := db.rows[AUDIT][f.auditId := SeedRow(stamp, f)][ch.auditId := ch.auditRow]]
            && after.tenants == db.tenants[f.tid := Tenant(TenantName(stamp), f.tenantAt, "suspended", CLEANED, {})]
  {
    hide Seeded;
    hide Cleaned;
    hide Delete;
    hide Changed;
    hide Unused;
    hide Done;
    hide Emptied;
    hide Updated;
    hide ByTenant;
    hide SeedRow;
    hide Suspend;
    hide UidSet;
    SeededUsersAfter(db, stamp, f, ch);
    SeededDone(db, stamp, f, ch);
    SeededMid(db, stamp, f);
    SeededTenant(db, stamp, f, ch);
    CleanedIs(Seeded(db, stamp, f), Org(f.tid, UidSet(f)), ch);
  }

  /** After the two, the organisation owns nothing but its audit rows. */
  lemma OwnsOnlyAudit(db: Db, f: Fresh, after: Db)
    requires WellFormed(db) && KEYS in db.rows && Unused(db, f) && WellFormed(after)
    requires after.schema == db.schema && after.rows.Keys == db.rows.Keys
    requires forall t | t in db.rows && t != AUDIT :: after.rows[t] == db.rows[t]
    ensures var owned := Owned(after, f.tid, {}); Allowed(owned) + Other(owned) == map[]
  {
    KeysApart();
    forall t | t in after.rows && t != AUDIT
      ensures OwnedRows(after, t, f.tid, {}) == {}
    {
      forall r | r in after.rows[t]
        ensures !Owns(after.schema[t], after.rows[t][r], f.tid, {})
      {
        assert !Owns(db.schema[t], db.rows[t][r], f.tid, UidSet(f));
      }
    }
    hide OwnedRows;
    hide Unused;
    hide IsAllowed;
    hide IsLedger;
    var owned := Owned(after, f.tid, {});
    assert owned.Keys <= {AUDIT};
    assert Allowed(owned) == map[] && Other(owned) == map[];
  }

  lemma NothingFailed(db: Db, o: Org, ch: Chance)
    requires WellFormed(db) && Stuck(db, o, ch, PASSES) == {} && !ch.refusesUsers
    ensures Delete(db, o, ch).failed == {}
  {
    hide Stuck;
    hide Mid;
    hide NamedOf;
    hide Counts;
  }

  /** And that cleanup reports clean, with nobody left. */
  lemma SeedThenCleanupIsClean(db: Db, stamp: string, f: Fresh, ch: Chance)
    requires WellFormed(db) && KEYS in db.rows && |f.uids| <= MAX_USERS && Unused(db, f)
    requires ByTenant(db.schema[KEYS]) && ByTenant(db.schema[AUDIT]) && NothingRefused(ch)
    ensures WellFormed(Seeded(db, stamp, f))
    ensures var s, o := Seeded(db, stamp, f), Org(f.tid, UidSet(f));
            WellFormed(Cleaned(s, o, ch)) && Recount(Cleaned(s, o, ch), o, ch, Delete(s, o, ch)).clean
            && Recount(Cleaned(s, o, ch), o, ch, Delete(s, o, ch)).usersKept == {}
  {
    hide Seeded;
    hide Cleaned;
    hide Delete;
    hide Stuck;
    hide ByTenant;
    hide SeedRow;
    hide UidSet;
    hide Owned;
    hide Allowed;
    hide Other;
    var s, o := Seeded(db, stamp, f), Org(f.tid, UidSet(f));
    SeedThenCleanup(db, stamp, f, ch);
    var after := Cleaned(s, o, ch);
    SeededDone(db, stamp, f, ch);
    NothingFailed(s, o, ch);
    assert UsersOf(after, f.tid) == {} by {
      assert forall u | u in db.users :: db.users[u].tenant != f.tid;
    }
    hide Unused;
    OwnsOnlyAudit(db, f, after);
  }
}
