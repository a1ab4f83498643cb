/**
The store the load-test organisation lives in, and what `loadtest_org.py` does to it, as values: tables of rows with the
columns that matter (ids and texts), users, organisations.  A foreign key's refusal is an arbitrary answer.
*/
module OrgStore {
  import opened Sequences
  import opened Wrappers

  // ---- the database ----

  /** A column: does it reference users.id, and has it any foreign key at all? */
  datatype Column = Column(name: string, refersToUsers: bool, hasForeignKey: bool)

  type Schema = map<string, seq<Column>>

  datatype Row = Row(ids: map<string, Option<int>>, text: map<string, string>, createdAt: int)

  datatype User = User(tenant: int, email: string, createdAt: int, active: bool, hash: string,
                       mfaEnabled: bool, mfaSecret: Option<string>, scopeOverrides: Option<string>)

  /** An organisation; `names` are the users its own row refers to. */
  datatype Tenant = Tenant(name: string, createdAt: int, status: string, reason: string, names: set<int>)

  datatype Db = Db(schema: Schema, rows: map<string, map<int, Row>>, users: map<int, User>, tenants: map<int, Tenant>)

  const AUDIT := "audit_logs"

  const LEDGERS := {"audit_logs", "audit_anchors", "orders", "order_events", "trades"}

  const ALLOWLIST := {"user_sessions", "login_events", "notifications", "notification_reads", "alert_deliveries",
                      "paper_accounts", "usage_records", "tenant_keys", "email_verifications", "password_resets",
                      "mfa_backup_codes", "ai_acknowledgements"}

  predicate IsAllowed(t: string) { t in ALLOWLIST }

  predicate IsLedger(t: string) { t in LEDGERS }

  const SEED_EVENT := "loadtest_org_seeded"
  const CLEAN_EVENT := "loadtest_org_cleaned"

  /** Times are microseconds: how far a stamp may be off, and how far apart the rows of one transaction. */
  const MINUTE := 60_000_000
  const STAMP_SKEW := 15 * MINUTE
  const SAME_TRANSACTION := 5 * MINUTE

  predicate WellFormed(db: Db) {
    db.schema.Keys == db.rows.Keys && AUDIT in db.rows && "users" !in db.rows && "tenants" !in db.rows
  }

  function Id(row: Row, column: string): Option<int> {
    if column in row.ids then row.ids[column] else None
  }

  function Text(row: Row, column: string): string {
    if column in row.text then row.text[column] else ""
  }

  predicate HasColumn(columns: seq<Column>, name: string) {
    exists c | c in columns :: c.name == name
  }

  function UsersOf(db: Db, tid: int): set<int> {
    set u | u in db.users && db.users[u].tenant == tid
  }

  // ---- ownership and references ----

  /**
  `_owner_condition`: by organisation where the table has that column, else by user, never through another column.
  */
  predicate Owns(columns: seq<Column>, row: Row, tid: int, uids: set<int>) {
    if HasColumn(columns, "tenant_id") then Id(row, "tenant_id") == Some(tid)
    else HasColumn(columns, "user_id") && Id(row, "user_id").Some? && Id(row, "user_id").value in uids
  }

  function OwnedRows(db: Db, t: string, tid: int, uids: set<int>): set<int>
    requires t in db.rows && t in db.schema
  {
    set r | r in db.rows[t] && Owns(db.schema[t], db.rows[t][r], tid, uids)
  }

  /** `_owned`: how many rows of each table are the organisation's, empty tables left out. */
  function Owned(db: Db, tid: int, uids: set<int>): map<string, nat>
    requires WellFormed(db)
  {
    map t | t in db.rows && OwnedRows(db, t, tid, uids) != {} :: |OwnedRows(db, t, tid, uids)|
  }

  predicate NamesUsers(c: Column) { c.refersToUsers || (c.name == "user_id" && !c.hasForeignKey) }

  predicate RowNames(columns: seq<Column>, row: Row, u: int) {
    exists c | c in columns :: NamesUsers(c) && Id(row, c.name) == Some(u)
  }

  predicate TableNames(db: Db, t: string, u: int)
    requires t in db.rows && t in db.schema
  {
    exists r | r in db.rows[t] :: RowNames(db.schema[t], db.rows[t][r], u)
  }

  /** Some row anywhere still names the user. */
  predicate IsNamed(db: Db, u: int)
    requires WellFormed(db)
  {
    || (exists t | t in db.rows :: TableNames(db, t, u))
    || (exists o | o in db.tenants :: u in db.tenants[o].names)
  }

  /** `_split`. */
  function Allowed(owned: map<string, nat>): map<string, nat> { map t | t in owned && IsAllowed(t) :: owned[t] }

  function Ledger(owned: map<string, nat>): map<string, nat> { map t | t in owned && IsLedger(t) :: owned[t] }

  function Other(owned: map<string, nat>): map<string, nat> {
    map t | t in owned && !IsAllowed(t) && !IsLedger(t) :: owned[t]
  }

  // ---- names, stamps, addresses ----

  function TenantName(stamp: string): string { "loadtest-" + stamp }

  predicate Digits(s: string) { forall c | c in s :: '0' <= c <= '9' }

  predicate IsLoadtestEmail(stamp: string, email: string) {
    var head, tail := "lt-" + stamp + "-", "@example.com";
    && |email| == |head| + 4 + |tail| && email[..|head|] == head && Digits(email[|head|..|head| + 4])
    && email[|head| + 4..] == tail
  }

  function EmailFor(stamp: string, index: nat): string
    requires index < 10000
  {
    "lt-" + stamp + "-"
    + [DigitOf(index / 1000), DigitOf(index / 100 % 10), DigitOf(index / 10 % 10), DigitOf(index % 10)]
    + "@example.com"
  }

  lemma EmailForIsOurs(stamp: string, index: nat)
    requires index < 10000
    ensures IsLoadtestEmail(stamp, EmailFor(stamp, index))
  {
    var head, tail := "lt-" + stamp + "-", "@example.com";
    var digits := [DigitOf(index / 1000), DigitOf(index / 100 % 10), DigitOf(index / 10 % 10), DigitOf(index % 10)];
    var email := EmailFor(stamp, index);
    assert email == head + digits + tail;
    assert email[..|head|] == head && email[|head|..|head| + 4] == digits && email[|head| + 4..] == tail;
  }

  // ---- identify ----

  /** What the program cannot see into: reading a stamp as a time, and the audit chain's hash. */
  datatype World = World(stampTime: string -> Option<int>, auditHash: Row -> string)

  datatype Refusal = BadStamp | NoRecord | ManyRecords | BadHash | NotASeedRecord | WrongTime | NoTenant | Renamed
                   | TenantNotSeeded | NoMember | ForeignMember | ForeignRows
                   | StampNotNow | BadCount | NotPaperOnly | SeededAlready

  datatype Org = Org(tid: int, uids: set<int>)

  function Distance(a: int, b: int): int { if a >= b then a - b else b - a }

  predicate IsSeedRecord(row: Row, stamp: string) {
    Text(row, "event") == SEED_EVENT && TenantName(stamp) + ":" <= Text(row, "detail")
  }

  function SeedRows(audit: map<int, Row>, stamp: string, tenantId: Option<int>): set<int> {
    set r | r in audit && IsSeedRecord(audit[r], stamp) && (tenantId.None? || Id(audit[r], "tenant_id") == tenantId)
  }

  function SeedRecords(db: Db, stamp: string, tenantId: Option<int>): set<int>
    requires WellFormed(db)
  {
    SeedRows(db.rows[AUDIT], stamp, tenantId)
  }

  /** A member the seed did not make. */
  predicate IsForeign(db: Db, u: int, stamp: string, allowed: Option<set<int>>, seededAt: int)
    requires u in db.users
  {
    || !IsLoadtestEmail(stamp, db.users[u].email)
    || (allowed.Some? && u !in allowed.value)
    || (allowed.None? && Distance(db.users[u].createdAt, seededAt) > SAME_TRANSACTION)
  }

  function CheckRecord(w: World, db: Db, stamp: string, when: int, r: int, allowed: Option<set<int>>)
    : Result<Org, Refusal>
    requires WellFormed(db) && r in db.rows[AUDIT]
  {
    var record := db.rows[AUDIT][r];
    if w.auditHash(record) != Text(record, "hash") then Failure(BadHash)
    else if Id(record, "tenant_id").None? || Id(record, "user_id").Some? then Failure(NotASeedRecord)
    else if Distance(record.createdAt, when) > STAMP_SKEW then Failure(WrongTime)
    else
      var tid := Id(record, "tenant_id").value;
      if tid !in db.tenants then Failure(NoTenant)
      else if db.tenants[tid].name != TenantName(stamp) then Failure(Renamed)
      else if Distance(db.tenants[tid].createdAt, record.createdAt) > SAME_TRANSACTION then Failure(TenantNotSeeded)
      else
        var users := UsersOf(db, tid);
        if users == {} then Failure(NoMember)
        else if exists u | u in users :: IsForeign(db, u, stamp, allowed, record.createdAt) then Failure(ForeignMember)
        else Success(Org(tid, users))
  }

  ghost predicate Identifies(w: World, db: Db, stamp: string, tenantId: Option<int>, allowed: Option<set<int>>,
                             o: Result<Org, Refusal>)
    requires WellFormed(db)
  {
    var when, records := w.stampTime(stamp), SeedRecords(db, stamp, tenantId);
    if when.None? then o == Failure(BadStamp)
    else if records == {} then o == Failure(NoRecord)
    else if |records| > 1 then o == Failure(ManyRecords)
    else exists r | r in records :: o == CheckRecord(w, db, stamp, when.value, r, allowed)
  }

  // ---- cleanup, as values ----

  /** What happens outside: which delete a foreign key refuses in which pass, the new hash, the new audit row. */
  datatype Chance = Chance(refuses: (nat, string) -> bool, refusesUsers: bool, tombstone: string, auditId: int,
                           auditRow: Row, synchronised: bool)

  const PASSES := 3

  predicate AlwaysRefused(ch: Chance, t: string, passes: nat) {
    forall k | 0 <= k < passes :: ch.refuses(k, t)
  }

  /** The allowlisted tables that hold rows of the organisation. */
  function Pending(db: Db, o: Org): set<string>
    requires WellFormed(db)
  {
    Allowed(Owned(db, o.tid, o.uids)).Keys
  }

  function Stuck(db: Db, o: Org, ch: Chance, passes: nat): set<string>
    requires WellFormed(db)
  {
    set t | t in Pending(db, o) && AlwaysRefused(ch, t, passes)
  }

  /** The organisation's rows of the tables in `done` are gone. */
  function Emptied(db: Db, o: Org, done: set<string>): map<string, map<int, Row>>
    requires WellFormed(db)
  {
    map t | t in db.rows :: if t in done then db.rows[t] - OwnedRows(db, t, o.tid, o.uids) else db.rows[t]
  }

  function Inert(u: User, tombstone: string): User {
    u.(active := false, hash := tombstone, mfaEnabled := false, mfaSecret := None, scopeOverrides := None)
  }

  function MakeInert(users: map<int, User>, who: set<int>, tombstone: string): map<int, User> {
    map u | u in users :: if u in who then Inert(users[u], tombstone) else users[u]
  }

  const CLEANED := "cleaned up"
  const REFUSED := "cleanup refused"

  function Suspend(tenants: map<int, Tenant>, tid: int, reason: string): map<int, Tenant> {
    if tid in tenants then tenants[tid := tenants[tid].(status := "suspended", reason := reason)] else tenants
  }

  function WithAudit(db: Db, ch: Chance): Db
    requires WellFormed(db)
  {
    db.(rows := db.rows[AUDIT := db.rows[AUDIT][ch.auditId := ch.auditRow]])
  }

  /** The audit row a run writes: a new one, of the organisation, naming no user, not a seed record. */
  predicate ProperAudit(db: Db, o: Org, ch: Chance)
    requires WellFormed(db)
  {
    && ch.auditId !in db.rows[AUDIT]
    && Id(ch.auditRow, "tenant_id") == Some(o.tid)
    && Text(ch.auditRow, "event") == CLEAN_EVENT
    && (forall c | c in db.schema[AUDIT] && NamesUsers(c) :: Id(ch.auditRow, c.name) == None)
  }

  datatype Deletion = Deletion(db: Db, deleted: map<string, nat>, failed: set<string>, kept: set<int>)

  function Done(db: Db, o: Org, ch: Chance): set<string>
    requires WellFormed(db)
  {
    Pending(db, o) - Stuck(db, o, ch, PASSES)
  }

  function Counts(db: Db, o: Org, done: set<string>): map<string, nat>
    requires WellFormed(db)
  {
    var owned := Owned(db, o.tid, o.uids);
    map t | t in done && t in owned :: owned[t]
  }

  function Mid(db: Db, o: Org, done: set<string>): (mid: Db)
    requires WellFormed(db)
    ensures WellFormed(mid)
  {
    db.(rows := Emptied(db, o, done))
  }

  function NamedOf(db: Db, uids: set<int>): set<int>
    requires WellFormed(db)
  {
    set u | u in uids && IsNamed(db, u)
  }

  /** The deletes: three passes over the tables, then the users no row names. */
  function Delete(db: Db, o: Org, ch: Chance): (d: Deletion)
    requires WellFormed(db)
    ensures WellFormed(d.db)
  {
    var done := Done(db, o, ch);
    var stuck := Stuck(db, o, ch, PASSES);
    var mid := Mid(db, o, done);
    var named := NamedOf(mid, o.uids);
    var drop := o.uids - named;
    if drop == {} then Deletion(mid, Counts(db, o, done), stuck, named)
    else if ch.refusesUsers then Deletion(mid, Counts(db, o, done), stuck + {"users"}, o.uids)
    else Deletion(mid.(users := mid.users - drop), Counts(db, o, done)["users" := |drop|], stuck, named)
  }

  predicate Changed(db: Db, o: Org, ch: Chance, d: Deletion) {
    || d.deleted != map[]
    || o.tid !in db.tenants || db.tenants[o.tid].status != "suspended"
    || exists u | u in o.uids && u in db.users :: db.users[u].active && !(ch.synchronised && u in d.kept)
  }

  /** The whole of a cleanup that is not refused. */
  function Cleaned(db: Db, o: Org, ch: Chance): Db
    requires WellFormed(db)
  {
    var d := Delete(db, o, ch);
    var after := d.db.(users := MakeInert(d.db.users, d.kept, ch.tombstone),
                       tenants := Suspend(d.db.tenants, o.tid, CLEANED));
    if Changed(db, o, ch, d) then WithAudit(after, ch) else after
  }

  /** A cleanup that finds foreign rows: everything is made inert and stays. */
  function MadeInert(db: Db, o: Org, ch: Chance): Db
    requires WellFormed(db)
  {
    var inert := o.tid in db.tenants && db.tenants[o.tid].status == "suspended"
                 && forall u | u in o.uids && u in db.users :: !db.users[u].active;
    var after := db.(users := MakeInert(db.users, o.uids, ch.tombstone),
                     tenants := Suspend(db.tenants, o.tid, REFUSED));
    if inert then after else WithAudit(after, ch)
  }

  datatype Report = Report(deleted: map<string, nat>, failed: set<string>, ledgerKept: map<string, nat>,
                           remaining: map<string, nat>, usersKept: set<int>, clean: bool)

  /** The report, from the state found once the cleanup is over. */
  function Recount(db: Db, o: Org, ch: Chance, d: Deletion): Report
    requires WellFormed(db)
  {
    var users := UsersOf(db, o.tid);
    var owned := Owned(db, o.tid, users);
    var remaining := Allowed(owned) + Other(owned);
    Report(d.deleted, d.failed, Ledger(owned), remaining, users,
           remaining == map[] && d.failed == {} && o.tid in db.tenants && db.tenants[o.tid].status == "suspended"
           && forall u | u in users :: !db.users[u].active && db.users[u].hash == ch.tombstone)
  }
}
