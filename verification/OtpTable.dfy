/** The `identity_otp` table and the row-level meaning of every statement issued against it.

    The functions here are shared by the session-level classes (module OtpSession) and by the
    interleaved protocol (module OtpProtocol), so both speak of the same updates.
  */
module OtpTable {
  import opened Options

  type RowId = nat
  type UserId = nat

  datatype Kind = EmailConfirmation | ForgotPassword

  /** Owner and purpose of a code. The content type is always USER in these flows. */
  datatype Key = Key(owner: UserId, kind: Kind)

  datatype Row = Row(
    key: Key,
    code: string,
    target: string,
    createdAt: int,            // microseconds, the clock when the row is flushed to the database
    expiresAt: int,            // epoch seconds
    usedAt: Option<int>,       // epoch seconds
    verified: bool)

  type Table = map<RowId, Row>

  const MICROS_PER_SECOND := 1_000_000
  const SECONDS_PER_MINUTE := 60

  /** `int(clock.get_utc_epoch())` for a clock that never shows a negative time. */
  function Epoch(now: nat): nat {
    now / MICROS_PER_SECOND
  }

  function TtlMinutes(kind: Kind): nat {
    match kind
    case EmailConfirmation => 15
    case ForgotPassword => 15
  }

  function CooldownMinutes(kind: Kind): nat {
    match kind
    case EmailConfirmation => 1
    case ForgotPassword => 1
  }

  function Cooldown(kind: Kind): nat {
    CooldownMinutes(kind) * SECONDS_PER_MINUTE * MICROS_PER_SECOND
  }

  // ----- one row ---------------------------------------------------------

  predicate Live(r: Row) {
    r.usedAt.None?
  }

  predicate Matches(r: Row, key: Key, code: string) {
    r.key == key && r.code == code
  }

  /** The guard of the consuming UPDATE. */
  predicate Consumable(r: Row, epoch: int) {
    Live(r) && r.expiresAt >= epoch
  }

  function Spent(r: Row, epoch: int): Row {
    r.(usedAt := Some(epoch), verified := true)
  }

  function Burned(r: Row, epoch: int): Row {
    r.(usedAt := Some(epoch))
  }

  function NewRow(key: Key, code: string, target: string, createdAt: int, epoch: int): Row {
    Row(key, code, target, createdAt, epoch + TtlMinutes(key.kind) * SECONDS_PER_MINUTE, None, false)
  }

  // ----- the whole table -------------------------------------------------

  /** What `ORDER BY created_at DESC LIMIT 1` may return; ties are broken arbitrarily. */
  predicate IsNewestMatch(t: Table, key: Key, code: string, id: RowId) {
    && id in t
    && Matches(t[id], key, code)
    && forall other | other in t && Matches(t[other], key, code) :: t[other].createdAt <= t[id].createdAt
  }

  predicate NoMatch(t: Table, key: Key, code: string) {
    forall id | id in t :: !Matches(t[id], key, code)
  }

  /** The code cannot be spent at `epoch`: the lookup finds nothing, or a used or expired row. */
  ghost predicate Unusable(t: Table, key: Key, code: string, epoch: int) {
    NoMatch(t, key, code) || exists id :: IsNewestMatch(t, key, code, id) && !Consumable(t[id], epoch)
  }

  predicate RecentIssue(t: Table, key: Key, since: int) {
    exists id :: id in t && t[id].key == key && t[id].createdAt >= since
  }

  predicate Pending(t: Table, key: Key, id: RowId) {
    id in t && t[id].key == key && Live(t[id])
  }

  function BurnPending(t: Table, key: Key, epoch: int): Table {
    map id | id in t :: if Pending(t, key, id) then Burned(t[id], epoch) else t[id]
  }

  /** What a row may never lose: a verified row was used, and no later than its expiry. */
  predicate Honest(r: Row) {
    r.verified ==> r.usedAt.Some? && r.usedAt.value <= r.expiresAt
  }

  ghost predicate AllHonest(t: Table) {
    forall id | id in t :: Honest(t[id])
  }

  /** `after` differs from `before` only by new rows and by first uses of unused rows. */
  ghost predicate Grows(before: Table, after: Table) {
    forall id | id in before :: id in after && RowGrows(before[id], after[id])
  }

  predicate RowGrows(before: Row, after: Row) {
    && after == before.(usedAt := after.usedAt, verified := after.verified)
    && (!Live(before) ==> after == before)
  }

  // ----- existence of a newest match -------------------------------------

  lemma {:induction false} NewestOf(t: Table, ids: set<RowId>) returns (newest: RowId)
    requires ids != {} && ids <= t.Keys
    ensures newest in ids
    ensures forall id | id in ids :: t[id].createdAt <= t[newest].createdAt
    decreases ids
  {
    var one :| one in ids;
    var rest := ids - {one};
    assert forall id | id in ids :: id == one || id in rest;
    newest := one;
    if rest != {} {
      var best := NewestOf(t, rest);
      newest := if t[one].createdAt < t[best].createdAt then best else one;
    }
  }

  /** The lookup finds a row exactly when some row matches. */
  lemma NewestMatchExists(t: Table, key: Key, code: string)
    ensures NoMatch(t, key, code) || exists id :: IsNewestMatch(t, key, code, id)
  {
    var ids := set id | id in t && Matches(t[id], key, code);
    if ids != {} {
      var id := NewestOf(t, ids);
      assert IsNewestMatch(t, key, code, id);
    } else {
      forall id | id in t ensures !Matches(t[id], key, code) {
        assert id !in ids;
      }
    }
  }
}
