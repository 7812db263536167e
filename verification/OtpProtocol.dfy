/** The one-time-code protocol as interleaved database transactions.

    Any number of requests run at once, each in its own READ COMMITTED transaction. A statement reads
    the committed table; an UPDATE takes the row lock and then re-evaluates its guard on the committed
    row, so it waits while another transaction holds an uncommitted version of that row. Pending
    versions live in `writes` and reach the table only at commit. One clock drives everything.
  */
module OtpProtocol {
  import opened Options
  import opened OtpTable
  import opened Accounts

  type TxId = nat

  datatype Request =
    | Spend(key: Key, code: string, hash: string)            // confirm e-mail, or reset step 3
    | Issue(key: Key, target: string)                        // resend, or reset step 1
    | Signup(owner: UserId, email: string, hash: string)     // register: new user and first code

  function KeyOf(req: Request): Key {
    match req
    case Spend(key, _, _) => key
    case Issue(key, _) => key
    case Signup(owner, _, _) => Key(owner, EmailConfirmation)
  }

  function TargetOf(req: Request): string {
    match req
    case Spend(_, _, _) => ""
    case Issue(_, target) => target
    case Signup(_, email, _) => email
  }

  /** Where a transaction stands between two of its awaits. */
  datatype Pc =
    | Started
    | Looked(id: RowId, row: Row)        // the lookup returned a detached copy of the row
    | Checked(id: RowId)                 // the advisory checks on that copy passed
    | Aimed(id: RowId, epoch: int)       // the clock was read for the consuming UPDATE
    | Won(id: RowId, epoch: int)         // the UPDATE changed the row; not committed yet
    | Cleared                            // no recent issue was seen
    | Stamped(epoch: int)                // the clock was read for the new code
    | Sweeping(todo: set<RowId>, epoch: int)
    | Filed(id: RowId, epoch: int)       // old codes burned, new row inserted; not committed yet
    | Refused

  datatype Tx = Tx(req: Request, pc: Pc, startedAt: nat, writes: Table)

  /** `wins` and `resets` are history: committed spendings in order, committed resets per user. */
  datatype State = State(
    now: nat,
    table: Table,
    users: map<UserId, User>,
    txs: map<TxId, Tx>,
    wins: seq<RowId>,
    resets: map<UserId, nat>)

  datatype Step =
    | Tick(delta: nat)
    | ToggleStatus(user: UserId)
    | Begin(t: TxId, req: Request)
    | Lookup(t: TxId, hit: Option<RowId>)
    | Check(t: TxId)
    | Aim(t: TxId)
    | Update(t: TxId)
    | Probe(t: TxId)
    | Stamp(t: TxId)
    | Sweep(t: TxId)
    | Burn(t: TxId, id: RowId)
    | File(t: TxId, id: RowId, code: string)
    | Commit(t: TxId)
    | Abort(t: TxId)

  predicate Locked(s: State, t: TxId, id: RowId) {
    exists other :: other in s.txs && other != t && id in s.txs[other].writes
  }

  predicate Unused(s: State, id: RowId) {
    id !in s.table && forall t :: t in s.txs ==> id !in s.txs[t].writes
  }

  predicate At(s: State, t: TxId) {
    t in s.txs
  }

  function PendingRows(s: State, key: Key): set<RowId> {
    set id | id in s.table && Pending(s.table, key, id)
  }

  predicate CanBegin(s: State, req: Request) {
    match req
    case Spend(key, _, _) => key.owner in s.users
    case Issue(key, _) => key.owner in s.users
    case Signup(owner, _, _) =>
      owner !in s.users && forall t :: t in s.txs && s.txs[t].req.Signup? ==> s.txs[t].req.owner != owner
  }

  predicate Enabled(s: State, step: Step) {
    match step
    case Tick(_) => true
    case ToggleStatus(user) => user in s.users
    case Begin(t, req) => t !in s.txs && CanBegin(s, req)
    case Lookup(t, hit) =>
      && At(s, t) && s.txs[t].pc.Started? && s.txs[t].req.Spend?
      && (match hit
          case None => NoMatch(s.table, s.txs[t].req.key, s.txs[t].req.code)
          case Some(id) => IsNewestMatch(s.table, s.txs[t].req.key, s.txs[t].req.code, id))
    case Check(t) => At(s, t) && s.txs[t].pc.Looked?
    case Aim(t) => At(s, t) && s.txs[t].pc.Checked?
    case Update(t) =>
      && At(s, t) && s.txs[t].pc.Aimed?
      && (CanWin(s, s.txs[t].pc.id, s.txs[t].pc.epoch) ==> !Locked(s, t, s.txs[t].pc.id))
    case Probe(t) => At(s, t) && s.txs[t].pc.Started? && !s.txs[t].req.Spend?
    case Stamp(t) => At(s, t) && s.txs[t].pc.Cleared?
    case Sweep(t) => At(s, t) && s.txs[t].pc.Stamped?
    case Burn(t, id) => At(s, t) && s.txs[t].pc.Sweeping? && id in s.txs[t].pc.todo && !Locked(s, t, id)
    case File(t, id, _) => At(s, t) && s.txs[t].pc.Sweeping? && s.txs[t].pc.todo == {} && Unused(s, id)
    case Commit(t) => At(s, t) && (s.txs[t].pc.Won? || s.txs[t].pc.Filed? || s.txs[t].pc.Refused?)
    case Abort(t) => At(s, t)
  }

  predicate CanWin(s: State, id: RowId, epoch: int) {
    id in s.table && Consumable(s.table[id], epoch)
  }

  /** The checks made on the detached row before the consuming UPDATE. The reset handler leaves the
      used-check to the UPDATE itself. */
  predicate PassesChecks(kind: Kind, row: Row, epoch: int) {
    && (kind == EmailConfirmation ==> Live(row) && !row.verified)
    && row.expiresAt >= epoch
  }

  function Move(s: State, t: TxId, pc: Pc, writes: Table): State
    requires t in s.txs
  {
    s.(txs := s.txs[t := s.txs[t].(pc := pc, writes := writes)])
  }

  function UsersAfter(s: State, tx: Tx): map<UserId, User> {
    match tx.pc
    case Won(_, _) =>
      var owner := KeyOf(tx.req).owner;
      if owner !in s.users then s.users
      else if KeyOf(tx.req).kind == EmailConfirmation then s.users[owner := EmailConfirmed(s.users[owner])]
      else if tx.req.Spend? then s.users[owner := WithPassword(s.users[owner], tx.req.hash)]
      else s.users
    case Filed(_, _) =>
      if tx.req.Signup? then s.users[tx.req.owner := Registered(tx.req.email, tx.req.hash)] else s.users
    case _ => s.users
  }

  function ResetsOf(resets: map<UserId, nat>, u: UserId): nat {
    if u in resets then resets[u] else 0
  }

  function Committed(s: State, t: TxId): State
    requires t in s.txs
  {
    var tx := s.txs[t];
    var key := KeyOf(tx.req);
    State(
      s.now,
      s.table + tx.writes,
      UsersAfter(s, tx),
      s.txs - {t},
      if tx.pc.Won? then s.wins + [tx.pc.id] else s.wins,
      if tx.pc.Won? && key.kind == ForgotPassword then s.resets[key.owner := ResetsOf(s.resets, key.owner) + 1] else s.resets)
  }

  function Apply(s: State, step: Step): State
    requires Enabled(s, step)
  {
    match step
    case Tick(delta) => s.(now := s.now + delta)
    case ToggleStatus(user) => s.(users := s.users[user := Toggled(s.users[user])])
    case Begin(t, req) => s.(txs := s.txs[t := Tx(req, Started, s.now, map[])])
    case Lookup(t, hit) =>
      Move(s, t, if hit.None? then Refused else Looked(hit.value, s.table[hit.value]), s.txs[t].writes)
    case Check(t) =>
      var pc := s.txs[t].pc;
      Move(s, t, if PassesChecks(KeyOf(s.txs[t].req).kind, pc.row, Epoch(s.now)) then Checked(pc.id) else Refused,
           s.txs[t].writes)
    case Aim(t) => Move(s, t, Aimed(s.txs[t].pc.id, Epoch(s.now)), s.txs[t].writes)
    case Update(t) =>
      var pc := s.txs[t].pc;
      if CanWin(s, pc.id, pc.epoch) then
        Move(s, t, Won(pc.id, pc.epoch), s.txs[t].writes[pc.id := Spent(s.table[pc.id], pc.epoch)])
      else
        Move(s, t, Refused, s.txs[t].writes)
    case Probe(t) =>
      var key := KeyOf(s.txs[t].req);
      Move(s, t, if RecentIssue(s.table, key, s.txs[t].startedAt - Cooldown(key.kind)) then Refused else Cleared,
           s.txs[t].writes)
    case Stamp(t) => Move(s, t, Stamped(Epoch(s.now)), s.txs[t].writes)
    case Sweep(t) => Move(s, t, Sweeping(PendingRows(s, KeyOf(s.txs[t].req)), s.txs[t].pc.epoch), s.txs[t].writes)
    case Burn(t, id) =>
      var pc := s.txs[t].pc;
      Move(s, t, Sweeping(pc.todo - {id}, pc.epoch),
           if Pending(s.table, KeyOf(s.txs[t].req), id) then s.txs[t].writes[id := Burned(s.table[id], pc.epoch)]
           else s.txs[t].writes)
    case File(t, id, code) =>
      var tx := s.txs[t];
      Move(s, t, Filed(id, tx.pc.epoch),
           tx.writes[id := NewRow(KeyOf(tx.req), code, TargetOf(tx.req), s.now, tx.pc.epoch)])
    case Commit(t) => Committed(s, t)
    case Abort(t) => s.(txs := s.txs - {t})
  }

  // ----- runs ------------------------------------------------------------

  /** Self-registered users only, no code issued yet, nobody connected. */
  ghost predicate Init(s: State) {
    && s.table == map[] && s.txs == map[] && s.wins == [] && s.resets == map[]
    && forall u :: u in s.users ==> !s.users[u].emailConfirmed
  }

  ghost predicate ValidRun(s: State, steps: seq<Step>)
    decreases |steps|
  {
    steps == [] || (Enabled(s, steps[0]) && ValidRun(Apply(s, steps[0]), steps[1..]))
  }

  ghost function Run(s: State, steps: seq<Step>): State
    requires ValidRun(s, steps)
    decreases |steps|
  {
    if steps == [] then s else Run(Apply(s, steps[0]), steps[1..])
  }

  ghost predicate Reachable(s: State) {
    exists start, steps :: Init(start) && ValidRun(start, steps) && s == Run(start, steps)
  }

  /** A run can be extended by any step enabled at its end. */
  lemma {:induction false} Extend(s: State, steps: seq<Step>, step: Step)
    requires ValidRun(s, steps) && Enabled(Run(s, steps), step)
    ensures ValidRun(s, steps + [step]) && Run(s, steps + [step]) == Apply(Run(s, steps), step)
    decreases |steps|
  {
    var all := steps + [step];
    if steps == [] {
      assert all[1..] == [];
      assert ValidRun(Apply(s, step), []);
    } else {
      assert all[0] == steps[0] && all[1..] == steps[1..] + [step];
      Extend(Apply(s, steps[0]), steps[1..], step);
    }
  }
}
