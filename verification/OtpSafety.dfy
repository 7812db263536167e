/** What every interleaving keeps, with no assumption on how requests overlap. */
module OtpSafety {
  import opened Options
  import opened OtpTable
  import opened Accounts
  import opened OtpProtocol

  /** Uncommitted burns: each burns a committed, still unused row of the key. */
  ghost predicate BurnsOf(table: Table, key: Key, writes: Table, epoch: int, except: Option<RowId>) {
    forall id :: id in writes && Some(id) != except ==> Pending(table, key, id) && writes[id] == Burned(table[id], epoch)
  }

  ghost predicate TxOk(now: nat, table: Table, tx: Tx) {
    var key := KeyOf(tx.req);
    && tx.startedAt <= now
    && match tx.pc
       case Started | Refused => tx.writes == map[]
       case Looked(id, row) =>
         && tx.req.Spend? && tx.writes == map[] && id in table
         && Matches(row, key, tx.req.code) && Honest(row) && RowGrows(row, table[id])
       case Checked(id) => tx.req.Spend? && tx.writes == map[] && id in table && Matches(table[id], key, tx.req.code)
       case Aimed(id, epoch) =>
         && tx.req.Spend? && tx.writes == map[] && id in table && Matches(table[id], key, tx.req.code)
         && epoch <= Epoch(now)
       case Won(id, epoch) =>
         && tx.req.Spend? && id in table && Matches(table[id], key, tx.req.code)
         && Consumable(table[id], epoch) && tx.writes == map[id := Spent(table[id], epoch)]
       case Cleared | Stamped(_) => !tx.req.Spend? && tx.writes == map[]
       case Sweeping(todo, epoch) => !tx.req.Spend? && BurnsOf(table, key, tx.writes, epoch, None)
       case Filed(id, epoch) =>
         && !tx.req.Spend? && id !in table && id in tx.writes
         && BurnsOf(table, key, tx.writes, epoch, Some(id))
         && tx.startedAt <= tx.writes[id].createdAt <= now
         && tx.writes[id] == NewRow(key, tx.writes[id].code, TargetOf(tx.req), tx.writes[id].createdAt, epoch)
  }

  ghost predicate TxsOk(now: nat, table: Table, txs: map<TxId, Tx>) {
    forall t :: t in txs ==> TxOk(now, table, txs[t])
  }

  /** Row locks: no row has two uncommitted versions. */
  ghost predicate Exclusive(txs: map<TxId, Tx>) {
    forall t, other, id :: t in txs && other in txs && t != other && id in txs[t].writes ==> id !in txs[other].writes
  }

  ghost predicate OwnersKnown(table: Table, users: map<UserId, User>, txs: map<TxId, Tx>) {
    && (forall id :: id in table ==> table[id].key.owner in users)
    && (forall t :: t in txs && !txs[t].req.Signup? ==> KeyOf(txs[t].req).owner in users)
    && (forall t :: t in txs && txs[t].req.Signup? ==> txs[t].req.owner !in users)
    && (forall t, other :: t in txs && other in txs && t != other && txs[t].req.Signup? && txs[other].req.Signup? ==>
          txs[t].req.owner != txs[other].req.owner)
  }

  /** The committed spendings are exactly the verified rows, each once. */
  ghost predicate WinsOk(table: Table, wins: seq<RowId>) {
    && (forall id :: id in wins <==> id in table && table[id].verified)
    && (forall i, j :: 0 <= i < j < |wins| ==> wins[i] != wins[j])
  }

  ghost function VerifiedRows(table: Table, key: Key): set<RowId> {
    set id | id in table && table[id].key == key && table[id].verified
  }

  /** The accounts agree with the ledger of codes. */
  ghost predicate LedgerOk(table: Table, users: map<UserId, User>, resets: map<UserId, nat>) {
    && (forall u :: u in users ==> (users[u].emailConfirmed <==> VerifiedRows(table, Key(u, EmailConfirmation)) != {}))
    && (forall u :: u in users ==> ResetsOf(resets, u) == |VerifiedRows(table, Key(u, ForgotPassword))|)
    && (forall u :: u in resets ==> u in users)
  }

  ghost predicate RowsOk(now: nat, table: Table) {
    AllHonest(table) && forall id :: id in table ==> table[id].createdAt <= now
  }

  ghost predicate Inv(s: State) {
    && RowsOk(s.now, s.table)
    && TxsOk(s.now, s.table, s.txs)
    && Exclusive(s.txs)
    && OwnersKnown(s.table, s.users, s.txs)
    && WinsOk(s.table, s.wins)
    && LedgerOk(s.table, s.users, s.resets)
  }

  lemma InitInv(s: State)
    requires Init(s)
    ensures Inv(s)
  {
    forall u | u in s.users
      ensures VerifiedRows(s.table, Key(u, EmailConfirmation)) == {} && VerifiedRows(s.table, Key(u, ForgotPassword)) == {}
    {
    }
  }

  // ----- commit ----------------------------------------------------------

  predicate Finishing(pc: Pc) {
    pc.Won? || pc.Filed? || pc.Refused?
  }

  /** The four ways a row of the table after a commit can have come about. */
  predicate CommitRow(table: Table, tx: Tx, id: RowId, row: Row) {
    || (id in table && row == table[id])
    || (tx.pc.Won? && id == tx.pc.id && id in table && Consumable(table[id], tx.pc.epoch)
        && table[id].key == KeyOf(tx.req) && row == Spent(table[id], tx.pc.epoch))
    || (tx.pc.Filed? && id == tx.pc.id && id !in table && tx.startedAt <= row.createdAt
        && row == NewRow(KeyOf(tx.req), row.code, TargetOf(tx.req), row.createdAt, tx.pc.epoch))
    || (tx.pc.Filed? && Pending(table, KeyOf(tx.req), id) && row == Burned(table[id], tx.pc.epoch))
  }

  lemma CommitRows(now: nat, table: Table, tx: Tx)
    requires TxOk(now, table, tx) && Finishing(tx.pc)
    ensures forall id :: id in table ==> id in table + tx.writes
    ensures forall id :: id in table + tx.writes ==> CommitRow(table, tx, id, (table + tx.writes)[id])
    ensures tx.pc.Won? ==> (table + tx.writes)[tx.pc.id] == Spent(table[tx.pc.id], tx.pc.epoch)
  {
  }

  lemma CommitGrows(now: nat, table: Table, tx: Tx)
    requires TxOk(now, table, tx) && Finishing(tx.pc) && RowsOk(now, table)
    ensures Grows(table, table + tx.writes)
    ensures RowsOk(now, table + tx.writes)
  {
    CommitRows(now, table, tx);
  }

  /** A commit leaves every other transaction's facts intact: the rows it holds are not touched. */
  lemma CommitKeepsOther(now: nat, table: Table, tx: Tx, other: Tx)
    requires TxOk(now, table, tx) && Finishing(tx.pc) && RowsOk(now, table)
    requires TxOk(now, table, other)
    requires forall id :: id in tx.writes ==> id !in other.writes
    requires other.pc.Filed? ==> other.pc.id in other.writes
    ensures TxOk(now, table + tx.writes, other)
  {
    CommitGrows(now, table, tx);
    var after := table + tx.writes;
    assert forall id :: id in other.writes && id in table ==> after[id] == table[id];
  }

  lemma CommitWins(now: nat, table: Table, tx: Tx, wins: seq<RowId>)
    requires TxOk(now, table, tx) && Finishing(tx.pc) && RowsOk(now, table) && WinsOk(table, wins)
    ensures WinsOk(table + tx.writes, if tx.pc.Won? then wins + [tx.pc.id] else wins)
  {
    CommitRows(now, table, tx);
    var after := table + tx.writes;
    var wins' := if tx.pc.Won? then wins + [tx.pc.id] else wins;
    forall id
      ensures id in wins' <==> id in after && after[id].verified
    {
      if id in after {
        assert CommitRow(table, tx, id, after[id]);
      }
    }
    assert tx.pc.Won? ==> tx.pc.id !in wins;
  }

  /** Which verified rows a commit adds: the row it spent, and nothing else. */
  lemma CommitVerifies(now: nat, table: Table, tx: Tx, key: Key)
    requires TxOk(now, table, tx) && Finishing(tx.pc) && RowsOk(now, table)
    ensures VerifiedRows(table + tx.writes, key) ==
            VerifiedRows(table, key) + (if tx.pc.Won? && KeyOf(tx.req) == key then {tx.pc.id} else {})
    ensures tx.pc.Won? ==> tx.pc.id !in VerifiedRows(table, key)
  {
    CommitRows(now, table, tx);
    var after := table + tx.writes;
    forall id
      ensures id in VerifiedRows(after, key) <==>
              id in VerifiedRows(table, key) || (tx.pc.Won? && KeyOf(tx.req) == key && id == tx.pc.id)
    {
      if id in after {
        assert CommitRow(table, tx, id, after[id]);
      }
    }
  }

  lemma UnknownOwnersHaveNoRows(table: Table, users: map<UserId, User>, txs: map<TxId, Tx>, u: UserId, kind: Kind)
    requires OwnersKnown(table, users, txs) && u !in users
    ensures VerifiedRows(table, Key(u, kind)) == {}
  {
  }

  /** The verified rows of one user's key after a commit, in number and in being empty or not. */
  lemma CommitCounts(now: nat, table: Table, tx: Tx, key: Key)
    requires TxOk(now, table, tx) && Finishing(tx.pc) && RowsOk(now, table)
    ensures var gained := tx.pc.Won? && KeyOf(tx.req) == key;
            && |VerifiedRows(table + tx.writes, key)| == |VerifiedRows(table, key)| + (if gained then 1 else 0)
            && (VerifiedRows(table + tx.writes, key) != {} <==> gained || VerifiedRows(table, key) != {})
  {
    CommitVerifies(now, table, tx, key);
  }

  /** Whose account a commit confirms. */
  predicate Confirms(tx: Tx, u: UserId) {
    tx.pc.Won? && KeyOf(tx.req) == Key(u, EmailConfirmation)
  }

  lemma CommitFlags(s: State, t: TxId, u: UserId)
    requires Inv(s) && t in s.txs && Finishing(s.txs[t].pc) && u in Committed(s, t).users
    ensures Committed(s, t).users[u].emailConfirmed <==>
            Confirms(s.txs[t], u) || (u in s.users && s.users[u].emailConfirmed)
  {
    assert TxOk(s.now, s.table, s.txs[t]);
    hide LedgerOk, WinsOk, RowsOk, Exclusive;
  }

  lemma CommitConfirms(s: State, t: TxId, u: UserId)
    requires Inv(s) && t in s.txs && Finishing(s.txs[t].pc) && u in Committed(s, t).users
    ensures Committed(s, t).users[u].emailConfirmed <==>
            VerifiedRows(s.table + s.txs[t].writes, Key(u, EmailConfirmation)) != {}
  {
    CommitFlags(s, t, u);
    hide Committed, UsersAfter;
    assert TxOk(s.now, s.table, s.txs[t]);
    CommitCounts(s.now, s.table, s.txs[t], Key(u, EmailConfirmation));
    if u !in s.users {
      UnknownOwnersHaveNoRows(s.table, s.users, s.txs, u, EmailConfirmation);
    }
  }

  lemma CommitResets(s: State, t: TxId, u: UserId)
    requires Inv(s) && t in s.txs && Finishing(s.txs[t].pc) && u in Committed(s, t).users
    ensures ResetsOf(Committed(s, t).resets, u) == |VerifiedRows(s.table + s.txs[t].writes, Key(u, ForgotPassword))|
  {
    assert TxOk(s.now, s.table, s.txs[t]);
    CommitCounts(s.now, s.table, s.txs[t], Key(u, ForgotPassword));
    if u !in s.users {
      UnknownOwnersHaveNoRows(s.table, s.users, s.txs, u, ForgotPassword);
    }
  }

  lemma ResetsHaveUsers(s: State, t: TxId)
    requires Inv(s) && t in s.txs && Finishing(s.txs[t].pc)
    ensures forall u :: u in Committed(s, t).resets ==> u in Committed(s, t).users
  {
    assert TxOk(s.now, s.table, s.txs[t]);
  }

  lemma CommitLedger(s: State, t: TxId)
    requires Inv(s) && t in s.txs && Finishing(s.txs[t].pc)
    ensures LedgerOk(Committed(s, t).table, Committed(s, t).users, Committed(s, t).resets)
  {
    var s' := Committed(s, t);
    forall u | u in s'.users
      ensures s'.users[u].emailConfirmed <==> VerifiedRows(s'.table, Key(u, EmailConfirmation)) != {}
      ensures ResetsOf(s'.resets, u) == |VerifiedRows(s'.table, Key(u, ForgotPassword))|
    {
      CommitConfirms(s, t, u);
      CommitResets(s, t, u);
    }
    ResetsHaveUsers(s, t);
  }

  lemma CommittedRowsHaveOwners(now: nat, table: Table, tx: Tx, users: map<UserId, User>)
    requires TxOk(now, table, tx) && Finishing(tx.pc)
    requires forall id :: id in table ==> table[id].key.owner in users
    requires tx.pc.Filed? ==> KeyOf(tx.req).owner in users
    ensures forall id :: id in table + tx.writes ==> (table + tx.writes)[id].key.owner in users
  {
    CommitRows(now, table, tx);
  }

  lemma OwnersAfter(table: Table, table': Table, users: map<UserId, User>, users': map<UserId, User>, txs: map<TxId, Tx>, t: TxId)
    requires OwnersKnown(table, users, txs) && t in txs
    requires users'.Keys == users.Keys || (txs[t].req.Signup? && users'.Keys == users.Keys + {txs[t].req.owner})
    requires forall id :: id in table' ==> table'[id].key.owner in users'
    ensures OwnersKnown(table', users', txs - {t})
  {
  }

  lemma CommitOwners(s: State, t: TxId)
    requires Inv(s) && t in s.txs && Finishing(s.txs[t].pc)
    ensures OwnersKnown(Committed(s, t).table, Committed(s, t).users, Committed(s, t).txs)
  {
    var tx := s.txs[t];
    var users' := UsersAfter(s, tx);
    assert TxOk(s.now, s.table, tx);
    assert users'.Keys == if tx.pc.Filed? && tx.req.Signup? then s.users.Keys + {tx.req.owner} else s.users.Keys;
    CommittedRowsHaveOwners(s.now, s.table, tx, users');
    OwnersAfter(s.table, s.table + tx.writes, s.users, users', s.txs, t);
  }

  lemma CommitOthers(s: State, t: TxId)
    requires Inv(s) && t in s.txs && Finishing(s.txs[t].pc)
    ensures TxsOk(s.now, s.table + s.txs[t].writes, s.txs - {t})
    ensures Exclusive(s.txs - {t})
  {
    var txs' := s.txs - {t};
    assert TxOk(s.now, s.table, s.txs[t]);
    forall other | other in txs'
      ensures TxOk(s.now, s.table + s.txs[t].writes, txs'[other])
    {
      assert TxOk(s.now, s.table, s.txs[other]);
      CommitKeepsOther(s.now, s.table, s.txs[t], s.txs[other]);
    }
  }

  lemma CommitKeepsInv(s: State, t: TxId)
    requires Inv(s) && t in s.txs && Finishing(s.txs[t].pc)
    ensures Inv(Committed(s, t))
    ensures Grows(s.table, Committed(s, t).table)
  {
    assert TxOk(s.now, s.table, s.txs[t]);
    CommitGrows(s.now, s.table, s.txs[t]);
    CommitWins(s.now, s.table, s.txs[t], s.wins);
    CommitLedger(s, t);
    CommitOwners(s, t);
    CommitOthers(s, t);
  }

  // ----- the other steps -------------------------------------------------

  /** A transaction that moves without touching a row held by another keeps everything else. */
  lemma MoveKeepsInv(s: State, t: TxId, pc: Pc, writes: Table)
    requires Inv(s) && t in s.txs
    requires TxOk(s.now, s.table, s.txs[t].(pc := pc, writes := writes))
    requires forall id :: id in writes && id !in s.txs[t].writes ==> !Locked(s, t, id)
    ensures Inv(Move(s, t, pc, writes))
  {
    var txs' := Move(s, t, pc, writes).txs;
    assert Exclusive(txs') by {
      forall a, b, id | a in txs' && b in txs' && a != b && id in txs'[a].writes
        ensures id !in txs'[b].writes
      {
        assert id in writes && id !in s.txs[t].writes ==> !Locked(s, t, id);
      }
    }
  }

  lemma LookupKeepsInv(s: State, t: TxId, hit: Option<RowId>)
    requires Inv(s) && Enabled(s, Lookup(t, hit))
    ensures Inv(Apply(s, Lookup(t, hit)))
  {
    assert TxOk(s.now, s.table, s.txs[t]);
    MoveKeepsInv(s, t, if hit.None? then Refused else Looked(hit.value, s.table[hit.value]), s.txs[t].writes);
  }

  lemma UpdateKeepsInv(s: State, t: TxId)
    requires Inv(s) && Enabled(s, Update(t))
    ensures Inv(Apply(s, Update(t)))
  {
    assert TxOk(s.now, s.table, s.txs[t]);
    var pc := s.txs[t].pc;
    if CanWin(s, pc.id, pc.epoch) {
      MoveKeepsInv(s, t, Won(pc.id, pc.epoch), s.txs[t].writes[pc.id := Spent(s.table[pc.id], pc.epoch)]);
    } else {
      MoveKeepsInv(s, t, Refused, s.txs[t].writes);
    }
  }

  lemma BurnKeepsInv(s: State, t: TxId, id: RowId)
    requires Inv(s) && Enabled(s, Burn(t, id))
    ensures Inv(Apply(s, Burn(t, id)))
  {
    assert TxOk(s.now, s.table, s.txs[t]);
    var tx' := Apply(s, Burn(t, id)).txs[t];
    MoveKeepsInv(s, t, tx'.pc, tx'.writes);
  }

  lemma FileKeepsInv(s: State, t: TxId, id: RowId, code: string)
    requires Inv(s) && Enabled(s, File(t, id, code))
    ensures Inv(Apply(s, File(t, id, code)))
  {
    assert TxOk(s.now, s.table, s.txs[t]);
    var tx' := Apply(s, File(t, id, code)).txs[t];
    MoveKeepsInv(s, t, tx'.pc, tx'.writes);
  }

  /** Steps that only advance a transaction's own control point, its writes unchanged. */
  lemma CheckOrAimKeepsInv(s: State, step: Step)
    requires Inv(s) && Enabled(s, step) && (step.Check? || step.Aim?)
    ensures Inv(Apply(s, step))
  {
    assert TxOk(s.now, s.table, s.txs[step.t]);
    MoveKeepsInv(s, step.t, Apply(s, step).txs[step.t].pc, s.txs[step.t].writes);
  }

  lemma ProbeStampOrSweepKeepsInv(s: State, step: Step)
    requires Inv(s) && Enabled(s, step) && (step.Probe? || step.Stamp? || step.Sweep?)
    ensures Inv(Apply(s, step))
  {
    assert TxOk(s.now, s.table, s.txs[step.t]);
    MoveKeepsInv(s, step.t, Apply(s, step).txs[step.t].pc, s.txs[step.t].writes);
  }

  lemma TickKeepsInv(s: State, delta: nat)
    requires Inv(s)
    ensures Inv(Apply(s, Tick(delta)))
  {
    forall t | t in s.txs
      ensures TxOk(s.now + delta, s.table, s.txs[t])
    {
      assert TxOk(s.now, s.table, s.txs[t]);
    }
  }

  lemma BeginKeepsInv(s: State, t: TxId, req: Request)
    requires Inv(s) && Enabled(s, Begin(t, req))
    ensures Inv(Apply(s, Begin(t, req)))
  {
    var tx := Tx(req, Started, s.now, map[]);
    NewcomerExcludes(s.txs, t, tx);
    NewcomerOwners(s.table, s.users, s.txs, t, tx);
  }

  lemma NewcomerExcludes(txs: map<TxId, Tx>, t: TxId, tx: Tx)
    requires Exclusive(txs) && tx.writes == map[]
    ensures Exclusive(txs[t := tx])
  {
  }

  lemma NewcomerOwners(table: Table, users: map<UserId, User>, txs: map<TxId, Tx>, t: TxId, tx: Tx)
    requires OwnersKnown(table, users, txs) && t !in txs
    requires if tx.req.Signup? then
               tx.req.owner !in users && forall o :: o in txs && txs[o].req.Signup? ==> txs[o].req.owner != tx.req.owner
             else KeyOf(tx.req).owner in users
    ensures OwnersKnown(table, users, txs[t := tx])
  {
  }

  lemma AbortKeepsInv(s: State, t: TxId)
    requires Inv(s) && Enabled(s, Abort(t))
    ensures Inv(Apply(s, Abort(t)))
  {
    hide TxOk, LedgerOk, WinsOk, RowsOk;
    assert TxsOk(s.now, s.table, s.txs - {t});
    assert Exclusive(s.txs - {t});
  }

  lemma OwnStepKeepsInv(s: State, step: Step)
    requires Inv(s) && Enabled(s, step)
    requires !step.Tick? && !step.ToggleStatus? && !step.Begin? && !step.Commit? && !step.Abort?
    ensures Inv(Apply(s, step))
  {
    if step.Lookup? {
      LookupKeepsInv(s, step.t, step.hit);
    } else if step.Update? {
      UpdateKeepsInv(s, step.t);
    } else if step.Burn? {
      BurnKeepsInv(s, step.t, step.id);
    } else if step.File? {
      FileKeepsInv(s, step.t, step.id, step.code);
    } else if step.Check? || step.Aim? {
      CheckOrAimKeepsInv(s, step);
    } else {
      ProbeStampOrSweepKeepsInv(s, step);
    }
  }

  lemma ToggleKeepsInv(s: State, user: UserId)
    requires Inv(s) && Enabled(s, ToggleStatus(user))
    ensures Inv(Apply(s, ToggleStatus(user)))
  {
  }

  lemma StepKeepsInv(s: State, step: Step)
    requires Inv(s) && Enabled(s, step)
    ensures Inv(Apply(s, step))
  {
    if step.Commit? {
      CommitKeepsInv(s, step.t);
    } else if step.Tick? {
      TickKeepsInv(s, step.delta);
    } else if step.ToggleStatus? {
      ToggleKeepsInv(s, step.user);
    } else if step.Begin? {
      BeginKeepsInv(s, step.t, step.req);
    } else if step.Abort? {
      AbortKeepsInv(s, step.t);
    } else {
      OwnStepKeepsInv(s, step);
    }
  }

  lemma OnlyCommitsWrite(s: State, step: Step)
    requires Enabled(s, step)
    ensures !step.Commit? ==> Apply(s, step).table == s.table
    ensures s.now <= Apply(s, step).now
  {
  }

  lemma StepGrows(s: State, step: Step)
    requires Inv(s) && Enabled(s, step)
    ensures Grows(s.table, Apply(s, step).table)
    ensures s.now <= Apply(s, step).now
  {
    OnlyCommitsWrite(s, step);
    if step.Commit? {
      CommitKeepsInv(s, step.t);
    }
  }

  lemma GrowsTransitive(a: Table, b: Table, c: Table)
    requires Grows(a, b) && Grows(b, c)
    ensures Grows(a, c)
  {
  }

  /** Over any interleaving: the invariant holds at the end, time never runs back, and the committed
      table only gains rows and first uses. In particular `used_at` is write-once. */
  lemma {:induction false} RunKeepsInv(s: State, steps: seq<Step>)
    requires Inv(s) && ValidRun(s, steps)
    ensures Inv(Run(s, steps))
    ensures Grows(s.table, Run(s, steps).table)
    ensures s.now <= Run(s, steps).now
    decreases |steps|
  {
    if steps != [] {
      StepKeepsInv(s, steps[0]);
      StepGrows(s, steps[0]);
      RunKeepsInv(Apply(s, steps[0]), steps[1..]);
      GrowsTransitive(s.table, Apply(s, steps[0]).table, Run(s, steps).table);
    }
  }

  lemma ReachableInv(s: State)
    requires Reachable(s)
    ensures Inv(s)
  {
    var start, steps :| Init(start) && ValidRun(start, steps) && s == Run(start, steps);
    InitInv(start);
    RunKeepsInv(start, steps);
  }

  // ----- the claims ------------------------------------------------------

  /** A code is spent at most once, whatever interleaves: the committed successes never repeat a row,
      and they are exactly the verified rows, each used no later than its expiry. */
  lemma OneWinPerCode(s: State)
    requires Reachable(s)
    ensures forall id :: multiset(s.wins)[id] <= 1
    ensures forall id :: id in s.wins <==> id in s.table && s.table[id].verified
    ensures forall id :: id in s.wins ==> s.table[id].usedAt.Some? && s.table[id].usedAt.value <= s.table[id].expiresAt
  {
    ReachableInv(s);
    NoRepeats(s.wins);
  }

  lemma {:induction false} NoRepeats(xs: seq<RowId>)
    requires forall i, j :: 0 <= i < j < |xs| ==> xs[i] != xs[j]
    ensures forall x :: multiset(xs)[x] <= 1
  {
    if xs != [] {
      var last := xs[|xs| - 1];
      var front := xs[..|xs| - 1];
      assert xs == front + [last];
      assert last !in front;
      NoRepeats(front);
    }
  }

  /** Once a committed row carries a use, no later step of any run changes that row. */
  lemma UsedRowsAreFrozen(s: State, steps: seq<Step>, id: RowId)
    requires Reachable(s) && ValidRun(s, steps)
    requires id in s.table && s.table[id].usedAt.Some?
    ensures id in Run(s, steps).table && Run(s, steps).table[id] == s.table[id]
  {
    ReachableInv(s);
    RunKeepsInv(s, steps);
  }

  lemma WinnerCommits(s: State, winner: TxId, rival: TxId)
    requires Inv(s) && winner in s.txs && rival in s.txs && winner != rival
    requires s.txs[winner].pc.Won? && s.txs[rival].pc.Aimed? && s.txs[rival].pc.id == s.txs[winner].pc.id
    ensures var taken := Apply(s, Commit(winner));
            Enabled(taken, Update(rival)) && Apply(taken, Update(rival)).txs[rival].pc.Refused?
  {
    var id, taken := s.txs[winner].pc.id, Apply(s, Commit(winner));
    assert TxOk(s.now, s.table, s.txs[winner]);
    assert taken.table[id] == Spent(s.table[id], s.txs[winner].pc.epoch);
    assert !CanWin(taken, id, s.txs[rival].pc.epoch);
  }

  lemma WinnerAborts(s: State, winner: TxId, rival: TxId)
    requires Inv(s) && winner in s.txs && rival in s.txs && winner != rival
    requires s.txs[winner].pc.Won? && s.txs[rival].pc.Aimed? && s.txs[rival].pc.id == s.txs[winner].pc.id
    ensures s.txs[winner].pc.id in s.table
    ensures s.txs[rival].pc.epoch <= s.table[s.txs[winner].pc.id].expiresAt ==>
              && !Enabled(s, Update(rival))
              && var freed := Apply(s, Abort(winner));
                 freed.table == s.table && Enabled(freed, Update(rival)) && Apply(freed, Update(rival)).txs[rival].pc.Won?
  {
    var id, freed := s.txs[winner].pc.id, Apply(s, Abort(winner));
    assert TxOk(s.now, s.table, s.txs[winner]);
    assert id in s.txs[winner].writes && Locked(s, rival, id);
    assert !Locked(freed, rival, id);
  }

  /** Two requests aim at one live code and the first holds the row. The second waits. If the first
      aborts, the second takes the code; if it commits, the second is refused. */
  lemma RivalsSettle(s: State, winner: TxId, rival: TxId)
    requires Reachable(s)
    requires winner in s.txs && rival in s.txs && winner != rival
    requires s.txs[winner].pc.Won? && s.txs[rival].pc.Aimed? && s.txs[rival].pc.id == s.txs[winner].pc.id
    ensures s.txs[winner].pc.id in s.table
    ensures s.txs[rival].pc.epoch <= s.table[s.txs[winner].pc.id].expiresAt ==>
              && !Enabled(s, Update(rival))
              && var freed := Apply(s, Abort(winner));
                 freed.table == s.table && Enabled(freed, Update(rival)) && Apply(freed, Update(rival)).txs[rival].pc.Won?
    ensures var taken := Apply(s, Commit(winner));
            Enabled(taken, Update(rival)) && Apply(taken, Update(rival)).txs[rival].pc.Refused?
  {
    ReachableInv(s);
    hide Inv, CanWin, Committed;
    WinnerAborts(s, winner, rival);
    WinnerCommits(s, winner, rival);
  }

  /** Transactions that were refused or aborted leave every committed row and every account alone. */
  lemma RefusalChangesNothing(s: State, t: TxId)
    requires Reachable(s) && t in s.txs
    ensures Apply(s, Abort(t)).table == s.table && Apply(s, Abort(t)).users == s.users
    ensures s.txs[t].pc.Refused? ==>
              && Enabled(s, Commit(t))
              && Apply(s, Commit(t)).table == s.table
              && Apply(s, Commit(t)).users == s.users
              && Apply(s, Commit(t)).wins == s.wins
  {
    ReachableInv(s);
    assert TxOk(s.now, s.table, s.txs[t]);
  }

  /** The advisory checks never turn away a code the guarded UPDATE would have taken: what they
      refuse stays unspendable for every later reading of the clock. */
  lemma AdvisoryChecksAreSound(s: State, t: TxId, later: seq<Step>, epoch: int)
    requires Reachable(s) && Enabled(s, Check(t)) && Apply(s, Check(t)).txs[t].pc.Refused?
    requires ValidRun(Apply(s, Check(t)), later)
    requires epoch >= Epoch(s.now)
    ensures var id := s.txs[t].pc.id;
            id in Run(Apply(s, Check(t)), later).table && !Consumable(Run(Apply(s, Check(t)), later).table[id], epoch)
  {
    ReachableInv(s);
    assert TxOk(s.now, s.table, s.txs[t]);
    StepKeepsInv(s, Check(t));
    RunKeepsInv(Apply(s, Check(t)), later);
    var id := s.txs[t].pc.id;
    var row := s.txs[t].pc.row;
    var final := Run(Apply(s, Check(t)), later).table;
    assert RowGrows(row, s.table[id]) && RowGrows(s.table[id], final[id]);
  }

  /** And they turn away exactly what the copy shows to be dead: a code past its expiry, and, when confirming an
      address, a used one. */
  lemma AdvisoryChecksMean(s: State, t: TxId)
    requires Reachable(s) && Enabled(s, Check(t))
    ensures var row := s.txs[t].pc.row;
            var dead := row.expiresAt < s.now / 1_000_000 || (KeyOf(s.txs[t].req).kind == EmailConfirmation && row.usedAt.Some?);
            Apply(s, Check(t)).txs[t].pc == if dead then Refused else Checked(s.txs[t].pc.id)
  {
    ReachableInv(s);
    assert TxOk(s.now, s.table, s.txs[t]);
  }

  /** Accounts and codes agree in every committed state, and a login is let in exactly when the password was
      verified, the account is active and its address was proven by a spent confirmation code. */
  lemma AccountsFollowTheLedger(s: State, u: UserId)
    requires Reachable(s) && u in s.users
    ensures s.users[u].emailConfirmed <==>
            exists id :: id in s.table && s.table[id].key == Key(u, EmailConfirmation) && s.table[id].verified
    ensures ResetsOf(s.resets, u) == |VerifiedRows(s.table, Key(u, ForgotPassword))|
    ensures forall passwordVerified ::
              LoginAdmits(s.users[u], passwordVerified) <==>
                && passwordVerified && s.users[u].isActive
                && exists id :: id in s.wins && id in s.table && s.table[id].key == Key(u, EmailConfirmation)
  {
    ReachableInv(s);
    var rows := VerifiedRows(s.table, Key(u, EmailConfirmation));
    if rows != {} {
      var id :| id in rows;
      assert id in s.wins;
    }
    if id :| id in s.table && s.table[id].key == Key(u, EmailConfirmation) && s.table[id].verified {
      assert id in rows;
    }
  }

  // ----- one attempt, start to end ---------------------------------------

  predicate KeepsGoing(step: Step, t: TxId) {
    step != Abort(t) && step != Commit(t)
  }

  /** An attempt that looked up row `id`: it stays on that row, and it is only ever refused when the
      committed row can no longer be spent. */
  ghost predicate Tracks(s: State, t: TxId, id: RowId) {
    && t in s.txs && s.txs[t].req.Spend? && id in s.table
    && match s.txs[t].pc
       case Looked(at, _) => at == id
       case Checked(at) => at == id
       case Aimed(at, _) => at == id
       case Won(at, epoch) => at == id && Consumable(s.table[id], epoch)
       case Refused => !Consumable(s.table[id], Epoch(s.now))
       case _ => false
  }

  lemma TracksSurvives(s: State, s': State, t: TxId, id: RowId)
    requires Inv(s') && Tracks(s, t, id) && Grows(s.table, s'.table) && s.now <= s'.now
    requires t in s'.txs && s'.txs[t] == s.txs[t]
    ensures Tracks(s', t, id)
  {
    assert RowGrows(s.table[id], s'.table[id]);
    assert TxOk(s'.now, s'.table, s'.txs[t]);
    EpochGrows(s.now, s'.now);
  }

  lemma EpochGrows(a: nat, b: nat)
    requires a <= b
    ensures Epoch(a) <= Epoch(b)
  {
  }

  predicate Concerns(step: Step, t: TxId) {
    (step.Check? || step.Aim? || step.Update?) && step.t == t
  }

  /** A step that neither ends nor moves the attempt leaves its transaction as it is. */
  lemma OtherStepsPass(s: State, step: Step, t: TxId, id: RowId)
    requires Tracks(s, t, id) && Enabled(s, step) && KeepsGoing(step, t) && !Concerns(step, t)
    ensures t in Apply(s, step).txs && Apply(s, step).txs[t] == s.txs[t]
  {
  }

  lemma TracksOwnStep(s: State, step: Step, t: TxId, id: RowId)
    requires Inv(s) && Tracks(s, t, id) && Enabled(s, step) && Concerns(step, t)
    ensures Tracks(Apply(s, step), t, id)
  {
    assert TxOk(s.now, s.table, s.txs[t]);
  }

  lemma TracksStep(s: State, step: Step, t: TxId, id: RowId)
    requires Inv(s) && Tracks(s, t, id) && Enabled(s, step) && KeepsGoing(step, t)
    ensures Tracks(Apply(s, step), t, id)
  {
    if Concerns(step, t) {
      TracksOwnStep(s, step, t, id);
    } else {
      StepKeepsInv(s, step);
      StepGrows(s, step);
      OtherStepsPass(s, step, t, id);
      TracksSurvives(s, Apply(s, step), t, id);
    }
  }

  lemma {:induction false} TracksRun(s: State, steps: seq<Step>, t: TxId, id: RowId)
    requires Inv(s) && Tracks(s, t, id) && ValidRun(s, steps)
    requires forall i :: 0 <= i < |steps| ==> KeepsGoing(steps[i], t)
    ensures Tracks(Run(s, steps), t, id)
    decreases |steps|
  {
    if steps != [] {
      TracksStep(s, steps[0], t, id);
      StepKeepsInv(s, steps[0]);
      TracksRun(Apply(s, steps[0]), steps[1..], t, id);
    }
  }

  /** One attempt against everything else that may interleave: from a lookup that found row `id`, at
      every later point of every run, the attempt has won only if that committed row is unused and
      unexpired at the reading its UPDATE used, and has been refused only if it no longer is. */
  lemma AttemptFollowsTheRow(s: State, t: TxId, id: RowId, later: seq<Step>)
    requires Reachable(s) && Enabled(s, Lookup(t, Some(id)))
    requires ValidRun(Apply(s, Lookup(t, Some(id))), later)
    requires forall i :: 0 <= i < |later| ==> KeepsGoing(later[i], t)
    ensures var end := Run(Apply(s, Lookup(t, Some(id))), later);
            && t in end.txs && id in end.table
            && (end.txs[t].pc.Won? ==> end.txs[t].pc.id == id && Consumable(end.table[id], end.txs[t].pc.epoch))
            && (end.txs[t].pc.Refused? ==> !Consumable(end.table[id], Epoch(end.now)))
  {
    ReachableInv(s);
    StepKeepsInv(s, Lookup(t, Some(id)));
    TracksRun(Apply(s, Lookup(t, Some(id))), later, t, id);
  }
}
