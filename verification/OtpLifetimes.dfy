/** How long a code lives, on clock readings in microseconds: the fifteen minutes after the reading that dates
    its expiry, whatever interleaves. */
module OtpLifetimes {
  import opened Options
  import opened OtpTable
  import opened OtpProtocol
  import opened OtpSafety

  /** The expiry is fifteen minutes after a reading of the clock made in these microseconds. */
  predicate ExpiryFrom(r: Row, earliest: nat, latest: int) {
    earliest / 1_000_000 + 900 <= r.expiresAt && r.expiresAt <= latest / 1_000_000 + 900
  }

  /** Every reading this transaction works with was made since `from`, in these microseconds. */
  predicate ReadSince(from: nat, now: nat, tx: Tx) {
    match tx.pc
    case Aimed(_, epoch) => from / 1_000_000 <= epoch <= now / 1_000_000
    case Won(_, epoch) => from / 1_000_000 <= epoch <= now / 1_000_000
    case Stamped(epoch) => from / 1_000_000 <= epoch <= now / 1_000_000
    case Sweeping(_, epoch) => from / 1_000_000 <= epoch <= now / 1_000_000
    case Filed(id, _) =>
      id in tx.writes && from <= tx.writes[id].createdAt <= now && ExpiryFrom(tx.writes[id], from, tx.writes[id].createdAt)
    case _ => true
  }

  ghost predicate DatedRows(table: Table) {
    forall id :: id in table ==> 0 <= table[id].createdAt && ExpiryFrom(table[id], 0, table[id].createdAt)
  }

  ghost predicate DatedTxs(now: nat, txs: map<TxId, Tx>) {
    forall t :: t in txs ==> ReadSince(txs[t].startedAt, now, txs[t])
  }

  ghost predicate Dated(s: State) {
    DatedRows(s.table) && DatedTxs(s.now, s.txs)
  }

  lemma CommitKeepsDates(now: nat, table: Table, tx: Tx)
    requires TxOk(now, table, tx) && Finishing(tx.pc) && ReadSince(tx.startedAt, now, tx) && DatedRows(table)
    ensures DatedRows(table + tx.writes)
  {
    CommitRows(now, table, tx);
    var after := table + tx.writes;
    forall id | id in after
      ensures 0 <= after[id].createdAt && ExpiryFrom(after[id], 0, after[id].createdAt)
    {
      assert CommitRow(table, tx, id, after[id]);
    }
  }

  lemma TickKeepsDates(now: nat, later: nat, txs: map<TxId, Tx>)
    requires now <= later && DatedTxs(now, txs)
    ensures DatedTxs(later, txs)
  {
  }

  /** A step of the transaction's own that makes a reading makes it now. */
  lemma ReadsNow(s: State, step: Step, from: nat)
    requires Enabled(s, step) && (step.Stamp? || step.Aim?) && from <= s.now
    ensures ReadSince(from, s.now, Apply(s, step).txs[step.t])
  {
    EpochGrows(from, s.now);
  }

  lemma OwnStepKeepsDates(s: State, step: Step, from: nat)
    requires Enabled(s, step) && from <= s.now
    requires !step.Tick? && !step.ToggleStatus? && !step.Begin? && !step.Commit? && !step.Abort?
    requires ReadSince(from, s.now, s.txs[step.t])
    ensures ReadSince(from, s.now, Apply(s, step).txs[step.t])
    ensures Apply(s, step).txs[step.t].startedAt == s.txs[step.t].startedAt
  {
    if step.Stamp? || step.Aim? {
      ReadsNow(s, step, from);
    }
  }

  lemma OthersStay(s: State, step: Step)
    requires Enabled(s, step) && !step.Tick? && !step.ToggleStatus? && !step.Commit?
    ensures Apply(s, step).now == s.now
    ensures forall t :: t in Apply(s, step).txs && t != step.t ==> t in s.txs && Apply(s, step).txs[t] == s.txs[t]
    ensures step.Begin? ==> Apply(s, step).txs[step.t].pc.Started?
    ensures step.Abort? ==> step.t !in Apply(s, step).txs
  {
  }

  lemma StepKeepsDates(s: State, step: Step)
    requires Inv(s) && Dated(s) && Enabled(s, step)
    ensures Dated(Apply(s, step))
  {
    OnlyCommitsWrite(s, step);
    if step.Commit? {
      assert TxOk(s.now, s.table, s.txs[step.t]);
      CommitKeepsDates(s.now, s.table, s.txs[step.t]);
    } else if step.Tick? {
      TickKeepsDates(s.now, s.now + step.delta, s.txs);
    } else if !step.ToggleStatus? {
      OthersStay(s, step);
      if !step.Begin? && !step.Abort? {
        assert TxOk(s.now, s.table, s.txs[step.t]) && ReadSince(s.txs[step.t].startedAt, s.now, s.txs[step.t]);
        OwnStepKeepsDates(s, step, s.txs[step.t].startedAt);
      }
      hide Enabled, Apply, Inv;
    }
  }

  lemma {:induction false} RunKeepsDates(s: State, steps: seq<Step>)
    requires Inv(s) && Dated(s) && ValidRun(s, steps)
    ensures Dated(Run(s, steps))
    decreases |steps|
  {
    if steps != [] {
      StepKeepsDates(s, steps[0]);
      StepKeepsInv(s, steps[0]);
      RunKeepsDates(Apply(s, steps[0]), steps[1..]);
    }
  }

  lemma ReachableDates(s: State)
    requires Reachable(s)
    ensures Inv(s) && Dated(s)
  {
    var start, steps :| Init(start) && ValidRun(start, steps) && s == Run(start, steps);
    InitInv(start);
    RunKeepsInv(start, steps);
    RunKeepsDates(start, steps);
  }

  // ----- the claims ------------------------------------------------------

  /** `issued` dates the expiry of this row: it can be spent at every later reading within fifteen minutes, up
      to the end of the last second, and at none after that. */
  ghost predicate LivesFrom(r: Row, issued: nat) {
    && (forall later: nat :: issued <= later <= issued + 900_000_000 ==> Consumable(r, Epoch(later)))
    && (forall later: nat :: issued + 901_000_000 <= later ==> !Consumable(r, Epoch(later)))
  }

  lemma FifteenMinutes(r: Row, issued: nat)
    requires r.usedAt.None? && r.expiresAt == issued / 1_000_000 + 900
    ensures LivesFrom(r, issued)
  {
  }

  /** Every unused code of every reachable state lives fifteen minutes from a reading no later than its flush. */
  lemma UnusedCodesLive(s: State, id: RowId) returns (issued: nat)
    requires Reachable(s) && id in s.table && s.table[id].usedAt.None?
    ensures issued <= s.table[id].createdAt <= s.now
    ensures LivesFrom(s.table[id], issued)
  {
    ReachableDates(s);
    var r := s.table[id];
    assert ExpiryFrom(r, 0, r.createdAt);
    issued := (r.expiresAt - 900) * 1_000_000;
    FifteenMinutes(r, issued);
  }

  /** What a request that filed its code is about to commit: an unused row of the key and target it asked for,
      a confirmation code to the given address for a registration, flushed since the request began and dated in
      between. */
  lemma FiledCodeLives(s: State, t: TxId) returns (issued: nat)
    requires Reachable(s) && t in s.txs && s.txs[t].pc.Filed?
    ensures s.txs[t].pc.id in s.txs[t].writes && s.txs[t].pc.id !in s.table
    ensures var tx, row := s.txs[t], s.txs[t].writes[s.txs[t].pc.id];
            && tx.startedAt / 1_000_000 * 1_000_000 <= issued <= row.createdAt <= s.now
            && tx.startedAt <= row.createdAt
            && LivesFrom(row, issued) && row.usedAt.None? && !row.verified
            && match tx.req
               case Issue(key, target) => row.key == key && row.target == target
               case Signup(owner, email, _) => row.key == Key(owner, EmailConfirmation) && row.target == email
               case Spend(_, _, _) => false
  {
    ReachableDates(s);
    assert TxOk(s.now, s.table, s.txs[t]) && ReadSince(s.txs[t].startedAt, s.now, s.txs[t]);
    var row := s.txs[t].writes[s.txs[t].pc.id];
    issued := (row.expiresAt - 900) * 1_000_000;
    FifteenMinutes(row, issued);
  }

  // ----- readings made later ---------------------------------------------

  /** The request has made no reading that its outcome depends on. */
  predicate YetToRead(pc: Pc) {
    pc.Started? || pc.Looked? || pc.Checked? || pc.Cleared?
  }

  lemma OthersLeaveIt(s: State, step: Step, t: TxId)
    requires Enabled(s, step) && t in s.txs && KeepsGoing(step, t)
    requires step.Tick? || step.ToggleStatus? || step.t != t
    ensures t in Apply(s, step).txs && Apply(s, step).txs[t] == s.txs[t] && s.now <= Apply(s, step).now
  {
  }

  lemma ReadSinceGrows(from: nat, now: nat, later: nat, tx: Tx)
    requires ReadSince(from, now, tx) && now <= later
    ensures ReadSince(from, later, tx)
  {
  }

  lemma ReadsStep(s: State, t: TxId, from: nat, step: Step)
    requires t in s.txs && from <= s.now && ReadSince(from, s.now, s.txs[t]) && Enabled(s, step) && KeepsGoing(step, t)
    ensures from <= Apply(s, step).now
    ensures t in Apply(s, step).txs && ReadSince(from, Apply(s, step).now, Apply(s, step).txs[t])
  {
    if step.Tick? || step.ToggleStatus? || step.t != t {
      OthersLeaveIt(s, step, t);
      ReadSinceGrows(from, s.now, Apply(s, step).now, s.txs[t]);
    } else {
      OwnStepKeepsDates(s, step, from);
      OthersStay(s, step);
    }
  }

  lemma {:induction false} ReadsAlongRun(s: State, t: TxId, from: nat, steps: seq<Step>)
    requires t in s.txs && from <= s.now && ReadSince(from, s.now, s.txs[t]) && ValidRun(s, steps)
    requires forall i :: 0 <= i < |steps| ==> KeepsGoing(steps[i], t)
    ensures t in Run(s, steps).txs && ReadSince(from, Run(s, steps).now, Run(s, steps).txs[t])
    decreases |steps|
  {
    hide ReadSince, Apply, Enabled, KeepsGoing;
    if steps != [] {
      ReadsStep(s, t, from, steps[0]);
      ReadsAlongRun(Apply(s, steps[0]), t, from, steps[1..]);
    }
  }

  /** What was read since `from` dates what the transaction holds. */
  ghost predicate HoldsSince(from: nat, now: nat, table: Table, tx: Tx) {
    && (tx.pc.Won? ==>
          && tx.pc.id in table
          && from / 1_000_000 <= tx.pc.epoch <= now / 1_000_000 && tx.pc.epoch <= table[tx.pc.id].expiresAt)
    && (tx.pc.Filed? ==>
          && tx.pc.id in tx.writes
          && from <= tx.writes[tx.pc.id].createdAt <= now && from / 1_000_000 + 900 <= tx.writes[tx.pc.id].expiresAt)
  }

  lemma ReadingsDate(from: nat, now: nat, table: Table, tx: Tx)
    requires TxOk(now, table, tx) && ReadSince(from, now, tx)
    ensures HoldsSince(from, now, table, tx)
  {
  }

  /** A request that has yet to read the clock reads it later, whatever interleaves: what it then wins expires no
      earlier than the moment `s`, and what it then files lives at least until fifteen minutes after it. So no
      attempt takes a code that had expired before it read the clock. */
  lemma ReadingsAreLater(s: State, t: TxId, steps: seq<Step>)
    requires Reachable(s) && t in s.txs && YetToRead(s.txs[t].pc) && ValidRun(s, steps)
    requires forall i :: 0 <= i < |steps| ==> KeepsGoing(steps[i], t)
    ensures t in Run(s, steps).txs
    ensures HoldsSince(s.now, Run(s, steps).now, Run(s, steps).table, Run(s, steps).txs[t])
  {
    ReachableInv(s);
    assert ReadSince(s.now, s.now, s.txs[t]);
    hide ReadSince, KeepsGoing, Run, ValidRun, HoldsSince, TxOk;
    ReadsAlongRun(s, t, s.now, steps);
    RunKeepsInv(s, steps);
    ReadingsDate(s.now, Run(s, steps).now, Run(s, steps).table, Run(s, steps).txs[t]);
  }
}
