/** Every way a request can run while nobody else acts: any order of its own statements and of the clock
    that ends in its commit leaves the database of the handler's contract, or the one it found. */
module OtpAlone {
  import opened Options
  import opened OtpTable
  import opened Accounts
  import opened OtpProtocol
  import opened OtpSafety
  import opened OtpRefinement
  import S = OtpSession

  /** The clock moves, or `t` works. */
  predicate Working(step: Step, t: TxId) {
    step.Tick? || (StepOf(step, t) && !step.Begin? && !step.Commit? && !step.Abort?)
  }

  predicate AllWorking(steps: seq<Step>, t: TxId) {
    forall i :: 0 <= i < |steps| ==> Working(steps[i], t)
  }

  /** Only `t` and the clock have moved since `from`. */
  predicate OnlyMoved(from: State, s: State, t: TxId, req: Request) {
    && t in s.txs && s.txs == from.txs[t := s.txs[t]]
    && s.table == from.table && s.users == from.users && s.wins == from.wins && s.resets == from.resets
    && s.txs[t].req == req && s.txs[t].startedAt == from.now <= s.now
  }

  predicate Between(from: State, epoch: int, s: State) {
    Epoch(from.now) <= epoch <= Epoch(s.now)
  }

  // ----- spending --------------------------------------------------------

  /** Where a spending request stands, told from the table alone. */
  ghost predicate SpendAt(from: State, s: State, tx: Tx, key: Key, code: string) {
    match tx.pc
    case Started => tx.writes == map[]
    case Looked(id, row) => tx.writes == map[] && IsNewestMatch(from.table, key, code, id) && row == from.table[id]
    case Checked(id) => tx.writes == map[] && IsNewestMatch(from.table, key, code, id)
    case Aimed(id, epoch) =>
      tx.writes == map[] && IsNewestMatch(from.table, key, code, id) && Between(from, epoch, s)
    case Won(id, epoch) =>
      && IsNewestMatch(from.table, key, code, id) && Consumable(from.table[id], epoch) && Between(from, epoch, s)
      && tx.writes == map[id := Spent(from.table[id], epoch)]
    case Refused => tx.writes == map[] && Unusable(from.table, key, code, Epoch(s.now))
    case _ => false
  }

  lemma UnusableLater(table: Table, key: Key, code: string, now: nat, later: nat)
    requires Unusable(table, key, code, Epoch(now)) && now <= later
    ensures Unusable(table, key, code, Epoch(later))
  {
    EpochGrows(now, later);
  }

  lemma SpendTicks(from: State, s: State, delta: nat, t: TxId, key: Key, code: string, hash: string)
    requires OnlyMoved(from, s, t, Spend(key, code, hash)) && SpendAt(from, s, s.txs[t], key, code)
    ensures OnlyMoved(from, Apply(s, Tick(delta)), t, Spend(key, code, hash))
    ensures SpendAt(from, Apply(s, Tick(delta)), s.txs[t], key, code)
  {
    EpochGrows(s.now, s.now + delta);
    if s.txs[t].pc.Refused? {
      UnusableLater(from.table, key, code, s.now, s.now + delta);
    }
  }

  lemma SpendMoves(from: State, s: State, step: Step, t: TxId, key: Key, code: string, hash: string)
    requires AllHonest(from.table) && Enabled(s, step) && StepOf(step, t) && Working(step, t)
    requires OnlyMoved(from, s, t, Spend(key, code, hash)) && SpendAt(from, s, s.txs[t], key, code)
    ensures OnlyMoved(from, Apply(s, step), t, Spend(key, code, hash))
    ensures SpendAt(from, Apply(s, step), Apply(s, step).txs[t], key, code)
  {
    EpochGrows(from.now, s.now);
    if step.Check? {
      assert Honest(from.table[s.txs[t].pc.id]);
    }
  }

  lemma {:induction false} SpendWorks(from: State, s: State, steps: seq<Step>, t: TxId, key: Key, code: string, hash: string)
    requires AllHonest(from.table) && ValidRun(s, steps) && AllWorking(steps, t)
    requires OnlyMoved(from, s, t, Spend(key, code, hash)) && SpendAt(from, s, s.txs[t], key, code)
    ensures OnlyMoved(from, Run(s, steps), t, Spend(key, code, hash))
    ensures SpendAt(from, Run(s, steps), Run(s, steps).txs[t], key, code)
    decreases |steps|
  {
    if steps != [] {
      assert Working(steps[0], t);
      if steps[0].Tick? {
        SpendTicks(from, s, steps[0].delta, t, key, code, hash);
      } else {
        SpendMoves(from, s, steps[0], t, key, code, hash);
      }
      SpendWorks(from, Apply(s, steps[0]), steps[1..], t, key, code, hash);
    }
  }

  /** The database a spent code leaves, by the handler of its kind. */
  function SpentDb(db: S.Db, key: Key, id: RowId, epoch: int, hash: string): S.Db
    requires id in db.otps && key.owner in db.users
  {
    match key.kind
    case EmailConfirmation => S.EmailConfirmedDb(db, key.owner, id, epoch)
    case ForgotPassword => S.PasswordResetDb(db, key.owner, id, epoch, hash)
  }

  /** The handler's two outcomes: the code spent at some reading between start and end, or nothing. */
  ghost predicate SpendOutcome(from: State, end: State, key: Key, code: string, hash: string) {
    || (exists id, epoch :: SpentAt(from, end, key, code, hash, id, epoch))
    || (View(end) == View(from) && Unusable(from.table, key, code, Epoch(end.now)))
  }

  ghost predicate SpentAt(from: State, end: State, key: Key, code: string, hash: string, id: RowId, epoch: int) {
    && key.owner in from.users && S.Accepts(View(from), key, code, epoch, id) && Between(from, epoch, end)
    && View(end) == SpentDb(View(from), key, id, epoch, hash)
  }

  /** A spending request left alone: whatever its steps and the clock do until it commits, the database is
      the handler's for some accepted row and reading, or unchanged because the code was unusable. */
  lemma SpendingAlone(s: State, t: TxId, key: Key, code: string, hash: string, steps: seq<Step>)
    requires Reachable(s) && Enabled(s, Begin(t, Spend(key, code, hash)))
    requires var begun := Apply(s, Begin(t, Spend(key, code, hash)));
             ValidRun(begun, steps) && AllWorking(steps, t) && Enabled(Run(begun, steps), Commit(t))
    ensures var done := Run(Apply(s, Begin(t, Spend(key, code, hash))), steps);
            SpendOutcome(s, Apply(done, Commit(t)), key, code, hash) && Apply(done, Commit(t)).txs == s.txs
  {
    ReachableInv(s);
    var begun := Apply(s, Begin(t, Spend(key, code, hash)));
    SpendWorks(s, begun, steps, t, key, code, hash);
    SpendEnds(s, Run(begun, steps), t, key, code, hash);
  }

  lemma SpendEnds(from: State, s: State, t: TxId, key: Key, code: string, hash: string)
    requires t !in from.txs && key.owner in from.users && Enabled(s, Commit(t))
    requires OnlyMoved(from, s, t, Spend(key, code, hash)) && SpendAt(from, s, s.txs[t], key, code)
    ensures SpendOutcome(from, Apply(s, Commit(t)), key, code, hash) && Apply(s, Commit(t)).txs == from.txs
  {
    var end, pc := Apply(s, Commit(t)), s.txs[t].pc;
    assert from.txs[t := s.txs[t]] - {t} == from.txs;
    if pc.Won? {
      assert from.table + s.txs[t].writes == from.table[pc.id := Spent(from.table[pc.id], pc.epoch)];
      assert SpentAt(from, end, key, code, hash, pc.id, pc.epoch);
    } else {
      assert from.table + map[] == from.table;
    }
  }

  // ----- issuing ---------------------------------------------------------

  /** The expiry was dated, and later the row stamped, between the start and now. */
  predicate StampedIn(from: State, epoch: int, created: int, s: State) {
    from.now <= created <= s.now && Epoch(from.now) <= epoch <= Epoch(created)
  }

  /** Where an issuing request stands: what it has burned so far and what it has filed. */
  ghost predicate IssueAt(from: State, s: State, tx: Tx, req: Request) {
    var key := KeyOf(req);
    var recent := RecentIssue(from.table, key, from.now - Cooldown(key.kind));
    match tx.pc
    case Started => tx.writes == map[]
    case Cleared => tx.writes == map[] && !recent
    case Stamped(epoch) => tx.writes == map[] && !recent && Between(from, epoch, s)
    case Sweeping(todo, epoch) =>
      && !recent && Between(from, epoch, s) && todo <= PendingRows(from, key)
      && tx.writes == BurnsFor(from.table, PendingRows(from, key) - todo, epoch)
    case Filed(id, epoch) =>
      && !recent && id !in from.table && id in tx.writes
      && var created := tx.writes[id].createdAt;
         && StampedIn(from, epoch, created, s)
         && tx.writes == BurnsFor(from.table, PendingRows(from, key), epoch)
                         [id := NewRow(key, tx.writes[id].code, TargetOf(req), created, epoch)]
    case Refused => tx.writes == map[] && recent
    case _ => false
  }

  lemma IssueTicks(from: State, s: State, delta: nat, t: TxId, req: Request)
    requires OnlyMoved(from, s, t, req) && IssueAt(from, s, s.txs[t], req)
    ensures OnlyMoved(from, Apply(s, Tick(delta)), t, req) && IssueAt(from, Apply(s, Tick(delta)), s.txs[t], req)
  {
    EpochGrows(s.now, s.now + delta);
  }

  lemma BurnAdds(table: Table, all: set<RowId>, todo: set<RowId>, epoch: int, id: RowId)
    requires id in todo && todo <= all && id in table
    ensures BurnsFor(table, all - todo, epoch)[id := Burned(table[id], epoch)] == BurnsFor(table, all - (todo - {id}), epoch)
  {
  }

  lemma IssueMoves(from: State, s: State, step: Step, t: TxId, req: Request)
    requires !req.Spend? && Enabled(s, step) && StepOf(step, t) && Working(step, t)
    requires OnlyMoved(from, s, t, req) && IssueAt(from, s, s.txs[t], req)
    ensures OnlyMoved(from, Apply(s, step), t, req) && IssueAt(from, Apply(s, step), Apply(s, step).txs[t], req)
  {
    EpochGrows(from.now, s.now);
    var key := KeyOf(req);
    if step.Sweep? {
      assert PendingRows(s, key) == PendingRows(from, key);
      assert BurnsFor(from.table, PendingRows(from, key) - PendingRows(s, key), s.txs[t].pc.epoch) == map[];
    } else if step.Burn? {
      assert step.id in PendingRows(from, key);
      BurnAdds(from.table, PendingRows(from, key), s.txs[t].pc.todo, s.txs[t].pc.epoch, step.id);
    } else if step.File? {
      assert PendingRows(from, key) - s.txs[t].pc.todo == PendingRows(from, key);
    }
  }

  lemma {:induction false} IssueWorks(from: State, s: State, steps: seq<Step>, t: TxId, req: Request)
    requires !req.Spend? && ValidRun(s, steps) && AllWorking(steps, t)
    requires OnlyMoved(from, s, t, req) && IssueAt(from, s, s.txs[t], req)
    ensures OnlyMoved(from, Run(s, steps), t, req) && IssueAt(from, Run(s, steps), Run(s, steps).txs[t], req)
    decreases |steps|
  {
    if steps != [] {
      assert Working(steps[0], t);
      if steps[0].Tick? {
        IssueTicks(from, s, steps[0].delta, t, req);
      } else {
        IssueMoves(from, s, steps[0], t, req);
      }
      IssueWorks(from, Apply(s, steps[0]), steps[1..], t, req);
    }
  }

  /** The service's outcomes: refused exactly when cooling down, or one new code in place of the old. */
  ghost predicate IssueOutcome(from: State, end: State, req: Request) {
    var key := KeyOf(req);
    if RecentIssue(from.table, key, from.now - Cooldown(key.kind)) then View(end) == View(from)
    else exists id, code, created: nat, epoch :: IssuedAt(from, end, req, id, code, created, epoch)
  }

  ghost predicate IssuedAt(from: State, end: State, req: Request, id: RowId, code: string, created: nat, epoch: int) {
    && id !in from.table && StampedIn(from, epoch, created, end)
    && end.table == S.Issued(from.table, KeyOf(req), code, TargetOf(req), id, created, epoch)
    && end.users == if req.Signup? then from.users[req.owner := Registered(req.email, req.hash)] else from.users
  }

  /** An issuing request left alone, a resend, a reset's first step or a registration: whatever its steps and
      the clock do until it commits, the outcome is the service's. */
  lemma IssuingAlone(s: State, t: TxId, req: Request, steps: seq<Step>)
    requires !req.Spend? && Enabled(s, Begin(t, req))
    requires var begun := Apply(s, Begin(t, req));
             ValidRun(begun, steps) && AllWorking(steps, t) && Enabled(Run(begun, steps), Commit(t))
    ensures var done := Run(Apply(s, Begin(t, req)), steps);
            IssueOutcome(s, Apply(done, Commit(t)), req) && Apply(done, Commit(t)).txs == s.txs
  {
    var begun := Apply(s, Begin(t, req));
    IssueWorks(s, begun, steps, t, req);
    IssueEnds(s, Run(begun, steps), t, req);
  }

  lemma SweptTable(table: Table, key: Key, code: string, target: string, id: RowId, created: nat, epoch: int, todo: set<RowId>)
    requires id !in table && todo == set i | i in table && Pending(table, key, i)
    ensures table + BurnsFor(table, todo, epoch)[id := NewRow(key, code, target, created, epoch)] ==
            S.Issued(table, key, code, target, id, created, epoch)
  {
  }

  lemma IssueEnds(from: State, s: State, t: TxId, req: Request)
    requires t !in from.txs && !req.Spend? && Enabled(s, Commit(t))
    requires OnlyMoved(from, s, t, req) && IssueAt(from, s, s.txs[t], req)
    ensures IssueOutcome(from, Apply(s, Commit(t)), req) && Apply(s, Commit(t)).txs == from.txs
  {
    var end, tx := Apply(s, Commit(t)), s.txs[t];
    assert from.txs[t := tx] - {t} == from.txs;
    if tx.pc.Filed? {
      var id, epoch, row := tx.pc.id, tx.pc.epoch, tx.writes[tx.pc.id];
      SweptTable(from.table, KeyOf(req), row.code, TargetOf(req), id, row.createdAt, epoch, PendingRows(from, KeyOf(req)));
      assert IssuedAt(from, end, req, id, row.code, row.createdAt, epoch);
    } else {
      assert from.table + map[] == from.table;
    }
  }
}
