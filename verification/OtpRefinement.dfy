/** The interleaved protocol refines the session classes: a request whose statements run back to back
    commits exactly the database that the handler's contract names. */
module OtpRefinement {
  import opened Options
  import opened OtpTable
  import opened Accounts
  import opened OtpProtocol
  import opened OtpSafety
  import S = OtpSession

  /** Nobody else holds a row lock. */
  ghost predicate NoLocks(s: State) {
    forall t :: t in s.txs ==> s.txs[t].writes == map[]
  }

  function View(s: State): S.Db {
    S.Db(s.table, s.users)
  }

  /** A step of transaction `t`. */
  predicate StepOf(step: Step, t: TxId) {
    !step.Tick? && !step.ToggleStatus? && step.t == t
  }

  predicate AllOf(steps: seq<Step>, t: TxId) {
    forall i :: 0 <= i < |steps| ==> StepOf(steps[i], t)
  }

  /** A run of `t`'s own steps. */
  ghost predicate Leads(start: State, steps: seq<Step>, t: TxId, end: State) {
    ValidRun(start, steps) && AllOf(steps, t) && Run(start, steps) == end
  }

  lemma Then(start: State, steps: seq<Step>, t: TxId, mid: State, step: Step)
    requires Leads(start, steps, t, mid) && Enabled(mid, step) && StepOf(step, t)
    ensures Leads(start, steps + [step], t, Apply(mid, step))
  {
    Extend(start, steps, step);
  }

  /** `s` with transaction `t` at `tx`. */
  function With(s: State, t: TxId, tx: Tx): State {
    s.(txs := s.txs[t := tx])
  }

  lemma MovedWith(s: State, t: TxId, tx: Tx, pc: Pc, writes: Table)
    ensures Move(With(s, t, tx), t, pc, writes) == With(s, t, tx.(pc := pc, writes := writes))
  {
    assert s.txs[t := tx][t := tx.(pc := pc, writes := writes)] == s.txs[t := tx.(pc := pc, writes := writes)];
  }

  lemma NotLocked(s: State, t: TxId, tx: Tx, id: RowId)
    requires NoLocks(s)
    ensures !Locked(With(s, t, tx), t, id)
  {
  }

  // ----- spending --------------------------------------------------------

  lemma LookupWith(s: State, t: TxId, req: Request, id: RowId)
    requires req.Spend? && IsNewestMatch(s.table, req.key, req.code, id)
    ensures Enabled(With(s, t, Tx(req, Started, s.now, map[])), Lookup(t, Some(id)))
    ensures Apply(With(s, t, Tx(req, Started, s.now, map[])), Lookup(t, Some(id))) ==
            With(s, t, Tx(req, Looked(id, s.table[id]), s.now, map[]))
  {
    MovedWith(s, t, Tx(req, Started, s.now, map[]), Looked(id, s.table[id]), map[]);
  }

  lemma CheckWith(s: State, t: TxId, req: Request, id: RowId, row: Row)
    requires req.Spend? && PassesChecks(req.key.kind, row, Epoch(s.now))
    ensures Enabled(With(s, t, Tx(req, Looked(id, row), s.now, map[])), Check(t))
    ensures Apply(With(s, t, Tx(req, Looked(id, row), s.now, map[])), Check(t)) ==
            With(s, t, Tx(req, Checked(id), s.now, map[]))
  {
    MovedWith(s, t, Tx(req, Looked(id, row), s.now, map[]), Checked(id), map[]);
  }

  lemma AimWith(s: State, t: TxId, req: Request, id: RowId)
    ensures Enabled(With(s, t, Tx(req, Checked(id), s.now, map[])), Aim(t))
    ensures Apply(With(s, t, Tx(req, Checked(id), s.now, map[])), Aim(t)) ==
            With(s, t, Tx(req, Aimed(id, Epoch(s.now)), s.now, map[]))
  {
    MovedWith(s, t, Tx(req, Checked(id), s.now, map[]), Aimed(id, Epoch(s.now)), map[]);
  }

  lemma UpdateWith(s: State, t: TxId, req: Request, id: RowId, epoch: int)
    requires NoLocks(s) && CanWin(s, id, epoch)
    ensures Enabled(With(s, t, Tx(req, Aimed(id, epoch), s.now, map[])), Update(t))
    ensures Apply(With(s, t, Tx(req, Aimed(id, epoch), s.now, map[])), Update(t)) ==
            With(s, t, Tx(req, Won(id, epoch), s.now, map[id := Spent(s.table[id], epoch)]))
  {
    var tx := Tx(req, Aimed(id, epoch), s.now, map[]);
    NotLocked(s, t, tx, id);
    MovedWith(s, t, tx, Won(id, epoch), map[id := Spent(s.table[id], epoch)]);
  }

  lemma CommitWith(s: State, t: TxId, key: Key, code: string, hash: string, id: RowId, epoch: int)
    requires id in s.table && key.owner in s.users
    ensures var tx := Tx(Spend(key, code, hash), Won(id, epoch), s.now, map[id := Spent(s.table[id], epoch)]);
            && Enabled(With(s, t, tx), Commit(t))
            && View(Apply(With(s, t, tx), Commit(t))) ==
               match key.kind
               case EmailConfirmation => S.EmailConfirmedDb(View(s), key.owner, id, epoch)
               case ForgotPassword => S.PasswordResetDb(View(s), key.owner, id, epoch, hash)
  {
    assert s.table + map[id := Spent(s.table[id], epoch)] == s.table[id := Spent(s.table[id], epoch)];
  }

  /** Up to the reading of the clock for the update. */
  lemma AimAlone(s: State, t: TxId, req: Request, id: RowId) returns (all: seq<Step>)
    requires NoLocks(s) && t !in s.txs && req.Spend? && req.key.owner in s.users
    requires IsNewestMatch(s.table, req.key, req.code, id) && PassesChecks(req.key.kind, s.table[id], Epoch(s.now))
    ensures Leads(s, all, t, With(s, t, Tx(req, Aimed(id, Epoch(s.now)), s.now, map[])))
  {
    all := [];
    Then(s, all, t, s, Begin(t, req));
    all := all + [Begin(t, req)];
    hide Leads, Enabled, Apply;
    LookupWith(s, t, req, id);
    Then(s, all, t, With(s, t, Tx(req, Started, s.now, map[])), Lookup(t, Some(id)));
    all := all + [Lookup(t, Some(id))];
    CheckWith(s, t, req, id, s.table[id]);
    Then(s, all, t, With(s, t, Tx(req, Looked(id, s.table[id]), s.now, map[])), Check(t));
    all := all + [Check(t)];
    AimWith(s, t, req, id);
    Then(s, all, t, With(s, t, Tx(req, Checked(id), s.now, map[])), Aim(t));
    all := all + [Aim(t)];
  }

  /** An accepted code, spent without interruption: the request's own steps reach the row and account change
      of the contract of the confirm-email handler or of reset step 3. OtpAlone says what every other way of
      running alone does. */
  lemma SpendingAloneIsTheHandler(s: State, t: TxId, key: Key, code: string, hash: string, id: RowId)
    returns (all: seq<Step>)
    requires Reachable(s) && NoLocks(s) && t !in s.txs && key.owner in s.users
    requires S.Accepts(View(s), key, code, Epoch(s.now), id)
    ensures ValidRun(s, all) && AllOf(all, t)
    ensures View(Run(s, all)) ==
            match key.kind
            case EmailConfirmation => S.EmailConfirmedDb(View(s), key.owner, id, Epoch(s.now))
            case ForgotPassword => S.PasswordResetDb(View(s), key.owner, id, Epoch(s.now), hash)
  {
    ReachableInv(s);
    assert Honest(s.table[id]);
    var req, epoch := Spend(key, code, hash), Epoch(s.now);
    all := AimAlone(s, t, req, id);
    hide Enabled, Apply;
    UpdateWith(s, t, req, id, epoch);
    Then(s, all, t, With(s, t, Tx(req, Aimed(id, epoch), s.now, map[])), Update(t));
    all := all + [Update(t)];
    CommitWith(s, t, key, code, hash, id, epoch);
    Then(s, all, t, With(s, t, Tx(req, Won(id, epoch), s.now, map[id := Spent(s.table[id], epoch)])), Commit(t));
    all := all + [Commit(t)];
  }

  lemma RefusedCommits(start: State, steps: seq<Step>, s: State, t: TxId, req: Request) returns (all: seq<Step>)
    requires Leads(start, steps, t, With(s, t, Tx(req, Refused, s.now, map[]))) && t !in s.txs
    ensures Leads(start, all, t, s)
  {
    var refused := With(s, t, Tx(req, Refused, s.now, map[]));
    Then(start, steps, t, refused, Commit(t));
    all := steps + [Commit(t)];
    assert s.table + map[] == s.table && s.txs[t := Tx(req, Refused, s.now, map[])] - {t} == s.txs;
  }

  /** A lookup that finds a row no UPDATE can take ends refused, at the checks or at the UPDATE. */
  lemma RefuseRow(s: State, t: TxId, req: Request, steps: seq<Step>, id: RowId) returns (all: seq<Step>)
    requires req.Spend? && id in s.table && !Consumable(s.table[id], Epoch(s.now))
    requires Leads(s, steps, t, With(s, t, Tx(req, Looked(id, s.table[id]), s.now, map[])))
    ensures Leads(s, all, t, With(s, t, Tx(req, Refused, s.now, map[])))
  {
    var looked := Tx(req, Looked(id, s.table[id]), s.now, map[]);
    Then(s, steps, t, With(s, t, looked), Check(t));
    all := steps + [Check(t)];
    MovedWith(s, t, looked, Refused, map[]);
    if PassesChecks(req.key.kind, s.table[id], Epoch(s.now)) {
      CheckWith(s, t, req, id, s.table[id]);
      AimWith(s, t, req, id);
      Then(s, all, t, With(s, t, Tx(req, Checked(id), s.now, map[])), Aim(t));
      all := all + [Aim(t)];
      var aimed := Tx(req, Aimed(id, Epoch(s.now)), s.now, map[]);
      Then(s, all, t, With(s, t, aimed), Update(t));
      all := all + [Update(t)];
      MovedWith(s, t, aimed, Refused, map[]);
    }
  }

  /** An unusable code, presented without interruption: the request's own steps end with nothing changed. */
  lemma RefusingAloneIsTheHandler(s: State, t: TxId, key: Key, code: string, hash: string) returns (all: seq<Step>)
    requires t !in s.txs && key.owner in s.users && Unusable(s.table, key, code, Epoch(s.now))
    ensures ValidRun(s, all) && AllOf(all, t) && Run(s, all) == s
  {
    var req := Spend(key, code, hash);
    var started := Tx(req, Started, s.now, map[]);
    Then(s, [], t, s, Begin(t, req));
    all := [] + [Begin(t, req)];
    if NoMatch(s.table, key, code) {
      Then(s, all, t, With(s, t, started), Lookup(t, None));
      MovedWith(s, t, started, Refused, map[]);
      all := all + [Lookup(t, None)];
    } else {
      var id :| IsNewestMatch(s.table, key, code, id) && !Consumable(s.table[id], Epoch(s.now));
      LookupWith(s, t, req, id);
      Then(s, all, t, With(s, t, started), Lookup(t, Some(id)));
      all := all + [Lookup(t, Some(id))];
      all := RefuseRow(s, t, req, all, id);
    }
    all := RefusedCommits(s, all, s, t, req);
  }

  // ----- issuing ---------------------------------------------------------

  /** A request for a new code while cooling down: its own steps end with nothing changed. */
  lemma CoolingDownAloneIsTheService(s: State, t: TxId, key: Key, target: string) returns (all: seq<Step>)
    requires t !in s.txs && key.owner in s.users && RecentIssue(s.table, key, s.now - Cooldown(key.kind))
    ensures ValidRun(s, all) && AllOf(all, t) && Run(s, all) == s
  {
    var req := Issue(key, target);
    var started := Tx(req, Started, s.now, map[]);
    Then(s, [], t, s, Begin(t, req));
    all := [] + [Begin(t, req)];
    Then(s, all, t, With(s, t, started), Probe(t));
    MovedWith(s, t, started, Refused, map[]);
    all := all + [Probe(t)];
    all := RefusedCommits(s, all, s, t, req);
  }

  function BurnsFor(table: Table, todo: set<RowId>, epoch: int): Table {
    map id | id in todo && id in table :: Burned(table[id], epoch)
  }

  lemma BurnWith(s: State, t: TxId, req: Request, todo: set<RowId>, epoch: int, writes: Table, id: RowId)
    requires NoLocks(s) && id in todo && Pending(s.table, KeyOf(req), id)
    ensures Enabled(With(s, t, Tx(req, Sweeping(todo, epoch), s.now, writes)), Burn(t, id))
    ensures Apply(With(s, t, Tx(req, Sweeping(todo, epoch), s.now, writes)), Burn(t, id)) ==
            With(s, t, Tx(req, Sweeping(todo - {id}, epoch), s.now, writes[id := Burned(s.table[id], epoch)]))
  {
    var tx := Tx(req, Sweeping(todo, epoch), s.now, writes);
    NotLocked(s, t, tx, id);
    MovedWith(s, t, tx, Sweeping(todo - {id}, epoch), writes[id := Burned(s.table[id], epoch)]);
  }

  lemma BurnsAddUp(table: Table, todo: set<RowId>, epoch: int, writes: Table, id: RowId)
    requires id in todo && id in table
    ensures writes[id := Burned(table[id], epoch)] + BurnsFor(table, todo - {id}, epoch) == writes + BurnsFor(table, todo, epoch)
  {
  }

  /** Burning the remaining rows one lock at a time adds up to one InvalidatePending. */
  lemma {:induction false} BurnAll(start: State, steps: seq<Step>, s: State, t: TxId, req: Request, todo: set<RowId>,
                                   epoch: int, writes: Table)
    returns (all: seq<Step>)
    requires Leads(start, steps, t, With(s, t, Tx(req, Sweeping(todo, epoch), s.now, writes)))
    requires NoLocks(s) && forall id :: id in todo ==> Pending(s.table, KeyOf(req), id)
    ensures Leads(start, all, t, With(s, t, Tx(req, Sweeping({}, epoch), s.now, writes + BurnsFor(s.table, todo, epoch))))
    decreases todo
  {
    if todo == {} {
      all := steps;
      assert writes + BurnsFor(s.table, todo, epoch) == writes;
    } else {
      var id :| id in todo;
      assert Pending(s.table, KeyOf(req), id);
      BurnWith(s, t, req, todo, epoch, writes, id);
      Then(start, steps, t, With(s, t, Tx(req, Sweeping(todo, epoch), s.now, writes)), Burn(t, id));
      var writes' := writes[id := Burned(s.table[id], epoch)];
      all := BurnAll(start, steps + [Burn(t, id)], s, t, req, todo - {id}, epoch, writes');
      BurnsAddUp(s.table, todo, epoch, writes, id);
    }
  }

  lemma OpenIssue(s: State, t: TxId, req: Request) returns (all: seq<Step>)
    requires NoLocks(s) && t !in s.txs && !req.Spend? && CanBegin(s, req)
    requires !RecentIssue(s.table, KeyOf(req), s.now - Cooldown(KeyOf(req).kind))
    ensures Leads(s, all, t, With(s, t, Tx(req, Sweeping(PendingRows(s, KeyOf(req)), Epoch(s.now)), s.now, map[])))
  {
    var tx, key := Tx(req, Started, s.now, map[]), KeyOf(req);
    Then(s, [], t, s, Begin(t, req));
    all := [] + [Begin(t, req)];
    MovedWith(s, t, tx, Cleared, map[]);
    Then(s, all, t, With(s, t, tx), Probe(t));
    all := all + [Probe(t)];
    MovedWith(s, t, tx.(pc := Cleared), Stamped(Epoch(s.now)), map[]);
    Then(s, all, t, With(s, t, tx.(pc := Cleared)), Stamp(t));
    all := all + [Stamp(t)];
    assert PendingRows(With(s, t, tx.(pc := Stamped(Epoch(s.now)))), key) == PendingRows(s, key);
    MovedWith(s, t, tx.(pc := Stamped(Epoch(s.now))), Sweeping(PendingRows(s, key), Epoch(s.now)), map[]);
    Then(s, all, t, With(s, t, tx.(pc := Stamped(Epoch(s.now)))), Sweep(t));
    all := all + [Sweep(t)];
  }

  lemma CloseIssue(start: State, steps: seq<Step>, s: State, t: TxId, req: Request, code: string, id: RowId, burns: Table)
    returns (all: seq<Step>)
    requires !req.Spend? && Leads(start, steps, t, With(s, t, Tx(req, Sweeping({}, Epoch(s.now)), s.now, burns)))
    requires NoLocks(s) && id !in s.table && id !in burns
    ensures ValidRun(start, all) && AllOf(all, t)
    ensures Run(start, all).table == s.table + burns[id := NewRow(KeyOf(req), code, TargetOf(req), s.now, Epoch(s.now))]
    ensures Run(start, all).users == if req.Signup? then s.users[req.owner := Registered(req.email, req.hash)] else s.users
  {
    var tx := Tx(req, Sweeping({}, Epoch(s.now)), s.now, burns);
    var row := NewRow(KeyOf(req), code, TargetOf(req), s.now, Epoch(s.now));
    assert Unused(With(s, t, tx), id);
    MovedWith(s, t, tx, Filed(id, Epoch(s.now)), burns[id := row]);
    Then(start, steps, t, With(s, t, tx), File(t, id, code));
    all := steps + [File(t, id, code)];
    Then(start, all, t, With(s, t, tx.(pc := Filed(id, Epoch(s.now)), writes := burns[id := row])), Commit(t));
    all := all + [Commit(t)];
  }

  lemma SweptTableIsIssued(s: State, key: Key, target: string, code: string, id: RowId)
    requires id !in s.table
    ensures var burns := BurnsFor(s.table, PendingRows(s, key), Epoch(s.now));
            && id !in burns
            && s.table + burns[id := NewRow(key, code, target, s.now, Epoch(s.now))] ==
               S.Issued(s.table, key, code, target, id, s.now, Epoch(s.now))
  {
  }

  /** A request for a new code that runs without interruption and is not cooling down: old codes burned,
      one new row, exactly as the contract of `issue` says. */
  lemma IssuingAloneIsTheService(s: State, t: TxId, key: Key, target: string, code: string, id: RowId)
    returns (all: seq<Step>)
    requires NoLocks(s) && t !in s.txs && key.owner in s.users && id !in s.table
    requires !RecentIssue(s.table, key, s.now - Cooldown(key.kind))
    ensures ValidRun(s, all) && AllOf(all, t)
    ensures Run(s, all).table == S.Issued(s.table, key, code, target, id, s.now, Epoch(s.now))
    ensures Run(s, all).users == s.users
  {
    var todo := PendingRows(s, key);
    var burns := BurnsFor(s.table, todo, Epoch(s.now));
    all := OpenIssue(s, t, Issue(key, target));
    all := BurnAll(s, all, s, t, Issue(key, target), todo, Epoch(s.now), map[]);
    assert map[] + burns == burns;
    SweptTableIsIssued(s, key, target, code, id);
    all := CloseIssue(s, all, s, t, Issue(key, target), code, id, burns);
  }

  lemma NoRowsOfStrangers(s: State, key: Key)
    requires Inv(s) && key.owner !in s.users
    ensures PendingRows(s, key) == {} && !RecentIssue(s.table, key, s.now - Cooldown(key.kind))
  {
    hide TxsOk, LedgerOk, WinsOk, RowsOk, Exclusive;
  }

  /** A registration that runs without interruption: the new account, neither confirmed nor active, and its first
      confirmation code, good for fifteen minutes, land together. */
  lemma RegisteringAloneIsTheHandler(s: State, t: TxId, owner: UserId, email: string, hash: string, code: string, id: RowId)
    returns (all: seq<Step>)
    requires Reachable(s) && NoLocks(s) && t !in s.txs && id !in s.table
    requires owner !in s.users && forall o :: o in s.txs && s.txs[o].req.Signup? ==> s.txs[o].req.owner != owner
    ensures ValidRun(s, all) && AllOf(all, t)
    ensures Run(s, all).table ==
            s.table[id := Row(Key(owner, EmailConfirmation), code, email, s.now, s.now / 1_000_000 + 900, None, false)]
    ensures Run(s, all).users == s.users[owner := User(email, hash, false, false, 0)]
  {
    ReachableInv(s);
    var req := Signup(owner, email, hash);
    NoRowsOfStrangers(s, KeyOf(req));
    assert CanBegin(s, req);
    hide Inv, Reachable, NoLocks, CanBegin, Leads, RecentIssue, PendingRows, ValidRun, Run, AllOf;
    all := OpenIssue(s, t, req);
    all := CloseIssue(s, all, s, t, req, code, id, map[]);
    OneRowMore(s.table, id, NewRow(KeyOf(req), code, email, s.now, Epoch(s.now)));
  }

  lemma OneRowMore(table: Table, id: RowId, row: Row)
    ensures table + map[][id := row] == table[id := row]
  {
  }
}
