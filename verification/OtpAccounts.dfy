/** What the account columns hold along any run, column by column, and whose hash a password is. */
module OtpAccounts {
  import opened Options
  import opened OtpTable
  import opened Accounts
  import opened OtpProtocol
  import opened OtpSafety

  // ----- one step --------------------------------------------------------

  /** The step commits a spent code of this key. */
  predicate Spends(s: State, step: Step, key: Key) {
    && step.Commit? && step.t in s.txs && s.txs[step.t].pc.Won?
    && s.txs[step.t].req.Spend? && s.txs[step.t].req.key == key
  }

  /** The step commits the registration of `u`. */
  predicate Registers(s: State, step: Step, u: UserId) {
    && step.Commit? && step.t in s.txs && s.txs[step.t].pc.Filed?
    && s.txs[step.t].req.Signup? && s.txs[step.t].req.owner == u
  }

  /** All that one step may do to an account that is there: an administrator's toggle flips the two activity
      columns, a spent confirmation code sets the two flags, a spent reset code stores its hash. */
  lemma StepOnAccount(s: State, step: Step, u: UserId)
    requires Inv(s) && Enabled(s, step) && u in s.users
    ensures u in Apply(s, step).users
    ensures var before, after := s.users[u], Apply(s, step).users[u];
            after == if step == ToggleStatus(u) then
                       before.(isActive := !before.isActive,
                               status := if before.status >= 1 then before.status - 1 else 1 - before.status)
                     else if Spends(s, step, Key(u, EmailConfirmation)) then
                       before.(emailConfirmed := true, isActive := true)
                     else if Spends(s, step, Key(u, ForgotPassword)) then
                       before.(password := s.txs[step.t].req.hash)
                     else before
  {
    hide LedgerOk, WinsOk, RowsOk, Exclusive;
    if step.Commit? {
      assert TxOk(s.now, s.table, s.txs[step.t]);
    }
  }

  /** An account appears only by a registration: unconfirmed, inactive, with the address and hash given. */
  lemma StepOnNewcomer(s: State, step: Step, u: UserId)
    requires Inv(s) && Enabled(s, step) && u !in s.users
    ensures u in Apply(s, step).users <==> Registers(s, step, u)
    ensures Registers(s, step, u) ==>
              Apply(s, step).users[u] == User(s.txs[step.t].req.email, s.txs[step.t].req.hash, false, false, 0)
  {
    hide LedgerOk, WinsOk, RowsOk, Exclusive;
    if step.Commit? {
      assert TxOk(s.now, s.table, s.txs[step.t]);
    }
  }

  /** What a committed spending does to the table: the row it won was unused, unexpired at its reading and
      carried the code presented, and that row alone is stamped. */
  lemma SpendingStampsItsRow(s: State, step: Step, key: Key)
    requires Inv(s) && Enabled(s, step) && Spends(s, step, key)
    ensures var tx := s.txs[step.t];
            && tx.pc.id in s.table
            && var row := s.table[tx.pc.id];
            && row.key == key && row.code == tx.req.code
            && row.usedAt.None? && !row.verified && tx.pc.epoch <= row.expiresAt
            && Apply(s, step).table == s.table[tx.pc.id := row.(usedAt := Some(tx.pc.epoch), verified := true)]
  {
    hide LedgerOk, WinsOk, Exclusive, OwnersKnown;
    var tx := s.txs[step.t];
    assert TxOk(s.now, s.table, tx);
    assert s.table + map[tx.pc.id := Spent(s.table[tx.pc.id], tx.pc.epoch)] ==
           s.table[tx.pc.id := Spent(s.table[tx.pc.id], tx.pc.epoch)];
  }

  // ----- runs ------------------------------------------------------------

  /** The hash that a step stores for `u`, read off the request it commits. */
  function Sets(s: State, step: Step, u: UserId): Option<string> {
    if Spends(s, step, Key(u, ForgotPassword)) then Some(s.txs[step.t].req.hash)
    else if Registers(s, step, u) then Some(s.txs[step.t].req.hash)
    else None
  }

  /** The last hash that a run stores for `u`. */
  ghost function LastSet(s: State, steps: seq<Step>, u: UserId): Option<string>
    requires ValidRun(s, steps)
    decreases |steps|
  {
    if steps == [] then None
    else
      var later := LastSet(Apply(s, steps[0]), steps[1..], u);
      if later.Some? then later else Sets(s, steps[0], u)
  }

  lemma {:induction false} PasswordAlongRun(s: State, steps: seq<Step>, u: UserId)
    requires Inv(s) && ValidRun(s, steps) && u in Run(s, steps).users
    ensures u !in s.users ==> LastSet(s, steps, u).Some?
    ensures Run(s, steps).users[u].password ==
            if LastSet(s, steps, u).Some? then LastSet(s, steps, u).value else s.users[u].password
    decreases |steps|
  {
    if steps != [] {
      hide Inv, Apply, Enabled, Spends, Registers;
      var next := Apply(s, steps[0]);
      StepKeepsInv(s, steps[0]);
      PasswordAlongRun(next, steps[1..], u);
      PasswordStep(s, steps[0], u);
    }
  }

  lemma PasswordStep(s: State, step: Step, u: UserId)
    requires Inv(s) && Enabled(s, step)
    ensures u in s.users ==>
              && u in Apply(s, step).users
              && Apply(s, step).users[u].password == if Sets(s, step, u).Some? then Sets(s, step, u).value else s.users[u].password
    ensures u !in s.users ==>
              && (u in Apply(s, step).users <==> Sets(s, step, u).Some?)
              && (u in Apply(s, step).users ==> Apply(s, step).users[u].password == Sets(s, step, u).value)
  {
    if u in s.users {
      StepOnAccount(s, step, u);
      RegisteredAreNew(s, step, u);
    } else {
      StepOnNewcomer(s, step, u);
      SpendersAreKnown(s, step, u);
    }
  }

  lemma RegisteredAreNew(s: State, step: Step, u: UserId)
    requires Inv(s) && Enabled(s, step) && u in s.users
    ensures !Registers(s, step, u)
  {
  }

  lemma SpendersAreKnown(s: State, step: Step, u: UserId)
    requires Inv(s) && Enabled(s, step) && u !in s.users
    ensures forall kind :: !Spends(s, step, Key(u, kind))
  {
  }

  /** In every reachable state a password is the hash of the last committed reset of that account, or the
      hash it signed up with, or, with neither in the run, the one it started with. */
  lemma PasswordIsTheLastSet(start: State, steps: seq<Step>, u: UserId)
    requires Init(start) && ValidRun(start, steps) && u in Run(start, steps).users
    ensures u !in start.users ==> LastSet(start, steps, u).Some?
    ensures Run(start, steps).users[u].password ==
            if LastSet(start, steps, u).Some? then LastSet(start, steps, u).value else start.users[u].password
  {
    InitInv(start);
    PasswordAlongRun(start, steps, u);
  }

  /** A reset code of `u` that was spent between the two tables. */
  ghost predicate SpentBetween(before: Table, after: Table, key: Key) {
    exists id :: id in after && after[id].key == key && after[id].verified && !(id in before && before[id].verified)
  }

  lemma SpentEarlierCounts(before: Table, mid: Table, after: Table, key: Key)
    requires AllHonest(before) && AllHonest(mid) && Grows(before, mid) && Grows(mid, after)
    requires SpentBetween(before, mid, key) || SpentBetween(mid, after, key)
    ensures SpentBetween(before, after, key)
  {
    if SpentBetween(before, mid, key) {
      var id :| id in mid && mid[id].key == key && mid[id].verified && !(id in before && before[id].verified);
      assert id in after && after[id] == mid[id];
    } else {
      var id :| id in after && after[id].key == key && after[id].verified && !(id in mid && mid[id].verified);
      assert !(id in before && before[id].verified);
    }
  }

  /** One step stores no new hash, or spends a reset code. */
  lemma PasswordStepSpends(s: State, step: Step, u: UserId)
    requires Inv(s) && Enabled(s, step) && u in s.users
    ensures u in Apply(s, step).users
    ensures Apply(s, step).users[u].password == s.users[u].password
            || SpentBetween(s.table, Apply(s, step).table, Key(u, ForgotPassword))
  {
    StepOnAccount(s, step, u);
    if Spends(s, step, Key(u, ForgotPassword)) {
      SpendingStampsItsRow(s, step, Key(u, ForgotPassword));
      hide Inv, Enabled, Apply, Spends;
      assert s.txs[step.t].pc.id in Apply(s, step).table;
    }
  }

  /** A password changes only by spending a reset code of its owner: over any stretch of any run after which
      it differs, some code of that account became verified. */
  lemma {:induction false} PasswordChangeSpendsACode(s: State, steps: seq<Step>, u: UserId)
    requires Inv(s) && ValidRun(s, steps) && u in s.users
    ensures u in Run(s, steps).users
    ensures Run(s, steps).users[u].password != s.users[u].password ==>
              SpentBetween(s.table, Run(s, steps).table, Key(u, ForgotPassword))
    decreases |steps|
  {
    if steps != [] {
      var next, key := Apply(s, steps[0]), Key(u, ForgotPassword);
      PasswordStepSpends(s, steps[0], u);
      StepKeepsInv(s, steps[0]);
      StepGrows(s, steps[0]);
      RunKeepsInv(next, steps[1..]);
      PasswordChangeSpendsACode(next, steps[1..], u);
      assert AllHonest(s.table) && AllHonest(next.table);
      hide Inv, Apply, Enabled, SpentBetween, AllHonest, Grows;
      if Run(next, steps[1..]).users[u].password != s.users[u].password {
        SpentEarlierCounts(s.table, next.table, Run(next, steps[1..]).table, key);
      }
    }
  }
}
