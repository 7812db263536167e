/** What holds once the issues of one key do not overlap, and what breaks when they do.

    `issue` checks for a recent code and then acts on the answer without holding a lock, so two issues
    for one owner and kind must be kept apart by the caller for the claims of this module.
  */
module OtpSerial {
  import opened Options
  import opened OtpTable
  import opened Accounts
  import opened OtpProtocol
  import opened OtpSafety

  predicate Issuing(tx: Tx, key: Key) {
    !tx.req.Spend? && KeyOf(tx.req) == key
  }

  /** The hypothesis: an issue starts only when no other issue of its key is under way. */
  predicate Serialised(s: State, step: Step) {
    step.Begin? && !step.req.Spend? ==> forall t :: t in s.txs ==> !Issuing(s.txs[t], KeyOf(step.req))
  }

  ghost predicate SerialRun(s: State, steps: seq<Step>)
    decreases |steps|
  {
    steps == [] || (Enabled(s, steps[0]) && Serialised(s, steps[0]) && SerialRun(Apply(s, steps[0]), steps[1..]))
  }

  lemma {:induction false} SerialRunIsValid(s: State, steps: seq<Step>)
    requires SerialRun(s, steps)
    ensures ValidRun(s, steps)
    decreases |steps|
  {
    if steps != [] {
      SerialRunIsValid(Apply(s, steps[0]), steps[1..]);
    }
  }

  ghost predicate SerialReachable(s: State) {
    exists start, steps :: Init(start) && SerialRun(start, steps) && ValidRun(start, steps) && s == Run(start, steps)
  }

  // ----- the invariant ---------------------------------------------------

  ghost predicate OneIssuer(txs: map<TxId, Tx>) {
    forall t, other :: t in txs && other in txs && t != other && !txs[t].req.Spend? && !txs[other].req.Spend? ==>
      KeyOf(txs[t].req) != KeyOf(txs[other].req)
  }

  predicate Apart(a: Row, b: Row) {
    a.createdAt + Cooldown(a.key.kind) < b.createdAt || b.createdAt + Cooldown(a.key.kind) < a.createdAt
  }

  /** Rows of one key are more than a cooldown apart, and an unused one is the newest of its key. */
  ghost predicate Spaced(table: Table) {
    forall a, b :: a in table && b in table && a != b && table[a].key == table[b].key ==>
      && Apart(table[a], table[b])
      && (Live(table[b]) ==> table[a].createdAt < table[b].createdAt)
  }

  /** An issue past its cooldown check started more than a cooldown after every row of its key; its own row is
      stamped no earlier than it started. */
  ghost predicate Ahead(table: Table, tx: Tx) {
    var key := KeyOf(tx.req);
    tx.pc.Cleared? || tx.pc.Stamped? || tx.pc.Sweeping? || tx.pc.Filed? ==>
      forall id :: id in table && table[id].key == key ==> table[id].createdAt + Cooldown(key.kind) < tx.startedAt
  }

  /** An issue past its sweep has burned, or still has to visit, every unused row of its key. */
  ghost predicate Swept(table: Table, tx: Tx) {
    && (tx.pc.Sweeping? ==> forall id :: Pending(table, KeyOf(tx.req), id) ==> id in tx.pc.todo || id in tx.writes)
    && (tx.pc.Filed? ==> forall id :: Pending(table, KeyOf(tx.req), id) ==> id in tx.writes)
  }

  ghost predicate IssuersOk(table: Table, txs: map<TxId, Tx>) {
    forall t :: t in txs ==> Ahead(table, txs[t]) && Swept(table, txs[t])
  }

  ghost predicate SerialInv(s: State) {
    && Inv(s)
    && OneIssuer(s.txs)
    && Spaced(s.table)
    && IssuersOk(s.table, s.txs)
  }

  /** Committing an issue keeps the spacing: its row is new, far enough ahead, and alone unused. */
  lemma CommitSpaced(now: nat, table: Table, tx: Tx)
    requires TxOk(now, table, tx) && Finishing(tx.pc) && RowsOk(now, table)
    requires Spaced(table) && Ahead(table, tx) && Swept(table, tx)
    ensures Spaced(table + tx.writes)
  {
    CommitRows(now, table, tx);
    var after := table + tx.writes;
    forall a, b | a in after && b in after && a != b && after[a].key == after[b].key
      ensures Apart(after[a], after[b])
      ensures Live(after[b]) ==> after[a].createdAt < after[b].createdAt
    {
      assert CommitRow(table, tx, a, after[a]) && CommitRow(table, tx, b, after[b]);
      if a in table && b in table {
        assert Apart(table[a], table[b]);
        assert Live(after[b]) ==> Live(table[b]);
      } else if tx.pc.Filed? && a == tx.pc.id {
        assert b in table;
        assert !Live(after[b]) by {
          if Live(table[b]) {
            assert Pending(table, KeyOf(tx.req), b);
          }
        }
      }
    }
  }

  lemma CommitKeepsIssuer(now: nat, table: Table, tx: Tx, other: Tx)
    requires TxOk(now, table, tx) && TxOk(now, table, other) && Finishing(tx.pc) && RowsOk(now, table)
    requires !tx.req.Spend? && !other.req.Spend? ==> KeyOf(tx.req) != KeyOf(other.req)
    requires Ahead(table, other) && Swept(table, other)
    ensures Ahead(table + tx.writes, other) && Swept(table + tx.writes, other)
  {
    CommitRows(now, table, tx);
    var after := table + tx.writes;
    if other.pc.Cleared? || other.pc.Stamped? || other.pc.Sweeping? || other.pc.Filed? {
      forall id | id in after && after[id].key == KeyOf(other.req)
        ensures id in table && after[id].createdAt == table[id].createdAt && table[id].key == after[id].key
        ensures Live(after[id]) ==> Live(table[id])
      {
        assert CommitRow(table, tx, id, after[id]);
      }
    }
  }

  lemma CommitKeepsSerial(s: State, t: TxId)
    requires SerialInv(s) && t in s.txs && Finishing(s.txs[t].pc)
    ensures SerialInv(Committed(s, t))
  {
    CommitKeepsInv(s, t);
    assert TxOk(s.now, s.table, s.txs[t]);
    CommitSpaced(s.now, s.table, s.txs[t]);
    forall other | other in s.txs - {t}
      ensures Ahead(s.table + s.txs[t].writes, s.txs[other]) && Swept(s.table + s.txs[t].writes, s.txs[other])
    {
      assert TxOk(s.now, s.table, s.txs[other]);
      CommitKeepsIssuer(s.now, s.table, s.txs[t], s.txs[other]);
    }
  }

  lemma MoveKeepsSerial(s: State, t: TxId, pc: Pc, writes: Table)
    requires SerialInv(s) && t in s.txs && Inv(Move(s, t, pc, writes))
    requires Ahead(s.table, s.txs[t].(pc := pc, writes := writes))
    requires Swept(s.table, s.txs[t].(pc := pc, writes := writes))
    ensures SerialInv(Move(s, t, pc, writes))
  {
  }

  /** Only a clear probe lets an issue past its check, and then it is ahead of every row of its key. */
  lemma ProbeAhead(s: State, t: TxId)
    requires SerialInv(s) && Enabled(s, Probe(t))
    ensures Ahead(s.table, Apply(s, Probe(t)).txs[t])
  {
    var key := KeyOf(s.txs[t].req);
    if !RecentIssue(s.table, key, s.txs[t].startedAt - Cooldown(key.kind)) {
      assert forall id :: id in s.table && s.table[id].key == key ==>
          s.table[id].createdAt < s.txs[t].startedAt - Cooldown(key.kind);
    }
  }

  /** Where a spending transaction moves is no concern of any issue. */
  lemma SpendMoveKeepsSerial(s: State, t: TxId, pc: Pc, writes: Table)
    requires SerialInv(s) && t in s.txs && Inv(Move(s, t, pc, writes))
    requires pc.Looked? || pc.Checked? || pc.Aimed? || pc.Won? || pc.Refused?
    ensures SerialInv(Move(s, t, pc, writes))
  {
    MoveKeepsSerial(s, t, pc, writes);
  }

  lemma LookupKeepsSerial(s: State, t: TxId, hit: Option<RowId>)
    requires SerialInv(s) && Enabled(s, Lookup(t, hit))
    ensures SerialInv(Apply(s, Lookup(t, hit)))
  {
    LookupKeepsInv(s, t, hit);
    SpendMoveKeepsSerial(s, t, if hit.None? then Refused else Looked(hit.value, s.table[hit.value]), s.txs[t].writes);
  }

  lemma UpdateKeepsSerial(s: State, t: TxId)
    requires SerialInv(s) && Enabled(s, Update(t))
    ensures SerialInv(Apply(s, Update(t)))
  {
    UpdateKeepsInv(s, t);
    var tx' := Apply(s, Update(t)).txs[t];
    SpendMoveKeepsSerial(s, t, tx'.pc, tx'.writes);
  }

  lemma CheckOrAimKeepsSerial(s: State, step: Step)
    requires SerialInv(s) && Enabled(s, step) && (step.Check? || step.Aim?)
    ensures SerialInv(Apply(s, step))
  {
    CheckOrAimKeepsInv(s, step);
    SpendMoveKeepsSerial(s, step.t, Apply(s, step).txs[step.t].pc, s.txs[step.t].writes);
  }

  lemma IssueStepKeepsSerial(s: State, step: Step)
    requires SerialInv(s) && Enabled(s, step)
    requires step.Probe? || step.Stamp? || step.Sweep?
    ensures SerialInv(Apply(s, step))
  {
    StepKeepsInv(s, step);
    assert Ahead(s.table, s.txs[step.t]);
    if step.Probe? {
      ProbeAhead(s, step.t);
    }
    var tx' := Apply(s, step).txs[step.t];
    assert Apply(s, step) == Move(s, step.t, tx'.pc, tx'.writes);
    MoveKeepsSerial(s, step.t, tx'.pc, tx'.writes);
  }

  lemma BurnKeepsSerial(s: State, t: TxId, id: RowId)
    requires SerialInv(s) && Enabled(s, Burn(t, id))
    ensures SerialInv(Apply(s, Burn(t, id)))
  {
    BurnKeepsInv(s, t, id);
    assert Ahead(s.table, s.txs[t]) && Swept(s.table, s.txs[t]);
    var tx' := Apply(s, Burn(t, id)).txs[t];
    MoveKeepsSerial(s, t, tx'.pc, tx'.writes);
  }

  lemma FileKeepsSerial(s: State, t: TxId, id: RowId, code: string)
    requires SerialInv(s) && Enabled(s, File(t, id, code))
    ensures SerialInv(Apply(s, File(t, id, code)))
  {
    FileKeepsInv(s, t, id, code);
    assert Ahead(s.table, s.txs[t]) && Swept(s.table, s.txs[t]);
    var tx' := Apply(s, File(t, id, code)).txs[t];
    MoveKeepsSerial(s, t, tx'.pc, tx'.writes);
  }

  lemma NewcomerKeepsSerial(table: Table, txs: map<TxId, Tx>, t: TxId, tx: Tx)
    requires OneIssuer(txs) && IssuersOk(table, txs) && t !in txs && tx.pc.Started?
    requires !tx.req.Spend? ==> forall other :: other in txs ==> !Issuing(txs[other], KeyOf(tx.req))
    ensures OneIssuer(txs[t := tx]) && IssuersOk(table, txs[t := tx])
  {
  }

  lemma BeginKeepsSerial(s: State, t: TxId, req: Request)
    requires SerialInv(s) && Enabled(s, Begin(t, req)) && Serialised(s, Begin(t, req))
    ensures SerialInv(Apply(s, Begin(t, req)))
  {
    BeginKeepsInv(s, t, req);
    NewcomerKeepsSerial(s.table, s.txs, t, Tx(req, Started, s.now, map[]));
  }

  lemma StepKeepsSerial(s: State, step: Step)
    requires SerialInv(s) && Enabled(s, step) && Serialised(s, step)
    ensures SerialInv(Apply(s, step))
  {
    match step
    case Commit(t) => CommitKeepsSerial(s, t);
    case Tick(delta) => TickKeepsInv(s, delta);
    case ToggleStatus(_) => StepKeepsInv(s, step);
    case Begin(t, req) => BeginKeepsSerial(s, t, req);
    case Abort(t) => AbortKeepsInv(s, t);
    case Burn(t, id) => BurnKeepsSerial(s, t, id);
    case File(t, id, code) => FileKeepsSerial(s, t, id, code);
    case Lookup(t, hit) => LookupKeepsSerial(s, t, hit);
    case Update(t) => UpdateKeepsSerial(s, t);
    case Check(_) => CheckOrAimKeepsSerial(s, step);
    case Aim(_) => CheckOrAimKeepsSerial(s, step);
    case _ => IssueStepKeepsSerial(s, step);
  }

  lemma {:induction false} SerialRunKeeps(s: State, steps: seq<Step>)
    requires SerialInv(s) && SerialRun(s, steps) && ValidRun(s, steps)
    ensures SerialInv(Run(s, steps))
    decreases |steps|
  {
    if steps != [] {
      StepKeepsSerial(s, steps[0]);
      SerialRunKeeps(Apply(s, steps[0]), steps[1..]);
    }
  }

  lemma SerialReachableInv(s: State)
    requires SerialReachable(s)
    ensures SerialInv(s)
  {
    var start, steps :| Init(start) && SerialRun(start, steps) && ValidRun(start, steps) && s == Run(start, steps);
    InitInv(start);
    SerialRunKeeps(start, steps);
  }

  /** A step of transaction `t`, or one that belongs to no transaction. */
  predicate InTurn(step: Step, t: TxId) {
    step.Tick? || step.ToggleStatus? || step.t == t
  }

  lemma InTurnStep(s: State, step: Step, t: TxId)
    requires Enabled(s, step) && InTurn(step, t) && forall other :: other in s.txs ==> other == t
    ensures Serialised(s, step) && forall other :: other in Apply(s, step).txs ==> other == t
  {
  }

  /** Requests made one after another meet the hypothesis: any run of one transaction number, begun again after
      every commit or abort, is serial. */
  lemma {:induction false} RequestsInTurnAreSerial(s: State, steps: seq<Step>, t: TxId)
    requires ValidRun(s, steps) && forall i :: 0 <= i < |steps| ==> InTurn(steps[i], t)
    requires forall other :: other in s.txs ==> other == t
    ensures SerialRun(s, steps)
    ensures Init(s) ==> SerialReachable(Run(s, steps))
    decreases |steps|
  {
    if steps != [] {
      InTurnStep(s, steps[0], t);
      hide Apply, Enabled, Serialised, InTurn;
      RequestsInTurnAreSerial(Apply(s, steps[0]), steps[1..], t);
    }
  }

  // ----- the claims ------------------------------------------------------

  /** At most one unused code per owner and kind, and it is the newest of its key. */
  lemma OneLiveCode(s: State, key: Key)
    requires SerialReachable(s)
    ensures forall a, b :: Pending(s.table, key, a) && Pending(s.table, key, b) ==> a == b
    ensures forall a, b :: Pending(s.table, key, a) && b in s.table && s.table[b].key == key && b != a ==>
              s.table[b].createdAt < s.table[a].createdAt
  {
    SerialReachableInv(s);
  }

  predicate NewestOfKey(table: Table, key: Key, id: RowId) {
    && id in table && table[id].key == key
    && forall other :: other in table && table[other].key == key ==> table[other].createdAt <= table[id].createdAt
  }

  /** The code issued last resolves to its own row, whatever digits older rows share with it. */
  lemma LastIssuedCodeResolves(s: State, t: TxId, hit: Option<RowId>, last: RowId)
    requires SerialReachable(s) && Enabled(s, Lookup(t, hit))
    requires NewestOfKey(s.table, KeyOf(s.txs[t].req), last) && s.table[last].code == s.txs[t].req.code
    ensures hit == Some(last)
    ensures Enabled(s, Lookup(t, Some(last)))
  {
    SerialReachableInv(s);
    assert !NoMatch(s.table, s.txs[t].req.key, s.txs[t].req.code) by {
      assert Matches(s.table[last], s.txs[t].req.key, s.txs[t].req.code);
    }
    if hit.Some? && hit.value != last {
      assert false;
    }
  }

  lemma SerialIsReachable(s: State)
    requires SerialReachable(s)
    ensures Reachable(s)
  {
    var start, steps :| Init(start) && SerialRun(start, steps) && ValidRun(start, steps) && s == Run(start, steps);
  }

  /** Presenting the code issued last: the attempt works on that code's own row, and through every
      continuation it has won only while that row was usable and been refused only once it was not. */
  lemma LastIssuedCodeOutcome(s: State, t: TxId, hit: Option<RowId>, last: RowId, later: seq<Step>)
    requires SerialReachable(s) && Enabled(s, Lookup(t, hit))
    requires NewestOfKey(s.table, KeyOf(s.txs[t].req), last) && s.table[last].code == s.txs[t].req.code
    requires ValidRun(Apply(s, Lookup(t, hit)), later)
    requires forall i :: 0 <= i < |later| ==> KeepsGoing(later[i], t)
    ensures var end := Run(Apply(s, Lookup(t, hit)), later);
            && t in end.txs && last in end.table
            && (end.txs[t].pc.Won? ==> end.txs[t].pc.id == last && Consumable(end.table[last], end.txs[t].pc.epoch))
            && (end.txs[t].pc.Refused? ==> !Consumable(end.table[last], Epoch(end.now)))
  {
    LastIssuedCodeResolves(s, t, hit, last);
    SerialIsReachable(s);
    AttemptFollowsTheRow(s, t, last, later);
  }

  /** Presenting the code issued last, up to the consuming UPDATE: after any continuation the attempt aims at
      that code's own row; the UPDATE never waits for a row it cannot take, and once it can run it takes the
      code exactly when the committed row is then unused and unexpired at its reading. */
  lemma SpendDecides(s: State, t: TxId, hit: Option<RowId>, last: RowId, later: seq<Step>)
    requires SerialReachable(s) && Enabled(s, Lookup(t, hit))
    requires NewestOfKey(s.table, KeyOf(s.txs[t].req), last) && s.table[last].code == s.txs[t].req.code
    requires ValidRun(Apply(s, Lookup(t, hit)), later)
    requires forall i :: 0 <= i < |later| ==> KeepsGoing(later[i], t)
    requires var end := Run(Apply(s, Lookup(t, hit)), later);
             t in end.txs && end.txs[t].pc.Aimed?
    ensures var end := Run(Apply(s, Lookup(t, hit)), later);
            && last in end.table && end.txs[t].pc.id == last
            && (!Consumable(end.table[last], end.txs[t].pc.epoch) ==> Enabled(end, Update(t)))
            && (Enabled(end, Update(t)) ==>
                  && (Apply(end, Update(t)).txs[t].pc.Won? <==> Consumable(end.table[last], end.txs[t].pc.epoch))
                  && (Apply(end, Update(t)).txs[t].pc.Refused? <==> !Consumable(end.table[last], end.txs[t].pc.epoch)))
  {
    LastIssuedCodeResolves(s, t, hit, last);
    SerialIsReachable(s);
    ReachableInv(s);
    StepKeepsInv(s, Lookup(t, hit));
    TracksRun(Apply(s, Lookup(t, hit)), later, t, last);
  }

  /** Codes of one key, used or not, are more than a minute apart. */
  lemma IssuesAreSpaced(s: State, a: RowId, b: RowId)
    requires SerialReachable(s) && a in s.table && b in s.table && a != b && s.table[a].key == s.table[b].key
    ensures s.table[a].createdAt + 60_000_000 < s.table[b].createdAt || s.table[b].createdAt + 60_000_000 < s.table[a].createdAt
  {
    SerialReachableInv(s);
  }

  /** How many codes of one key can fall into a window of length `w` microseconds. */
  lemma CooldownBoundsIssues(s: State, key: Key, from: int, w: nat)
    requires SerialReachable(s)
    ensures |set id | id in s.table && s.table[id].key == key && from <= s.table[id].createdAt <= from + w|
            <= w / 60_000_000 + 1
  {
    SerialReachableInv(s);
    var ids := set id | id in s.table && s.table[id].key == key && from <= s.table[id].createdAt <= from + w;
    var times: map<RowId, int> := map id | id in ids :: s.table[id].createdAt - from;
    assert times.Keys == ids;
    forall a, b | a in times && b in times && a != b
      ensures MoreThanApart(times[a], times[b], Cooldown(key.kind))
    {
      assert Apart(s.table[a], s.table[b]);
    }
    WindowBound(times, Cooldown(key.kind), w);
  }

  predicate MoreThanApart(x: int, y: int, c: int) {
    x + c < y || y + c < x
  }

  lemma WindowBound(times: map<RowId, int>, c: nat, w: nat)
    requires c > 0
    requires forall a, b :: a in times && b in times && a != b ==> MoreThanApart(times[a], times[b], c)
    requires forall id :: id in times ==> 0 <= times[id] <= w
    ensures |times.Keys| <= w / c + 1
  {
    var slot: map<RowId, int> := map id | id in times :: Slot(times[id], c);
    forall id | id in slot
      ensures 0 <= slot[id] <= Slot(w, c)
    {
      QuotientsGrow(times[id], w, c);
    }
    forall a, b | a in slot && b in slot && a != b
      ensures slot[a] != slot[b]
    {
      DifferentSlots(times[a], times[b], c);
    }
    SlotsBound(slot, Slot(w, c));
    assert slot.Keys == times.Keys;
  }

  /** The number of whole stretches of length `c` before `x`. */
  function Slot(x: int, c: int): int
    requires c > 0
  {
    x / c
  }

  lemma DifferentSlots(x: int, y: int, c: int)
    requires c > 0 && MoreThanApart(x, y, c)
    ensures Slot(x, c) != Slot(y, c)
  {
    if Slot(x, c) == Slot(y, c) {
      SameSlot(x, y, c);
    }
  }

  /** Cut time into slots one cooldown long: no slot holds two codes, so slots bound the codes. */
  lemma {:induction false} SlotsBound(slot: map<RowId, int>, slots: nat)
    requires forall a, b :: a in slot && b in slot && a != b ==> slot[a] != slot[b]
    requires forall id :: id in slot ==> 0 <= slot[id] <= slots
    ensures |slot.Keys| <= slots + 1
    decreases slots
  {
    var last := set id | id in slot && slot[id] == slots;
    if a :| a in last {
      assert last == {a};
    }
    assert |last| <= 1;
    var rest := slot - last;
    assert slot.Keys == rest.Keys + last;
    if slots > 0 {
      SlotsBound(rest, slots - 1);
    } else {
      assert rest.Keys == {};
    }
  }

  lemma SameSlot(x: int, y: int, c: int)
    requires c > 0 && Slot(x, c) == Slot(y, c)
    ensures x - y < c && y - x < c
  {
    var q := Slot(x, c);
    assert x == q * c + x % c;
    assert y == q * c + y % c;
  }

  lemma QuotientsGrow(x: nat, y: nat, c: nat)
    requires c > 0 && x <= y
    ensures 0 <= Slot(x, c) <= Slot(y, c)
  {
    var d, q := Slot(x, c), Slot(y, c);
    assert x == d * c + x % c;
    assert y == q * c + y % c;
    if d >= q + 1 {
      ProductsGrow(q + 1, d, c);
    }
  }

  lemma ProductsGrow(d: int, e: int, c: nat)
    requires d <= e
    ensures d * c <= e * c
  {
  }

  // ----- overlapping issues ----------------------------------------------

  /** An issue that has burned everything it saw and is about to insert its row. */
  predicate AboutToFile(s: State, t: TxId, key: Key) {
    t in s.txs && Issuing(s.txs[t], key) && s.txs[t].pc.Sweeping? && s.txs[t].pc.todo == {}
  }

  /** Inserting one more row moves only the inserting transaction. */
  lemma FileOne(start: State, steps: seq<Step>, t: TxId, key: Key, id: RowId)
    requires ValidRun(start, steps) && AboutToFile(Run(start, steps), t, key) && Unused(Run(start, steps), id)
    ensures ValidRun(start, steps + [File(t, id, "")])
    ensures var s := Run(start, steps);
            var s' := Run(start, steps + [File(t, id, "")]);
            && t in s'.txs && s' == s.(txs := s.txs[t := s'.txs[t]])
            && s'.txs[t].pc.Filed?
            && s'.txs[t].writes.Keys == s.txs[t].writes.Keys + {id}
            && s'.txs[t].writes[id].key == key && Live(s'.txs[t].writes[id])
            && s'.txs[t].writes[id].createdAt == s.now
  {
    Extend(start, steps, File(t, id, ""));
  }

  lemma CommitOne(start: State, steps: seq<Step>, t: TxId)
    requires ValidRun(start, steps) && t in Run(start, steps).txs && Run(start, steps).txs[t].pc.Filed?
    ensures ValidRun(start, steps + [Commit(t)])
    ensures var s := Run(start, steps);
            var s' := Run(start, steps + [Commit(t)]);
            s'.table == s.table + s.txs[t].writes && s'.txs == s.txs - {t}
  {
    Extend(start, steps, Commit(t));
  }

  lemma TickOne(start: State, steps: seq<Step>, delta: nat)
    requires ValidRun(start, steps)
    ensures ValidRun(start, steps + [Tick(delta)])
    ensures Run(start, steps + [Tick(delta)]) == Run(start, steps).(now := Run(start, steps).now + delta)
  {
    Extend(start, steps, Tick(delta));
  }

  /** From any state in which two issues of one key have both finished sweeping, both can commit; the key then
      has two unused codes, stamped when they were flushed, any time `delta` apart. So the newer of the two is
      the one flushed last, whichever issue started first. */
  lemma OverlapBreaksOneLiveCode(start: State, steps: seq<Step>, t: TxId, other: TxId, key: Key, id: RowId, id': RowId,
                                 delta: nat)
    returns (all: seq<Step>)
    requires ValidRun(start, steps)
    requires t != other && id != id'
    requires var s := Run(start, steps);
             && AboutToFile(s, t, key) && AboutToFile(s, other, key)
             && Unused(s, id) && Unused(s, id')
    ensures ValidRun(start, all)
    ensures var s := Run(start, steps);
            var table := Run(start, all).table;
            && Pending(table, key, id) && Pending(table, key, id')
            && table[id].createdAt == s.now && table[id'].createdAt == s.now + delta
  {
    var s := Run(start, steps);
    FileOne(start, steps, t, key, id);
    var steps1 := steps + [File(t, id, "")];
    TickOne(start, steps1, delta);
    var steps2 := steps1 + [Tick(delta)];
    var s2 := Run(start, steps2);
    assert Unused(s2, id');
    FileOne(start, steps2, other, key, id');
    var steps3 := steps2 + [File(other, id', "")];
    var s3 := Run(start, steps3);
    CommitOne(start, steps3, t);
    var steps4 := steps3 + [Commit(t)];
    CommitOne(start, steps4, other);
    all := steps4 + [Commit(other)];
    assert s3.txs[t] == s2.txs[t] && id !in s.txs[other].writes;
    BothRowsLand(s.table, s3.txs[t].writes, s3.txs[other].writes, key, id, id');
  }

  lemma BothRowsLand(table: Table, first: Table, second: Table, key: Key, id: RowId, id': RowId)
    requires id in first && first[id].key == key && Live(first[id]) && id !in second
    requires id' in second && second[id'].key == key && Live(second[id'])
    ensures var after := table + first + second;
            && Pending(after, key, id) && Pending(after, key, id')
            && after[id] == first[id] && after[id'] == second[id']
  {
  }

  /** The first three statements of an issue, run while the table is empty. */
  lemma SweepEmpty(start: State, steps: seq<Step>, t: TxId) returns (all: seq<Step>)
    requires ValidRun(start, steps)
    requires var s := Run(start, steps);
             t in s.txs && s.table == map[] && s.txs[t].pc.Started? && !s.txs[t].req.Spend? && s.txs[t].writes == map[]
    ensures ValidRun(start, all)
    ensures var s := Run(start, steps);
            Run(start, all) == s.(txs := s.txs[t := s.txs[t].(pc := Sweeping({}, Epoch(s.now)))])
  {
    var s := Run(start, steps);
    Extend(start, steps, Probe(t));
    var steps1 := steps + [Probe(t)];
    Extend(start, steps1, Stamp(t));
    var steps2 := steps1 + [Stamp(t)];
    Extend(start, steps2, Sweep(t));
    all := steps2 + [Sweep(t)];
    assert PendingRows(Run(start, steps2), KeyOf(s.txs[t].req)) == {};
    var txs := s.txs;
    assert txs[t := txs[t].(pc := Cleared)][t := txs[t].(pc := Stamped(Epoch(s.now)))][t := txs[t].(pc := Sweeping({}, Epoch(s.now)))]
        == txs[t := txs[t].(pc := Sweeping({}, Epoch(s.now)))];
  }

  /** Two issues of one key, one after the other allowed to sweep, neither committed. */
  lemma OverlapStarts(start: State, key: Key) returns (steps: seq<Step>)
    requires Init(start) && key.owner in start.users
    ensures ValidRun(start, steps)
    ensures var s := Run(start, steps);
            && s.table == map[] && AboutToFile(s, 0, key) && AboutToFile(s, 1, key)
            && s.txs.Keys == {0, 1} && s.txs[0].writes == s.txs[1].writes == map[]
            && s.txs[0].startedAt == s.txs[1].startedAt
  {
    assert ValidRun(start, []) && Run(start, []) == start;
    Extend(start, [], Begin(0, Issue(key, "")));
    steps := [] + [Begin(0, Issue(key, ""))];
    Extend(start, steps, Begin(1, Issue(key, "")));
    steps := steps + [Begin(1, Issue(key, ""))];
    steps := SweepEmpty(start, steps, 0);
    steps := SweepEmpty(start, steps, 1);
  }

  /** The hypothesis of this module cannot be dropped: wherever a user exists, two overlapping issues of one
      kind can leave two unused codes, any time apart, none included. */
  lemma OverlapIsReachable(start: State, key: Key, delta: nat) returns (steps: seq<Step>)
    requires Init(start) && key.owner in start.users
    ensures ValidRun(start, steps)
    ensures var table := Run(start, steps).table;
            && Pending(table, key, 0) && Pending(table, key, 1)
            && table[1].createdAt == table[0].createdAt + delta
  {
    steps := OverlapStarts(start, key);
    steps := OverlapBreaksOneLiveCode(start, steps, 0, 1, key, 0, 1, delta);
  }
}
