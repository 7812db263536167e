/** Uploads and deletes that interleave step by step, with a failure allowed at any step. A file is named by
    its upload and its part; BlobStorage.PathsNameTheirStem is why that names a path. The number of an upload
    stands for its fresh file stem and for the fresh id of its row. */
module BlobRuns {
  import opened BlobStorage

  datatype Part = Original | Medium | Thumbnail

  datatype File = File(upload: nat, part: Part)

  /** Where a request stands. An upload's number is its key in `ops`. */
  datatype Op =
    | Storing(image: bool)
    | Scaling(parts: seq<Part>, stored: set<File>)
    | Inserting(stored: set<File>)
    | Inserted(stored: set<File>)
    | Checked(row: nat)
    | Deleting(row: nat, paths: set<File>)
    | Deleted(row: nat, paths: set<File>)
    | Unlinking(todo: set<File>)

  type Ops = map<nat, Op>
  type Rows = map<nat, set<File>>

  /** `trouble`: an upload's commit or a storage step has failed, or a request was cut off. */
  datatype State = State(files: set<File>, rows: Rows, ops: Ops, next: nat, trouble: bool)

  datatype Step =
    | BeginUpload(image: bool)
    | WriteOriginal(n: nat, fault: WriteFault)
    | WriteVariant(n: nat, scaled: VariantFault)
    | InsertRow(n: nat, ok: bool)
    | CommitUpload(n: nat, ok: bool)
    | BeginDelete(row: nat)
    | ReadPaths(n: nat)
    | DeleteRow(n: nat, ok: bool)
    | CommitDelete(n: nat, ok: bool)
    | Unlink(n: nat, file: File, ok: bool)
    | EndUnlinking(n: nat)
    | CutOff(n: nat)

  predicate Enabled(s: State, step: Step) {
    match step
    case BeginUpload(_) => true
    case WriteOriginal(n, _) => n in s.ops && s.ops[n].Storing?
    case WriteVariant(n, _) => n in s.ops && s.ops[n].Scaling? && s.ops[n].parts != []
    case InsertRow(n, _) => n in s.ops && (s.ops[n].Inserting? || (s.ops[n].Scaling? && s.ops[n].parts == []))
    case CommitUpload(n, _) => n in s.ops && s.ops[n].Inserted?
    case BeginDelete(row) => row in s.rows
    case ReadPaths(n) => n in s.ops && s.ops[n].Checked?
    case DeleteRow(n, _) => n in s.ops && s.ops[n].Deleting?
    case CommitDelete(n, _) => n in s.ops && s.ops[n].Deleted?
    case Unlink(n, file, _) => n in s.ops && s.ops[n].Unlinking? && file in s.ops[n].todo
    case EndUnlinking(n) => n in s.ops && s.ops[n].Unlinking? && s.ops[n].todo == {}
    case CutOff(n) => n in s.ops
  }

  function Removed(ops: Ops, n: nat): Ops {
    map m | m in ops && m != n :: ops[m]
  }

  function Apply(s: State, step: Step): State
    requires Enabled(s, step)
  {
    match step
    case BeginUpload(image) => s.(ops := s.ops[s.next := Storing(image)], next := s.next + 1)
    case WriteOriginal(n, fault) =>
      var f := File(n, Original);
      if fault == Written then
        s.(files := s.files + {f},
           ops := s.ops[n := if s.ops[n].image then Scaling([Medium, Thumbnail], {f}) else Inserting({f})])
      else
        s.(files := if fault == HalfWritten then s.files + {f} else s.files,
           ops := Removed(s.ops, n),
           trouble := s.trouble || fault == HalfWritten)
    case WriteVariant(n, scaled) =>
      var f, op := File(n, s.ops[n].parts[0]), s.ops[n];
      s.(files := if scaled.Built? && scaled.write != NotWritten then s.files + {f} else s.files,
         ops := s.ops[n := Scaling(op.parts[1..], if scaled == Built(Written) then op.stored + {f} else op.stored)],
         trouble := s.trouble || scaled == Built(HalfWritten))
    case InsertRow(n, ok) => s.(ops := s.ops[n := if ok then Inserted(s.ops[n].stored) else Unlinking(s.ops[n].stored)])
    case CommitUpload(n, ok) =>
      if ok then s.(rows := s.rows[n := s.ops[n].stored], ops := Removed(s.ops, n))
      else s.(ops := Removed(s.ops, n), trouble := true)
    case BeginDelete(row) => s.(ops := s.ops[s.next := Checked(row)], next := s.next + 1)
    case ReadPaths(n) =>
      var row := s.ops[n].row;
      s.(ops := s.ops[n := Deleting(row, if row in s.rows then s.rows[row] else {})])
    case DeleteRow(n, ok) =>
      if ok then s.(ops := s.ops[n := Deleted(s.ops[n].row, s.ops[n].paths)]) else s.(ops := Removed(s.ops, n))
    case CommitDelete(n, ok) =>
      if ok then s.(rows := s.rows - {s.ops[n].row}, ops := s.ops[n := Unlinking(s.ops[n].paths)])
      else s.(ops := Removed(s.ops, n))
    case Unlink(n, file, ok) =>
      if ok then s.(files := s.files - {file}, ops := s.ops[n := Unlinking(s.ops[n].todo - {file})])
      else s.(ops := Removed(s.ops, n), trouble := true)
    case EndUnlinking(n) => s.(ops := Removed(s.ops, n))
    case CutOff(n) => s.(ops := Removed(s.ops, n), trouble := true)
  }

  const EMPTY := State({}, map[], map[], 0, false)

  // ----- the invariant ---------------------------------------------------

  predicate IsUpload(op: Op) {
    op.Storing? || op.Scaling? || op.Inserting? || op.Inserted?
  }

  function StoredBy(op: Op): set<File> {
    if op.Scaling? || op.Inserting? || op.Inserted? then op.stored else {}
  }

  predicate Own(files: set<File>, n: nat) {
    forall f :: f in files ==> f.upload == n
  }

  /** An upload still under way is `n`. */
  predicate Uploading(ops: Ops, n: nat) {
    n in ops && IsUpload(ops[n])
  }

  ghost predicate RowsOk(s: State) {
    forall n :: n in s.rows ==> n < s.next && Own(s.rows[n], n) && s.rows[n] <= s.files && !Uploading(s.ops, n)
  }

  predicate OpOk(op: Op, n: nat, files: set<File>, rows: Rows, ops: Ops, next: nat) {
    if IsUpload(op) then Own(StoredBy(op), n) && StoredBy(op) <= files
    else if op.Unlinking? then forall f :: f in op.todo ==> f.upload < next && f.upload !in rows && !Uploading(ops, f.upload)
    else
      && op.row < next && !Uploading(ops, op.row)
      && (!op.Checked? ==> Own(op.paths, op.row) && (op.row in rows ==> op.paths == rows[op.row]))
  }

  ghost predicate OpsOk(s: State) {
    forall n :: n in s.ops ==> n < s.next && OpOk(s.ops[n], n, s.files, s.rows, s.ops, s.next)
  }

  /** A committed row or a request under way accounts for the file. */
  ghost predicate Accounted(f: File, rows: Rows, ops: Ops) {
    || (f.upload in rows && f in rows[f.upload])
    || (exists n :: n in ops && (f in StoredBy(ops[n]) || (ops[n].Unlinking? && f in ops[n].todo)))
  }

  ghost predicate NoOrphans(s: State) {
    forall f :: f in s.files ==> Accounted(f, s.rows, s.ops)
  }

  ghost predicate Inv(s: State) {
    RowsOk(s) && OpsOk(s) && (!s.trouble ==> NoOrphans(s))
  }

  // ----- steps keep it ---------------------------------------------------

  lemma RowsKept(s: State, step: Step)
    requires Inv(s) && Enabled(s, step)
    ensures RowsOk(Apply(s, step))
  {
    var s' := Apply(s, step);
    forall n | n in s'.rows
      ensures n < s'.next && Own(s'.rows[n], n) && s'.rows[n] <= s'.files && !Uploading(s'.ops, n)
    {
      if step.Unlink? {
        assert OpOk(s.ops[step.n], step.n, s.files, s.rows, s.ops, s.next);
      } else if step.CommitUpload? && n == step.n {
        assert OpOk(s.ops[n], n, s.files, s.rows, s.ops, s.next);
      }
    }
  }

  lemma OpsKept(s: State, step: Step)
    requires Inv(s) && Enabled(s, step)
    ensures OpsOk(Apply(s, step))
  {
    var s' := Apply(s, step);
    forall n | n in s'.ops
      ensures n < s'.next && OpOk(s'.ops[n], n, s'.files, s'.rows, s'.ops, s'.next)
    {
      OpKept(s, step, n);
    }
  }

  /** The number of the request that takes the step. */
  function Actor(s: State, step: Step): nat {
    if step.BeginUpload? || step.BeginDelete? then s.next else step.n
  }

  /** What a step does to the parts other requests look at: rows lose what is deleted and gain the actor's,
      no upload but the actor's begins or ends, and only files of no live upload are unlinked. */
  lemma Bystanders(s: State, step: Step)
    requires Inv(s) && Enabled(s, step)
    ensures var s', a := Apply(s, step), Actor(s, step);
            && s.next <= s'.next
            && (forall m :: m != a ==> (Uploading(s'.ops, m) <==> Uploading(s.ops, m)))
            && (forall m :: m in s'.rows ==> (m in s.rows && s'.rows[m] == s.rows[m]) || (m == a && Uploading(s.ops, a)))
            && (Uploading(s'.ops, a) ==> a == s.next || Uploading(s.ops, a))
            && (forall f :: f in s.files && f !in s'.files ==> !Uploading(s.ops, f.upload))
  {
    if step.Unlink? {
      assert OpOk(s.ops[step.n], step.n, s.files, s.rows, s.ops, s.next);
    }
  }

  lemma OtherKept(s: State, step: Step, n: nat)
    requires Inv(s) && Enabled(s, step) && n in s.ops && n != Actor(s, step)
    ensures var s' := Apply(s, step);
            n in s'.ops && s'.ops[n] == s.ops[n] && OpOk(s.ops[n], n, s'.files, s'.rows, s'.ops, s'.next)
  {
    var s', op := Apply(s, step), s.ops[n];
    assert n in s'.ops && s'.ops[n] == op;
    assert OpOk(op, n, s.files, s.rows, s.ops, s.next);
    Bystanders(s, step);
    StaysOk(s, step, op, n);
  }

  lemma StaysOk(s: State, step: Step, op: Op, n: nat)
    requires Enabled(s, step)
    requires OpOk(op, n, s.files, s.rows, s.ops, s.next) && (IsUpload(op) ==> Uploading(s.ops, n))
    requires var s', a := Apply(s, step), Actor(s, step);
             && s.next <= s'.next
             && (forall m :: m != a ==> (Uploading(s'.ops, m) <==> Uploading(s.ops, m)))
             && (forall m :: m in s'.rows ==> (m in s.rows && s'.rows[m] == s.rows[m]) || (m == a && Uploading(s.ops, a)))
             && (Uploading(s'.ops, a) ==> a == s.next || Uploading(s.ops, a))
             && (forall f :: f in s.files && f !in s'.files ==> !Uploading(s.ops, f.upload))
    ensures OpOk(op, n, Apply(s, step).files, Apply(s, step).rows, Apply(s, step).ops, Apply(s, step).next)
  {
    hide Apply, Enabled;
  }

  lemma ActorKept(s: State, step: Step)
    requires Inv(s) && Enabled(s, step) && Actor(s, step) in Apply(s, step).ops
    ensures var s', a := Apply(s, step), Actor(s, step);
            a < s'.next && OpOk(s'.ops[a], a, s'.files, s'.rows, s'.ops, s'.next)
  {
    if !step.BeginUpload? && !step.BeginDelete? {
      assert OpOk(s.ops[step.n], step.n, s.files, s.rows, s.ops, s.next);
    }
  }

  lemma OpKept(s: State, step: Step, n: nat)
    requires Inv(s) && Enabled(s, step) && n in Apply(s, step).ops
    ensures n < Apply(s, step).next
    ensures OpOk(Apply(s, step).ops[n], n, Apply(s, step).files, Apply(s, step).rows, Apply(s, step).ops, Apply(s, step).next)
  {
    if n == Actor(s, step) {
      ActorKept(s, step);
    } else {
      OtherKept(s, step, n);
    }
  }

  lemma AccountsKept(s: State, step: Step)
    requires Inv(s) && Enabled(s, step) && !Apply(s, step).trouble
    ensures NoOrphans(Apply(s, step))
  {
    var s' := Apply(s, step);
    forall f | f in s'.files
      ensures Accounted(f, s'.rows, s'.ops)
    {
      AccountKept(s, step, f);
    }
  }

  lemma NewFileAccounted(s: State, step: Step, f: File)
    requires Enabled(s, step) && !Apply(s, step).trouble && f in Apply(s, step).files && f !in s.files
    ensures Accounted(f, Apply(s, step).rows, Apply(s, step).ops)
  {
    assert f in StoredBy(Apply(s, step).ops[step.n]);
  }

  lemma AccountKept(s: State, step: Step, f: File)
    requires Inv(s) && Enabled(s, step) && !Apply(s, step).trouble && f in Apply(s, step).files
    ensures Accounted(f, Apply(s, step).rows, Apply(s, step).ops)
  {
    var s' := Apply(s, step);
    if f !in s.files {
      NewFileAccounted(s, step, f);
    } else if f.upload in s.rows && f in s.rows[f.upload] {
      if step.CommitDelete? && step.ok && s.ops[step.n].row == f.upload {
        assert OpOk(s.ops[step.n], step.n, s.files, s.rows, s.ops, s.next);
        assert f in s'.ops[step.n].todo;
      }
    } else {
      assert Accounted(f, s.rows, s.ops);
      var n :| n in s.ops && (f in StoredBy(s.ops[n]) || (s.ops[n].Unlinking? && f in s.ops[n].todo));
      assert OpOk(s.ops[n], n, s.files, s.rows, s.ops, s.next);
      if n in s'.ops {
        assert f in StoredBy(s'.ops[n]) || (s'.ops[n].Unlinking? && f in s'.ops[n].todo);
      }
    }
  }

  lemma StepKeepsInv(s: State, step: Step)
    requires Inv(s) && Enabled(s, step)
    ensures Inv(Apply(s, step))
  {
    RowsKept(s, step);
    OpsKept(s, step);
    if !Apply(s, step).trouble {
      AccountsKept(s, step);
    }
  }

  // ----- runs ------------------------------------------------------------

  predicate ValidRun(steps: seq<Step>)
    decreases |steps|, 0
  {
    steps == [] || (ValidRun(steps[..|steps| - 1]) && Enabled(Run(steps[..|steps| - 1]), steps[|steps| - 1]))
  }

  function Run(steps: seq<Step>): State
    requires ValidRun(steps)
    decreases |steps|, 1
  {
    if steps == [] then EMPTY else Apply(Run(steps[..|steps| - 1]), steps[|steps| - 1])
  }

  lemma {:induction false} RunKeepsInv(steps: seq<Step>)
    requires ValidRun(steps)
    ensures Inv(Run(steps))
  {
    if steps != [] {
      RunKeepsInv(steps[..|steps| - 1]);
      StepKeepsInv(Run(steps[..|steps| - 1]), steps[|steps| - 1]);
    }
  }

  /** An upload's commit fails, a write is cut short, an unlink fails, or a request is cut off. */
  predicate MakesTrouble(step: Step) {
    || (step.CommitUpload? && !step.ok)
    || (step.WriteOriginal? && step.fault == HalfWritten)
    || (step.WriteVariant? && step.scaled == Built(HalfWritten))
    || (step.Unlink? && !step.ok)
    || step.CutOff?
  }

  /** There was trouble exactly when one of these happened. */
  lemma {:induction false} TroubleMeans(steps: seq<Step>)
    requires ValidRun(steps)
    ensures Run(steps).trouble <==> exists k :: 0 <= k < |steps| && MakesTrouble(steps[k])
  {
    if steps != [] {
      var n := |steps| - 1;
      TroubleMeans(steps[..n]);
      assert Run(steps).trouble <==> Run(steps[..n]).trouble || MakesTrouble(steps[n]);
      if Run(steps[..n]).trouble {
        var k :| 0 <= k < n && MakesTrouble(steps[..n][k]);
        assert MakesTrouble(steps[k]);
      }
      if k :| 0 <= k < n && MakesTrouble(steps[k]) {
        assert MakesTrouble(steps[..n][k]);
      }
    }
  }

  /** A request can be cut off at any point, and any unlink can fail; neither touches the disk or the table. */
  lemma InterruptionsTouchNothing(s: State, n: nat)
    requires n in s.ops
    ensures Enabled(s, CutOff(n))
    ensures Apply(s, CutOff(n)).files == s.files && Apply(s, CutOff(n)).rows == s.rows && n !in Apply(s, CutOff(n)).ops
    ensures s.ops[n].Unlinking? ==>
              forall file :: file in s.ops[n].todo ==>
                && Enabled(s, Unlink(n, file, false))
                && Apply(s, Unlink(n, file, false)).files == s.files && Apply(s, Unlink(n, file, false)).rows == s.rows
  {
  }

  /** In every reachable state every file of every committed row is on disk. */
  lemma NoDanglingRows(steps: seq<Step>)
    requires ValidRun(steps)
    ensures forall n :: n in Run(steps).rows ==> Run(steps).rows[n] <= Run(steps).files
  {
    RunKeepsInv(steps);
  }

  /** While no upload's commit and no storage step has failed and no request was cut off, every file on disk
      belongs to a committed row or to a request under way. */
  lemma FilesAreAccountedFor(steps: seq<Step>)
    requires ValidRun(steps) && !Run(steps).trouble
    ensures forall f :: f in Run(steps).files ==> Accounted(f, Run(steps).rows, Run(steps).ops)
  {
    RunKeepsInv(steps);
  }

  /** So at rest the disk holds exactly the files of the committed rows. */
  lemma DiskIsTheTable(steps: seq<Step>)
    requires ValidRun(steps) && !Run(steps).trouble && Run(steps).ops == map[]
    ensures forall f :: f in Run(steps).files <==> f.upload in Run(steps).rows && f in Run(steps).rows[f.upload]
  {
    RunKeepsInv(steps);
    var s := Run(steps);
    forall f | f in s.files
      ensures f.upload in s.rows && f in s.rows[f.upload]
    {
      assert Accounted(f, s.rows, s.ops);
    }
  }

  lemma Then(steps: seq<Step>, step: Step)
    requires ValidRun(steps) && Enabled(Run(steps), step)
    ensures ValidRun(steps + [step]) && Run(steps + [step]) == Apply(Run(steps), step)
  {
    assert (steps + [step])[..|steps|] == steps;
  }

  /** The proviso is needed: an upload whose commit fails leaves its file behind, with no row and no request
      to account for it. */
  lemma FailedCommitLeavesAFile() returns (steps: seq<Step>)
    ensures ValidRun(steps) && Run(steps).ops == map[] && Run(steps).rows == map[]
    ensures Run(steps).files == {File(0, Original)}
  {
    steps := [];
    Then(steps, BeginUpload(false));
    steps := steps + [BeginUpload(false)];
    Then(steps, WriteOriginal(0, Written));
    steps := steps + [WriteOriginal(0, Written)];
    Then(steps, InsertRow(0, true));
    steps := steps + [InsertRow(0, true)];
    Then(steps, CommitUpload(0, false));
    steps := steps + [CommitUpload(0, false)];
  }
}
