/** Every way an upload or a deletion can run while nobody else acts, with failures anywhere: when it is over,
    table and disk are what the handlers of BlobHandlers allow. */
module BlobAlone {
  import opened BlobStorage
  import opened BlobHandlers
  import opened BlobRuns
  import opened BlobRefinement

  predicate AllOf(steps: seq<Step>, n: nat) {
    forall i :: 0 <= i < |steps| ==> StepOf(steps[i], n)
  }

  /** The files an upload may ever write. */
  function Mine(n: nat): set<File> {
    {File(n, Original), File(n, Medium), File(n, Thumbnail)}
  }

  // ----- the upload ------------------------------------------------------

  /** The disk gained the `stored` files for sure, no other upload's, and without trouble no more. */
  predicate Gained(from: State, s: State, n: nat, stored: set<File>) {
    && from.files + stored <= s.files <= from.files + Mine(n)
    && (from.trouble ==> s.trouble)
    && (!s.trouble ==> s.files == from.files + stored)
  }

  predicate RowFiles(n: nat, image: bool, row: set<File>) {
    File(n, Original) in row && row <= (if image then Mine(n) else {File(n, Original)})
  }

  predicate UploadAt(from: State, s: State, n: nat, image: bool, op: Op) {
    && s.next == from.next + 1 && s.rows == from.rows
    && match op
       case Storing(im) => im == image && Gained(from, s, n, {})
       case Scaling(parts, stored) =>
         image && (forall p :: p in parts ==> p != Original) && RowFiles(n, image, stored) && Gained(from, s, n, stored)
       case Inserting(stored) => RowFiles(n, image, stored) && Gained(from, s, n, stored)
       case Inserted(stored) => RowFiles(n, image, stored) && Gained(from, s, n, stored)
       case Unlinking(todo) => todo <= Mine(n) && Gained(from, s, n, todo)
       case _ => false
  }

  /** The upload is over: no row, and without trouble no file; or a row of stored files. */
  ghost predicate UploadOver(from: State, s: State, n: nat, image: bool) {
    || (s.rows == from.rows && Gained(from, s, n, {}))
    || (exists row :: RowFiles(n, image, row) && s.rows == from.rows[n := row] && Gained(from, s, n, row))
  }

  ghost predicate UploadStands(from: State, s: State, n: nat, image: bool) {
    || (n in s.ops && s.ops == from.ops[n := s.ops[n]] && UploadAt(from, s, n, image, s.ops[n]))
    || (s.ops == from.ops && UploadOver(from, s, n, image))
  }

  lemma VariantMoves(from: State, s: State, n: nat, image: bool, scaled: VariantFault)
    requires Enabled(s, WriteVariant(n, scaled)) && UploadAt(from, s, n, image, s.ops[n])
    ensures var s' := Apply(s, WriteVariant(n, scaled)); UploadAt(from, s', n, image, s'.ops[n])
  {
    var s', p := Apply(s, WriteVariant(n, scaled)), s.ops[n].parts[0];
    assert p in s.ops[n].parts;
    assert p == Medium || p == Thumbnail;
    assert forall q :: q in s'.ops[n].parts ==> q in s.ops[n].parts;
    assert RowFiles(n, image, s'.ops[n].stored);
    assert Gained(from, s', n, s'.ops[n].stored);
  }

  lemma WritesMove(from: State, s: State, step: Step, n: nat, image: bool)
    requires n in s.ops && s.ops == from.ops[n := s.ops[n]] && UploadAt(from, s, n, image, s.ops[n])
    requires n !in from.ops && Enabled(s, step) && (step == InsertRow(n, true) || step == InsertRow(n, false) ||
                                                    (step.WriteOriginal? && step.n == n))
    ensures UploadStands(from, Apply(s, step), n, image)
  {
    assert Removed(from.ops[n := s.ops[n]], n) == from.ops;
  }

  lemma EndsMove(from: State, s: State, step: Step, n: nat, image: bool)
    requires n in s.ops && s.ops == from.ops[n := s.ops[n]] && UploadAt(from, s, n, image, s.ops[n])
    requires n !in from.ops && Mine(n) !! from.files && Enabled(s, step) && StepOf(step, n)
    requires step.CommitUpload? || step.Unlink? || step.EndUnlinking? || step.CutOff?
    ensures UploadStands(from, Apply(s, step), n, image)
  {
    var s' := Apply(s, step);
    assert Removed(from.ops[n := s.ops[n]], n) == from.ops;
    if step.CommitUpload? && step.ok {
      assert RowFiles(n, image, s.ops[n].stored) && s'.rows == from.rows[n := s.ops[n].stored];
      assert UploadOver(from, s', n, image);
    } else if step.Unlink? && step.ok {
      assert s'.files == s.files - {step.file};
      assert UploadAt(from, s', n, image, s'.ops[n]);
    }
  }

  lemma UploadMoves(from: State, s: State, step: Step, n: nat, image: bool)
    requires n !in from.ops && Mine(n) !! from.files && Enabled(s, step) && StepOf(step, n)
    requires UploadStands(from, s, n, image)
    ensures UploadStands(from, Apply(s, step), n, image)
  {
    assert n in s.ops && UploadAt(from, s, n, image, s.ops[n]);
    if step.WriteVariant? {
      VariantMoves(from, s, n, image, step.scaled);
    } else if step.WriteOriginal? || step.InsertRow? {
      WritesMove(from, s, step, n, image);
    } else {
      EndsMove(from, s, step, n, image);
    }
  }

  lemma UploadBegins(s: State, image: bool)
    requires s.next !in s.ops
    ensures UploadStands(s, Apply(s, BeginUpload(image)), s.next, image)
  {
  }

  lemma {:induction false} UploadWorks(steps: seq<Step>, more: seq<Step>, image: bool)
    requires ValidRun(steps)
    requires ValidRun(steps + [BeginUpload(image)] + more) && AllOf(more, Run(steps).next)
    ensures UploadStands(Run(steps), Run(steps + [BeginUpload(image)] + more), Run(steps).next, image)
    decreases |more|
  {
    var n, begun := Run(steps).next, steps + [BeginUpload(image)];
    NumberIsNew(steps);
    if more == [] {
      UploadBegins(Run(steps), image);
      assert begun + more == begun && begun[..|begun| - 1] == steps;
    } else {
      hide UploadStands, Enabled, Apply;
      var front, last := more[..|more| - 1], more[|more| - 1];
      assert (begun + more)[..|begun + more| - 1] == begun + front;
      UploadWorks(steps, front, image);
      UploadMoves(Run(steps), Run(begun + front), last, n, image);
    }
  }

  /** The next number names no request and no file yet. */
  lemma NumberIsNew(steps: seq<Step>)
    requires ValidRun(steps)
    ensures Run(steps).next !in Run(steps).ops && Mine(Run(steps).next) !! Run(steps).files
  {
    RunKeepsInv(steps);
    FilesAreOld(steps);
  }

  /** Some faults of the handler leave exactly this row. */
  lemma RowHasFaults(n: nat, image: bool, row: set<File>) returns (f: Faults)
    requires RowFiles(n, image, row)
    ensures f.original == Written && WholeWrites(f) && RowOf(n, image, f) == row
  {
    var variants := (v: string) =>
      if (v == "medium" && File(n, Medium) in row) || (v == "thumbnail" && File(n, Thumbnail) in row) then Built(Written)
      else NotBuilt;
    f := Faults(Written, true, variants, false, false, k => false);
    assert "medium" != "thumbnail" by { assert |"medium"| != |"thumbnail"|; }
  }

  /** An upload left alone, after any run: once it is over, by whatever steps and failures, no row was added
      and, without trouble, no file; or one row was added, the one the handler stores under some faults, with
      its files on disk and, without trouble, no others. */
  lemma UploadAlways(steps: seq<Step>, more: seq<Step>, image: bool)
    requires ValidRun(steps) && ValidRun(steps + [BeginUpload(image)] + more) && AllOf(more, Run(steps).next)
    requires Run(steps).next !in Run(steps + [BeginUpload(image)] + more).ops
    ensures var s, e, n := Run(steps), Run(steps + [BeginUpload(image)] + more), Run(steps).next;
            && e.ops == s.ops
            && ((e.rows == s.rows && Gained(s, e, n, {}))
                || exists f: Faults :: f.original == Written && e.rows == s.rows[n := RowOf(n, image, f)]
                                       && Gained(s, e, n, RowOf(n, image, f)))
  {
    var s, e, n := Run(steps), Run(steps + [BeginUpload(image)] + more), Run(steps).next;
    UploadWorks(steps, more, image);
    if !(e.rows == s.rows && Gained(s, e, n, {})) {
      var row :| RowFiles(n, image, row) && e.rows == s.rows[n := row] && Gained(s, e, n, row);
      var f := RowHasFaults(n, image, row);
    }
  }

  // ----- the deletion ----------------------------------------------------

  /** Only the row's files went, and without trouble all of them but `todo`. */
  predicate Lost(from: State, s: State, paths: set<File>, todo: set<File>) {
    && from.files - paths <= s.files <= from.files && todo <= paths
    && (from.trouble ==> s.trouble)
    && (!s.trouble ==> s.files == from.files - (paths - todo))
  }

  predicate Untouched(from: State, s: State) {
    s.rows == from.rows && s.files == from.files && (from.trouble ==> s.trouble)
  }

  predicate DeleteAt(from: State, s: State, row: nat, op: Op)
    requires row in from.rows
  {
    match op
    case Checked(r) => r == row && Untouched(from, s)
    case Deleting(r, paths) => r == row && paths == from.rows[row] && Untouched(from, s)
    case Deleted(r, paths) => r == row && paths == from.rows[row] && Untouched(from, s)
    case Unlinking(todo) => s.rows == from.rows - {row} && Lost(from, s, from.rows[row], todo)
    case _ => false
  }

  /** The deletion is over: nothing happened, or the row is gone and, without trouble, exactly its files. */
  predicate DeleteOver(from: State, s: State, row: nat)
    requires row in from.rows
  {
    || Untouched(from, s)
    || (s.rows == from.rows - {row} && Lost(from, s, from.rows[row], if s.trouble then from.rows[row] else {}))
  }

  predicate DeleteStands(from: State, s: State, n: nat, row: nat)
    requires row in from.rows
  {
    || (n in s.ops && s.ops == from.ops[n := s.ops[n]] && DeleteAt(from, s, row, s.ops[n]))
    || (s.ops == from.ops && DeleteOver(from, s, row))
  }

  lemma DeleteMoves(from: State, s: State, step: Step, n: nat, row: nat)
    requires row in from.rows && n !in from.ops && from.rows[row] <= from.files && Enabled(s, step) && StepOf(step, n)
    requires DeleteStands(from, s, n, row)
    ensures DeleteStands(from, Apply(s, step), n, row)
  {
    assert Removed(from.ops[n := s.ops[n]], n) == from.ops;
    if step.Unlink? && step.ok {
      var todo := s.ops[n].todo;
      assert from.rows[row] - (todo - {step.file}) == from.rows[row] - todo + {step.file};
    }
  }

  lemma {:induction false} DeleteWorks(steps: seq<Step>, more: seq<Step>, row: nat)
    requires ValidRun(steps) && row in Run(steps).rows
    requires ValidRun(steps + [BeginDelete(row)] + more) && AllOf(more, Run(steps).next)
    ensures DeleteStands(Run(steps), Run(steps + [BeginDelete(row)] + more), Run(steps).next, row)
    decreases |more|
  {
    var n, begun := Run(steps).next, steps + [BeginDelete(row)];
    RunKeepsInv(steps);
    if more == [] {
      assert begun + more == begun && begun[..|begun| - 1] == steps;
    } else {
      var front, last := more[..|more| - 1], more[|more| - 1];
      assert (begun + more)[..|begun + more| - 1] == begun + front;
      DeleteWorks(steps, front, row);
      DeleteMoves(Run(steps), Run(begun + front), last, n, row);
    }
  }

  /** A deletion left alone, after any run: once it is over, by whatever steps and failures, nothing happened;
      or its row is gone, none but that row's files went, and without trouble all of those did. */
  lemma DeleteAlways(steps: seq<Step>, more: seq<Step>, row: nat)
    requires ValidRun(steps) && row in Run(steps).rows
    requires ValidRun(steps + [BeginDelete(row)] + more) && AllOf(more, Run(steps).next)
    requires Run(steps).next !in Run(steps + [BeginDelete(row)] + more).ops
    ensures var s, e := Run(steps), Run(steps + [BeginDelete(row)] + more);
            && e.ops == s.ops
            && (|| (e.rows == s.rows && e.files == s.files)
                || (&& e.rows == s.rows - {row}
                    && s.files - s.rows[row] <= e.files <= s.files
                    && (!e.trouble ==> e.files == s.files - s.rows[row])))
  {
    DeleteWorks(steps, more, row);
  }
}
