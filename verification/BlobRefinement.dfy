/** The interleaved steps of BlobRuns, run by one request alone, do what the handlers of BlobHandlers do. */
module BlobRefinement {
  import opened Options
  import opened BlobStorage
  import opened BlobHandlers
  import opened BlobRuns

  // ----- files are paths -------------------------------------------------

  /** What upload `n` was given: its kind, its file stem and its name's extension. */
  datatype Naming = Naming(image: nat -> bool, stem: nat -> string, extension: nat -> string)

  ghost predicate Fresh(names: Naming) {
    (forall n :: Stem(names.stem(n))) && forall m, n :: names.stem(m) == names.stem(n) ==> m == n
  }

  function PathOf(names: Naming, f: File): string {
    match f.part
    case Original => OriginalPath(names.image(f.upload), names.stem(f.upload), names.extension(f.upload))
    case Medium => VariantPath("medium", names.stem(f.upload))
    case Thumbnail => VariantPath("thumbnail", names.stem(f.upload))
  }

  /** Different files have different paths, and unlinking a stored path hits that file and no other. */
  lemma FilesArePaths(names: Naming, f: File, g: File)
    requires Fresh(names)
    ensures StripRoot(PathOf(names, f)) == PathOf(names, g) <==> f == g
  {
    KeptPath(names, f);
    if f.upload != g.upload || f.part != g.part {
      PathsDiffer(names, f, g);
    }
  }

  lemma KeptPath(names: Naming, f: File)
    ensures StripRoot(PathOf(names, f)) == PathOf(names, f)
  {
    assert VARIANTS[0] == "medium" && VARIANTS[1] == "thumbnail";
    hide StripRoot, OriginalPath, VariantPath;
    var stem, n := names.stem(f.upload), f.upload;
    StoredPathsAreKept(names.image(n), "medium", stem, names.extension(n));
    StoredPathsAreKept(names.image(n), "thumbnail", stem, names.extension(n));
  }

  lemma PathsDiffer(names: Naming, f: File, g: File)
    requires Fresh(names) && (f.upload != g.upload || f.part != g.part)
    ensures PathOf(names, f) != PathOf(names, g)
  {
    assert VARIANTS[0] == "medium" && VARIANTS[1] == "thumbnail" && "medium" != "thumbnail";
    hide OriginalPath, VariantPath, Stem;
    var m, n := f.upload, g.upload;
    var a, b := names.stem(m), names.stem(n);
    assert Stem(a) && Stem(b);
    var v := if f.part == Thumbnail then "thumbnail" else "medium";
    var w := if g.part == Thumbnail then "thumbnail" else "medium";
    PathsNameTheirStem(names.image(m), a, names.extension(m), names.image(n), b, names.extension(n), v, w);
    PathsNameTheirStem(names.image(m), a, names.extension(m), names.image(n), b, names.extension(n), w, v);
    PathsNameTheirStem(names.image(n), b, names.extension(n), names.image(m), a, names.extension(m), v, w);
  }

  // ----- the upload ------------------------------------------------------

  function VariantOf(image: bool, f: Faults, variant: string): VariantFault {
    if image && f.pillow then f.variants(variant) else NotBuilt
  }

  function Kept(n: nat, part: Part, fault: VariantFault): set<File> {
    if fault == Built(Written) then {File(n, part)} else {}
  }

  /** The files of the row that upload `n` commits. */
  function RowOf(n: nat, image: bool, f: Faults): set<File> {
    {File(n, Original)} + Kept(n, Medium, VariantOf(image, f, "medium")) + Kept(n, Thumbnail, VariantOf(image, f, "thumbnail"))
  }

  /** They are the paths the handler stores. */
  lemma RowIsStored(names: Naming, n: nat, name: string, f: Faults, path: string)
    requires names.extension(n) == Extension(name)
    ensures path in PathsOf(Uploaded(name, names.image(n), names.stem(n), f)) <==>
            exists g :: g in RowOf(n, names.image(n), f) && PathOf(names, g) == path
  {
    var row := RowOf(n, names.image(n), f);
    if path == PathOf(names, File(n, Original)) {
      assert File(n, Original) in row;
    }
    if path in PathsOf(Uploaded(name, names.image(n), names.stem(n), f)) {
      assert PathOf(names, File(n, Original)) == path ||
             (File(n, Medium) in row && PathOf(names, File(n, Medium)) == path) ||
             (File(n, Thumbnail) in row && PathOf(names, File(n, Thumbnail)) == path);
    }
  }

  /** A later step of request `n`. */
  predicate StepOf(step: Step, n: nat) {
    !step.BeginUpload? && !step.BeginDelete? && step.n == n
  }

  /** `all` is `steps`, then the request's beginning, then its own steps alone. */
  predicate Continues(steps: seq<Step>, begin: Step, n: nat, all: seq<Step>) {
    && |steps| < |all| && steps == all[..|steps|] && all[|steps|] == begin
    && forall i :: |steps| < i < |all| ==> StepOf(all[i], n)
  }

  ghost predicate Leads(steps: seq<Step>, begin: Step, n: nat, all: seq<Step>, end: State) {
    Continues(steps, begin, n, all) && ValidRun(all) && Run(all) == end
  }

  lemma First(steps: seq<Step>, begin: Step)
    requires ValidRun(steps) && Enabled(Run(steps), begin)
    ensures Leads(steps, begin, Run(steps).next, steps + [begin], Apply(Run(steps), begin))
  {
    hide Apply, Enabled;
    Then(steps, begin);
  }

  lemma Next(steps: seq<Step>, begin: Step, n: nat, all: seq<Step>, mid: State, step: Step)
    requires Leads(steps, begin, n, all, mid) && Enabled(mid, step) && StepOf(step, n)
    ensures Leads(steps, begin, n, all + [step], Apply(mid, step))
  {
    hide Apply, Enabled;
    Then(all, step);
  }

  /** With request `n` at `op`. */
  function With(s: State, n: nat, op: Op, more: set<File>): State {
    State(s.files + more, s.rows, s.ops[n := op], s.next + 1, s.trouble)
  }

  /** Writing the original and, for an image, both variants, when no write is cut short. */
  lemma StoreAlone(steps: seq<Step>, s: State, image: bool, f: Faults) returns (all: seq<Step>)
    requires ValidRun(steps) && Run(steps) == s && s.next !in s.ops && f.original == Written && WholeWrites(f)
    ensures Leads(steps, BeginUpload(image), s.next, all,
              With(s, s.next, if image then Scaling([], RowOf(s.next, image, f)) else Inserting(RowOf(s.next, image, f)),
                RowOf(s.next, image, f)))
  {
    var n, begin, original := s.next, BeginUpload(image), {File(s.next, Original)};
    First(steps, begin);
    all := steps + [begin];
    assert s.files + {} == s.files;
    var begun := With(s, n, Storing(image), {});
    Next(steps, begin, n, all, begun, WriteOriginal(n, Written));
    all := all + [WriteOriginal(n, Written)];
    var written := With(s, n, if image then Scaling([Medium, Thumbnail], original) else Inserting(original), original);
    assert begun.ops[n := written.ops[n]] == written.ops;
    assert Apply(begun, WriteOriginal(n, Written)) == written;
    hide Leads;
    if image {
      assert "medium" in VARIANTS && "thumbnail" in VARIANTS by { assert VARIANTS[0] == "medium" && VARIANTS[1] == "thumbnail"; }
      assert [Medium, Thumbnail] == [Medium] + [Thumbnail] && [Thumbnail] == [Thumbnail] + [];
      all := VariantAlone(steps, begin, all, s, n, Medium, [Thumbnail], original, VariantOf(image, f, "medium"));
      var soFar := original + Kept(n, Medium, VariantOf(image, f, "medium"));
      all := VariantAlone(steps, begin, all, s, n, Thumbnail, [], soFar, VariantOf(image, f, "thumbnail"));
    } else {
      assert RowOf(n, image, f) == original;
    }
  }

  lemma VariantAlone(steps: seq<Step>, begin: Step, before: seq<Step>, s: State, n: nat, part: Part, rest: seq<Part>,
                     stored: set<File>, fault: VariantFault)
    returns (all: seq<Step>)
    requires Leads(steps, begin, n, before, With(s, n, Scaling([part] + rest, stored), stored)) && fault != Built(HalfWritten)
    ensures Leads(steps, begin, n, all, With(s, n, Scaling(rest, stored + Kept(n, part, fault)), stored + Kept(n, part, fault)))
  {
    hide Leads;
    var mid := With(s, n, Scaling([part] + rest, stored), stored);
    Next(steps, begin, n, before, mid, WriteVariant(n, fault));
    all := before + [WriteVariant(n, fault)];
    var after := With(s, n, Scaling(rest, stored + Kept(n, part, fault)), stored + Kept(n, part, fault));
    assert ([part] + rest)[1..] == rest;
    assert mid.ops[n := after.ops[n]] == after.ops;
    assert Apply(mid, WriteVariant(n, fault)).files == after.files;
    assert Apply(mid, WriteVariant(n, fault)).ops[n] == after.ops[n];
  }

  /** Ready to insert the row of the stored files. */
  predicate Stored(op: Op, row: set<File>) {
    op == Inserting(row) || op == Scaling([], row)
  }

  /** A failing insertion cleans up after itself. */
  lemma CleanUpAlone(steps: seq<Step>, begin: Step, before: seq<Step>, s: State, n: nat, op: Op, row: set<File>)
    returns (all: seq<Step>)
    requires Stored(op, row) && Leads(steps, begin, n, before, With(s, n, op, row)) && n !in s.ops
    ensures Leads(steps, begin, n, all, s.(files := s.files + row - row, next := s.next + 1))
  {
    hide Leads;
    Next(steps, begin, n, before, With(s, n, op, row), InsertRow(n, false));
    all := before + [InsertRow(n, false)];
    var mid := With(s, n, Unlinking(row), row);
    assert With(s, n, op, row).ops[n := Unlinking(row)] == mid.ops;
    all := UnlinkAll(steps, begin, all, mid, n);
    assert Removed(mid.ops, n) == s.ops;
  }

  lemma CommitAlone(steps: seq<Step>, begin: Step, before: seq<Step>, s: State, n: nat, op: Op, row: set<File>, ok: bool)
    returns (all: seq<Step>)
    requires Stored(op, row) && Leads(steps, begin, n, before, With(s, n, op, row)) && n !in s.ops
    ensures Leads(steps, begin, n, all, State(s.files + row, if ok then s.rows[n := row] else s.rows, s.ops, s.next + 1,
                                              s.trouble || !ok))
  {
    hide Leads;
    Next(steps, begin, n, before, With(s, n, op, row), InsertRow(n, true));
    all := before + [InsertRow(n, true)];
    var mid := With(s, n, Inserted(row), row);
    assert With(s, n, op, row).ops[n := Inserted(row)] == mid.ops;
    Next(steps, begin, n, all, mid, CommitUpload(n, ok));
    all := all + [CommitUpload(n, ok)];
    assert Removed(mid.ops, n) == s.ops;
  }

  /** An upload alone: after any run its own steps commit the row of exactly the paths that the handler stores
      and leave exactly those files; without a row they leave none, unless it is the commit that fails. */
  lemma UploadAlone(steps: seq<Step>, names: Naming, name: string, f: Faults) returns (all: seq<Step>)
    requires ValidRun(steps) && f.original == Written && WholeWrites(f)
    requires names.extension(Run(steps).next) == Extension(name)
    ensures Continues(steps, BeginUpload(names.image(Run(steps).next)), Run(steps).next, all) && ValidRun(all)
    ensures Run(all).ops == Run(steps).ops
    ensures var s, e := Run(steps), Run(all);
            var row := RowOf(s.next, names.image(s.next), f);
            && e.rows == (if f.row || f.commit then s.rows else s.rows[s.next := row])
            && e.files == (if f.row then s.files else s.files + row)
            && forall path :: path in PathsOf(Uploaded(name, names.image(s.next), names.stem(s.next), f)) <==>
                 exists g :: g in row && PathOf(names, g) == path
  {
    var s := Run(steps);
    var n, image := s.next, names.image(s.next);
    var row := RowOf(n, image, f);
    RunKeepsInv(steps);
    forall path
      ensures path in PathsOf(Uploaded(name, image, names.stem(n), f)) <==> exists g :: g in row && PathOf(names, g) == path
    {
      RowIsStored(names, n, name, f, path);
    }
    NewFiles(steps, row);
    all := UploadRun(steps, image, f);
  }

  lemma UploadRun(steps: seq<Step>, image: bool, f: Faults) returns (all: seq<Step>)
    requires ValidRun(steps) && f.original == Written && WholeWrites(f) && Run(steps).next !in Run(steps).ops
    ensures var s := Run(steps);
            var row := RowOf(s.next, image, f);
            Leads(steps, BeginUpload(image), s.next, all,
              if f.row then s.(files := s.files + row - row, next := s.next + 1)
              else State(s.files + row, if f.commit then s.rows else s.rows[s.next := row], s.ops, s.next + 1, s.trouble || f.commit))
  {
    var s := Run(steps);
    var row, begin := RowOf(s.next, image, f), BeginUpload(image);
    var op := if image then Scaling([], row) else Inserting(row);
    all := StoreAlone(steps, s, image, f);
    if f.row {
      all := CleanUpAlone(steps, begin, all, s, s.next, op, row);
    } else {
      all := CommitAlone(steps, begin, all, s, s.next, op, row, !f.commit);
    }
  }

  /** No file of a new upload was there before. */
  lemma NewFiles(steps: seq<Step>, row: set<File>)
    requires ValidRun(steps) && Own(row, Run(steps).next)
    ensures Run(steps).files + row - row == Run(steps).files
  {
    FilesAreOld(steps);
  }

  lemma {:induction false} FilesAreOld(steps: seq<Step>)
    requires ValidRun(steps)
    ensures forall f :: f in Run(steps).files ==> f.upload < Run(steps).next
  {
    if steps != [] {
      FilesAreOld(steps[..|steps| - 1]);
      RunKeepsInv(steps[..|steps| - 1]);
      NoFutureFiles(Run(steps[..|steps| - 1]), steps[|steps| - 1]);
    }
  }

  lemma NoFutureFiles(s: State, step: Step)
    requires Inv(s) && Enabled(s, step) && forall f :: f in s.files ==> f.upload < s.next
    ensures forall f :: f in Apply(s, step).files ==> f.upload < Apply(s, step).next
  {
  }

  /** Unlinking runs to its end. */
  lemma {:induction false} UnlinkAll(steps: seq<Step>, begin: Step, before: seq<Step>, s: State, n: nat)
    returns (all: seq<Step>)
    requires Leads(steps, begin, n, before, s) && n in s.ops && s.ops[n].Unlinking?
    ensures Leads(steps, begin, n, all, s.(files := s.files - s.ops[n].todo, ops := Removed(s.ops, n)))
    decreases |s.ops[n].todo|
  {
    hide Leads;
    var todo := s.ops[n].todo;
    if todo == {} {
      Next(steps, begin, n, before, s, EndUnlinking(n));
      all := before + [EndUnlinking(n)];
      assert s.files - {} == s.files;
    } else {
      var file :| file in todo;
      Next(steps, begin, n, before, s, Unlink(n, file, true));
      var mid := Apply(s, Unlink(n, file, true));
      assert |mid.ops[n].todo| < |todo|;
      all := UnlinkAll(steps, begin, before + [Unlink(n, file, true)], mid, n);
      assert mid.files - mid.ops[n].todo == s.files - todo;
      assert Removed(mid.ops, n) == Removed(s.ops, n);
    }
  }

  // ----- the deletion ----------------------------------------------------

  /** A deletion alone: its own steps remove the row and exactly its files; if deleting the row or committing
      fails, they remove nothing. */
  lemma DeleteAlone(steps: seq<Step>, row: nat, f: Faults) returns (all: seq<Step>)
    requires ValidRun(steps) && row in Run(steps).rows
    ensures Continues(steps, BeginDelete(row), Run(steps).next, all) && ValidRun(all)
    ensures var s, e := Run(steps), Run(all);
            && e.ops == s.ops
            && e.rows == (if f.row || f.commit then s.rows else s.rows - {row})
            && e.files == (if f.row || f.commit then s.files else s.files - s.rows[row])
  {
    RunKeepsInv(steps);
    all := DeleteRun(steps, row, f);
  }

  /** With deletion `n` at `op`. */
  function Removing(s: State, op: Op): State {
    s.(ops := s.ops[s.next := op], next := s.next + 1)
  }

  lemma DeleteRun(steps: seq<Step>, row: nat, f: Faults) returns (all: seq<Step>)
    requires ValidRun(steps) && row in Run(steps).rows && Run(steps).next !in Run(steps).ops
    ensures var s := Run(steps);
            Leads(steps, BeginDelete(row), s.next, all,
              if f.row || f.commit then s.(next := s.next + 1)
              else s.(files := s.files - s.rows[row], rows := s.rows - {row}, next := s.next + 1))
  {
    var s, begin := Run(steps), BeginDelete(row);
    var n, paths := s.next, s.rows[row];
    First(steps, begin);
    all := steps + [begin];
    hide Leads;
    Next(steps, begin, n, all, Removing(s, Checked(row)), ReadPaths(n));
    all := all + [ReadPaths(n)];
    assert Removing(s, Checked(row)).ops[n := Deleting(row, paths)] == Removing(s, Deleting(row, paths)).ops;
    Next(steps, begin, n, all, Removing(s, Deleting(row, paths)), DeleteRow(n, !f.row));
    all := all + [DeleteRow(n, !f.row)];
    assert Removed(Removing(s, Deleting(row, paths)).ops, n) == s.ops;
    if !f.row {
      assert Removing(s, Deleting(row, paths)).ops[n := Deleted(row, paths)] == Removing(s, Deleted(row, paths)).ops;
      all := CommitDeletion(steps, begin, all, s, row, paths, !f.commit);
    }
  }

  lemma CommitDeletion(steps: seq<Step>, begin: Step, before: seq<Step>, s: State, row: nat, paths: set<File>, ok: bool)
    returns (all: seq<Step>)
    requires Leads(steps, begin, s.next, before, Removing(s, Deleted(row, paths))) && s.next !in s.ops
    ensures Leads(steps, begin, s.next, all,
              if ok then s.(files := s.files - paths, rows := s.rows - {row}, next := s.next + 1) else s.(next := s.next + 1))
  {
    hide Leads;
    var n, marked := s.next, Removing(s, Deleted(row, paths));
    Next(steps, begin, n, before, marked, CommitDelete(n, ok));
    all := before + [CommitDelete(n, ok)];
    assert Removed(marked.ops, n) == s.ops;
    if ok {
      var mid := Apply(marked, CommitDelete(n, ok));
      assert Removed(mid.ops, n) == s.ops;
      all := UnlinkAll(steps, begin, all, mid, n);
    }
  }
}
