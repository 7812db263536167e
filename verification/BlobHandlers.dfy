/** The upload and delete handlers as one request runs them: disk and table effects in order. Requests that
    interleave are the subject of module BlobRuns. */
module BlobHandlers {
  import opened Options
  import opened BlobStorage

  /** The blob table of a session; rows that a request has not committed are in `working` only. */
  class BlobSession {
    var committed: map<nat, Stored>
    var working: map<nat, Stored>

    constructor ()
      ensures committed == working == map[]
    {
      committed, working := map[], map[];
    }

    /** Leaving the unit of work. */
    method Exit(raising: bool, commitFails: bool) returns (raised: bool)
      modifies this
      ensures raised == (raising || commitFails)
      ensures committed == if raised then old(committed) else old(working)
      ensures working == committed
    {
      if raising || commitFails {
        working := committed;
      } else {
        committed := working;
      }
      raised := raising || commitFails;
    }
  }

  /** Where a request fails: writing, Pillow, inserting or deleting the row, committing, unlinking. */
  datatype Faults = Faults(
    original: WriteFault,
    pillow: bool,
    variants: string -> VariantFault,
    row: bool,
    commit: bool,
    unlink: nat -> bool)

  datatype Outcome = Refused | Raised | Done

  /** The files an upload writes when its original can be written. */
  function Uploaded(name: string, image: bool, stem: string, f: Faults): Stored {
    Stored(OriginalPath(image, stem, Extension(name)),
      if image && f.pillow then VariantResult(f.variants("medium"), "medium", stem) else None,
      if image && f.pillow then VariantResult(f.variants("thumbnail"), "thumbnail", stem) else None)
  }

  /** No write is cut short. */
  predicate WholeWrites(f: Faults) {
    f.original != HalfWritten && forall v :: v in VARIANTS ==> f.variants(v) != Built(HalfWritten)
  }

  /** Then the disk gains exactly the stored paths. */
  lemma UploadedFiles(name: string, image: bool, stem: string, f: Faults)
    requires WholeWrites(f)
    ensures forall p :: p in PathsOf(Uploaded(name, image, stem, f)) <==>
              p == OriginalPath(image, stem, Extension(name)) ||
              (image && f.pillow && p in VariantFiles(f.variants, VARIANTS, stem))
  {
    var stored := Uploaded(name, image, stem, f);
    assert VARIANTS[0] == "medium" && VARIANTS[1] == "thumbnail";
    forall p | image && f.pillow && p in VariantFiles(f.variants, VARIANTS, stem)
      ensures p in PathsOf(stored)
    {
      var v :| v in VARIANTS && f.variants(v).Built? && f.variants(v).write != NotWritten && VariantPath(v, stem) == p;
      assert f.variants(v) == Built(Written);
      assert v == "medium" || v == "thumbnail";
    }
  }

  class BlobUploadCommandHandler {
    const storage: LocalBlobStorage
    const session: BlobSession

    constructor (storage: LocalBlobStorage, session: BlobSession)
      ensures this.storage == storage && this.session == session
    {
      this.storage, this.session := storage, session;
    }

    /** `stem` and `id` are new: no file and no row carries them. */
    method Call(valid: bool, name: string, image: bool, stem: string, id: nat, f: Faults) returns (r: Outcome)
      requires session.working == session.committed && id !in session.committed
      requires forall p :: p in PathsOf(Uploaded(name, image, stem, f)) ==> p !in storage.files
      modifies storage, session
      ensures r == Done <==> valid && f.original == Written && !f.row && !f.commit
      ensures r == Refused <==> !valid
      ensures session.committed == if r == Done then old(session.committed)[id := Uploaded(name, image, stem, f)]
                                   else old(session.committed)
      ensures session.working == session.committed
      ensures old(storage.files) <= storage.files
      ensures r == Done ==> forall p :: p in PathsOf(Uploaded(name, image, stem, f)) ==> p in storage.files
      ensures r == Refused ==> storage.files == old(storage.files)
      ensures r == Raised && !f.commit && WholeWrites(f) && (forall i :: !f.unlink(i)) ==> storage.files == old(storage.files)
    {
      if !valid {
        return Refused;
      }
      hide StripRoot, OriginalPath, VariantPath, Extension, Targets;
      ghost var before, stored' := storage.files, Uploaded(name, image, stem, f);
      var stored := storage.StoreSync(name, image, stem, f.pillow, f.original, f.variants);
      if stored.None? {
        return Raised;
      }
      assert stored.value == stored';
      StoredOnDisk(name, image, stem, f);
      assert forall p :: p in PathsOf(stored') ==> p in storage.files;
      if f.row {
        TargetsOfStored(stored.value, image, stem, Extension(name));
        if WholeWrites(f) {
          UploadedFiles(name, image, stem, f);
          assert storage.files == before + set p | p in PathsOf(stored');
        }
        var failed := storage.DeleteSync(PathsOf(stored.value), f.unlink);
        var left := session.Exit(true, f.commit);
        return Raised;
      }
      session.working := session.working[id := stored.value];
      var raised := session.Exit(false, f.commit);
      r := if raised then Raised else Done;
    }
  }

  /** The recorded paths are among the files written. */
  lemma StoredOnDisk(name: string, image: bool, stem: string, f: Faults)
    ensures forall p :: p in PathsOf(Uploaded(name, image, stem, f)) ==>
              p == OriginalPath(image, stem, Extension(name)) ||
              (image && f.pillow && p in VariantFiles(f.variants, VARIANTS, stem))
  {
    assert VARIANTS[0] == "medium" && VARIANTS[1] == "thumbnail";
  }

  class BlobDeleteCommandHandler {
    const storage: LocalBlobStorage
    const session: BlobSession

    constructor (storage: LocalBlobStorage, session: BlobSession)
      ensures this.storage == storage && this.session == session
    {
      this.storage, this.session := storage, session;
    }

    /** The row goes first, in a transaction; only then its files. */
    method Call(id: nat, f: Faults) returns (r: Outcome)
      requires session.working == session.committed
      modifies storage, session
      ensures r == Refused <==> id !in old(session.committed)
      ensures r == Refused || f.row || f.commit ==>
                session.committed == old(session.committed) && storage.files == old(storage.files)
      ensures !(r == Refused || f.row || f.commit) ==>
                && session.committed == old(session.committed) - {id}
                && storage.files >= old(storage.files) - Targets(PathsOf(old(session.committed)[id]))
      ensures storage.files <= old(storage.files)
      ensures r == Done ==>
                storage.files == old(storage.files) - Targets(PathsOf(old(session.committed)[id])) && !f.row && !f.commit
      ensures r == Raised && !f.row && !f.commit ==> exists i :: f.unlink(i)
    {
      if id !in session.working {
        return Refused;
      }
      var paths := PathsOf(session.working[id]);
      if !f.row {
        session.working := session.working - {id};
      }
      var raised := session.Exit(f.row, f.commit);
      if raised {
        return Raised;
      }
      var failed := storage.DeleteSync(paths, f.unlink);
      r := if failed then Raised else Done;
    }
  }
}
