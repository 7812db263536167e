/** The local blob storage adapter and the upload and delete handlers, as one request runs them. A fault
    parameter says where the file system, Pillow or the database fails. */
module BlobStorage {
  import opened Options

  const FILE_PATH := "files"
  const IMAGE_PATH := "images"
  const VARIANTS := ["medium", "thumbnail"]

  // ----- paths -----------------------------------------------------------

  function RemovePrefix(s: string, prefix: string): string {
    if prefix <= s then s[|prefix|..] else s
  }

  function StripRoot(path: string): string {
    RemovePrefix(RemovePrefix(path, "/"), "media/")
  }

  function Under(dir: string, filename: string): string {
    dir + "/" + filename
  }

  function Lower(c: char): char {
    if 'A' <= c <= 'Z' then (c as int + 32) as char else c
  }

  /** What follows the last dot, in lower case. */
  function AfterDot(name: string): string {
    if name == "" || name[|name| - 1] == '.' then ""
    else AfterDot(name[..|name| - 1]) + [Lower(name[|name| - 1])]
  }

  function Extension(name: string): string {
    if '.' in name then AfterDot(name) else "bin"
  }

  function Dir(image: bool): string {
    if image then IMAGE_PATH else FILE_PATH
  }

  /** The three paths an upload can write. */
  function OriginalPath(image: bool, stem: string, extension: string): string {
    Under(Dir(image), stem + "." + extension)
  }

  function VariantPath(variant: string, stem: string): string {
    Under(Under(IMAGE_PATH, variant), stem + ".webp")
  }

  /** A file stem as `str(uuid7())` gives it: neither a slash nor a dot. */
  predicate Stem(s: string) {
    s != "" && '/' !in s && '.' !in s
  }

  /** Stripping the root leaves a stored path alone exactly when it names neither the file-system root nor a
      directory called `media`; the adapter's own directories are neither. */
  lemma StripRootKeeps(path: string)
    ensures StripRoot(path) == path <==> !("/" <= path) && !("media/" <= path)
  {
    if "/" <= path {
      assert |StripRoot(path)| < |path|;
    }
  }

  /** What stripping makes of a path written by the older convention, with the media root in front: the rest. */
  lemma StripRootDrops(path: string)
    ensures StripRoot("/media/" + path) == path && StripRoot("media/" + path) == path
    ensures !("media/" <= path) ==> StripRoot("/" + path) == path
  {
    assert ("/media/" + path)[1..] == "media/" + path && ("media/" + path)[6..] == path && ("/" + path)[1..] == path;
    assert "/media/" + path == "/" + ("media/" + path);
    assert ("media/" + path)[0] == 'm';
  }

  /** Where an upload's files go. */
  lemma PathsSpelled(stem: string, extension: string)
    ensures OriginalPath(true, stem, extension) == "images/" + stem + "." + extension
    ensures OriginalPath(false, stem, extension) == "files/" + stem + "." + extension
    ensures VariantPath("medium", stem) == "images/medium/" + stem + ".webp"
    ensures VariantPath("thumbnail", stem) == "images/thumbnail/" + stem + ".webp"
  {
    assert IMAGE_PATH + "/" == "images/" && FILE_PATH + "/" == "files/";
    assert IMAGE_PATH + "/" + "medium" + "/" == "images/medium/";
    assert IMAGE_PATH + "/" + "thumbnail" + "/" == "images/thumbnail/";
  }

  /** The character with ASCII letters in lower case. */
  predicate LowerOf(c: char, lower: char) {
    if 'A' <= c <= 'Z' then lower as int == c as int + 32 else lower == c
  }

  lemma {:induction false} AfterDotMeans(name: string) returns (dot: nat)
    requires '.' in name
    ensures dot < |name| && name[dot] == '.' && '.' !in name[dot + 1..]
    ensures |AfterDot(name)| == |name| - dot - 1
    ensures forall k :: 0 <= k < |AfterDot(name)| ==> LowerOf(name[dot + 1 + k], AfterDot(name)[k])
  {
    var n := |name| - 1;
    if name[n] == '.' {
      dot := n;
    } else {
      assert name == name[..n] + [name[n]];
      dot := AfterDotMeans(name[..n]);
      assert name[dot + 1..] == name[..n][dot + 1..] + [name[n]];
    }
  }

  /** A name's extension is what follows its last dot, in lower case; without a dot it is `bin`. */
  lemma ExtensionMeans(name: string)
    ensures '.' !in name ==> Extension(name) == "bin"
    ensures '.' in name ==>
              exists dot: nat ::
                && dot < |name| && name[dot] == '.' && '.' !in name[dot + 1..]
                && |Extension(name)| == |name| - dot - 1
                && forall k :: 0 <= k < |Extension(name)| ==> LowerOf(name[dot + 1 + k], Extension(name)[k])
  {
    if '.' in name {
      var dot := AfterDotMeans(name);
    }
  }

  lemma StoredPathsAreKept(image: bool, variant: string, stem: string, extension: string)
    requires variant in VARIANTS
    ensures StripRoot(OriginalPath(image, stem, extension)) == OriginalPath(image, stem, extension)
    ensures StripRoot(VariantPath(variant, stem)) == VariantPath(variant, stem)
  {
    var path, scaled := OriginalPath(image, stem, extension), VariantPath(variant, stem);
    assert path[0] == (if image then 'i' else 'f') && scaled[0] == 'i';
    StripRootKeeps(path);
    StripRootKeeps(scaled);
  }

  lemma StemBeforeDot(a: string, restA: string, b: string, restB: string)
    requires Stem(a) && Stem(b) && a + "." + restA == b + "." + restB
    ensures a == b
  {
    var s := a + "." + restA;
    assert s[|a|] == '.' && s[|b|] == '.';
    assert forall i :: 0 <= i < |a| ==> s[i] == a[i];
    assert forall i :: 0 <= i < |b| ==> s[i] == b[i];
    assert |a| == |b|;
    assert a == s[..|a|] == b;
  }

  /** Uploads with different stems write different files. */
  lemma PathsNameTheirStem(imageA: bool, a: string, extA: string, imageB: bool, b: string, extB: string,
                           variant: string, other: string)
    requires Stem(a) && Stem(b) && variant in VARIANTS && other in VARIANTS
    ensures OriginalPath(imageA, a, extA) == OriginalPath(imageB, b, extB) ==> a == b
    ensures VariantPath(variant, a) == VariantPath(other, b) ==> a == b && variant == other
    ensures OriginalPath(imageA, a, extA) != VariantPath(variant, b)
  {
    if OriginalPath(imageA, a, extA) == OriginalPath(imageB, b, extB) {
      OriginalsDiffer(imageA, a, extA, imageB, b, extB);
    }
    if VariantPath(variant, a) == VariantPath(other, b) {
      VariantsDiffer(a, b, variant, other);
    }
    OriginalIsNoVariant(imageA, a, extA, b, variant);
  }

  lemma OriginalsDiffer(imageA: bool, a: string, extA: string, imageB: bool, b: string, extB: string)
    requires Stem(a) && Stem(b) && OriginalPath(imageA, a, extA) == OriginalPath(imageB, b, extB)
    ensures a == b
  {
    var p, q := OriginalPath(imageA, a, extA), OriginalPath(imageB, b, extB);
    assert p[0] == (if imageA then 'i' else 'f') && q[0] == (if imageB then 'i' else 'f');
    var n := |Dir(imageA)| + 1;
    assert p[n..] == a + "." + extA && q[n..] == b + "." + extB;
    StemBeforeDot(a, extA, b, extB);
  }

  lemma VariantsDiffer(a: string, b: string, variant: string, other: string)
    requires Stem(a) && Stem(b) && variant in VARIANTS && other in VARIANTS
    requires VariantPath(variant, a) == VariantPath(other, b)
    ensures a == b && variant == other
  {
    var p, q := VariantPath(variant, a), VariantPath(other, b);
    assert p[7] == variant[0] && q[7] == other[0];
    var n := |IMAGE_PATH| + 1 + |variant| + 1;
    assert p[n..] == a + ".webp" == a + "." + "webp";
    assert q[n..] == b + ".webp" == b + "." + "webp";
    StemBeforeDot(a, "webp", b, "webp");
  }

  lemma OriginalIsNoVariant(image: bool, a: string, extension: string, b: string, variant: string)
    requires Stem(a) && variant in VARIANTS
    ensures OriginalPath(image, a, extension) != VariantPath(variant, b)
  {
    var p, q := OriginalPath(image, a, extension), VariantPath(variant, b);
    var k := 7 + |variant|;
    assert p[0] == (if image then 'i' else 'f') && q[0] == 'i';
    assert q[k] == '/' && forall i :: 7 <= i < k ==> q[i] == variant[i - 7] && q[i] != '.';
    if image {
      assert p[7 + |a|] == '.' && forall i :: 0 <= i < |a| ==> p[7 + i] == a[i];
    }
  }

  // ----- the adapter -----------------------------------------------------

  datatype WriteFault = Written | NotWritten | HalfWritten

  /** Scaling an image can fail before anything is written. */
  datatype VariantFault = NotBuilt | Built(write: WriteFault)

  datatype Stored = Stored(path: string, mediumPath: Option<string>, thumbnailPath: Option<string>)

  function Given(path: Option<string>): seq<string> {
    if path.Some? then [path.value] else []
  }

  function PathsOf(stored: Stored): seq<string> {
    [stored.path] + Given(stored.mediumPath) + Given(stored.thumbnailPath)
  }

  /** The files a list of paths names. */
  function Targets(paths: seq<string>): set<string> {
    set i | 0 <= i < |paths| && paths[i] != "" :: StripRoot(paths[i])
  }

  /** The variant's path, if the variant was built and written. */
  function VariantResult(fault: VariantFault, variant: string, stem: string): Option<string> {
    if fault == Built(Written) then Some(VariantPath(variant, stem)) else None
  }

  /** The variant files on disk afterwards, half-written ones included. */
  function VariantFiles(faults: string -> VariantFault, variants: seq<string>, stem: string): set<string> {
    set v | v in variants && faults(v).Built? && faults(v).write != NotWritten :: VariantPath(v, stem)
  }

  lemma VariantFilesNext(faults: string -> VariantFault, variants: seq<string>, k: nat, stem: string)
    requires k < |variants|
    ensures var v := variants[k];
            VariantFiles(faults, variants[..k + 1], stem) ==
            VariantFiles(faults, variants[..k], stem)
            + (if faults(v).Built? && faults(v).write != NotWritten then {VariantPath(v, stem)} else {})
  {
    hide VariantPath;
    assert variants[..k + 1] == variants[..k] + [variants[k]];
  }

  class LocalBlobStorage {
    /** The media-relative paths of the files on disk. */
    var files: set<string>

    constructor ()
      ensures files == {}
    {
      files := {};
    }

    /** Write one file; no result means the write raised. */
    method Write(dir: string, filename: string, fault: WriteFault) returns (r: Option<string>)
      modifies this
      ensures r == if fault == Written then Some(Under(dir, filename)) else None
      ensures files == old(files) + (if fault == NotWritten then {} else {Under(dir, filename)})
    {
      if fault != NotWritten {
        files := files + {Under(dir, filename)};
      }
      r := if fault == Written then Some(Under(dir, filename)) else None;
    }

    /** One scaled copy; whatever fails, there is no result. */
    method MakeVariant(variant: string, stem: string, fault: VariantFault) returns (written: Option<string>)
      modifies this
      ensures written == VariantResult(fault, variant, stem)
      ensures files == old(files)
                       + (if fault.Built? && fault.write != NotWritten then {VariantPath(variant, stem)} else {})
    {
      written := None;
      if fault.Built? {
        written := Write(Under(IMAGE_PATH, variant), stem + ".webp", fault.write);
      }
    }

    /** Scaled copies, best effort: a variant that fails is recorded as missing. */
    method MakeImageVariants(stem: string, pillow: bool, faults: string -> VariantFault) returns (out: map<string, Option<string>>)
      modifies this
      ensures !pillow ==> out == map[] && files == old(files)
      ensures pillow ==> out.Keys == {"medium", "thumbnail"} &&
                         forall v :: v in VARIANTS ==> out[v] == VariantResult(faults(v), v, stem)
      ensures pillow ==> files == old(files) + VariantFiles(faults, VARIANTS, stem)
    {
      out := map[];
      if !pillow {
        return;
      }
      var k := 0;
      assert VariantFiles(faults, VARIANTS[..0], stem) == {};
      hide VariantFiles, VariantResult, VariantPath;
      while k < |VARIANTS|
        invariant 0 <= k <= |VARIANTS|
        invariant out.Keys == set v | v in VARIANTS[..k]
        invariant forall v :: v in VARIANTS[..k] ==> out[v] == VariantResult(faults(v), v, stem)
        invariant files == old(files) + VariantFiles(faults, VARIANTS[..k], stem)
      {
        VariantFilesNext(faults, VARIANTS, k, stem);
        var variant := VARIANTS[k];
        var written := MakeVariant(variant, stem, faults(variant));
        out := out[variant := written];
        assert VARIANTS[..k + 1] == VARIANTS[..k] + [variant];
        k := k + 1;
      }
      assert VARIANTS[..k] == VARIANTS;
    }

    /** Store the original and, for an image, its variants; no result means the original could not be
        written. */
    method StoreSync(name: string, image: bool, stem: string, pillow: bool, original: WriteFault, faults: string -> VariantFault)
      returns (r: Option<Stored>)
      modifies this
      ensures r.Some? <==> original == Written
      ensures r.Some? ==> r.value.path == OriginalPath(image, stem, Extension(name))
      ensures r.Some? && image && pillow ==>
                && r.value.mediumPath == VariantResult(faults("medium"), "medium", stem)
                && r.value.thumbnailPath == VariantResult(faults("thumbnail"), "thumbnail", stem)
      ensures r.Some? && !(image && pillow) ==> r.value.mediumPath == r.value.thumbnailPath == None
      ensures files == old(files)
                       + (if original == NotWritten then {} else {OriginalPath(image, stem, Extension(name))})
                       + (if r.Some? && image && pillow then VariantFiles(faults, VARIANTS, stem) else {})
    {
      var path := Write(Dir(image), stem + "." + Extension(name), original);
      if path.None? {
        return None;
      }
      if !image {
        return Some(Stored(path.value, None, None));
      }
      var variants := MakeImageVariants(stem, pillow, faults);
      r := Some(Stored(path.value,
        if "medium" in variants then variants["medium"] else None,
        if "thumbnail" in variants then variants["thumbnail"] else None));
    }

    /** Unlink every path in turn; a missing file is no error, a failing unlink ends the loop. */
    method DeleteSync(paths: seq<string>, fails: nat -> bool) returns (raised: bool)
      modifies this
      ensures raised <==> exists i :: 0 <= i < |paths| && paths[i] != "" && fails(i)
      ensures !raised ==> files == old(files) - Targets(paths)
      ensures old(files) - Targets(paths) <= files <= old(files)
    {
      var k := 0;
      while k < |paths|
        invariant 0 <= k <= |paths|
        invariant forall i :: 0 <= i < k ==> paths[i] == "" || !fails(i)
        invariant files == old(files) - Targets(paths[..k])
      {
        assert Targets(paths[..k + 1]) == Targets(paths[..k]) + (if paths[k] != "" then {StripRoot(paths[k])} else {}) by {
          TargetsNext(paths, k);
        }
        if paths[k] != "" {
          if fails(k) {
            TargetsPart(paths, k);
            return true;
          }
          files := files - {StripRoot(paths[k])};
        }
        k := k + 1;
      }
      assert paths[..k] == paths;
      raised := false;
    }
  }

  lemma TargetsNext(paths: seq<string>, k: nat)
    requires k < |paths|
    ensures Targets(paths[..k + 1]) == Targets(paths[..k]) + (if paths[k] != "" then {StripRoot(paths[k])} else {})
  {
    var before, after := paths[..k], paths[..k + 1];
    forall f | f in Targets(before)
      ensures f in Targets(after)
    {
      var i :| 0 <= i < k && before[i] != "" && StripRoot(before[i]) == f;
      assert after[i] == before[i];
    }
    if paths[k] != "" {
      assert after[k] == paths[k];
    }
    forall f | f in Targets(after)
      ensures f in Targets(before) || (paths[k] != "" && f == StripRoot(paths[k]))
    {
      var i :| 0 <= i < k + 1 && after[i] != "" && StripRoot(after[i]) == f;
      if i < k {
        assert before[i] == after[i];
      }
    }
  }

  lemma TargetsPart(paths: seq<string>, k: nat)
    requires k <= |paths|
    ensures Targets(paths[..k]) <= Targets(paths)
  {
    forall f | f in Targets(paths[..k])
      ensures f in Targets(paths)
    {
      var i :| 0 <= i < k && paths[..k][i] != "" && StripRoot(paths[..k][i]) == f;
      assert paths[i] == paths[..k][i];
    }
  }

  /** Stored paths name themselves, so deleting them removes exactly the files that were written. */
  lemma TargetsOfStored(stored: Stored, image: bool, stem: string, extension: string)
    requires stored.path == OriginalPath(image, stem, extension)
    requires stored.mediumPath.Some? ==> stored.mediumPath.value == VariantPath("medium", stem)
    requires stored.thumbnailPath.Some? ==> stored.thumbnailPath.value == VariantPath("thumbnail", stem)
    ensures forall f :: f in Targets(PathsOf(stored)) <==> f in PathsOf(stored)
  {
    var paths := PathsOf(stored);
    assert forall i :: 0 <= i < |paths| ==> paths[i] != "" && StripRoot(paths[i]) == paths[i] by {
      StoredPathsAreKept(image, "medium", stem, extension);
      StoredPathsAreKept(image, "thumbnail", stem, extension);
      assert OriginalPath(image, stem, extension) != "";
      assert VariantPath("medium", stem) != "" && VariantPath("thumbnail", stem) != "";
    }
    forall f | f in paths
      ensures f in Targets(paths)
    {
      var i :| 0 <= i < |paths| && paths[i] == f;
      assert StripRoot(paths[i]) == f;
    }
  }
}
