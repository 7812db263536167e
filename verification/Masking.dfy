/** Secret masking: a depth-bounded recursion over dicts, lists and scalars. */
module Masking {
  const REDACTED := Leaf(Str("***"))
  const OMITTED := Leaf(Str("<omitted>"))
  const MAX_STR_LEN := 4096
  const MAX_DEPTH := 32

  /** A dict key: text, or anything else. */
  datatype Key = Name(text: string) | Other(tag: int)

  datatype Atom = Str(text: string) | Bytes(bytes: seq<bv8>) | Scalar(tag: int)

  /** A dict's entries in order, a list or tuple, or a scalar. */
  datatype Tree =
    | Dict(entries: seq<Entry>)
    | List(items: seq<Tree>, isTuple: bool)
    | Leaf(atom: Atom)

  datatype Entry = Entry(key: Key, value: Tree)

  /** The two regular expressions, as predicates on text. */
  datatype Rules = Rules(secretName: string -> bool, dataUri: string -> bool)

  /** A data URI starts with `data:`, in any case. */
  ghost predicate Sound(rules: Rules) {
    forall s :: rules.dataUri(s) ==> s != "" && s[0] in {'d', 'D'}
  }

  predicate IsSensitiveKey(rules: Rules, key: Key) {
    key.Name? && rules.secretName(key.text)
  }

  predicate LooksBinary(rules: Rules, value: Tree) {
    value.Leaf? &&
    (value.atom.Bytes? || (value.atom.Str? && (rules.dataUri(value.atom.text) || |value.atom.text| > MAX_STR_LEN)))
  }

  function Mask(rules: Rules, obj: Tree, depth: nat): Tree
    decreases obj
  {
    if depth > MAX_DEPTH then obj
    else
      match obj
      case Dict(entries) =>
        Dict(seq(|entries|, i requires 0 <= i < |entries| =>
          Entry(entries[i].key,
            if IsSensitiveKey(rules, entries[i].key) then REDACTED
            else if LooksBinary(rules, entries[i].value) then OMITTED
            else Mask(rules, entries[i].value, depth + 1))))
      case List(items, _) =>
        List(seq(|items|, i requires 0 <= i < |items| => Mask(rules, items[i], depth + 1)), false)
      case Leaf(_) => if LooksBinary(rules, obj) then OMITTED else obj
  }

  /** The masking routine, filling a new dict or list. */
  method MaskObject(rules: Rules, obj: Tree, depth: nat := 0) returns (masked: Tree)
    ensures masked == Mask(rules, obj, depth)
    decreases obj
  {
    if depth > MAX_DEPTH {
      return obj;
    }
    match obj {
      case Dict(entries) =>
        var out: seq<Entry>, k := [], 0;
        while k < |entries|
          invariant 0 <= k <= |entries| && |out| == k
          invariant forall i :: 0 <= i < k ==> out[i] == Mask(rules, obj, depth).entries[i]
        {
          var value;
          if IsSensitiveKey(rules, entries[k].key) {
            value := REDACTED;
          } else if LooksBinary(rules, entries[k].value) {
            value := OMITTED;
          } else {
            value := MaskObject(rules, entries[k].value, depth + 1);
          }
          out := out + [Entry(entries[k].key, value)];
          k := k + 1;
        }
        masked := Dict(out);
      case List(items, _) =>
        var out: seq<Tree>, k := [], 0;
        while k < |items|
          invariant 0 <= k <= |items| && |out| == k
          invariant forall i :: 0 <= i < k ==> out[i] == Mask(rules, obj, depth).items[i]
        {
          var item := MaskObject(rules, items[k], depth + 1);
          out := out + [item];
          k := k + 1;
        }
        masked := List(out, false);
      case Leaf(_) =>
        masked := if LooksBinary(rules, obj) then OMITTED else obj;
    }
  }

  // ----- what masking reveals --------------------------------------------

  /** Shown as the omission marker. */
  predicate Hidden(rules: Rules, value: Tree) {
    LooksBinary(rules, value) || value == OMITTED
  }

  /** Equal but for values under sensitive keys, hidden scalars, and the tuple or list spelling; below the
      depth limit, equal. */
  predicate AlikeAt(rules: Rules, a: Tree, b: Tree, depth: nat)
    decreases a
  {
    if depth > MAX_DEPTH then a == b
    else if a.Dict? && b.Dict? then
      |a.entries| == |b.entries| &&
      forall i :: 0 <= i < |a.entries| ==> AlikeEntry(rules, a.entries[i], b.entries[i], depth)
    else if a.List? && b.List? then
      |a.items| == |b.items| &&
      forall i :: 0 <= i < |a.items| ==> AlikeAt(rules, a.items[i], b.items[i], depth + 1)
    else a == b || (Hidden(rules, a) && Hidden(rules, b))
  }

  predicate AlikeEntry(rules: Rules, a: Entry, b: Entry, depth: nat)
    decreases a
  {
    && a.key == b.key
    && (IsSensitiveKey(rules, a.key)
        || (Hidden(rules, a.value) && Hidden(rules, b.value))
        || AlikeAt(rules, a.value, b.value, depth + 1))
  }

  function MaskEntry(rules: Rules, entry: Entry, depth: nat): Entry {
    Entry(entry.key,
      if IsSensitiveKey(rules, entry.key) then REDACTED
      else if LooksBinary(rules, entry.value) then OMITTED
      else Mask(rules, entry.value, depth + 1))
  }

  lemma MaskDict(rules: Rules, entries: seq<Entry>, depth: nat)
    requires depth <= MAX_DEPTH
    ensures var masked := Mask(rules, Dict(entries), depth);
            && masked.Dict? && |masked.entries| == |entries|
            && forall i :: 0 <= i < |entries| ==> masked.entries[i] == MaskEntry(rules, entries[i], depth)
  {
  }

  /** A masked value is the omission marker exactly when it was hidden. */
  lemma MaskedOmitted(rules: Rules, value: Tree, depth: nat)
    requires Sound(rules)
    ensures !LooksBinary(rules, OMITTED) && !LooksBinary(rules, REDACTED)
    ensures Mask(rules, value, depth) == OMITTED && !LooksBinary(rules, value) <==> value == OMITTED
    ensures depth <= MAX_DEPTH ==> (Mask(rules, value, depth) == OMITTED <==> Hidden(rules, value))
  {
    assert OMITTED.atom.text[0] == '<' && REDACTED.atom.text[0] == '*';
  }

  /** Masking is non-interfering and no coarser: two trees have the same mask exactly when they are alike. */
  lemma {:induction false} MasksAgree(rules: Rules, a: Tree, b: Tree, depth: nat)
    requires Sound(rules)
    ensures Mask(rules, a, depth) == Mask(rules, b, depth) <==> AlikeAt(rules, a, b, depth)
    decreases a
  {
    if depth <= MAX_DEPTH {
      var ma, mb := Mask(rules, a, depth), Mask(rules, b, depth);
      if a.Dict? && b.Dict? {
        DictsAgree(rules, a, b, depth);
      } else if a.List? && b.List? {
        forall i | 0 <= i < |a.items| && i < |b.items|
          ensures ma.items[i] == mb.items[i] <==> AlikeAt(rules, a.items[i], b.items[i], depth + 1)
        {
          MasksAgree(rules, a.items[i], b.items[i], depth + 1);
        }
        assert |a.items| == |b.items| && (forall i :: 0 <= i < |a.items| ==> ma.items[i] == mb.items[i]) ==> ma.items == mb.items;
      } else {
        MaskedOmitted(rules, a, depth);
        MaskedOmitted(rules, b, depth);
      }
    }
  }

  lemma {:induction false} DictsAgree(rules: Rules, a: Tree, b: Tree, depth: nat)
    requires Sound(rules) && a.Dict? && b.Dict? && depth <= MAX_DEPTH
    ensures Mask(rules, a, depth) == Mask(rules, b, depth) <==> AlikeAt(rules, a, b, depth)
    decreases a, 0
  {
    var ma, mb := Mask(rules, a, depth), Mask(rules, b, depth);
    MaskDict(rules, a.entries, depth);
    MaskDict(rules, b.entries, depth);
    forall i | 0 <= i < |a.entries| && i < |b.entries|
      ensures ma.entries[i] == mb.entries[i] <==> AlikeEntry(rules, a.entries[i], b.entries[i], depth)
    {
      var x, y := a.entries[i].value, b.entries[i].value;
      MasksAgree(rules, x, y, depth + 1);
      MaskedOmitted(rules, x, depth + 1);
      MaskedOmitted(rules, y, depth + 1);
    }
    assert |a.entries| == |b.entries| && (forall i :: 0 <= i < |a.entries| ==> ma.entries[i] == mb.entries[i]) ==>
        ma.entries == mb.entries;
  }

  // ----- shallow trees ---------------------------------------------------

  predicate WithinHeight(t: Tree, n: nat) {
    match t
    case Leaf(_) => true
    case Dict(entries) => n > 0 && forall i :: 0 <= i < |entries| ==> WithinHeight(entries[i].value, n - 1)
    case List(items, _) => n > 0 && forall i :: 0 <= i < |items| ==> WithinHeight(items[i], n - 1)
  }

  /** Differing only in values under sensitive keys, in the content of binary-looking values and in the
      spelling of a sequence as tuple or list. */
  predicate Alike(rules: Rules, a: Tree, b: Tree) {
    if a.Dict? && b.Dict? then
      |a.entries| == |b.entries| &&
      forall i :: 0 <= i < |a.entries| ==>
        && a.entries[i].key == b.entries[i].key
        && (IsSensitiveKey(rules, a.entries[i].key) || Alike(rules, a.entries[i].value, b.entries[i].value))
    else if a.List? && b.List? then
      |a.items| == |b.items| && forall i :: 0 <= i < |a.items| ==> Alike(rules, a.items[i], b.items[i])
    else a == b || (LooksBinary(rules, a) && LooksBinary(rules, b))
  }

  lemma {:induction false} AlikeShallow(rules: Rules, a: Tree, b: Tree, depth: nat)
    requires depth <= MAX_DEPTH && Alike(rules, a, b)
    requires WithinHeight(a, MAX_DEPTH - depth) && WithinHeight(b, MAX_DEPTH - depth)
    ensures AlikeAt(rules, a, b, depth)
    decreases a
  {
    if a.Dict? && b.Dict? {
      forall i | 0 <= i < |a.entries|
        ensures AlikeEntry(rules, a.entries[i], b.entries[i], depth)
      {
        if !IsSensitiveKey(rules, a.entries[i].key) {
          AlikeShallow(rules, a.entries[i].value, b.entries[i].value, depth + 1);
        }
      }
    } else if a.List? && b.List? {
      forall i | 0 <= i < |a.items|
        ensures AlikeAt(rules, a.items[i], b.items[i], depth + 1)
      {
        AlikeShallow(rules, a.items[i], b.items[i], depth + 1);
      }
    }
  }

  /** Two trees of height at most the limit that are alike mask to the same tree. */
  lemma NonInterference(rules: Rules, a: Tree, b: Tree)
    requires Sound(rules) && Alike(rules, a, b) && WithinHeight(a, 32) && WithinHeight(b, 32)
    ensures Mask(rules, a, 0) == Mask(rules, b, 0)
  {
    AlikeShallow(rules, a, b, 0);
    MasksAgree(rules, a, b, 0);
  }

  /** A scalar under `n` nested lists. */
  function Nest(n: nat, leaf: Tree): Tree {
    if n == 0 then leaf else List([Nest(n - 1, leaf)], false)
  }

  lemma {:induction false} NestMask(rules: Rules, n: nat, leaf: Tree, depth: nat)
    requires leaf.Leaf?
    ensures Mask(rules, Nest(n, leaf), depth) ==
            Nest(n, if depth + n <= MAX_DEPTH && LooksBinary(rules, leaf) then OMITTED else leaf)
  {
    if n > 0 {
      NestMask(rules, n - 1, leaf, depth + 1);
      if depth <= MAX_DEPTH {
        var inner := Mask(rules, Nest(n - 1, leaf), depth + 1);
        assert Mask(rules, Nest(n, leaf), depth).items == [inner];
      }
    }
  }

  lemma {:induction false} NestInjective(n: nat, a: Tree, b: Tree)
    requires a.Leaf? && b.Leaf? && Nest(n, a) == Nest(n, b)
    ensures a == b
  {
    if n > 0 {
      assert Nest(n, a).items[0] == Nest(n, b).items[0];
      NestInjective(n - 1, a, b);
    }
  }

  lemma {:induction false} NestHeight(n: nat, leaf: Tree, h: nat)
    requires leaf.Leaf?
    ensures WithinHeight(Nest(n, leaf), h) <==> n <= h
  {
    if n > 0 && h > 0 {
      NestHeight(n - 1, leaf, h - 1);
      assert Nest(n, leaf).items == [Nest(n - 1, leaf)];
      assert WithinHeight(Nest(n, leaf), h) ==> WithinHeight(Nest(n, leaf).items[0], h - 1);
    }
  }

  /** The height bound is the exact one: under `n` lists a binary value is hidden if and only if `n` is at
      most the limit. */
  lemma HeightBoundIsTight(rules: Rules, n: nat, a: Tree, b: Tree)
    requires LooksBinary(rules, a) && LooksBinary(rules, b) && a != b
    ensures Mask(rules, Nest(n, a), 0) == Mask(rules, Nest(n, b), 0) <==> WithinHeight(Nest(n, a), 32)
    ensures WithinHeight(Nest(n, a), 32) <==> n <= 32
  {
    NestMask(rules, n, a, 0);
    NestMask(rules, n, b, 0);
    NestHeight(n, a, MAX_DEPTH);
    if n > MAX_DEPTH && Nest(n, a) == Nest(n, b) {
      NestInjective(n, a, b);
    }
  }

  // ----- one place of a tree ---------------------------------------------

  function Children(t: Tree): seq<Tree> {
    match t
    case Dict(entries) => seq(|entries|, i requires 0 <= i < |entries| => entries[i].value)
    case List(items, _) => items
    case Leaf(_) => []
  }

  /** The path of indices leads somewhere in the tree. */
  predicate Leads(t: Tree, path: seq<nat>)
    decreases |path|
  {
    path == [] || (path[0] < |Children(t)| && Leads(Children(t)[path[0]], path[1..]))
  }

  function At(t: Tree, path: seq<nat>): Tree
    requires Leads(t, path)
    decreases |path|
  {
    if path == [] then t else At(Children(t)[path[0]], path[1..])
  }

  /** The value with this index stands under a name that the rules call secret. */
  predicate SecretAt(rules: Rules, t: Tree, i: nat) {
    t.Dict? && i < |t.entries| && t.entries[i].key.Name? && rules.secretName(t.entries[i].key.text)
  }

  /** The path leads somewhere and crosses no secret name. */
  predicate Clear(rules: Rules, t: Tree, path: seq<nat>)
    decreases |path|
  {
    path == [] ||
    (path[0] < |Children(t)| && !SecretAt(rules, t, path[0]) && Clear(rules, Children(t)[path[0]], path[1..]))
  }

  /** What masking makes of the value at a place: bytes, data URIs and texts over 4096 characters give way to a
      marker, other scalars stay, dicts keep their keys and sequences their length. */
  predicate ShownAs(rules: Rules, there: Tree, shown: Tree) {
    match there
    case Leaf(Bytes(_)) => shown == Leaf(Str("<omitted>"))
    case Leaf(Str(text)) => shown == if rules.dataUri(text) || |text| > 4096 then Leaf(Str("<omitted>")) else there
    case Leaf(Scalar(_)) => shown == there
    case Dict(entries) =>
      shown.Dict? && |shown.entries| == |entries| &&
      forall i :: 0 <= i < |entries| ==> shown.entries[i].key == entries[i].key
    case List(items, _) => shown.List? && !shown.isTuple && |shown.items| == |items|
  }

  lemma MaskChild(rules: Rules, t: Tree, depth: nat, i: nat)
    requires depth <= 32 && i < |Children(t)|
    ensures |Children(Mask(rules, t, depth))| == |Children(t)|
    ensures SecretAt(rules, t, i) ==> Children(Mask(rules, t, depth))[i] == Leaf(Str("***"))
    ensures !SecretAt(rules, t, i) && depth < 32 ==>
              Children(Mask(rules, t, depth))[i] == Mask(rules, Children(t)[i], depth + 1)
  {
    if t.Dict? {
      MaskDict(rules, t.entries, depth);
    }
  }

  /** Every place at most 32 steps down that no secret name covers is shown in the mask as its value asks. */
  lemma {:induction false} ClearPlacesShow(rules: Rules, t: Tree, path: seq<nat>, depth: nat)
    requires Clear(rules, t, path) && depth + |path| <= 32
    ensures Leads(t, path) && Leads(Mask(rules, t, depth), path)
    ensures ShownAs(rules, At(t, path), At(Mask(rules, t, depth), path))
    decreases |path|
  {
    if path != [] {
      MaskChild(rules, t, depth, path[0]);
      ClearPlacesShow(rules, Children(t)[path[0]], path[1..], depth + 1);
    }
  }

  /** Every value at most 33 steps down that stands under a secret name, with none above it, is redacted; so no
      value below it is to be found in the mask. */
  lemma {:induction false} SecretsAreRedacted(rules: Rules, t: Tree, path: seq<nat>, i: nat, depth: nat)
    requires Clear(rules, t, path) && depth + |path| <= 32
    requires Leads(t, path) && SecretAt(rules, At(t, path), i)
    ensures Leads(Mask(rules, t, depth), path)
    ensures var shown := Children(At(Mask(rules, t, depth), path));
            i < |shown| && shown[i] == Leaf(Str("***"))
    decreases |path|
  {
    if path == [] {
      MaskChild(rules, t, depth, i);
    } else {
      MaskChild(rules, t, depth, path[0]);
      SecretsAreRedacted(rules, Children(t)[path[0]], path[1..], i, depth + 1);
    }
  }

  // ----- masking twice ---------------------------------------------------

  /** Nothing left to mask down to the depth limit. */
  predicate Masked(rules: Rules, t: Tree, depth: nat)
    decreases t
  {
    depth > MAX_DEPTH ||
    match t
    case Dict(entries) => forall i :: 0 <= i < |entries| ==> MaskedEntry(rules, entries[i], depth)
    case List(items, isTuple) => !isTuple && forall i :: 0 <= i < |items| ==> Masked(rules, items[i], depth + 1)
    case Leaf(_) => !LooksBinary(rules, t)
  }

  predicate MaskedEntry(rules: Rules, entry: Entry, depth: nat)
    decreases entry
  {
    if IsSensitiveKey(rules, entry.key) then entry.value == REDACTED
    else !LooksBinary(rules, entry.value) && Masked(rules, entry.value, depth + 1)
  }

  /** What masking returns has every secret redacted and every blob omitted. */
  lemma {:induction false} MaskIsMasked(rules: Rules, t: Tree, depth: nat)
    requires Sound(rules)
    ensures Masked(rules, Mask(rules, t, depth), depth)
    decreases t
  {
    MaskedOmitted(rules, t, depth);
    if depth <= MAX_DEPTH {
      var masked := Mask(rules, t, depth);
      if t.Dict? {
        MaskDict(rules, t.entries, depth);
        forall i | 0 <= i < |t.entries|
          ensures MaskedEntry(rules, masked.entries[i], depth)
        {
          MaskIsMasked(rules, t.entries[i].value, depth + 1);
        }
      } else if t.List? {
        forall i | 0 <= i < |t.items|
          ensures Masked(rules, masked.items[i], depth + 1)
        {
          MaskIsMasked(rules, t.items[i], depth + 1);
        }
      }
    }
  }

  /** Masking changes a tree exactly when there is something to mask. */
  lemma {:induction false} MaskFixes(rules: Rules, t: Tree, depth: nat)
    requires Sound(rules)
    ensures Mask(rules, t, depth) == t <==> Masked(rules, t, depth)
    decreases t
  {
    MaskedOmitted(rules, t, depth);
    if depth <= MAX_DEPTH {
      var masked := Mask(rules, t, depth);
      if t.Dict? {
        MaskDict(rules, t.entries, depth);
        forall i | 0 <= i < |t.entries|
          ensures masked.entries[i] == t.entries[i] <==> MaskedEntry(rules, t.entries[i], depth)
        {
          MaskFixes(rules, t.entries[i].value, depth + 1);
        }
        assert (forall i :: 0 <= i < |t.entries| ==> masked.entries[i] == t.entries[i]) ==> masked.entries == t.entries;
      } else if t.List? {
        forall i | 0 <= i < |t.items|
          ensures masked.items[i] == t.items[i] <==> Masked(rules, t.items[i], depth + 1)
        {
          MaskFixes(rules, t.items[i], depth + 1);
        }
        assert (forall i :: 0 <= i < |t.items| ==> masked.items[i] == t.items[i]) ==> masked.items == t.items;
      }
    }
  }

  /** Masking a second time changes nothing, at any depth and for trees of any height. */
  lemma Idempotent(rules: Rules, t: Tree, depth: nat)
    requires Sound(rules)
    ensures Mask(rules, Mask(rules, t, depth), depth) == Mask(rules, t, depth)
  {
    MaskIsMasked(rules, t, depth);
    MaskFixes(rules, Mask(rules, t, depth), depth);
  }

  /** Every dict keeps its keys in order and every sequence its length, wherever masking keeps the value. */
  predicate Keeps(rules: Rules, t: Tree, masked: Tree)
    decreases t
  {
    match t
    case Dict(entries) =>
      masked.Dict? && |masked.entries| == |entries| &&
      (forall i :: 0 <= i < |entries| ==>
        && masked.entries[i].key == entries[i].key
        && (IsSensitiveKey(rules, entries[i].key) || LooksBinary(rules, entries[i].value)
            || Keeps(rules, entries[i].value, masked.entries[i].value)))
    case List(items, _) =>
      masked.List? && |masked.items| == |items| &&
      forall i :: 0 <= i < |items| ==> Keeps(rules, items[i], masked.items[i])
    case Leaf(_) => masked == t || LooksBinary(rules, t)
  }

  lemma {:induction false} ShapeKept(rules: Rules, t: Tree, depth: nat)
    ensures Keeps(rules, t, Mask(rules, t, depth))
    decreases t
  {
    if t.Dict? {
      forall i | 0 <= i < |t.entries|
        ensures Keeps(rules, t.entries[i].value, Mask(rules, t.entries[i].value, depth + 1))
      {
        ShapeKept(rules, t.entries[i].value, depth + 1);
      }
    } else if t.List? {
      forall i | 0 <= i < |t.items|
        ensures Keeps(rules, t.items[i], Mask(rules, t.items[i], depth + 1))
      {
        ShapeKept(rules, t.items[i], depth + 1);
      }
    }
  }
}
