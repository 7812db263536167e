/** Return-type compatibility between a protocol method and its implementation, as a relation on
    annotations. */
module ReturnTypes {
  import opened Options

  /** An annotation. `Subscripted` is a generic alias such as `list[int]` or `Awaitable[R]`, named by the
      `typing` name it was written with; `NoneLit` is the literal `None`, `NoneType` its class inside unions. */
  datatype Ann =
    | Empty
    | Any
    | TypeVar(name: string)
    | NoneLit
    | NoneType
    | Class(id: nat)
    | Subscripted(alias: string, args: seq<Ann>)
    | Union(options: seq<Ann>, pep604: bool)

  datatype Origin = TypingUnion | UnionType | TypingAlias(name: string) | RuntimeClass(name: string)

  /** `get_origin`: a subscripted alias gives the runtime class, never the `typing` alias itself. */
  function GetOrigin(a: Ann): Option<Origin> {
    match a
    case Union(_, pep604) => Some(if pep604 then UnionType else TypingUnion)
    case Subscripted(alias, _) => Some(RuntimeClass(alias))
    case _ => None
  }

  predicate IsUnionOrigin(origin: Option<Origin>) {
    origin == Some(TypingUnion) || origin == Some(UnionType)
  }

  function GetArgs(a: Ann): seq<Ann> {
    match a
    case Union(options, _) => options
    case Subscripted(_, args) => args
    case _ => []
  }

  /** The comparison of annotations, their printed form, and which values the named types hold. */
  datatype World<!V> = World(eq: (Ann, Ann) -> bool, repr: Ann -> string, holds: (Ann, V) -> bool, none: V)

  /** The options of a union other than `NoneType`. */
  function Inners(options: seq<Ann>): (inners: seq<Ann>)
    ensures forall a :: a in inners <==> a in options && a != NoneType
  {
    if options == [] then []
    else (if options[0] == NoneType then [] else [options[0]]) + Inners(options[1..])
  }

  function Rejoined(inners: seq<Ann>): Ann {
    if |inners| == 1 then inners[0] else Union(inners, false)
  }

  /** The relation, branch by branch; it recurses on the options of the base. */
  predicate Compatible<V>(w: World<V>, base: Ann, target: Ann)
    decreases base
  {
    if base == Empty then true
    else if target == Empty then false
    else if base == Any then true
    else if w.eq(base, target) then true
    else if base.TypeVar? then true
    else
      var baseOrigin, targetOrigin := GetOrigin(base), GetOrigin(target);
      var baseArgs, targetArgs := GetArgs(base), GetArgs(target);
      if IsUnionOrigin(baseOrigin) && NoneType in baseArgs then
        var wanted := if IsUnionOrigin(targetOrigin) && NoneType in targetArgs then Rejoined(Inners(targetArgs)) else target;
        exists i :: 0 <= i < |baseArgs| && baseArgs[i] != NoneType && Compatible(w, baseArgs[i], wanted)
      else if IsUnionOrigin(targetOrigin) && NoneType in targetArgs && !IsUnionOrigin(baseOrigin) then false
      else if IsUnionOrigin(baseOrigin) then
        exists i :: 0 <= i < |baseArgs| && Compatible(w, baseArgs[i], target)
      else if baseOrigin == Some(TypingAlias("Awaitable")) && targetOrigin == Some(TypingAlias("Awaitable")) then true
      else w.repr(base) == w.repr(target)
  }

  // ----- what annotations mean -------------------------------------------

  /** The values of an annotation: everything for `Any`, type variables and a missing annotation, and the
      set union for a union. */
  predicate Has<V(==)>(w: World<V>, a: Ann, v: V) {
    match a
    case Empty => true
    case Any => true
    case TypeVar(_) => true
    case NoneLit => v == w.none
    case NoneType => v == w.none
    case Union(options, _) => exists i :: 0 <= i < |options| && Has(w, options[i], v)
    case _ => w.holds(a, v)
  }

  ghost predicate Within<V(!new)>(w: World<V>, target: Ann, base: Ann) {
    forall v :: Has(w, target, v) ==> Has(w, base, v)
  }

  /** Equal annotations mean the same. */
  ghost predicate Coherent<V(!new)>(w: World<V>) {
    forall a, b :: w.eq(a, b) ==> Within(w, b, a)
  }

  /** Neither open nor a union: the annotations compared by their printed form. */
  predicate Plain(a: Ann) {
    a.NoneLit? || a.NoneType? || a.Class? || a.Subscripted?
  }

  /** No two plain annotations print alike without the second's values lying in the first. */
  ghost predicate ReprFaithful<V(!new)>(w: World<V>) {
    forall a, b :: Plain(a) && b != Empty && !OptionalUnion(b) && w.repr(a) == w.repr(b) ==> Within(w, b, a)
  }

  predicate OptionalUnion(a: Ann) {
    a.Union? && NoneType in a.options
  }

  lemma WithinOption<V(!new)>(w: World<V>, target: Ann, base: Ann, i: nat)
    requires base.Union? && i < |base.options| && Within(w, target, base.options[i])
    ensures Within(w, target, base)
  {
    forall v | Has(w, target, v)
      ensures Has(w, base, v)
    {
      assert Has(w, base.options[i], v);
    }
  }

  /** The values of an optional union are `None` and those of its other options. */
  lemma OptionalSplits<V(!new)>(w: World<V>, target: Ann, v: V)
    requires target.Union? && Has(w, target, v)
    ensures v == w.none || Has(w, Rejoined(Inners(target.options)), v)
  {
    hide Inners;
    var inners := Inners(target.options);
    var i :| 0 <= i < |target.options| && Has(w, target.options[i], v);
    if target.options[i] != NoneType {
      assert target.options[i] in inners;
      var k :| 0 <= k < |inners| && inners[k] == target.options[i];
      RejoinedHas(w, inners, k, v);
    }
  }

  lemma RejoinedHas<V(!new)>(w: World<V>, inners: seq<Ann>, k: nat, v: V)
    requires k < |inners| && Has(w, inners[k], v)
    ensures Has(w, Rejoined(inners), v)
  {
    if |inners| == 1 {
      assert Rejoined(inners) == inners[k];
    } else {
      assert Has(w, Rejoined(inners).options[k], v);
    }
  }

  lemma NoneInOptional<V(!new)>(w: World<V>, base: Ann)
    requires OptionalUnion(base)
    ensures Has(w, base, w.none)
  {
    var i :| 0 <= i < |base.options| && base.options[i] == NoneType;
    assert Has(w, base.options[i], w.none);
  }

  /** An accepted target returns only values the base admits. */
  lemma {:induction false} Sound<V(!new)>(w: World<V>, base: Ann, target: Ann)
    requires Coherent(w) && ReprFaithful(w) && Compatible(w, base, target)
    ensures Within(w, target, base)
    decreases base
  {
    if base.Union? && !w.eq(base, target) {
      var wanted := if OptionalUnion(base) && OptionalUnion(target) then Rejoined(Inners(target.options)) else target;
      var i :| 0 <= i < |base.options| && Compatible(w, base.options[i], wanted);
      Sound(w, base.options[i], wanted);
      WithinOption(w, wanted, base, i);
      if OptionalUnion(base) && OptionalUnion(target) {
        NoneInOptional(w, base);
        forall v | Has(w, target, v)
          ensures Has(w, base, v)
        {
          OptionalSplits(w, target, v);
        }
      }
    }
  }

  /** The relation is sound on all pairs exactly when annotations that print alike mean alike. */
  lemma SoundExactlyWhen<V(!new)>(w: World<V>)
    requires Coherent(w)
    ensures (forall base, target :: Compatible(w, base, target) ==> Within(w, target, base)) <==> ReprFaithful(w)
  {
    if ReprFaithful(w) {
      forall base, target | Compatible(w, base, target)
        ensures Within(w, target, base)
      {
        Sound(w, base, target);
      }
    }
    if forall base, target :: Compatible(w, base, target) ==> Within(w, target, base) {
      forall a, b | Plain(a) && b != Empty && !OptionalUnion(b) && w.repr(a) == w.repr(b)
        ensures Within(w, b, a)
      {
        assert Compatible(w, a, b);
      }
    }
  }

  /** Two classes printed alike but holding different values are accepted for one another. */
  lemma EqualReprIsUnsound()
    ensures var w := World((a: Ann, b: Ann) => a == b, (a: Ann) => "<class 'Row'>", (a: Ann, v: nat) => a == Class(v), 0);
            Coherent(w) && Compatible(w, Class(1), Class(2)) && !Within(w, Class(2), Class(1))
  {
    var w := World((a: Ann, b: Ann) => a == b, (a: Ann) => "<class 'Row'>", (a: Ann, v: nat) => a == Class(v), 0);
    assert Has(w, Class(2), 2) && !Has(w, Class(1), 2);
  }

  // ----- what the relation accepts besides -------------------------------

  /** Every annotation is compatible with itself. */
  lemma Reflexive<V>(w: World<V>, a: Ann)
    requires forall x :: w.eq(x, x)
    ensures Compatible(w, a, a)
  {
  }

  /** A base that promises nothing accepts every annotated target, and one without annotation accepts even a
      target without; a base that is annotated at all refuses a target that is not. */
  lemma OpenBasesAcceptAll<V>(w: World<V>, name: string, target: Ann)
    ensures Compatible(w, Empty, target)
    ensures Compatible(w, Any, target) <==> target != Empty
    ensures Compatible(w, TypeVar(name), target) <==> target != Empty
  {
  }

  lemma UnannotatedIsRefused<V>(w: World<V>, base: Ann)
    requires base != Empty
    ensures !Compatible(w, base, Empty)
  {
  }

  /** Against a base that is one plain type: a target that may also be `None` is refused unless it is the base
      itself, and any other annotated target is accepted exactly when it equals the base or prints like it. */
  lemma PlainBasesCompare<V>(w: World<V>, base: Ann, target: Ann)
    requires Plain(base) && target != Empty
    ensures Compatible(w, base, target) <==>
              w.eq(base, target) || (!(target.Union? && NoneType in target.options) && w.repr(base) == w.repr(target))
  {
  }

  /** A union with `None` accepts what one of its other options accepts, and the same made optional. */
  lemma OptionalBases<V>(w: World<V>, base: Ann, i: nat, target: Ann)
    requires OptionalUnion(base) && i < |base.options| && base.options[i] != NoneType && Compatible(w, base.options[i], target)
    ensures target != Empty && !OptionalUnion(target) ==> Compatible(w, base, target)
    ensures target != Empty && target != NoneType ==> Compatible(w, base, Union([target, NoneType], false))
  {
    if target != Empty && target != NoneType {
      var optional := Union([target, NoneType], false);
      assert optional.options[1] == NoneType;
      assert Inners([NoneType]) == [];
      assert optional.options[1..] == [NoneType];
      assert Inners(optional.options) == [target];
      assert Rejoined(Inners(optional.options)) == target;
    }
  }

  /** A union accepts each of its options other than `NoneType` and nested optional unions. */
  lemma AcceptsOptions<V>(w: World<V>, base: Ann, i: nat)
    requires forall x :: w.eq(x, x)
    requires base.Union? && i < |base.options| && base.options[i] != Empty
    requires !OptionalUnion(base.options[i]) && base.options[i] != NoneType
    ensures Compatible(w, base, base.options[i])
  {
    Reflexive(w, base.options[i]);
  }

  /** The relation is not complete: of three classes that print differently, a union of two is refused where
      the union of all three is declared, although it promises less. */
  lemma NarrowerUnionIsRefused<V(!new)>(w: World<V>, a: Ann, b: Ann, c: Ann)
    requires a.Class? && b.Class? && c.Class?
    requires var pair := Union([a, b], true);
             !w.eq(Union([a, b, c], true), pair) &&
             forall x :: x in [a, b, c] ==> !w.eq(x, pair) && w.repr(x) != w.repr(pair)
    ensures !Compatible(w, Union([a, b, c], true), Union([a, b], true))
    ensures Within(w, Union([a, b], true), Union([a, b, c], true))
  {
    var pair, triple := Union([a, b], true), Union([a, b, c], true);
    forall i | 0 <= i < |triple.options|
      ensures !Compatible(w, triple.options[i], pair)
    {
    }
    forall v | Has(w, pair, v)
      ensures Has(w, triple, v)
    {
      var i :| 0 <= i < 2 && Has(w, pair.options[i], v);
      assert pair.options[i] == triple.options[i];
    }
  }
}
