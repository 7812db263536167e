/** Query-string filters up to the compiler: specification, coercion of the raw value, validation and the
    containers handed on. */
module Filters {
  import opened Options
  import opened Text
  import opened ScopeDispatch

  datatype Lookup = Eq | Gt | Lt | Gte | Lte | In | Range | Search | Json

  /** What the values of the base types offer: Python's and the database's shared order, and a length. */
  datatype Domain<!V> = Domain(less: (V, V) -> bool, size: V -> nat)

  /** A declared filter. `parse` and `parseJson` stand for the coercion of text to the base type. */
  datatype Spec<!V> = Spec(
    parse: string -> Option<V>,
    parseJson: string -> Option<seq<V>>,
    instance: V -> bool,
    lookup: Lookup,
    field: Option<string>,
    required: bool,
    bothRequired: bool,
    gt: Option<V>,
    gte: Option<V>,
    lt: Option<V>,
    lte: Option<V>,
    minLength: Option<nat>,
    maxLength: Option<nat>,
    choices: Option<seq<V>>)

  /** What a request carries for a field: nothing, query text, or a list decoded from a body. */
  datatype Raw<+V> = Absent | Text(text: string) | Decoded(items: seq<Option<V>>)

  /** A coerced value: a scalar, a range's two ends, a tuple, or the objects of a JSON filter. */
  datatype Payload<+V> =
    | Scalar(value: V)
    | Pair(low: Option<V>, high: Option<V>)
    | Items(items: seq<Option<V>>)
    | Objects(objects: seq<V>)

  datatype Detail<V> =
    | Required
    | Invalid
    | Bound(which: string)
    | Order
    | Length
    | Choices
    | Duplicated(values: set<V>)

  datatype Verdict<V> = Passed | Refused(details: seq<Detail<V>>) | RangeEmpty | UndefinedLookup

  // ----- coercion --------------------------------------------------------

  /** One end of a textual range: blank means absent. */
  function Endpoint<V>(spec: Spec<V>, part: string): Option<Option<V>> {
    if Strip(part, Blank) == "" then Some(None)
    else
      var v := spec.parse(Strip(part, Blank));
      if v.Some? then Some(v) else None
  }

  function SplitRange<V>(spec: Spec<V>, text: string): Option<Payload<V>> {
    var parts := Split(text, ',');
    if |parts| != 2 then None
    else
      var low, high := Endpoint(spec, parts[0]), Endpoint(spec, parts[1]);
      if low.Some? && high.Some? then Some(Pair(low.value, high.value)) else None
  }

  function SplitCollection<V>(spec: Spec<V>, text: string): Option<Payload<V>> {
    var parts := Split(text, ',');
    if forall i :: 0 <= i < |parts| ==> spec.parse(parts[i]).Some? then
      Some(Items(seq(|parts|, i requires 0 <= i < |parts| => spec.parse(parts[i]))))
    else None
  }

  function AllSome<V>(items: seq<Option<V>>): bool {
    forall i :: 0 <= i < |items| ==> items[i].Some?
  }

  function AllNull<V>(items: seq<Option<V>>): bool {
    forall i :: 0 <= i < |items| ==> items[i].None?
  }

  /** The value handed to the validator, or nothing when the schema rejects the raw value. */
  function Coerce<V>(spec: Spec<V>, raw: Raw<V>): Option<Payload<V>>
    requires !raw.Absent?
  {
    match spec.lookup
    case Range =>
      if raw.Text? then SplitRange(spec, raw.text)
      else if |raw.items| == 2 then Some(Pair(raw.items[0], raw.items[1])) else None
    case In =>
      if raw.Text? then SplitCollection(spec, raw.text) else Some(Items(raw.items))
    case Json =>
      if raw.Text? then
        var objects := spec.parseJson(raw.text);
        if objects.Some? then Some(Objects(objects.value)) else None
      else if AllSome(raw.items) then
        Some(Objects(seq(|raw.items|, i requires 0 <= i < |raw.items| => raw.items[i].value)))
      else None
    case _ =>
      if raw.Text? && spec.parse(raw.text).Some? then Some(Scalar(spec.parse(raw.text).value)) else None
  }

  // ----- what validation accepts -----------------------------------------

  predicate InBounds<V>(d: Domain<V>, spec: Spec<V>, v: V) {
    && (spec.gt.Some? ==> d.less(spec.gt.value, v))
    && (spec.gte.Some? ==> !d.less(v, spec.gte.value))
    && (spec.lt.Some? ==> d.less(v, spec.lt.value))
    && (spec.lte.Some? ==> !d.less(spec.lte.value, v))
  }

  predicate Chosen<V(==)>(spec: Spec<V>, v: V) {
    spec.choices.Some? ==> v in spec.choices.value
  }

  predicate LengthOk<V>(spec: Spec<V>, length: nat) {
    && (spec.minLength.Some? ==> length >= spec.minLength.value)
    && (spec.maxLength.Some? ==> length <= spec.maxLength.value)
  }

  predicate EndOk<V(==)>(d: Domain<V>, spec: Spec<V>, end: Option<V>) {
    end.Some? ==> InBounds(d, spec, end.value) && Chosen(spec, end.value)
  }

  predicate Distinct<T(==)>(items: seq<T>) {
    forall i, j :: 0 <= i < j < |items| ==> items[i] != items[j]
  }

  predicate Acceptable<V(==)>(d: Domain<V>, spec: Spec<V>, payload: Payload<V>) {
    match spec.lookup
    case Eq =>
      && payload.Scalar?
      && InBounds(d, spec, payload.value) && Chosen(spec, payload.value) && LengthOk(spec, d.size(payload.value))
    case Range =>
      && payload.Pair?
      && (payload.low.Some? || payload.high.Some?)
      && (spec.bothRequired ==> payload.low.Some? && payload.high.Some?)
      && (payload.low.Some? && payload.high.Some? ==> !d.less(payload.high.value, payload.low.value))
      && EndOk(d, spec, payload.low) && EndOk(d, spec, payload.high)
    case In =>
      && payload.Items?
      && (if AllNull(payload.items) then !spec.required else CollectionOk(d, spec, payload.items))
    case Json =>
      && payload.Objects?
      && (if payload.objects == [] then !spec.required else LengthOk(spec, |payload.objects|))
    case _ => false
  }

  predicate CollectionOk<V(==)>(d: Domain<V>, spec: Spec<V>, items: seq<Option<V>>) {
    && AllSome(items) && Distinct(items)
    && (forall i :: 0 <= i < |items| ==> spec.instance(items[i].value) && EndOk(d, spec, items[i]))
  }

  /** The request field binds: absent and optional, or coerced and acceptable. */
  predicate Accepts<V(==)>(d: Domain<V>, spec: Spec<V>, raw: Raw<V>) {
    if raw.Absent? then !spec.required
    else Coerce(spec, raw).Some? && Acceptable(d, spec, Coerce(spec, raw).value)
  }

  // ----- the validator ---------------------------------------------------

  /** The details of one value: its broken bounds in order, then its choice. */
  function EndDetails<V(==)>(d: Domain<V>, spec: Spec<V>, v: V): (details: seq<Detail<V>>)
    ensures details == [] <==> EndOk(d, spec, Some(v))
  {
    BoundList(d, spec, v) + ChoiceList(spec, v)
  }

  function BoundList<V>(d: Domain<V>, spec: Spec<V>, v: V): (details: seq<Detail<V>>)
    ensures details == [] <==> InBounds(d, spec, v)
  {
    (if spec.gt.Some? && !d.less(spec.gt.value, v) then [Bound("gt")] else [])
    + (if spec.gte.Some? && d.less(v, spec.gte.value) then [Bound("gte")] else [])
    + (if spec.lt.Some? && !d.less(v, spec.lt.value) then [Bound("lt")] else [])
    + (if spec.lte.Some? && d.less(spec.lte.value, v) then [Bound("lte")] else [])
  }

  /** Each broken bound is reported under its own name. */
  lemma BoundsNamed<V>(d: Domain<V>, spec: Spec<V>, v: V)
    ensures Bound("gt") in BoundList(d, spec, v) <==> spec.gt.Some? && !d.less(spec.gt.value, v)
    ensures Bound("gte") in BoundList(d, spec, v) <==> spec.gte.Some? && d.less(v, spec.gte.value)
    ensures Bound("lt") in BoundList(d, spec, v) <==> spec.lt.Some? && !d.less(v, spec.lt.value)
    ensures Bound("lte") in BoundList(d, spec, v) <==> spec.lte.Some? && d.less(spec.lte.value, v)
  {
    assert "gt"[1] != "lt"[0] && "gt"[0] != "lt"[0] && |"gt"| != |"gte"| && "gte"[0] != "lte"[0];
  }

  function ChoiceList<V(==)>(spec: Spec<V>, v: V): seq<Detail<V>> {
    if spec.choices.None? || v in spec.choices.value then [] else [Choices]
  }

  function LengthList<V>(spec: Spec<V>, length: nat): seq<Detail<V>> {
    if (spec.minLength.Some? && length < spec.minLength.value) || (spec.maxLength.Some? && length > spec.maxLength.value)
    then [Length] else []
  }

  /** One detail per broken bound, in the order of the checks; none exactly when the value is in bounds. */
  method ValidateBounds<V>(d: Domain<V>, spec: Spec<V>, v: V) returns (details: seq<Detail<V>>)
    ensures details == [] <==> InBounds(d, spec, v)
    ensures details == BoundList(d, spec, v)
  {
    details := [];
    if spec.gt.Some? && !d.less(spec.gt.value, v) {
      details := details + [Bound("gt")];
    }
    if spec.gte.Some? && d.less(v, spec.gte.value) {
      details := details + [Bound("gte")];
    }
    if spec.lt.Some? && !d.less(v, spec.lt.value) {
      details := details + [Bound("lt")];
    }
    if spec.lte.Some? && d.less(spec.lte.value, v) {
      details := details + [Bound("lte")];
    }
  }

  /** The two checks made on each end of a range and each value of a collection. */
  method ValidateEnd<V(==)>(d: Domain<V>, spec: Spec<V>, v: V) returns (details: seq<Detail<V>>)
    ensures details == EndDetails(d, spec, v)
  {
    details := ValidateBounds(d, spec, v);
    details := details + ChoiceList(spec, v);
  }

  method ValidateScalar<V(==)>(d: Domain<V>, spec: Spec<V>, v: V) returns (r: Verdict<V>)
    requires spec.lookup == Eq
    ensures r.Passed? <==> Acceptable(d, spec, Scalar(v))
    ensures !r.Passed? ==> r == Refused(BoundList(d, spec, v) + LengthList(spec, d.size(v)) + ChoiceList(spec, v))
  {
    var details := ValidateBounds(d, spec, v);
    details := details + LengthList(spec, d.size(v));
    details := details + ChoiceList(spec, v);
    r := if details != [] then Refused(details) else Passed;
  }

  /** The details of several ends, absent ones skipped. */
  function EndsDetails<V(==)>(d: Domain<V>, spec: Spec<V>, ends: seq<Option<V>>): seq<Detail<V>> {
    if ends == [] then []
    else
      var last := ends[|ends| - 1];
      EndsDetails(d, spec, ends[..|ends| - 1]) + (if last.Some? then EndDetails(d, spec, last.value) else [])
  }

  lemma {:induction false} EndsClear<V>(d: Domain<V>, spec: Spec<V>, ends: seq<Option<V>>)
    ensures EndsDetails(d, spec, ends) == [] <==> forall i :: 0 <= i < |ends| ==> EndOk(d, spec, ends[i])
    ensures forall detail :: detail in EndsDetails(d, spec, ends) ==> detail.Bound? || detail.Choices?
  {
    if ends != [] {
      var init := ends[..|ends| - 1];
      EndsClear(d, spec, init);
      assert forall i :: 0 <= i < |ends| ==> ends[i] == if i < |init| then init[i] else ends[|ends| - 1];
    }
  }

  lemma EndsNext<V>(d: Domain<V>, spec: Spec<V>, ends: seq<Option<V>>, k: nat)
    requires k < |ends|
    ensures EndsDetails(d, spec, ends[..k + 1]) ==
            EndsDetails(d, spec, ends[..k]) + (if ends[k].Some? then EndDetails(d, spec, ends[k].value) else [])
  {
    assert ends[..k + 1][..k] == ends[..k];
  }

  function OrderList<V>(d: Domain<V>, low: Option<V>, high: Option<V>): seq<Detail<V>> {
    if low.Some? && high.Some? && d.less(high.value, low.value) then [Order] else []
  }

  /** A range draws no details exactly when its ends are in order and each is fine. */
  lemma PairClear<V>(d: Domain<V>, spec: Spec<V>, low: Option<V>, high: Option<V>)
    ensures OrderList(d, low, high) + EndsDetails(d, spec, [low, high]) == [] <==>
            && (low.Some? && high.Some? ==> !d.less(high.value, low.value))
            && EndOk(d, spec, low) && EndOk(d, spec, high)
  {
    hide EndOk, EndsDetails;
    var ends := [low, high];
    EndsClear(d, spec, ends);
    assert ends[0] == low && ends[1] == high;
  }

  /** The loop over a range's ends. */
  method ScanEnds<V(==)>(d: Domain<V>, spec: Spec<V>, ends: seq<Option<V>>) returns (details: seq<Detail<V>>)
    ensures details == EndsDetails(d, spec, ends)
  {
    hide EndDetails;
    details := [];
    var k := 0;
    while k < |ends|
      invariant 0 <= k <= |ends|
      invariant details == EndsDetails(d, spec, ends[..k])
    {
      EndsNext(d, spec, ends, k);
      if ends[k].Some? {
        var found := ValidateEnd(d, spec, ends[k].value);
        details := details + found;
      }
      k := k + 1;
    }
    assert ends[..|ends|] == ends;
  }

  method ValidateRange<V(==)>(d: Domain<V>, spec: Spec<V>, low: Option<V>, high: Option<V>) returns (r: Verdict<V>)
    requires spec.lookup == Range
    ensures r.Passed? <==> Acceptable(d, spec, Pair(low, high))
    ensures r.RangeEmpty? <==> low.None? && high.None?
    ensures r.Refused? ==>
              r.details == if (low.None? || high.None?) && spec.bothRequired then [Required]
                           else OrderList(d, low, high) + EndsDetails(d, spec, [low, high])
    ensures !r.UndefinedLookup?
  {
    hide EndDetails, EndsDetails, OrderList, EndOk;
    if low.None? && high.None? {
      return RangeEmpty;
    }
    if (low.None? || high.None?) && spec.bothRequired {
      return Refused([Required]);
    }
    var details := OrderList(d, low, high);
    var found := ScanEnds(d, spec, [low, high]);
    details := details + found;
    PairClear(d, spec, low, high);
    r := if details != [] then Refused(details) else Passed;
  }

  /** `v` occurs more than once. */
  ghost predicate Repeats<V>(items: seq<Option<V>>, v: V) {
    exists i, j :: 0 <= i < j < |items| && items[i] == items[j] == Some(v)
  }

  /** The values that occur more than once. */
  ghost function Repeated<V>(items: seq<Option<V>>): set<V> {
    set i | 0 <= i < |items| && items[i].Some? && Repeats(items, items[i].value) :: items[i].value
  }

  ghost function RepeatList<V>(items: seq<Option<V>>): seq<Detail<V>> {
    if Repeated(items) != {} then [Duplicated(Repeated(items))] else []
  }

  predicate AllInstances<V>(spec: Spec<V>, items: seq<Option<V>>)
    requires AllSome(items)
  {
    forall i :: 0 <= i < |items| ==> spec.instance(items[i].value)
  }

  /** The loop over a collection: the details of its values, and the values seen twice. */
  method ScanCollection<V(==)>(d: Domain<V>, spec: Spec<V>, items: seq<Option<V>>)
    returns (details: seq<Detail<V>>, duplicates: set<V>)
    requires AllSome(items)
    ensures details == EndsDetails(d, spec, items)
    ensures duplicates == Repeated(items)
  {
    hide EndDetails, Repeats;
    var seen: set<V>, k := {}, 0;
    details, duplicates := [], {};
    NothingRepeats(items[..0]);
    while k < |items|
      invariant 0 <= k <= |items|
      invariant details == EndsDetails(d, spec, items[..k])
      invariant forall v :: v in seen <==> Some(v) in items[..k]
      invariant duplicates == Repeated(items[..k])
    {
      var endpoint := items[k].value;
      EndsNext(d, spec, items, k);
      RepeatedNext(items, k);
      var found := ValidateEnd(d, spec, endpoint);
      details := details + found;
      if endpoint in seen {
        duplicates := duplicates + {endpoint};
      } else {
        seen := seen + {endpoint};
      }
      k := k + 1;
    }
    assert items[..|items|] == items;
  }

  method ValidateCollection<V(==)>(d: Domain<V>, spec: Spec<V>, items: seq<Option<V>>) returns (r: Verdict<V>)
    requires spec.lookup == In
    ensures r.Passed? <==> Acceptable(d, spec, Items(items))
    ensures r.Passed? || r.Refused?
    ensures r.Refused? ==>
              r.details == if AllNull(items) then [Required]
                           else if !AllSome(items) || !AllInstances(spec, items) then [Invalid]
                           else EndsDetails(d, spec, items) + RepeatList(items)
  {
    hide EndsDetails, EndOk, Repeats;
    if AllNull(items) {
      return if spec.required then Refused([Required]) else Passed;
    }
    if !AllSome(items) || !AllInstances(spec, items) {
      return Refused([Invalid]);
    }
    var details, duplicates := ScanCollection(d, spec, items);
    DistinctMeans(items);
    EndsClear(d, spec, items);
    if duplicates != {} {
      details := details + [Duplicated(duplicates)];
    }
    r := if details != [] then Refused(details) else Passed;
  }

  lemma RepeatedMeans<V>(items: seq<Option<V>>)
    ensures forall v :: v in Repeated(items) <==> Repeats(items, v)
  {
    forall v | Repeats(items, v)
      ensures v in Repeated(items)
    {
      var i, j :| 0 <= i < j < |items| && items[i] == items[j] == Some(v);
      assert items[i].value == v;
    }
  }

  lemma NothingRepeats<V>(items: seq<Option<V>>)
    requires items == []
    ensures Repeated(items) == {}
  {
  }

  lemma RepeatedNext<V>(items: seq<Option<V>>, k: nat)
    requires AllSome(items) && k < |items|
    ensures items[..k + 1] == items[..k] + [items[k]]
    ensures Repeated(items[..k + 1]) == Repeated(items[..k]) + (if items[k] in items[..k] then {items[k].value} else {})
  {
    var before, after := items[..k], items[..k + 1];
    RepeatedMeans(before);
    RepeatedMeans(after);
    forall v
      ensures Repeats(after, v) <==> Repeats(before, v) || (items[k] == Some(v) && items[k] in before)
    {
      if Repeats(before, v) {
        var i, j :| 0 <= i < j < k && before[i] == before[j] == Some(v);
        assert after[i] == after[j] == Some(v);
      }
      if items[k] == Some(v) && items[k] in before {
        var i :| 0 <= i < k && before[i] == items[k];
        assert after[i] == after[k] == Some(v);
      }
    }
  }

  lemma DistinctMeans<V>(items: seq<Option<V>>)
    requires AllSome(items)
    ensures Distinct(items) <==> Repeated(items) == {}
  {
    RepeatedMeans(items);
    if !Distinct(items) {
      var i, j :| 0 <= i < j < |items| && items[i] == items[j];
      assert Repeats(items, items[i].value);
    }
    if Repeated(items) != {} {
      var v :| v in Repeated(items);
      assert Repeats(items, v);
    }
  }

  method Validate<V(==)>(d: Domain<V>, spec: Spec<V>, payload: Payload<V>) returns (r: Verdict<V>)
    requires match spec.lookup
             case Range => payload.Pair?
             case In => payload.Items?
             case Json => payload.Objects?
             case _ => payload.Scalar?
    ensures r.Passed? <==> Acceptable(d, spec, payload)
    ensures r.UndefinedLookup? <==> spec.lookup in {Gt, Lt, Gte, Lte, Search}
    ensures r.RangeEmpty? <==> payload == Pair(None, None)
  {
    match spec.lookup {
      case Eq => r := ValidateScalar(d, spec, payload.value);
      case Range => r := ValidateRange(d, spec, payload.low, payload.high);
      case In => r := ValidateCollection(d, spec, payload.items);
      case Json =>
        if payload.objects == [] {
          r := if spec.required then Refused([Required]) else Passed;
        } else {
          var details := LengthList(spec, |payload.objects|);
          r := if details != [] then Refused(details) else Passed;
        }
      case _ => r := UndefinedLookup;
    }
  }

  // ----- filters that accept nothing -------------------------------------

  /** The text coerces to a value in bounds and of legal length. */
  predicate Fine<V>(d: Domain<V>, spec: Spec<V>, text: string) {
    var v := spec.parse(text);
    v.Some? && InBounds(d, spec, v.value) && LengthOk(spec, d.size(v.value))
  }

  /** A scalar filter refuses every text exactly when no text that is otherwise fine coerces to a choice. */
  lemma RefusesAllExactlyWhen<V>(d: Domain<V>, spec: Spec<V>)
    requires spec.lookup == Eq
    ensures (forall text :: !Accepts(d, spec, Raw.Text(text)))
            <==> (forall text :: Fine(d, spec, text) ==> !Chosen(spec, spec.parse(text).value))
  {
    forall text
      ensures Accepts(d, spec, Raw.Text(text)) <==> Fine(d, spec, text) && Chosen(spec, spec.parse(text).value)
    {
    }
    if forall text :: !Accepts(d, spec, Raw.Text(text)) {
      forall text | Fine(d, spec, text)
        ensures !Chosen(spec, spec.parse(text).value)
      {
        assert !Accepts(d, spec, Raw.Text(text));
      }
    }
  }

  /** The values a boolean filter handles: coerced booleans, and the texts it lists as choices. */
  datatype BoolOrText = Flag(on: bool) | Chars(text: string)

  /** The shape of every boolean filter: an equality whose choices are the texts `true` and `false`, while
      coercion yields booleans. */
  predicate BooleanShape(spec: Spec<BoolOrText>, sample: string) {
    && spec.lookup == Eq && spec.choices == Some([Chars("true"), Chars("false")])
    && (spec.parse(sample).Some? ==> spec.parse(sample).value.Flag?)
  }

  /** A boolean filter refuses whatever text is supplied. */
  lemma BooleanFiltersRefuseAll(d: Domain<BoolOrText>, spec: Spec<BoolOrText>)
    requires forall text :: BooleanShape(spec, text)
    ensures forall text :: !Accepts(d, spec, Raw.Text(text))
  {
    assert BooleanShape(spec, "");
    forall text | Fine(d, spec, text)
      ensures !Chosen(spec, spec.parse(text).value)
    {
      assert BooleanShape(spec, text);
    }
    RefusesAllExactlyWhen(d, spec);
  }

  /** Binding one request field: nothing when absent, otherwise coercion and then validation. */
  method Bind<V(==)>(d: Domain<V>, spec: Spec<V>, raw: Raw<V>) returns (r: Option<Option<Payload<V>>>)
    ensures r.Some? <==> Accepts(d, spec, raw)
    ensures r.Some? ==> r.value == ValueOf(spec, raw)
  {
    if raw.Absent? {
      return if spec.required then None else Some(None);
    }
    var payload := Coerce(spec, raw);
    if payload.None? {
      return None;
    }
    var verdict := Validate(d, spec, payload.value);
    r := if verdict.Passed? then Some(payload) else None;
  }

  function ValueOf<V>(spec: Spec<V>, raw: Raw<V>): Option<Payload<V>> {
    if raw.Absent? then None else Coerce(spec, raw)
  }

  // ----- containers ------------------------------------------------------

  datatype Container<+V> = Container(value: Payload<V>, lookup: Lookup, field: string)

  /** A model field: its attribute name, its filter if it is one, and the bound value. */
  datatype Field<!V> = Field(name: string, spec: Option<Spec<V>>, value: Option<Payload<V>>)

  /** The text before the first double underscore. */
  function FirstName(name: string): string {
    if |name| < 2 then name
    else if name[0] == '_' && name[1] == '_' then ""
    else [name[0]] + FirstName(name[1..])
  }

  /** It is the name itself, or what stands before a double underscore with none earlier. */
  lemma {:induction false} FirstNameMeans(name: string)
    ensures var first := FirstName(name);
            && first <= name
            && (first == name || DoubleAt(name, |first|))
            && forall i :: 0 <= i < |first| ==> !DoubleAt(name, i)
  {
    if |name| >= 2 && !DoubleAt(name, 0) {
      FirstNameMeans(name[1..]);
      var first := FirstName(name);
      forall i | 0 <= i < |first|
        ensures !DoubleAt(name, i)
      {
        if i > 0 {
          assert !DoubleAt(name[1..], i - 1);
        }
      }
    }
  }

  function ColumnName<V>(spec: Spec<V>, name: string): string {
    if spec.field.Some? && spec.field.value != "" then spec.field.value else FirstName(name)
  }

  predicate Supplied<V>(field: Field<V>) {
    field.spec.Some? && field.value.Some?
  }

  function ContainerOf<V>(field: Field<V>): Container<V>
    requires Supplied(field)
  {
    Container(field.value.value, field.spec.value.lookup, ColumnName(field.spec.value, field.name))
  }

  /** The containers are those of the fields that declare a filter and carry a value, in declaration order, one
      each: `at` says which field each container came from. */
  ghost predicate Collects<V>(fields: seq<Field<V>>, containers: seq<Container<V>>, at: seq<nat>) {
    && |at| == |containers|
    && (forall j, k :: 0 <= j < k < |at| ==> at[j] < at[k])
    && (forall k :: 0 <= k < |at| ==>
          && at[k] < |fields| && fields[at[k]].spec.Some? && fields[at[k]].value.Some?
          && containers[k].value == fields[at[k]].value.value
          && containers[k].lookup == fields[at[k]].spec.value.lookup
          && NamesColumn(fields[at[k]], containers[k].field))
    && (forall i :: 0 <= i < |fields| && fields[i].spec.Some? && fields[i].value.Some? ==> i in at)
  }

  /** The declared field, when there is one; else what stands before the first double underscore of the name. */
  predicate NamesColumn<V>(field: Field<V>, column: string)
    requires field.spec.Some?
  {
    var declared := field.spec.value.field;
    if declared.Some? && declared.value != "" then column == declared.value
    else
      && column <= field.name
      && (column == field.name || DoubleAt(field.name, |column|))
      && forall i :: 0 <= i < |column| ==> !DoubleAt(field.name, i)
  }

  lemma ContainerNamesColumn<V>(field: Field<V>)
    requires Supplied(field)
    ensures field.spec.Some? && NamesColumn(field, ContainerOf(field).field)
  {
    FirstNameMeans(field.name);
  }

  lemma CollectsSnoc<V>(fields: seq<Field<V>>, last: Field<V>, containers: seq<Container<V>>, at: seq<nat>)
    requires Collects(fields, containers, at)
    ensures !(last.spec.Some? && last.value.Some?) ==> Collects(fields + [last], containers, at)
    ensures last.spec.Some? && last.value.Some? ==>
              Collects(fields + [last], containers + [ContainerOf(last)], at + [|fields|])
  {
    hide NamesColumn, ColumnName, FirstName;
    var all := fields + [last];
    assert all[|fields|] == last && forall i :: 0 <= i < |fields| ==> all[i] == fields[i];
    if last.spec.Some? && last.value.Some? {
      ContainerNamesColumn(last);
      forall i | 0 <= i < |all| && all[i].spec.Some? && all[i].value.Some?
        ensures i in at + [|fields|]
      {
        if i < |fields| {
          assert i in at;
        }
      }
    }
  }

  /** One container for every supplied filter field, in declaration order. */
  function Containers<V>(fields: seq<Field<V>>): seq<Container<V>> {
    if fields == [] then []
    else
      var last := fields[|fields| - 1];
      Containers(fields[..|fields| - 1]) + (if Supplied(last) then [ContainerOf(last)] else [])
  }

  lemma CollectsNothing<V>(fields: seq<Field<V>>)
    requires fields == []
    ensures Collects(fields, [], [])
  {
  }

  method Parse<V>(fields: seq<Field<V>>) returns (res: seq<Container<V>>, ghost at: seq<nat>)
    ensures res == Containers(fields)
    ensures Collects(fields, res, at)
  {
    hide Collects, ColumnName;
    res, at := [], [];
    var k := 0;
    CollectsNothing(fields[..0]);
    while k < |fields|
      invariant 0 <= k <= |fields|
      invariant res == Containers(fields[..k])
      invariant Collects(fields[..k], res, at)
    {
      assert fields[..k + 1][..k] == fields[..k] && fields[..k] + [fields[k]] == fields[..k + 1];
      CollectsSnoc(fields[..k], fields[k], res, at);
      var field := fields[k];
      if field.spec.Some? {
        if field.value.Some? {
          res := res + [Container(field.value.value, field.spec.value.lookup, ColumnName(field.spec.value, field.name))];
          at := at + [k];
        }
      }
      k := k + 1;
    }
    assert fields[..|fields|] == fields;
  }
}
