/** Compiling filter containers to where-expressions, and what those select under SQL's three-valued logic. */
module FilterSql {
  import opened Options
  import opened Text
  import opened Filters
  import opened ScopeDispatch

  datatype Pred<+V> =
    | Equal(column: string, value: V)
    | Between(column: string, low: V, high: V)
    | AtLeast(column: string, low: V)
    | AtMost(column: string, high: V)
    | Above(column: string, low: V)
    | Below(column: string, high: V)
    | OneOf(column: string, items: seq<Option<V>>)
    | Custom(handler: string, container: Container<V>)

  datatype CompileError = Dispatch(problem: Problem) | NoBoundary | NoJsonHandler | NoColumn | WrongValue | UnknownLookup

  function LookupName(lookup: Lookup): string {
    match lookup
    case Eq => "eq"
    case Gt => "gt"
    case Lt => "lt"
    case Gte => "gte"
    case Lte => "lte"
    case In => "in"
    case Range => "rn"
    case Search => "search"
    case Json => "json"
  }

  // ----- the compiler ----------------------------------------------------

  /** A model's compiler: its handlers and the model's columns. */
  datatype ModelCompiler = ModelCompiler(dispatch: Compiler, columns: set<string>)

  function CompileRange<V>(column: string, low: Option<V>, high: Option<V>): Result<Pred<V>, CompileError> {
    if low.Some? && high.Some? then Ok(Between(column, low.value, high.value))
    else if low.Some? then Ok(AtLeast(column, low.value))
    else if high.Some? then Ok(AtMost(column, high.value))
    else Err(NoBoundary)
  }

  /** Empty tuples of the IN and JSON lookups constrain nothing and are skipped. */
  predicate IsAbsent<V>(container: Container<V>) {
    || (container.lookup == In && container.value.Items? && |container.value.items| == 0)
    || (container.lookup == Json && container.value.Objects? && |container.value.objects| == 0)
  }

  function CompileColumn<V>(container: Container<V>): Result<Pred<V>, CompileError> {
    var column, value := container.field, container.value;
    match container.lookup
    case Eq => if value.Scalar? then Ok(Equal(column, value.value)) else Err(WrongValue)
    case Range => if value.Pair? then CompileRange(column, value.low, value.high) else Err(WrongValue)
    case In => if value.Items? then Ok(OneOf(column, value.items)) else Err(WrongValue)
    case Gt => if value.Scalar? then Ok(Above(column, value.value)) else Err(WrongValue)
    case Lt => if value.Scalar? then Ok(Below(column, value.value)) else Err(WrongValue)
    case Gte => if value.Scalar? then Ok(AtLeast(column, value.value)) else Err(WrongValue)
    case Lte => if value.Scalar? then Ok(AtMost(column, value.value)) else Err(WrongValue)
    case _ => Err(UnknownLookup)
  }

  function CompileOne<V>(c: ModelCompiler, container: Container<V>, scope: Option<string>): Result<Pred<V>, CompileError> {
    match Resolve(c.dispatch, container.field, LookupName(container.lookup), scope)
    case Err(problem) => Err(Dispatch(problem))
    case Ok(handler) =>
      if handler.Some? then Ok(Custom(handler.value, container))
      else if container.lookup == Json then Err(NoJsonHandler)
      else if container.field !in c.columns then Err(NoColumn)
      else CompileColumn(container)
  }

  function CompileEach<V>(c: ModelCompiler, containers: seq<Container<V>>, scope: Option<string>)
    : Result<seq<Pred<V>>, CompileError>
  {
    if containers == [] then Ok([])
    else
      var init, last := CompileEach(c, containers[..|containers| - 1], scope), containers[|containers| - 1];
      if init.Err? || IsAbsent(last) then init
      else
        var pred := CompileOne(c, last, scope);
        if pred.Ok? then Ok(init.value + [pred.value]) else Err(pred.error)
  }

  function Compile<V>(c: ModelCompiler, containers: seq<Container<V>>, scope: Option<string>)
    : Result<seq<Pred<V>>, CompileError>
  {
    if scope.Some? && scope.value !in c.dispatch.scopes then Err(Dispatch(UnknownScope))
    else CompileEach(c, containers, scope)
  }

  // ----- three-valued logic ----------------------------------------------

  datatype Truth = Yes | No | Unknown

  function Known(b: bool): Truth {
    if b then Yes else No
  }

  function And(a: Truth, b: Truth): Truth {
    if a == No || b == No then No else if a == Yes && b == Yes then Yes else Unknown
  }

  /** A row's columns; `None` is NULL. */
  type Row<V> = map<string, Option<V>>

  /** `cell = item`, where either side may be NULL. */
  function Same<V(==)>(cell: Option<V>, item: Option<V>): Truth {
    if cell.None? || item.None? then Unknown else Known(cell == item)
  }

  /** `cell IN (items)`: the disjunction of the equalities; an empty list is false. */
  function Member<V(==)>(cell: Option<V>, items: seq<Option<V>>): Truth {
    if |items| == 0 then No
    else if exists i :: 0 <= i < |items| && Same(cell, items[i]) == Yes then Yes
    else if exists i :: 0 <= i < |items| && Same(cell, items[i]) == Unknown then Unknown
    else No
  }

  function Eval<V(==)>(d: Domain<V>, pred: Pred<V>, row: Row<V>): Truth
    requires !pred.Custom? && pred.column in row
  {
    var cell := row[pred.column];
    match pred
    case Equal(_, value) => Same(cell, Some(value))
    case OneOf(_, items) => Member(cell, items)
    case Between(_, low, high) =>
      if cell.None? then Unknown else And(Known(!d.less(cell.value, low)), Known(!d.less(high, cell.value)))
    case AtLeast(_, low) => if cell.None? then Unknown else Known(!d.less(cell.value, low))
    case AtMost(_, high) => if cell.None? then Unknown else Known(!d.less(high, cell.value))
    case Above(_, low) => if cell.None? then Unknown else Known(d.less(low, cell.value))
    case Below(_, high) => if cell.None? then Unknown else Known(d.less(cell.value, high))
  }

  predicate Evaluable<V>(preds: seq<Pred<V>>, row: Row<V>) {
    forall i :: 0 <= i < |preds| ==> !preds[i].Custom? && preds[i].column in row
  }

  /** The where-clause: the conjunction of the compiled filters. */
  function Where<V(==)>(d: Domain<V>, preds: seq<Pred<V>>, row: Row<V>): Truth
    requires Evaluable(preds, row)
  {
    if preds == [] then Yes else And(Where(d, preds[..|preds| - 1], row), Eval(d, preds[|preds| - 1], row))
  }

  predicate Selected<V(==)>(d: Domain<V>, preds: seq<Pred<V>>, row: Row<V>)
    requires Evaluable(preds, row)
  {
    Where(d, preds, row) == Yes
  }

  /** SQL's logic as the predicates use it: a conjunction is false when a side is, true when both are; nothing
      about NULL is known; membership asks every item. */
  lemma ThreeValued<V>(d: Domain<V>, a: Truth, b: Truth, x: V, y: V, items: seq<Option<V>>)
    ensures And(a, b) == Yes <==> a == Yes && b == Yes
    ensures And(a, b) == No <==> a == No || b == No
    ensures Same<V>(None, Some(x)) == Same<V>(Some(x), None) == Same<V>(None, None) == Unknown
    ensures Same(Some(x), Some(y)) == if x == y then Yes else No
    ensures Member(Some(x), items) == Yes <==> Some(x) in items
    ensures Member(Some(x), items) == No <==> Some(x) !in items && None !in items
    ensures items != [] ==> Member(None, items) == Unknown
    ensures Member<V>(None, []) == No
  {
    if i :| 0 <= i < |items| && items[i] == Some(x) {
      assert Same(Some(x), items[i]) == Yes;
    }
    if i :| 0 <= i < |items| && items[i] == None {
      assert Same(Some(x), items[i]) == Unknown;
    }
    if items != [] {
      assert Same(None, items[0]) == Unknown;
    }
  }

  // ----- what a filter says ----------------------------------------------

  /** `text` is two comma-free texts with a comma between them. */
  predicate RangeText(text: string, low: string, high: string) {
    text == low + "," + high && ',' !in low && ',' !in high
  }

  /** A blank end leaves its side open. */
  predicate FromText<V>(d: Domain<V>, spec: Spec<V>, low: string, v: V) {
    Strip(low, Blank) != "" ==> spec.parse(Strip(low, Blank)).Some? && !d.less(v, spec.parse(Strip(low, Blank)).value)
  }

  predicate UpToText<V>(d: Domain<V>, spec: Spec<V>, high: string, v: V) {
    Strip(high, Blank) != "" ==> spec.parse(Strip(high, Blank)).Some? && !d.less(spec.parse(Strip(high, Blank)).value, v)
  }

  /** The constraint a raw value puts on a cell, read off the request itself. */
  ghost predicate Wants<V>(d: Domain<V>, spec: Spec<V>, raw: Raw<V>, cell: Option<V>) {
    match raw
    case Absent => true
    case Text(text) =>
      if spec.lookup == Eq then cell.Some? && spec.parse(text) == cell
      else if spec.lookup == Range then
        cell.Some? && forall low, high :: RangeText(text, low, high) ==>
                        FromText(d, spec, low, cell.value) && UpToText(d, spec, high, cell.value)
      else
        cell.Some? && exists i: nat, j: nat :: Piece(text, ',', i, j) && spec.parse(text[i..j]) == cell
    case Decoded(items) =>
      if spec.lookup == Range then
        && cell.Some? && |items| == 2
        && (items[0].Some? ==> !d.less(cell.value, items[0].value))
        && (items[1].Some? ==> !d.less(items[1].value, cell.value))
      else
        AllNull(items) || (cell.Some? && cell in items)
  }

  /** The non-empty list of nulls, which the validator treats as no value at all. */
  predicate NullList<V>(spec: Spec<V>, raw: Raw<V>) {
    spec.lookup == In && raw.Decoded? && |raw.items| > 0 && AllNull(raw.items)
  }

  /** The truth a single bound filter contributes. */
  function Truthful<V(==)>(d: Domain<V>, container: Container<V>, cell: Option<V>): Truth
    requires CompileColumn(container).Ok?
  {
    if IsAbsent(container) then Yes
    else
      ColumnNamed(container);
      Eval(d, CompileColumn(container).value, map[container.field := cell])
  }

  lemma ColumnNamed<V>(container: Container<V>)
    requires CompileColumn(container).Ok?
    ensures !CompileColumn(container).value.Custom? && CompileColumn(container).value.column == container.field
  {
  }

  // ----- one filter ------------------------------------------------------

  /** A text with one comma reads as a range in one way. */
  lemma TwoParts(text: string, low: string, high: string)
    requires |Split(text, ',')| == 2
    ensures RangeText(text, low, high) <==> Split(text, ',') == [low, high]
  {
    if Split(text, ',') == [low, high] {
      JoinSplit(text, ',');
      JoinSnoc([low], high, ',');
    }
    if RangeText(text, low, high) {
      JoinSnoc([low], high, ',');
      SplitJoin([low, high], ',');
    }
  }

  lemma TextRange<V>(d: Domain<V>, spec: Spec<V>, text: string, v: V)
    requires spec.lookup == Range && Accepts(d, spec, Raw.Text(text))
    ensures var p := SplitRange(spec, text).value;
            && p.Pair?
            && (Wants(d, spec, Raw.Text(text), Some(v)) <==>
                (p.low.Some? ==> !d.less(v, p.low.value)) && (p.high.Some? ==> !d.less(p.high.value, v)))
  {
    hide Split, Strip, RangeText;
    var parts := Split(text, ',');
    var a, b := parts[0], parts[1];
    assert parts == [a, b];
    TwoParts(text, a, b);
    forall low, high | RangeText(text, low, high)
      ensures low == a && high == b
    {
      TwoParts(text, low, high);
    }
  }

  lemma TextMember<V>(d: Domain<V>, spec: Spec<V>, text: string, cell: Option<V>)
    requires spec.lookup == In && Accepts(d, spec, Raw.Text(text))
    ensures SplitCollection(spec, text).value.Items? && |SplitCollection(spec, text).value.items| > 0
    ensures Wants(d, spec, Raw.Text(text), cell) <==> cell.Some? && cell in SplitCollection(spec, text).value.items
  {
    var parts, items := Split(text, ','), SplitCollection(spec, text).value.items;
    if cell.Some? && cell in items {
      var k :| 0 <= k < |items| && items[k] == cell;
      PartsArePieces(text, ',', parts[k]);
    }
    forall i: nat, j: nat | Piece(text, ',', i, j) && spec.parse(text[i..j]) == cell
      ensures cell in items
    {
      PartsArePieces(text, ',', text[i..j]);
      var k :| 0 <= k < |parts| && parts[k] == text[i..j];
      assert items[k] == cell;
    }
  }

  lemma MemberMeans<V>(cell: Option<V>, items: seq<Option<V>>)
    ensures Member(cell, items) == Yes <==> cell.Some? && cell in items
  {
    if cell.Some? && cell in items {
      var i :| 0 <= i < |items| && items[i] == cell;
      assert Same(cell, items[i]) == Yes;
    }
  }

  /** An accepted filter compiles against its column, to a predicate that holds of exactly the rows the raw
      value asks for; the one exception is the non-empty list of nulls. */
  lemma FilterMeans<V>(d: Domain<V>, spec: Spec<V>, name: string, raw: Raw<V>, cell: Option<V>)
    requires Accepts(d, spec, raw) && !raw.Absent? && spec.lookup != Json
    ensures var container := Container(ValueOf(spec, raw).value, spec.lookup, ColumnName(spec, name));
            && CompileColumn(container).Ok?
            && (!NullList(spec, raw) ==> (Truthful(d, container, cell) == Yes <==> Wants(d, spec, raw, cell)))
  {
    hide Split, Strip, Piece, RangeText;
    var container := Container(ValueOf(spec, raw).value, spec.lookup, ColumnName(spec, name));
    if spec.lookup == Range {
      if raw.Text? && cell.Some? {
        TextRange(d, spec, raw.text, cell.value);
      }
    } else if spec.lookup == In {
      MemberMeans(cell, container.value.items);
      if raw.Text? {
        TextMember(d, spec, raw.text, cell);
      }
    }
  }

  /** The reading "no value" of a list of nulls is honoured exactly when the list is empty: a non-empty one
      passes validation and then selects no row at all. */
  lemma NullListSelectsNothing<V>(d: Domain<V>, spec: Spec<V>, name: string, raw: Raw<V>)
    requires Accepts(d, spec, raw) && !raw.Absent? && spec.lookup != Json
    ensures var container := Container(ValueOf(spec, raw).value, spec.lookup, ColumnName(spec, name));
            && CompileColumn(container).Ok?
            && ((forall cell :: Truthful(d, container, cell) == Yes <==> Wants(d, spec, raw, cell)) <==> !NullList(spec, raw))
            && (NullList(spec, raw) ==> forall cell :: Truthful(d, container, cell) != Yes)
  {
    var container := Container(ValueOf(spec, raw).value, spec.lookup, ColumnName(spec, name));
    FilterMeans(d, spec, name, raw, None);
    forall cell
      ensures !NullList(spec, raw) ==> (Truthful(d, container, cell) == Yes <==> Wants(d, spec, raw, cell))
      ensures NullList(spec, raw) ==> Truthful(d, container, cell) != Yes && Wants(d, spec, raw, cell)
    {
      FilterMeans(d, spec, name, raw, cell);
      if NullList(spec, raw) {
        MemberMeans(cell, raw.items);
      }
    }
    if NullList(spec, raw) {
      assert Truthful(d, container, None) != Yes && Wants(d, spec, raw, None);
    }
  }

  /** For an accepted filter the compiler's only errors are the developer's: dispatch, a JSON filter or a
      column without a handler. It never meets a range without ends, a value of the wrong shape or an
      unknown lookup. */
  lemma CompileFailsExactly<V>(d: Domain<V>, c: ModelCompiler, spec: Spec<V>, name: string, raw: Raw<V>, scope: Option<string>)
    requires Accepts(d, spec, raw) && !raw.Absent?
    ensures var container := Container(ValueOf(spec, raw).value, spec.lookup, ColumnName(spec, name));
            var handler := Resolve(c.dispatch, container.field, LookupName(spec.lookup), scope);
            var r := CompileOne(c, container, scope);
            && (r.Err? <==> handler.Err? || (handler.value.None? && (spec.lookup == Json || container.field !in c.columns)))
            && (r.Err? ==> r.error.Dispatch? || r.error.NoJsonHandler? || r.error.NoColumn?)
  {
    if spec.lookup != Json {
      FilterMeans(d, spec, name, raw, None);
    }
  }

  // ----- a whole query ---------------------------------------------------

  /** A declared filter and what the request carries for it. */
  datatype Asked<!V> = Asked(name: string, spec: Spec<V>, raw: Raw<V>)
  {
    function Column(): string {
      ColumnName(spec, name)
    }
  }

  function FieldOf<V>(a: Asked<V>): Field<V> {
    Field(a.name, Some(a.spec), ValueOf(a.spec, a.raw))
  }

  function FieldsOf<V>(asked: seq<Asked<V>>): seq<Field<V>> {
    seq(|asked|, i requires 0 <= i < |asked| => FieldOf(asked[i]))
  }

  /** No handler is declared for it, so it goes to its column. */
  predicate Generic<V>(c: ModelCompiler, a: Asked<V>, scope: Option<string>) {
    && a.spec.lookup != Json && a.Column() in c.columns
    && Resolve(c.dispatch, a.Column(), LookupName(a.spec.lookup), scope) == Ok(None)
  }

  predicate Fits<V(==)>(d: Domain<V>, c: ModelCompiler, a: Asked<V>, scope: Option<string>) {
    Accepts(d, a.spec, a.raw) && (!a.raw.Absent? ==> Generic(c, a, scope) && !NullList(a.spec, a.raw))
  }

  ghost predicate Holds<V>(d: Domain<V>, a: Asked<V>, row: Row<V>) {
    !a.raw.Absent? ==> a.Column() in row && Wants(d, a.spec, a.raw, row[a.Column()])
  }

  ghost predicate AllHold<V>(d: Domain<V>, asked: seq<Asked<V>>, row: Row<V>) {
    forall i :: 0 <= i < |asked| ==> Holds(d, asked[i], row)
  }

  /** One more filter: its container compiles, and adds exactly its own constraint. */
  lemma OneMore<V>(d: Domain<V>, c: ModelCompiler, a: Asked<V>, scope: Option<string>, row: Row<V>)
    requires Fits(d, c, a, scope) && !a.raw.Absent? && c.columns <= row.Keys
    ensures Supplied(FieldOf(a))
    ensures var container := ContainerOf(FieldOf(a));
            var r := CompileOne(c, container, scope);
            && (IsAbsent(container) ==> Holds(d, a, row))
            && r.Ok? && !r.value.Custom? && r.value.column in row
            && (!IsAbsent(container) ==> (Eval(d, r.value, row) == Yes <==> Holds(d, a, row)))
  {
    var container := ContainerOf(FieldOf(a));
    assert container == Container(ValueOf(a.spec, a.raw).value, a.spec.lookup, ColumnName(a.spec, a.name));
    FilterMeans(d, a.spec, a.name, a.raw, row[a.Column()]);
    ColumnNamed(container);
    SameCell(d, CompileColumn(container).value, row);
  }

  /** A predicate only looks at its own column. */
  lemma SameCell<V>(d: Domain<V>, pred: Pred<V>, row: Row<V>)
    requires !pred.Custom? && pred.column in row
    ensures Eval(d, pred, row) == Eval(d, pred, map[pred.column := row[pred.column]])
  {
  }

  lemma {:induction false} EachMeans<V>(d: Domain<V>, c: ModelCompiler, asked: seq<Asked<V>>, scope: Option<string>, row: Row<V>)
    requires forall i :: 0 <= i < |asked| ==> Fits(d, c, asked[i], scope)
    requires c.columns <= row.Keys
    ensures var r := CompileEach(c, Containers(FieldsOf(asked)), scope);
            r.Ok? && Evaluable(r.value, row) && (Selected(d, r.value, row) <==> AllHold(d, asked, row))
  {
    hide Wants, Accepts, Eval, CompileOne;
    if asked != [] {
      var init, a := asked[..|asked| - 1], asked[|asked| - 1];
      EachMeans(d, c, init, scope, row);
      assert FieldsOf(asked)[..|asked| - 1] == FieldsOf(init);
      assert AllHold(d, asked, row) <==> AllHold(d, init, row) && Holds(d, a, row) by {
        AllSnoc(d, init, a, row);
        assert init + [a] == asked;
      }
      var before := Containers(FieldsOf(init));
      if !a.raw.Absent? {
        OneMore(d, c, a, scope, row);
        assert Containers(FieldsOf(asked)) == before + [ContainerOf(FieldOf(a))];
        EachNext(c, before, ContainerOf(FieldOf(a)), scope);
        WhereNext(d, CompileEach(c, before, scope).value, CompileOne(c, ContainerOf(FieldOf(a)), scope).value, row);
      } else {
        assert Containers(FieldsOf(asked)) == before;
      }
    }
  }

  lemma EachNext<V>(c: ModelCompiler, before: seq<Container<V>>, container: Container<V>, scope: Option<string>)
    requires CompileEach(c, before, scope).Ok? && CompileOne(c, container, scope).Ok?
    ensures CompileEach(c, before + [container], scope) ==
            Ok(CompileEach(c, before, scope).value + (if IsAbsent(container) then [] else [CompileOne(c, container, scope).value]))
  {
    var preds := CompileEach(c, before, scope).value;
    assert (before + [container])[..|before|] == before;
    assert preds + [] == preds;
  }

  lemma WhereNext<V>(d: Domain<V>, preds: seq<Pred<V>>, pred: Pred<V>, row: Row<V>)
    requires Evaluable(preds, row) && !pred.Custom? && pred.column in row
    ensures Evaluable(preds + [pred], row)
    ensures Selected(d, preds + [pred], row) <==> Selected(d, preds, row) && Eval(d, pred, row) == Yes
  {
    assert (preds + [pred])[..|preds|] == preds;
  }

  /** For every accepted set of filters on the generic column path, compilation succeeds and a row is selected
      exactly when every supplied constraint holds of it. */
  lemma QueryMeans<V>(d: Domain<V>, c: ModelCompiler, asked: seq<Asked<V>>, scope: Option<string>, row: Row<V>)
    requires scope.None? || scope.value in c.dispatch.scopes
    requires forall i :: 0 <= i < |asked| ==> Fits(d, c, asked[i], scope)
    requires c.columns <= row.Keys
    ensures var r := Compile(c, Containers(FieldsOf(asked)), scope);
            && r.Ok?
            && Evaluable(r.value, row)
            && (Selected(d, r.value, row) <==> AllHold(d, asked, row))
  {
    EachMeans(d, c, asked, scope, row);
  }

  lemma AllSnoc<V>(d: Domain<V>, init: seq<Asked<V>>, a: Asked<V>, row: Row<V>)
    ensures AllHold(d, init + [a], row) <==> AllHold(d, init, row) && Holds(d, a, row)
  {
    var asked := init + [a];
    if AllHold(d, asked, row) {
      assert Holds(d, asked[|init|], row);
      assert forall i :: 0 <= i < |init| ==> asked[i] == init[i];
    }
  }
}
