/** Which predicate every container of a query compiles to: the hand-written handler declared for it, its
    column otherwise, and one predicate for each container that carries a constraint. */
module FilterHandlers {
  import opened Options
  import opened Filters
  import opened ScopeDispatch
  import opened FilterSql

  /** How lookups are spelled inside method names. */
  lemma LookupSpellings()
    ensures LookupName(Eq) == "eq" && LookupName(Gt) == "gt" && LookupName(Lt) == "lt"
    ensures LookupName(Gte) == "gte" && LookupName(Lte) == "lte" && LookupName(In) == "in"
    ensures LookupName(Range) == "rn" && LookupName(Search) == "search" && LookupName(Json) == "json"
    ensures forall lookup :: Clean(LookupName(lookup))
  {
    forall lookup
      ensures Clean(LookupName(lookup))
    {
      LookupIsClean(lookup);
    }
  }

  lemma LookupIsClean(lookup: Lookup)
    ensures Clean(LookupName(lookup))
  {
    var s := LookupName(lookup);
    assert s[0] != '_' && s[|s| - 1] != '_';
    forall i {:trigger DoubleAt(s, i)} | 0 <= i < |s|
      ensures !DoubleAt(s, i)
    {
      assert forall k :: 0 <= k < |s| ==> s[k] != '_';
    }
  }

  // ----- one container ---------------------------------------------------

  /** What a container compiles to, by what is declared: the active scope's own method for its field and
      lookup; else an error for a field that depends on the scope; else the shared method; else its column. */
  lemma HandlerIsCalled<V>(c: ModelCompiler, declared: set<Handler>, container: Container<V>, scope: Option<string>)
    requires Declares(c.dispatch, declared) && Clean(container.field) && (scope.Some? ==> Clean(scope.value))
    ensures var field, lookup := container.field, LookupName(container.lookup);
            var r := CompileOne(c, container, scope);
            if scope.Some? && Handler(scope, field, lookup) in declared then
              r == Ok(Custom("compile_" + scope.value + "__" + field + "__" + lookup, container))
            else if field in c.dispatch.scopedFields then
              r == Err(CompileError.Dispatch(if scope.None? then ScopeNeeded else NoScopedHandler))
            else if Handler(None, field, lookup) in declared then
              r == Ok(Custom("compile_" + field + "__" + lookup, container))
            else
              && (r.Ok? ==> !r.value.Custom? && r.value.column == field)
              && (container.lookup == Json ==> r == Err(NoJsonHandler))
              && (container.lookup != Json && field !in c.columns ==> r == Err(NoColumn))
  {
    var field, lookup := container.field, LookupName(container.lookup);
    LookupSpellings();
    ResolveIsDispatch(c.dispatch, declared, field, lookup, scope);
    if scope.Some? {
      assert PREFIX + (scope.value + "__") + Suffix(field, lookup) == "compile_" + scope.value + "__" + field + "__" + lookup;
    }
    assert PREFIX + "" + Suffix(field, lookup) == "compile_" + field + "__" + lookup;
  }

  /** The search box of the user list: its declared method is called, though no such column exists. */
  lemma SearchHandlerIsCalled<V>(c: ModelCompiler, declared: set<Handler>, value: Payload<V>)
    requires Declares(c.dispatch, declared) && Handler(None, "search", "eq") in declared
    requires "search" !in c.dispatch.scopedFields
    ensures CompileOne(c, Container(value, Eq, "search"), None) ==
            Ok(Custom("compile_search__eq", Container(value, Eq, "search")))
  {
    assert "compile_" + "search" + "__" + "eq" == "compile_search__eq";
    assert Clean("search") by {
      LookupIsClean(Search);
    }
    HandlerIsCalled(c, declared, Container(value, Eq, "search"), None);
  }

  /** An accepted filter for a column of the model, with no method declared for it in its scope or shared and not
      scope-dependent, is one that the query theorem covers. */
  lemma UndeclaredGoesToItsColumn<V>(d: Domain<V>, c: ModelCompiler, declared: set<Handler>, a: Asked<V>, scope: Option<string>)
    requires Declares(c.dispatch, declared) && Clean(a.Column()) && (scope.Some? ==> Clean(scope.value))
    requires Accepts(d, a.spec, a.raw) && !NullList(a.spec, a.raw)
    requires a.spec.lookup != Json && a.Column() in c.columns && a.Column() !in c.dispatch.scopedFields
    requires Handler(None, a.Column(), LookupName(a.spec.lookup)) !in declared
    requires scope.Some? ==> Handler(scope, a.Column(), LookupName(a.spec.lookup)) !in declared
    ensures Fits(d, c, a, scope)
  {
    LookupSpellings();
    ResolveIsDispatch(c.dispatch, declared, a.Column(), LookupName(a.spec.lookup), scope);
    hide Accepts, NullList;
  }

  /** The comparison lookups on their column: strict or not, in the right direction, never true of NULL. */
  lemma ComparisonsMean<V>(d: Domain<V>, field: string, v: V, cell: Option<V>)
    ensures forall lookup :: lookup in {Gt, Lt, Gte, Lte} ==>
              var r := CompileColumn(Container(Scalar(v), lookup, field));
              r.Ok? && !r.value.Custom? && r.value.column == field
    ensures Eval(d, CompileColumn(Container(Scalar(v), Gt, field)).value, map[field := cell]) == Yes <==>
            cell.Some? && d.less(v, cell.value)
    ensures Eval(d, CompileColumn(Container(Scalar(v), Lt, field)).value, map[field := cell]) == Yes <==>
            cell.Some? && d.less(cell.value, v)
    ensures Eval(d, CompileColumn(Container(Scalar(v), Gte, field)).value, map[field := cell]) == Yes <==>
            cell.Some? && !d.less(cell.value, v)
    ensures Eval(d, CompileColumn(Container(Scalar(v), Lte, field)).value, map[field := cell]) == Yes <==>
            cell.Some? && !d.less(v, cell.value)
  {
  }

  // ----- a whole query ---------------------------------------------------

  /** No constraint at all: an empty tuple of the IN or JSON lookup. */
  ghost predicate CarriesNothing<V>(container: Container<V>) {
    || (container.lookup == In && container.value == Items([]))
    || (container.lookup == Json && container.value == Objects([]))
  }

  /** The predicates are those of the containers that constrain something, in order, one each: `at` says which
      container each predicate came from. */
  ghost predicate CompilesTo<V>(c: ModelCompiler, containers: seq<Container<V>>, scope: Option<string>,
                                preds: seq<Pred<V>>, at: seq<nat>)
  {
    && |at| == |preds|
    && (forall j, k :: 0 <= j < k < |at| ==> at[j] < at[k])
    && (forall k :: 0 <= k < |at| ==>
          && at[k] < |containers| && !CarriesNothing(containers[at[k]])
          && CompileOne(c, containers[at[k]], scope) == Ok(preds[k]))
    && (forall i :: 0 <= i < |containers| && !CarriesNothing(containers[i]) ==> i in at)
  }

  /** The container at `i` is the first that fails. */
  ghost predicate FailsFirst<V>(c: ModelCompiler, containers: seq<Container<V>>, scope: Option<string>, i: nat,
                                error: CompileError)
  {
    && i < |containers| && !CarriesNothing(containers[i]) && CompileOne(c, containers[i], scope) == Err(error)
    && forall j :: 0 <= j < i && !CarriesNothing(containers[j]) ==> CompileOne(c, containers[j], scope).Ok?
  }

  lemma AbsentMeans<V>(container: Container<V>)
    ensures IsAbsent(container) <==> CarriesNothing(container)
  {
  }

  lemma CompilesSnoc<V>(c: ModelCompiler, before: seq<Container<V>>, last: Container<V>, scope: Option<string>,
                        preds: seq<Pred<V>>, at: seq<nat>)
    requires CompilesTo(c, before, scope, preds, at)
    ensures CarriesNothing(last) ==> CompilesTo(c, before + [last], scope, preds, at)
    ensures !CarriesNothing(last) && CompileOne(c, last, scope).Ok? ==>
              CompilesTo(c, before + [last], scope, preds + [CompileOne(c, last, scope).value], at + [|before|])
  {
    hide CompileOne, CarriesNothing;
    var all := before + [last];
    assert all[|before|] == last && forall i :: 0 <= i < |before| ==> all[i] == before[i];
    if !CarriesNothing(last) && CompileOne(c, last, scope).Ok? {
      forall i | 0 <= i < |all| && !CarriesNothing(all[i])
        ensures i in at + [|before|]
      {
        if i < |before| {
          assert i in at;
        }
      }
    }
  }

  lemma {:induction false} EachCompiles<V>(c: ModelCompiler, containers: seq<Container<V>>, scope: Option<string>)
    returns (at: seq<nat>)
    ensures var r := CompileEach(c, containers, scope);
            match r
            case Ok(preds) => CompilesTo(c, containers, scope, preds, at)
            case Err(error) => exists i :: FailsFirst(c, containers, scope, i, error)
  {
    hide CompileOne, CarriesNothing, IsAbsent;
    at := [];
    if containers != [] {
      var before, last := containers[..|containers| - 1], containers[|containers| - 1];
      assert containers == before + [last];
      at := EachCompiles(c, before, scope);
      AbsentMeans(last);
      var init := CompileEach(c, before, scope);
      match init {
        case Err(error) =>
          var i :| FailsFirst(c, before, scope, i, error);
          assert FailsFirst(c, containers, scope, i, error);
        case Ok(preds) =>
          hide CompilesTo;
          CompilesSnoc(c, before, last, scope, preds, at);
          if !CarriesNothing(last) {
            if CompileOne(c, last, scope).Ok? {
              at := at + [|before|];
            } else {
              AllCompiled(c, before, scope, preds, at);
              assert FailsFirst(c, containers, scope, |before|, CompileOne(c, last, scope).error);
            }
          }
      }
    }
  }

  lemma AllCompiled<V>(c: ModelCompiler, containers: seq<Container<V>>, scope: Option<string>, preds: seq<Pred<V>>, at: seq<nat>)
    requires CompilesTo(c, containers, scope, preds, at)
    ensures forall i :: 0 <= i < |containers| && !CarriesNothing(containers[i]) ==> CompileOne(c, containers[i], scope).Ok?
  {
    hide CompileOne, CarriesNothing;
    forall i | 0 <= i < |containers| && !CarriesNothing(containers[i])
      ensures CompileOne(c, containers[i], scope).Ok?
    {
      var k :| 0 <= k < |at| && at[k] == i;
    }
  }

  /** A query compiles to one predicate for each container that constrains something, in order, or fails with
      the error of the first container that fails, or because its scope was never declared. */
  lemma QueryCompiles<V>(c: ModelCompiler, containers: seq<Container<V>>, scope: Option<string>) returns (at: seq<nat>)
    ensures var r := Compile(c, containers, scope);
            if scope.Some? && scope.value !in c.dispatch.scopes then r == Err(CompileError.Dispatch(UnknownScope))
            else match r
                 case Ok(preds) => CompilesTo(c, containers, scope, preds, at)
                 case Err(error) => exists i :: FailsFirst(c, containers, scope, i, error)
  {
    hide CompileOne, CompilesTo, FailsFirst;
    at := EachCompiles(c, containers, scope);
  }

  /** In a query that compiles, a field that depends on the scope always goes to the active scope's own method,
      and every other container that has a method goes to it: the generic column serves only the rest. */
  lemma HandlersAreUsed<V>(c: ModelCompiler, declared: set<Handler>, containers: seq<Container<V>>, scope: Option<string>)
    returns (at: seq<nat>)
    requires Declares(c.dispatch, declared) && (scope.Some? ==> Clean(scope.value))
    requires forall i :: 0 <= i < |containers| ==> Clean(containers[i].field)
    requires Compile(c, containers, scope).Ok?
    ensures var preds := Compile(c, containers, scope).value;
            && CompilesTo(c, containers, scope, preds, at)
            && forall k :: 0 <= k < |preds| ==> UsesHandler(c, declared, containers[at[k]], scope, preds[k])
  {
    hide CompileOne;
    at := QueryCompiles(c, containers, scope);
    var preds := Compile(c, containers, scope).value;
    assert CompilesTo(c, containers, scope, preds, at);
    hide Compile, UsesHandler;
    forall k | 0 <= k < |preds|
      ensures UsesHandler(c, declared, containers[at[k]], scope, preds[k])
    {
      assert CompileOne(c, containers[at[k]], scope) == Ok(preds[k]);
      CalledHandlerIsUsed(c, declared, containers[at[k]], scope, preds[k]);
    }
  }

  ghost predicate UsesHandler<V>(c: ModelCompiler, declared: set<Handler>, container: Container<V>, scope: Option<string>,
                                 pred: Pred<V>)
  {
    var field, lookup := container.field, LookupName(container.lookup);
    if field in c.dispatch.scopedFields || (scope.Some? && Handler(scope, field, lookup) in declared) then
      && scope.Some? && Handler(scope, field, lookup) in declared
      && pred == Custom("compile_" + scope.value + "__" + field + "__" + lookup, container)
    else if Handler(None, field, lookup) in declared then
      pred == Custom("compile_" + field + "__" + lookup, container)
    else
      !pred.Custom? && pred.column == field && field in c.columns && container.lookup != Json
  }

  lemma CalledHandlerIsUsed<V>(c: ModelCompiler, declared: set<Handler>, container: Container<V>, scope: Option<string>,
                               pred: Pred<V>)
    requires Declares(c.dispatch, declared) && Clean(container.field) && (scope.Some? ==> Clean(scope.value))
    requires CompileOne(c, container, scope) == Ok(pred)
    ensures UsesHandler(c, declared, container, scope, pred)
  {
    hide CompileOne;
    HandlerIsCalled(c, declared, container, scope);
  }
}
