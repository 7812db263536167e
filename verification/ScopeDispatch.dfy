/** How a filter compiler finds the handler of a field: by a method name spelled from the scope, the field
    and the lookup. */
module ScopeDispatch {
  import opened Options

  const PREFIX := "compile_"

  /** A handler, identified by what it handles. */
  datatype Handler = Handler(scope: Option<string>, field: string, lookup: string)

  function Suffix(field: string, lookup: string): string {
    field + "__" + lookup
  }

  function MethodName(handler: Handler): string {
    PREFIX + (if handler.scope.Some? then handler.scope.value + "__" else "") + Suffix(handler.field, handler.lookup)
  }

  datatype Compiler = Compiler(methods: set<string>, scopes: set<string>, scopedFields: set<string>)

  datatype Problem = UnknownScope | ScopeNeeded | NoScopedHandler

  /** The method a container is compiled with, if any. */
  function Resolve(c: Compiler, field: string, lookup: string, scope: Option<string>): Result<Option<string>, Problem> {
    var scoped := MethodName(Handler(scope, field, lookup));
    if scope.Some? && scoped in c.methods then Ok(Some(scoped))
    else if field in c.scopedFields then
      if scope.None? then Err(ScopeNeeded) else Err(NoScopedHandler)
    else
      var shared := MethodName(Handler(None, field, lookup));
      Ok(if shared in c.methods then Some(shared) else None)
  }

  /** The check at class creation: some scoped name for every scope-dependent field and scope. */
  ghost predicate ClassOk(c: Compiler) {
    c.scopedFields == {} ||
    (c.scopes != {} &&
     forall field, scope :: field in c.scopedFields && scope in c.scopes ==> HasPrefix(c, scope, field))
  }

  ghost predicate HasPrefix(c: Compiler, scope: string, field: string) {
    exists name :: name in c.methods && PREFIX + scope + "__" + field + "__" <= name
  }

  // ----- names that cannot be confused -----------------------------------

  predicate DoubleAt(s: string, i: nat) {
    i + 1 < |s| && s[i] == '_' && s[i + 1] == '_'
  }

  /** No double underscore and none at an edge. */
  predicate Clean(s: string) {
    && s != "" && s[0] != '_' && s[|s| - 1] != '_'
    && forall i {:trigger DoubleAt(s, i)} :: 0 <= i < |s| ==> !DoubleAt(s, i)
  }

  predicate CleanHandler(h: Handler) {
    (h.scope.Some? ==> Clean(h.scope.value)) && Clean(h.field) && Clean(h.lookup)
  }

  /** The first double underscore after a clean name is the separator that follows it. */
  lemma FirstDouble(name: string, rest: string, i: nat)
    requires Clean(name)
    ensures DoubleAt(name + "__" + rest, |name|)
    ensures i < |name| ==> !DoubleAt(name + "__" + rest, i)
  {
    if i < |name| {
      assert !DoubleAt(name, i);
    }
  }

  /** So a clean name and what follows it can be read back. */
  lemma FirstName(a: string, restA: string, b: string, restB: string)
    requires Clean(a) && Clean(b) && a + "__" + restA == b + "__" + restB
    ensures a == b && restA == restB
  {
    var s := a + "__" + restA;
    FirstDouble(a, restA, |b|);
    FirstDouble(b, restB, |a|);
    assert |a| == |b|;
    assert a == s[..|a|] == b;
    assert restA == s[|a| + 2..] == restB;
  }

  /** A clean name is not a name followed by a separator. */
  lemma NoSeparator(a: string, b: string, restB: string)
    requires Clean(a) && Clean(b)
    ensures a != b + "__" + restB
  {
    FirstDouble(b, restB, 0);
    assert !DoubleAt(a, |b|);
  }

  /** Distinct clean handlers have distinct method names. */
  lemma NamesAreDistinct(a: Handler, b: Handler)
    requires CleanHandler(a) && CleanHandler(b) && MethodName(a) == MethodName(b)
    ensures a == b
  {
    var bodyA, bodyB := MethodName(a)[|PREFIX|..], MethodName(b)[|PREFIX|..];
    var restA, restB := Suffix(a.field, a.lookup), Suffix(b.field, b.lookup);
    assert bodyA == bodyB;
    match (a.scope, b.scope) {
      case (None, None) =>
        assert bodyA == restA && bodyB == restB;
        FirstName(a.field, a.lookup, b.field, b.lookup);
      case (Some(s), Some(t)) =>
        assert bodyA == s + "__" + restA && bodyB == t + "__" + restB;
        FirstName(s, restA, t, restB);
        FirstName(a.field, a.lookup, b.field, b.lookup);
      case (Some(s), None) =>
        assert bodyA == s + "__" + restA && bodyB == restB;
        FirstName(s, restA, b.field, b.lookup);
        NoSeparator(b.lookup, a.field, a.lookup);
      case (None, Some(t)) =>
        assert bodyA == restA && bodyB == t + "__" + restB;
        FirstName(a.field, a.lookup, t, restB);
        NoSeparator(a.lookup, b.field, b.lookup);
    }
  }

  /** Clean names are needed: an edge underscore can move between scope and field. */
  lemma EdgeUnderscoreIsAmbiguous()
    ensures var a, b := Handler(Some("a_"), "b", "eq"), Handler(Some("a"), "_b", "eq");
            a != b && MethodName(a) == MethodName(b)
  {
  }

  // ----- dispatch means what it says -------------------------------------

  /** The compiler's methods are exactly those of the declared handlers. */
  ghost predicate Declares(c: Compiler, declared: set<Handler>) {
    && (forall h :: h in declared ==> CleanHandler(h) && MethodName(h) in c.methods)
    && (forall name :: name in c.methods ==> exists h :: h in declared && MethodName(h) == name)
  }

  /** Dispatch on handlers instead of names: the active scope's own handler, else, for a field that does
      not depend on the scope, the shared one. */
  function Dispatch(declared: set<Handler>, scopedFields: set<string>, field: string, lookup: string, scope: Option<string>)
    : Result<Option<Handler>, Problem>
  {
    if scope.Some? && Handler(scope, field, lookup) in declared then Ok(Some(Handler(scope, field, lookup)))
    else if field in scopedFields then Err(if scope.None? then ScopeNeeded else NoScopedHandler)
    else if Handler(None, field, lookup) in declared then Ok(Some(Handler(None, field, lookup)))
    else Ok(None)
  }

  lemma MethodIsDeclared(c: Compiler, declared: set<Handler>, h: Handler)
    requires Declares(c, declared) && CleanHandler(h)
    ensures MethodName(h) in c.methods <==> h in declared
  {
    if MethodName(h) in c.methods {
      var other :| other in declared && MethodName(other) == MethodName(h);
      NamesAreDistinct(h, other);
    }
  }

  /** Looking methods up by name is dispatch on handlers: never another scope's, another field's or another
      lookup's handler. */
  lemma ResolveIsDispatch(c: Compiler, declared: set<Handler>, field: string, lookup: string, scope: Option<string>)
    requires Declares(c, declared) && CleanHandler(Handler(scope, field, lookup))
    ensures match Dispatch(declared, c.scopedFields, field, lookup, scope)
            case Ok(h) => Resolve(c, field, lookup, scope) == Ok(if h.Some? then Some(MethodName(h.value)) else None)
            case Err(p) => Resolve(c, field, lookup, scope) == Err(p)
  {
    MethodIsDeclared(c, declared, Handler(scope, field, lookup));
    MethodIsDeclared(c, declared, Handler(None, field, lookup));
  }

  /** A scope-dependent field resolves to the active scope's own handler or raises; it never reaches the
      shared handler or the generic column path. */
  lemma ScopedFieldsStayScoped(c: Compiler, declared: set<Handler>, field: string, lookup: string, scope: Option<string>)
    requires Declares(c, declared) && CleanHandler(Handler(scope, field, lookup)) && field in c.scopedFields
    ensures var r := Resolve(c, field, lookup, scope);
            && (r.Ok? <==> scope.Some? && Handler(scope, field, lookup) in declared)
            && (r.Ok? ==> r.value.Some?)
            && (r.Ok? ==> forall h :: h in declared && MethodName(h) == r.value.value ==> h == Handler(scope, field, lookup))
  {
    ResolveIsDispatch(c, declared, field, lookup, scope);
    forall h | h in declared && MethodName(h) == MethodName(Handler(scope, field, lookup))
      ensures h == Handler(scope, field, lookup)
    {
      NamesAreDistinct(h, Handler(scope, field, lookup));
    }
  }

  lemma PrefixIsHandler(h: Handler, scope: string, field: string)
    requires CleanHandler(h) && Clean(scope) && Clean(field)
    ensures PREFIX + scope + "__" + field + "__" <= MethodName(h) <==> h.scope == Some(scope) && h.field == field
  {
    var name, wanted := MethodName(h), PREFIX + scope + "__" + field + "__";
    if wanted <= name {
      var tail := name[|wanted|..];
      assert name == wanted + tail;
      PrefixReadsBack(h, scope, field, tail);
    }
    if h.scope == Some(scope) && h.field == field {
      assert name == wanted + h.lookup;
    }
  }

  lemma PrefixReadsBack(h: Handler, scope: string, field: string, tail: string)
    requires CleanHandler(h) && Clean(scope) && Clean(field)
    requires MethodName(h) == PREFIX + scope + "__" + field + "__" + tail
    ensures h.scope == Some(scope) && h.field == field
  {
    var body := MethodName(h)[|PREFIX|..];
    assert body == scope + "__" + (field + "__" + tail);
    if h.scope.Some? {
      var rest := Suffix(h.field, h.lookup);
      assert body == h.scope.value + "__" + rest;
      FirstName(h.scope.value, rest, scope, field + "__" + tail);
      FirstName(h.field, h.lookup, field, tail);
    } else {
      FirstName(h.field, h.lookup, scope, field + "__" + tail);
      NoSeparator(h.lookup, field, tail);
    }
  }

  /** The check at class creation passes exactly when every scope declares a handler of its own for every
      scope-dependent field. */
  lemma ClassCheckMeans(c: Compiler, declared: set<Handler>)
    requires Declares(c, declared)
    requires (forall s :: s in c.scopes ==> Clean(s)) && (forall f :: f in c.scopedFields ==> Clean(f))
    ensures ClassOk(c) <==>
            c.scopedFields == {} || (c.scopes != {} &&
              forall field, scope :: field in c.scopedFields && scope in c.scopes ==> Covered(declared, scope, field))
  {
    forall field, scope | field in c.scopedFields && scope in c.scopes
      ensures HasPrefix(c, scope, field) <==> Covered(declared, scope, field)
    {
      PrefixMeansCovered(c, declared, scope, field);
    }
  }

  ghost predicate Covered(declared: set<Handler>, scope: string, field: string) {
    exists h :: h in declared && h.scope == Some(scope) && h.field == field
  }

  lemma PrefixMeansCovered(c: Compiler, declared: set<Handler>, scope: string, field: string)
    requires Declares(c, declared) && Clean(scope) && Clean(field)
    ensures HasPrefix(c, scope, field) <==> Covered(declared, scope, field)
  {
    if HasPrefix(c, scope, field) {
      var name :| name in c.methods && PREFIX + scope + "__" + field + "__" <= name;
      var h :| h in declared && MethodName(h) == name;
      PrefixIsHandler(h, scope, field);
    }
    if Covered(declared, scope, field) {
      var h :| h in declared && h.scope == Some(scope) && h.field == field;
      PrefixIsHandler(h, scope, field);
      assert MethodName(h) in c.methods;
    }
  }
}
