/** The parsed module the generator walks: the statements of `ast.parse`'s
    tree that it inspects, with their 1-based line numbers, and the selection
    of the definitions it documents. */
module PyAst {
  import opened PyText

  /** An `ast` statement node. Only the node kinds the generator tells apart
      are distinguished; every other statement is `Other`. */
  datatype Stmt =
    | FunctionDef(name: string, lineno: nat, endLineno: nat, body: seq<Stmt>)
    | AsyncFunctionDef(name: string, lineno: nat, endLineno: nat, body: seq<Stmt>)
    | ClassDef(name: string, lineno: nat, endLineno: nat, body: seq<Stmt>)
    | Expr(lineno: nat, endLineno: nat)
    | Other(lineno: nat, endLineno: nat)
  {
    /** A node that has a `body`. */
    predicate IsDef() {
      FunctionDef? || AsyncFunctionDef? || ClassDef?
    }
  }

  /** What `ast.parse` guarantees of its tree: 1-based line numbers, a start
      no later than the end, and a non-empty body for every definition. */
  predicate WellFormed(s: Stmt) {
    && 1 <= s.lineno <= s.endLineno
    && (s.IsDef() ==> |s.body| > 0 && forall i :: 0 <= i < |s.body| ==> WellFormed(s.body[i]))
  }

  predicate WellFormedBody(body: seq<Stmt>) {
    forall i :: 0 <= i < |body| ==> WellFormed(body[i])
  }

  /** `isinstance(f, ast.FunctionDef) and not f.name.startswith("_")`. */
  predicate IsPublicFunction(s: Stmt) {
    s.FunctionDef? && !StartsWithUnderscore(s.name)
  }

  /** `top_level_functions(body)`; the same test selects a class's methods. */
  function TopLevelFunctions(body: seq<Stmt>): seq<Stmt> {
    if body == [] then []
    else if IsPublicFunction(body[0]) then [body[0]] + TopLevelFunctions(body[1..])
    else TopLevelFunctions(body[1..])
  }

  /** The functions selected are exactly the public functions of the body. */
  lemma {:induction false} TopLevelFunctionsSpec(body: seq<Stmt>)
    ensures forall s :: s in TopLevelFunctions(body) <==> s in body && IsPublicFunction(s)
  {
    if body != [] {
      TopLevelFunctionsSpec(body[1..]);
      assert body == [body[0]] + body[1..];
    }
  }

  /** `top_level_classes(body)`: every class, whatever its name. */
  function TopLevelClasses(body: seq<Stmt>): seq<Stmt> {
    if body == [] then []
    else if body[0].ClassDef? then [body[0]] + TopLevelClasses(body[1..])
    else TopLevelClasses(body[1..])
  }

  /** The classes selected are exactly the classes of the body. */
  lemma {:induction false} TopLevelClassesSpec(body: seq<Stmt>)
    ensures forall s :: s in TopLevelClasses(body) <==> s in body && s.ClassDef?
  {
    if body != [] {
      TopLevelClassesSpec(body[1..]);
      assert body == [body[0]] + body[1..];
    }
  }

  /** Selection keeps source order: it distributes over concatenation. */
  lemma {:induction false} TopLevelFunctionsAppend(a: seq<Stmt>, b: seq<Stmt>)
    ensures TopLevelFunctions(a + b) == TopLevelFunctions(a) + TopLevelFunctions(b)
  {
    if a == [] {
      assert a + b == b;
    } else {
      assert (a + b)[0] == a[0];
      assert (a + b)[1..] == a[1..] + b;
      TopLevelFunctionsAppend(a[1..], b);
    }
  }

  lemma {:induction false} TopLevelClassesAppend(a: seq<Stmt>, b: seq<Stmt>)
    ensures TopLevelClasses(a + b) == TopLevelClasses(a) + TopLevelClasses(b)
  {
    if a == [] {
      assert a + b == b;
    } else {
      assert (a + b)[0] == a[0];
      assert (a + b)[1..] == a[1..] + b;
      TopLevelClassesAppend(a[1..], b);
    }
  }

  /** The placeholder the planner puts in front of a body that has no
      docstring: `ast.Expr(value=ast.Constant(""), lineno=d.lineno+1,
      end_lineno=d.lineno)`. */
  function Placeholder(d: Stmt): Stmt {
    Expr(d.lineno + 1, d.lineno)
  }

  /** The definition after `d.body.insert(0, placeholder)` when its first
      statement is not an `ast.Expr`; unchanged otherwise. */
  function WithDocSlot(d: Stmt): (r: Stmt)
    requires d.IsDef() && |d.body| > 0
    ensures r.IsDef() && r.name == d.name && r.lineno == d.lineno && r.endLineno == d.endLineno
    ensures |r.body| > 0 && r.body[0].Expr?
    ensures d.body[0].Expr? ==> r == d
    ensures !d.body[0].Expr? ==> r.body == [Placeholder(d)] + d.body
  {
    if d.body[0].Expr? then d else d.(body := [Placeholder(d)] + d.body)
  }

  /** The methods the planner visits in a class: `class_def.body[1:]` after
      the placeholder insertion, filtered like `top_level_functions`. */
  function ClassMethods(c: Stmt): seq<Stmt>
    requires c.ClassDef? && |c.body| > 0
  {
    TopLevelFunctions(WithDocSlot(c).body[1..])
  }

  /** Skipping `body[0]` after the insertion loses no method: the methods
      visited are exactly the public functions of the original body. */
  lemma ClassMethodsAreAllPublicFunctions(c: Stmt)
    requires c.ClassDef? && |c.body| > 0
    ensures ClassMethods(c) == TopLevelFunctions(c.body)
  {
    if c.body[0].Expr? {
      assert c.body == [c.body[0]] + c.body[1..];
      TopLevelFunctionsAppend([c.body[0]], c.body[1..]);
    } else {
      assert WithDocSlot(c).body[1..] == c.body;
    }
  }
}
