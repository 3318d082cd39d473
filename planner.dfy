/** The planning half of the per-file loop: one `(start, end, text)` change
    per documented definition, in the order the generator visits them. */
module Planner {
  import opened PyText
  import opened PyAst
  import opened Docstrings

  /** `(start_lineno, end_lineno, content)`: replace the 0-based, half-open
      line range `[start, end)` of the buffer with a docstring block. */
  datatype Change = Change(start: nat, end: nat, text: string)

  /** One call of `update_with_llm`: the definition's name, the package
      passed with it (the file path, or the enclosing class's name for a
      method) and the node itself. */
  datatype Target = Target(name: string, package: string, def: Stmt)

  /** The outcome of planning a file: every change, or the name of the first
      definition whose reply held no docstring block, at which point the
      `IndexError` ends the run before anything is written. */
  datatype Plan = Planned(changes: seq<Change>) | Aborted(failedAt: string)

  /** `update_with_llm(source_code, name, package)`. The generative service,
      prompt included, is the parameter `llm`. */
  function UpdateWithLlm(llm: (string, string, string) -> string, source: string, name: string, package: string): Extraction {
    ExtractDocstring(llm(source, name, package))
  }

  /** The change recorded for definition `d`: read off `d.body[0]` after the
      placeholder insertion. */
  function ChangeFor(d: Stmt, text: string): (c: Change)
    requires Documentable(d)
    ensures c.text == text
    ensures !d.body[0].Expr? ==> c.start == d.lineno && c.end == d.lineno
    ensures d.body[0].Expr? ==> c.start == d.body[0].lineno - 1 && c.end == d.body[0].endLineno
  {
    var first := WithDocSlot(d).body[0];
    Change(first.lineno - 1, first.endLineno, text)
  }

  /** What reading the change off `d.body[0]` needs. */
  predicate Documentable(d: Stmt) {
    d.IsDef() && |d.body| > 0 && d.body[0].lineno >= 1
  }

  lemma WellFormedDocumentable(d: Stmt)
    requires d.IsDef() && WellFormed(d)
    ensures Documentable(d)
  {
    assert WellFormed(d.body[0]);
  }

  predicate AllDefs(defs: seq<Stmt>) {
    forall k :: 0 <= k < |defs| ==> defs[k].IsDef() && WellFormed(defs[k])
  }

  predicate ValidTargets(ts: seq<Target>) {
    forall k :: 0 <= k < |ts| ==> Documentable(ts[k].def)
  }

  /** One call per definition, in order: its name, the given package and
      the node itself. */
  function DefTargets(defs: seq<Stmt>, package: string): (ts: seq<Target>)
    requires AllDefs(defs)
    ensures |ts| == |defs| && ValidTargets(ts)
    ensures forall k :: 0 <= k < |ts| ==> ts[k] == Target(defs[k].name, package, defs[k])
  {
    if defs == [] then []
    else
      WellFormedDocumentable(defs[0]);
      [Target(defs[0].name, package, defs[0])] + DefTargets(defs[1..], package)
  }

  predicate AllClasses(cs: seq<Stmt>) {
    forall k :: 0 <= k < |cs| ==> cs[k].ClassDef? && WellFormed(cs[k])
  }

  lemma MethodsAreDefs(c: Stmt)
    requires c.ClassDef? && WellFormed(c)
    ensures AllDefs(ClassMethods(c))
  {
    ClassMethodsAreAllPublicFunctions(c);
    TopLevelFunctionsSpec(c.body);
    var ms := ClassMethods(c);
    forall k | 0 <= k < |ms| ensures ms[k].IsDef() && WellFormed(ms[k]) {
      assert ms[k] in ms;
      var j :| 0 <= j < |c.body| && c.body[j] == ms[k];
      assert WellFormed(c.body[j]);
    }
  }

  /** A class's own calls: the class, then its methods with the class's
      name as their package. */
  function OwnTargets(c: Stmt, path: string): (ts: seq<Target>)
    requires c.ClassDef? && WellFormed(c)
    ensures ValidTargets(ts)
  {
    MethodsAreDefs(c);
    WellFormedDocumentable(c);
    [Target(c.name, path, c)] + DefTargets(ClassMethods(c), c.name)
  }

  /** Each class's own calls, class by class. */
  function ClassTargets(cs: seq<Stmt>, path: string): (ts: seq<Target>)
    requires AllClasses(cs)
    ensures ValidTargets(ts)
  {
    if cs == [] then []
    else
      ValidTargetsAppend(OwnTargets(cs[0], path), ClassTargets(cs[1..], path));
      OwnTargets(cs[0], path) + ClassTargets(cs[1..], path)
  }

  lemma SelectedAreWellFormed(tree: seq<Stmt>)
    requires WellFormedBody(tree)
    ensures AllDefs(TopLevelFunctions(tree)) && AllClasses(TopLevelClasses(tree))
  {
    var fs := TopLevelFunctions(tree);
    var cs := TopLevelClasses(tree);
    TopLevelFunctionsSpec(tree);
    TopLevelClassesSpec(tree);
    forall k | 0 <= k < |fs| ensures fs[k].IsDef() && WellFormed(fs[k]) {
      assert fs[k] in tree;
    }
    forall k | 0 <= k < |cs| ensures cs[k].ClassDef? && WellFormed(cs[k]) {
      assert cs[k] in tree;
    }
  }

  lemma SelectionIsWellFormed(body: seq<Stmt>, xs: seq<Stmt>)
    requires WellFormedBody(body)
    requires forall m :: m in xs ==> m in body
    ensures AllDefs(TopLevelFunctions(xs))
  {
    var fs := TopLevelFunctions(xs);
    TopLevelFunctionsSpec(xs);
    forall k | 0 <= k < |fs| ensures fs[k].IsDef() && WellFormed(fs[k]) {
      assert fs[k] in xs;
    }
  }

  /** Every `update_with_llm` call of a file, in the order the loops make
      them: the public top-level functions, then each class followed by its
      public methods. */
  function Targets(tree: seq<Stmt>, path: string): (ts: seq<Target>)
    requires WellFormedBody(tree)
    ensures ValidTargets(ts)
  {
    SelectedAreWellFormed(tree);
    DefTargets(TopLevelFunctions(tree), path) + ClassTargets(TopLevelClasses(tree), path)
  }

  /** The plan for a sequence of calls: stop at the first reply without a block. */
  function PlanFor(ts: seq<Target>, source: string, llm: (string, string, string) -> string): Plan
    requires ValidTargets(ts)
  {
    if ts == [] then Planned([])
    else
      match UpdateWithLlm(llm, source, ts[0].name, ts[0].package)
      case NoBlock => Aborted(ts[0].name)
      case Found(doc) =>
        match PlanFor(ts[1..], source, llm)
        case Aborted(n) => Aborted(n)
        case Planned(cs) => Planned([ChangeFor(ts[0].def, doc)] + cs)
  }

  lemma {:induction false} PlannedIffFound(ts: seq<Target>, source: string, llm: (string, string, string) -> string)
    requires ValidTargets(ts)
    ensures PlanFor(ts, source, llm).Planned?
        <==> forall k :: 0 <= k < |ts| ==> UpdateWithLlm(llm, source, ts[k].name, ts[k].package).Found?
  {
    if ts != [] {
      var t := ts[1..];
      PlannedIffFound(t, source, llm);
      assert forall k :: 1 <= k < |ts| ==> ts[k] == t[k - 1];
    }
  }

  lemma {:induction false} PlannedChanges(ts: seq<Target>, source: string, llm: (string, string, string) -> string)
    requires ValidTargets(ts) && PlanFor(ts, source, llm).Planned?
    requires forall k :: 0 <= k < |ts| ==> UpdateWithLlm(llm, source, ts[k].name, ts[k].package).Found?
    ensures var cs := PlanFor(ts, source, llm).changes;
      && |cs| == |ts|
      && forall k :: 0 <= k < |ts| ==>
           cs[k] == ChangeFor(ts[k].def, UpdateWithLlm(llm, source, ts[k].name, ts[k].package).text)
  {
    if ts != [] {
      var t := ts[1..];
      assert forall k :: 0 <= k < |t| ==> t[k] == ts[k + 1];
      PlannedChanges(t, source, llm);
      var cs := PlanFor(ts, source, llm).changes;
      var ct := PlanFor(t, source, llm).changes;
      assert cs == [ChangeFor(ts[0].def, UpdateWithLlm(llm, source, ts[0].name, ts[0].package).text)] + ct;
      forall k | 1 <= k < |ts|
        ensures cs[k] == ChangeFor(ts[k].def, UpdateWithLlm(llm, source, ts[k].name, ts[k].package).text)
      {
        assert cs[k] == ct[k - 1] && ts[k] == t[k - 1];
      }
    }
  }

  /** Planning succeeds exactly when every reply holds a block; then there is
      one change per call, in call order, each taken from its own reply. */
  lemma PlanForPlanned(ts: seq<Target>, source: string, llm: (string, string, string) -> string)
    requires ValidTargets(ts)
    ensures PlanFor(ts, source, llm).Planned?
        <==> forall k :: 0 <= k < |ts| ==> UpdateWithLlm(llm, source, ts[k].name, ts[k].package).Found?
    ensures PlanFor(ts, source, llm).Planned? ==>
      var cs := PlanFor(ts, source, llm).changes;
      && |cs| == |ts|
      && forall k :: 0 <= k < |ts| ==>
           cs[k] == ChangeFor(ts[k].def, UpdateWithLlm(llm, source, ts[k].name, ts[k].package).text)
  {
    PlannedIffFound(ts, source, llm);
    if PlanFor(ts, source, llm).Planned? {
      PlannedChanges(ts, source, llm);
    }
  }

  /** The position of the first reply without a block in an aborted plan. */
  lemma {:induction false} AbortedAt(ts: seq<Target>, source: string, llm: (string, string, string) -> string)
    returns (k: nat)
    requires ValidTargets(ts)
    requires PlanFor(ts, source, llm).Aborted?
    ensures k < |ts| && UpdateWithLlm(llm, source, ts[k].name, ts[k].package).NoBlock?
    ensures forall j :: 0 <= j < k ==> UpdateWithLlm(llm, source, ts[j].name, ts[j].package).Found?
    ensures PlanFor(ts, source, llm).failedAt == ts[k].name
  {
    if UpdateWithLlm(llm, source, ts[0].name, ts[0].package).NoBlock? {
      k := 0;
    } else {
      var t := ts[1..];
      var k' := AbortedAt(t, source, llm);
      k := k' + 1;
      assert ts[k] == t[k'];
      forall j | 1 <= j < k ensures UpdateWithLlm(llm, source, ts[j].name, ts[j].package).Found? {
        assert ts[j] == t[j - 1];
      }
    }
  }

  /** An aborted plan names the first definition whose reply had no block. */
  lemma PlanForAborted(ts: seq<Target>, source: string, llm: (string, string, string) -> string)
    requires ValidTargets(ts)
    requires PlanFor(ts, source, llm).Aborted?
    ensures exists k :: (0 <= k < |ts|
      && UpdateWithLlm(llm, source, ts[k].name, ts[k].package).NoBlock?
      && (forall j :: 0 <= j < k ==> UpdateWithLlm(llm, source, ts[j].name, ts[j].package).Found?)
      && PlanFor(ts, source, llm).failedAt == ts[k].name)
  {
    var k := AbortedAt(ts, source, llm);
  }

  lemma ValidTargetsAppend(a: seq<Target>, b: seq<Target>)
    requires ValidTargets(a) && ValidTargets(b)
    ensures ValidTargets(a + b)
  {
    forall k | 0 <= k < |a + b| ensures Documentable((a + b)[k].def) {
      if k < |a| {
        assert (a + b)[k] == a[k];
      } else {
        assert (a + b)[k] == b[k - |a|];
      }
    }
  }

  lemma ConsAppend(c: Change, x: seq<Change>, y: seq<Change>)
    ensures [c] + (x + y) == ([c] + x) + y
  {
  }

  lemma Assoc<T>(x: seq<T>, y: seq<T>, z: seq<T>)
    ensures x + (y + z) == (x + y) + z
  {
  }

  /** The plan of two runs of calls, one after the other. */
  function Then(p: Plan, q: Plan): Plan {
    if p.Aborted? then p else if q.Aborted? then q else Planned(p.changes + q.changes)
  }

  /** Planning a concatenation plans the first part and, unless it aborted,
      the second: calls after an abort are never made. */
  lemma {:induction false} PlanForAppend(a: seq<Target>, b: seq<Target>, source: string,
                                         llm: (string, string, string) -> string)
    requires ValidTargets(a) && ValidTargets(b)
    ensures ValidTargets(a + b)
    ensures PlanFor(a + b, source, llm) == Then(PlanFor(a, source, llm), PlanFor(b, source, llm))
  {
    ValidTargetsAppend(a, b);
    if a == [] {
      assert a + b == b;
    } else {
      var t := a[0];
      ValidTargetsAppend(a[1..], b);
      assert (a + b)[0] == t && (a + b)[1..] == a[1..] + b;
      PlanForAppend(a[1..], b, source, llm);
      var r := UpdateWithLlm(llm, source, t.name, t.package);
      if r.Found? {
        var c := ChangeFor(t.def, r.text);
        var p := PlanFor(a[1..], source, llm);
        var q := PlanFor(b, source, llm);
        assert PlanFor(a, source, llm) == if p.Aborted? then p else Planned([c] + p.changes);
        assert PlanFor(a + b, source, llm) == if Then(p, q).Aborted? then Then(p, q) else Planned([c] + Then(p, q).changes);
        if p.Planned? && q.Planned? {
          ConsAppend(c, p.changes, q.changes);
        }
      }
    }
  }

  lemma AllDefsAppend(a: seq<Stmt>, b: seq<Stmt>)
    requires AllDefs(a) && AllDefs(b)
    ensures AllDefs(a + b)
    ensures a != [] ==> AllDefs(a[1..]) && (a + b)[0] == a[0] && (a + b)[1..] == a[1..] + b
  {
    assert forall k :: 0 <= k < |a + b| ==> (a + b)[k] == if k < |a| then a[k] else b[k - |a|];
  }

  lemma {:induction false} DefTargetsAppend(a: seq<Stmt>, b: seq<Stmt>, package: string)
    requires AllDefs(a) && AllDefs(b)
    ensures AllDefs(a + b)
    ensures DefTargets(a + b, package) == DefTargets(a, package) + DefTargets(b, package)
  {
    AllDefsAppend(a, b);
    if a != [] {
      DefTargetsAppend(a[1..], b, package);
    } else {
      assert a + b == b;
    }
  }

  lemma AllClassesAppend(a: seq<Stmt>, b: seq<Stmt>)
    requires AllClasses(a) && AllClasses(b)
    ensures AllClasses(a + b)
    ensures a != [] ==> AllClasses(a[1..]) && (a + b)[0] == a[0] && (a + b)[1..] == a[1..] + b
  {
    assert forall k :: 0 <= k < |a + b| ==> (a + b)[k] == if k < |a| then a[k] else b[k - |a|];
  }

  lemma {:induction false} ClassTargetsAppend(a: seq<Stmt>, b: seq<Stmt>, path: string)
    requires AllClasses(a) && AllClasses(b)
    ensures AllClasses(a + b)
    ensures ClassTargets(a + b, path) == ClassTargets(a, path) + ClassTargets(b, path)
  {
    AllClassesAppend(a, b);
    if a != [] {
      ClassTargetsAppend(a[1..], b, path);
      Assoc(OwnTargets(a[0], path), ClassTargets(a[1..], path), ClassTargets(b, path));
    } else {
      assert a + b == b;
    }
  }

  /** One step of a planning loop: a reply with a block appends its change. */
  lemma PlanStepFound(done: seq<Target>, t: Target, changes: seq<Change>, source: string,
                      llm: (string, string, string) -> string)
    requires ValidTargets(done) && Documentable(t.def)
    requires PlanFor(done, source, llm) == Planned(changes)
    requires UpdateWithLlm(llm, source, t.name, t.package).Found?
    ensures ValidTargets(done + [t])
    ensures PlanFor(done + [t], source, llm)
         == Planned(changes + [ChangeFor(t.def, UpdateWithLlm(llm, source, t.name, t.package).text)])
  {
    assert [t][1..] == [];
    PlanForAppend(done, [t], source, llm);
  }

  /** One step of a planning loop: a reply without a block aborts the plan,
      whatever calls would have followed. */
  lemma PlanStepAbort(done: seq<Target>, t: Target, rest: seq<Target>, source: string,
                      llm: (string, string, string) -> string)
    requires ValidTargets(done) && Documentable(t.def) && ValidTargets(rest)
    requires PlanFor(done, source, llm).Planned?
    requires UpdateWithLlm(llm, source, t.name, t.package).NoBlock?
    ensures ValidTargets(done + [t] + rest)
    ensures PlanFor(done + [t] + rest, source, llm) == Aborted(t.name)
  {
    assert [t][1..] == [];
    PlanForAppend(done, [t], source, llm);
    PlanForAppend(done + [t], rest, source, llm);
  }

  /** The calls of a loop over `defs` before, at and after position `i`. */
  lemma DefPrefixSnoc(defs: seq<Stmt>, i: nat, package: string)
    requires AllDefs(defs) && i < |defs|
    ensures AllDefs(defs[..i]) && AllDefs(defs[..i + 1]) && AllDefs(defs[i + 1..])
    ensures Documentable(defs[i])
    ensures DefTargets(defs[..i + 1], package) == DefTargets(defs[..i], package) + [Target(defs[i].name, package, defs[i])]
    ensures DefTargets(defs, package) == DefTargets(defs[..i + 1], package) + DefTargets(defs[i + 1..], package)
  {
    WellFormedDocumentable(defs[i]);
    assert defs[..i + 1] == defs[..i] + [defs[i]];
    DefTargetsAppend(defs[..i], [defs[i]], package);
    assert DefTargets([defs[i]], package) == [Target(defs[i].name, package, defs[i])];
    assert defs == defs[..i + 1] + defs[i + 1..];
    DefTargetsAppend(defs[..i + 1], defs[i + 1..], package);
  }

  /** The loop over the top-level functions (lines 87-106). */
  method PlanFunctions(tree: seq<Stmt>, path: string, source: string, llm: (string, string, string) -> string)
    returns (plan: Plan)
    requires WellFormedBody(tree)
    ensures AllDefs(TopLevelFunctions(tree))
    ensures plan == PlanFor(DefTargets(TopLevelFunctions(tree), path), source, llm)
  {
    SelectedAreWellFormed(tree);
    var functions := TopLevelFunctions(tree);
    var changes: seq<Change> := [];
    var i := 0;
    while i < |functions|
      invariant 0 <= i <= |functions|
      invariant PlanFor(DefTargets(functions[..i], path), source, llm) == Planned(changes)
    {
      var fn := functions[i];
      // The re-check of the name at line 88 never skips: the selection already did.
      TopLevelFunctionsSpec(tree);
      assert fn in functions && !StartsWithUnderscore(fn.name);
      DefPrefixSnoc(functions, i, path);
      var slotted := WithDocSlot(fn);
      ghost var done := DefTargets(functions[..i], path);
      ghost var t := Target(fn.name, path, fn);
      match UpdateWithLlm(llm, source, fn.name, path)
      case NoBlock =>
        PlanStepAbort(done, t, DefTargets(functions[i + 1..], path), source, llm);
        return Aborted(fn.name);
      case Found(doc) =>
        var change := Change(slotted.body[0].lineno - 1, slotted.body[0].endLineno, doc);
        assert change == ChangeFor(fn, doc);
        PlanStepFound(done, t, changes, source, llm);
        assert PlanFor(DefTargets(functions[..i + 1], path), source, llm) == Planned(changes + [change]);
        changes := changes + [change];
      i := i + 1;
    }
    assert functions[..i] == functions;
    plan := Planned(changes);
  }

  /** The calls of the public methods up to and including method `k`. */
  lemma MemberSnoc(members: seq<Stmt>, k: nat, className: string)
    requires WellFormedBody(members) && k < |members| && IsPublicFunction(members[k])
    ensures AllDefs(TopLevelFunctions(members[..k])) && AllDefs(TopLevelFunctions(members[..k + 1]))
    ensures Documentable(members[k])
    ensures DefTargets(TopLevelFunctions(members[..k + 1]), className)
         == DefTargets(TopLevelFunctions(members[..k]), className) + [Target(members[k].name, className, members[k])]
  {
    var m := members[k];
    SelectionIsWellFormed(members, members[..k]);
    assert members[..k + 1] == members[..k] + [m];
    TopLevelFunctionsAppend(members[..k], [m]);
    WellFormedDocumentable(m);
    assert TopLevelFunctions([m]) == [m];
    DefTargetsAppend(TopLevelFunctions(members[..k]), [m], className);
    assert DefTargets([m], className) == [Target(m.name, className, m)];
  }

  /** The calls of all the public methods: those up to and including member
      `k`, then the rest. */
  lemma MemberSplit(members: seq<Stmt>, k: nat, className: string)
    requires WellFormedBody(members) && k < |members|
    ensures AllDefs(TopLevelFunctions(members)) && AllDefs(TopLevelFunctions(members[..k + 1]))
    ensures AllDefs(TopLevelFunctions(members[k + 1..]))
    ensures DefTargets(TopLevelFunctions(members), className)
         == DefTargets(TopLevelFunctions(members[..k + 1]), className) + DefTargets(TopLevelFunctions(members[k + 1..]), className)
  {
    SelectionIsWellFormed(members, members[..k + 1]);
    SelectionIsWellFormed(members, members[k + 1..]);
    assert members == members[..k + 1] + members[k + 1..];
    TopLevelFunctionsAppend(members[..k + 1], members[k + 1..]);
    DefTargetsAppend(TopLevelFunctions(members[..k + 1]), TopLevelFunctions(members[k + 1..]), className);
  }

  /** A public method whose reply holds a block adds its change. */
  lemma MemberFound(members: seq<Stmt>, k: nat, className: string, changes: seq<Change>, doc: string,
                    source: string, llm: (string, string, string) -> string)
    requires WellFormedBody(members) && k < |members| && IsPublicFunction(members[k])
    requires AllDefs(TopLevelFunctions(members[..k]))
    requires PlanFor(DefTargets(TopLevelFunctions(members[..k]), className), source, llm) == Planned(changes)
    requires UpdateWithLlm(llm, source, members[k].name, className) == Found(doc)
    ensures Documentable(members[k]) && AllDefs(TopLevelFunctions(members[..k + 1]))
    ensures PlanFor(DefTargets(TopLevelFunctions(members[..k + 1]), className), source, llm)
         == Planned(changes + [ChangeFor(members[k], doc)])
  {
    MemberSnoc(members, k, className);
    PlanStepFound(DefTargets(TopLevelFunctions(members[..k]), className),
                  Target(members[k].name, className, members[k]), changes, source, llm);
  }

  /** A public method whose reply holds no block aborts the class's plan. */
  lemma MemberAbort(members: seq<Stmt>, k: nat, className: string,
                    source: string, llm: (string, string, string) -> string)
    requires WellFormedBody(members) && k < |members| && IsPublicFunction(members[k])
    requires AllDefs(TopLevelFunctions(members[..k]))
    requires PlanFor(DefTargets(TopLevelFunctions(members[..k]), className), source, llm).Planned?
    requires UpdateWithLlm(llm, source, members[k].name, className).NoBlock?
    ensures AllDefs(TopLevelFunctions(members))
    ensures PlanFor(DefTargets(TopLevelFunctions(members), className), source, llm) == Aborted(members[k].name)
  {
    MemberSnoc(members, k, className);
    MemberSplit(members, k, className);
    PlanStepAbort(DefTargets(TopLevelFunctions(members[..k]), className),
                  Target(members[k].name, className, members[k]),
                  DefTargets(TopLevelFunctions(members[k + 1..]), className), source, llm);
  }

  /** Any other member is skipped. */
  lemma MemberSkipped(members: seq<Stmt>, k: nat)
    requires k < |members| && !IsPublicFunction(members[k])
    ensures TopLevelFunctions(members[..k + 1]) == TopLevelFunctions(members[..k])
  {
    assert members[..k + 1] == members[..k] + [members[k]];
    TopLevelFunctionsAppend(members[..k], [members[k]]);
    assert TopLevelFunctions([members[k]]) == [];
  }

  /** The inner loop over a class's body (lines 131-149): every public
      function in it, with the class's name as the package. */
  method PlanMethods(members: seq<Stmt>, className: string, source: string,
                     llm: (string, string, string) -> string)
    returns (plan: Plan)
    requires WellFormedBody(members)
    ensures AllDefs(TopLevelFunctions(members))
    ensures plan == PlanFor(DefTargets(TopLevelFunctions(members), className), source, llm)
  {
    SelectionIsWellFormed(members, members);
    var changes: seq<Change> := [];
    var k := 0;
    while k < |members|
      invariant 0 <= k <= |members|
      invariant AllDefs(TopLevelFunctions(members[..k]))
      invariant PlanFor(DefTargets(TopLevelFunctions(members[..k]), className), source, llm) == Planned(changes)
    {
      var member := members[k];
      if member.FunctionDef? && !StartsWithUnderscore(member.name) {
        var slotted := WithDocSlot(member);
        match UpdateWithLlm(llm, source, member.name, className)
        case NoBlock =>
          MemberAbort(members, k, className, source, llm);
          return Aborted(member.name);
        case Found(doc) =>
          MemberFound(members, k, className, changes, doc, source, llm);
          var change := Change(slotted.body[0].lineno - 1, slotted.body[0].endLineno, doc);
          assert change == ChangeFor(member, doc);
          changes := changes + [change];
      } else {
        MemberSkipped(members, k);
      }
      k := k + 1;
    }
    assert members[..k] == members;
    plan := Planned(changes);
  }

  /** The body of the loop over the top-level classes (lines 109-149): the
      class's own docstring, then its public methods. */
  method PlanClass(classDef: Stmt, path: string, source: string, llm: (string, string, string) -> string)
    returns (plan: Plan)
    requires classDef.ClassDef? && WellFormed(classDef)
    ensures plan == PlanFor(ClassTargets([classDef], path), source, llm)
  {
    MethodsAreDefs(classDef);
    WellFormedDocumentable(classDef);
    ghost var t := Target(classDef.name, path, classDef);
    ghost var mts := DefTargets(ClassMethods(classDef), classDef.name);
    assert [classDef][1..] == [];
    assert ClassTargets([classDef], path) == OwnTargets(classDef, path) + [];
    assert ClassTargets([classDef], path) == [t] + mts;
    PlanForAppend([t], mts, source, llm);
    var slotted := WithDocSlot(classDef);
    match UpdateWithLlm(llm, source, classDef.name, path)
    case NoBlock =>
      return Aborted(classDef.name);
    case Found(doc) =>
      assert PlanFor([t], source, llm) == Planned([ChangeFor(classDef, doc)]) by {
        assert [t][1..] == [];
      }
      var members := slotted.body[1..];
      assert WellFormedBody(members) by {
        assert forall m :: m in members ==> m in classDef.body;
      }
      plan := PlanMethods(members, classDef.name, source, llm);
      if plan.Planned? {
        plan := Planned([Change(slotted.body[0].lineno - 1, slotted.body[0].endLineno, doc)] + plan.changes);
      }
  }

  /** The calls up to and including class `j`: those before it, then its
      own; and all the calls: those up to and including class `j`, then the
      rest. */
  lemma ClassPrefixSnoc(classes: seq<Stmt>, j: nat, path: string)
    requires AllClasses(classes) && j < |classes|
    ensures AllClasses(classes[..j]) && AllClasses(classes[..j + 1]) && AllClasses([classes[j]])
    ensures AllClasses(classes[j + 1..])
    ensures ClassTargets(classes[..j + 1], path) == ClassTargets(classes[..j], path) + ClassTargets([classes[j]], path)
    ensures ClassTargets(classes, path) == ClassTargets(classes[..j + 1], path) + ClassTargets(classes[j + 1..], path)
  {
    assert classes[..j + 1] == classes[..j] + [classes[j]];
    ClassTargetsAppend(classes[..j], [classes[j]], path);
    assert classes == classes[..j + 1] + classes[j + 1..];
    ClassTargetsAppend(classes[..j + 1], classes[j + 1..], path);
  }

  /** One turn of the loop over the classes: the class's own plan extends
      the plan so far, or its abort ends the plan of all the classes. */
  lemma ClassStep(classes: seq<Stmt>, j: nat, changes: seq<Change>, part: Plan,
                  path: string, source: string, llm: (string, string, string) -> string)
    requires AllClasses(classes) && j < |classes|
    requires PlanFor(ClassTargets(classes[..j], path), source, llm) == Planned(changes)
    requires part == PlanFor(ClassTargets([classes[j]], path), source, llm)
    ensures part.Planned? ==>
      PlanFor(ClassTargets(classes[..j + 1], path), source, llm) == Planned(changes + part.changes)
    ensures part.Aborted? ==> PlanFor(ClassTargets(classes, path), source, llm) == part
  {
    ClassPrefixSnoc(classes, j, path);
    PlanForAppend(ClassTargets(classes[..j], path), ClassTargets([classes[j]], path), source, llm);
    if part.Aborted? {
      PlanForAppend(ClassTargets(classes[..j + 1], path), ClassTargets(classes[j + 1..], path), source, llm);
    }
  }

  /** The loop over the top-level classes (lines 109-149), each class with
      its methods. */
  method PlanClasses(classes: seq<Stmt>, path: string, source: string, llm: (string, string, string) -> string)
    returns (plan: Plan)
    requires AllClasses(classes)
    ensures plan == PlanFor(ClassTargets(classes, path), source, llm)
  {
    var changes: seq<Change> := [];
    var j := 0;
    assert classes[..0] == [];
    while j < |classes|
      invariant 0 <= j <= |classes|
      invariant PlanFor(ClassTargets(classes[..j], path), source, llm) == Planned(changes)
    {
      var part := PlanClass(classes[j], path, source, llm);
      ClassStep(classes, j, changes, part, path, source, llm);
      if part.Aborted? {
        return part;
      }
      changes := changes + part.changes;
      j := j + 1;
    }
    assert classes[..j] == classes;
    plan := Planned(changes);
  }

  /** The `__main__` planning loops (lines 87-149) for an already parsed
      tree: the functions, then the classes, stopping at the first reply
      without a block. */
  method PlanChanges(tree: seq<Stmt>, path: string, source: string, llm: (string, string, string) -> string)
    returns (plan: Plan)
    requires WellFormedBody(tree)
    ensures plan == PlanFor(Targets(tree, path), source, llm)
  {
    SelectedAreWellFormed(tree);
    ghost var fts := DefTargets(TopLevelFunctions(tree), path);
    ghost var cts := ClassTargets(TopLevelClasses(tree), path);
    PlanForAppend(fts, cts, source, llm);
    plan := PlanFunctions(tree, path, source, llm);
    if plan.Aborted? {
      return;
    }
    var rest := PlanClasses(TopLevelClasses(tree), path, source, llm);
    if rest.Aborted? {
      return rest;
    }
    plan := Planned(plan.changes + rest.changes);
  }
}
