/** The per-file body of the `__main__` loop (lines 68-170) and the loop over
    the files found: skip package initialisers, skip files that do not parse,
    plan, sort, splice, and write the joined lines back. */
module Generator {
  import opened PyText
  import opened PyAst
  import opened Docstrings
  import opened Planner
  import opened Sorting
  import opened Splicing

  /** A module body as `ast.parse` returns it: every statement well formed. */
  type Tree = t: seq<Stmt> | WellFormedBody(t) witness []

  /** What `ast.parse(source_code)` produced: a tree, or a `SyntaxError`. */
  datatype Parse = Parsed(tree: Tree) | SyntaxError

  /** A file found under a processed directory, with its text and parse. */
  datatype SourceFile = SourceFile(path: string, source: string, parse: Parse)

  /** What happens to one file. `Crashed` is the `IndexError` of a reply
      without a docstring block: it ends the whole run before this file is
      written. */
  datatype Outcome = Skipped | ParseFailed | Crashed(failedAt: string) | Rewritten(text: string)

  const InitName: string := "__init__.py"

  /** `"__init__.py" in python_file` */
  predicate IsPackageInit(path: string) {
    Find(path, InitName, 0).Some?
  }

  /** The substring test holds exactly when the name occurs somewhere in the path. */
  lemma IsPackageInitSpec(path: string)
    ensures IsPackageInit(path) <==> exists k: nat :: OccursAt(path, k, InitName)
  {
    if exists k: nat :: OccursAt(path, k, InitName) {
      var k: nat :| OccursAt(path, k, InitName);
      assert 0 <= k;
    }
  }

  /** The text written back for a plan: lines 152-170 applied to the source. */
  function RewrittenText(source: string, changes: seq<Change>): string {
    Join(ApplyAll(Split(source, '\n'), SortDesc(changes)), '\n')
  }

  /** The plan of a parsed file: its top-level functions, then its classes
      and their methods. */
  function FilePlan(tree: seq<Stmt>, path: string, source: string, llm: (string, string, string) -> string): Plan
    requires WellFormedBody(tree)
  {
    SelectedAreWellFormed(tree);
    Then(PlanFor(DefTargets(TopLevelFunctions(tree), path), source, llm),
         PlanFor(ClassTargets(TopLevelClasses(tree), path), source, llm))
  }

  /** The two runs of calls together are the calls of `Targets`. */
  lemma FilePlanIsPlanFor(tree: seq<Stmt>, path: string, source: string, llm: (string, string, string) -> string)
    requires WellFormedBody(tree)
    ensures FilePlan(tree, path, source, llm) == PlanFor(Targets(tree, path), source, llm)
  {
    SelectedAreWellFormed(tree);
    PlanForAppend(DefTargets(TopLevelFunctions(tree), path), ClassTargets(TopLevelClasses(tree), path), source, llm);
  }

  /** The outcome of one file, as a function of its path, text and parse and
      of the service's replies. */
  function FileOutcome(f: SourceFile, llm: (string, string, string) -> string): Outcome
  {
    if IsPackageInit(f.path) then Skipped
    else match f.parse
      case SyntaxError => ParseFailed
      case Parsed(tree) =>
        match FilePlan(tree, f.path, f.source, llm)
        case Aborted(name) => Crashed(name)
        case Planned(changes) => Rewritten(RewrittenText(f.source, changes))
  }

  /** One file, as the loop body processes it. */
  method ProcessFile(f: SourceFile, llm: (string, string, string) -> string) returns (outcome: Outcome)
    ensures outcome == FileOutcome(f, llm)
  {
    if IsPackageInit(f.path) {
      return Skipped;
    }
    match f.parse
    case SyntaxError =>
      return ParseFailed;
    case Parsed(tree) =>
      var plan := PlanChanges(tree, f.path, f.source, llm);
      FilePlanIsPlanFor(tree, f.path, f.source, llm);
      if plan.Aborted? {
        return Crashed(plan.failedAt);
      }
      var changes := SortChanges(plan.changes);
      var lines := Split(f.source, '\n');
      lines := SpliceAll(lines, changes);
      outcome := Rewritten(Join(lines, '\n'));
  }

  /** With nothing to change, splitting and joining give back the source
      unchanged. */
  lemma NoChangesKeepSource(source: string)
    ensures RewrittenText(source, []) == source
  {
    JoinSplit(source, '\n');
  }

  /** A file with no public function, no class and no public method comes
      back exactly as it was read. */
  lemma NoTargetsKeepSource(f: SourceFile, llm: (string, string, string) -> string)
    requires !IsPackageInit(f.path) && f.parse.Parsed?
    requires Targets(f.parse.tree, f.path) == []
    ensures FileOutcome(f, llm) == Rewritten(f.source)
  {
    FilePlanIsPlanFor(f.parse.tree, f.path, f.source, llm);
    NoChangesKeepSource(f.source);
  }

  /** A parsed file crashes exactly when some reply holds no block, and the
      crash names the first such definition in visiting order. */
  lemma CrashedIffMissingBlock(f: SourceFile, llm: (string, string, string) -> string)
    requires !IsPackageInit(f.path) && f.parse.Parsed?
    ensures var ts := Targets(f.parse.tree, f.path);
      FileOutcome(f, llm).Crashed? <==>
        exists k :: 0 <= k < |ts| && UpdateWithLlm(llm, f.source, ts[k].name, ts[k].package).NoBlock?
    ensures var ts := Targets(f.parse.tree, f.path);
      FileOutcome(f, llm).Crashed? ==>
        exists k :: (0 <= k < |ts|
          && UpdateWithLlm(llm, f.source, ts[k].name, ts[k].package).NoBlock?
          && (forall j :: 0 <= j < k ==> UpdateWithLlm(llm, f.source, ts[j].name, ts[j].package).Found?)
          && FileOutcome(f, llm).failedAt == ts[k].name)
  {
    var ts := Targets(f.parse.tree, f.path);
    FilePlanIsPlanFor(f.parse.tree, f.path, f.source, llm);
    PlanForPlanned(ts, f.source, llm);
    if PlanFor(ts, f.source, llm).Aborted? {
      PlanForAborted(ts, f.source, llm);
    }
  }

  /** End to end: when the planned changes do not clash, the file written is
      the original lines with every change's range replaced by its block,
      each block exactly once and the lines outside every range kept in
      order, which is the document `Render` describes. */
  lemma RewrittenLayout(source: string, changes: seq<Change>)
    requires Separated(changes, |Split(source, '\n')|)
    ensures var lines := Split(source, '\n');
      var asc := Reverse(SortDesc(changes));
      && Ascending(asc, 0, |lines|)
      && RewrittenText(source, changes) == Join(Render(lines, asc, 0), '\n')
  {
    var lines := Split(source, '\n');
    SortedIsDesc(changes, |lines|);
    ApplyAllDescending(lines, SortDesc(changes));
  }

  /** What one file writes: `(path, text)` when it is rewritten. */
  function WriteOf(f: SourceFile, llm: (string, string, string) -> string): (w: seq<(string, string)>)
    ensures |w| <= 1
    ensures w != [] <==> FileOutcome(f, llm).Rewritten?
    ensures w != [] ==> w[0] == (f.path, FileOutcome(f, llm).text)
  {
    var outcome := FileOutcome(f, llm);
    if outcome.Rewritten? then [(f.path, outcome.text)] else []
  }

  /** What a run over `files` that does not crash writes, in order. */
  function Written(files: seq<SourceFile>, llm: (string, string, string) -> string): seq<(string, string)>
  {
    if files == [] then [] else WriteOf(files[0], llm) + Written(files[1..], llm)
  }

  /** Only rewritten files are written: every write is the path and text
      of a rewritten file of the run (their order is `RunOfCompleted`'s). */
  lemma {:induction false} WrittenAreRewrites(files: seq<SourceFile>, llm: (string, string, string) -> string)
    ensures |Written(files, llm)| <= |files|
    ensures forall w :: w in Written(files, llm) ==>
      exists i :: 0 <= i < |files| && files[i].path == w.0 && FileOutcome(files[i], llm) == Rewritten(w.1)
  {
    if files != [] {
      WrittenAreRewrites(files[1..], llm);
      forall w | w in Written(files, llm)
        ensures exists i :: 0 <= i < |files| && files[i].path == w.0 && FileOutcome(files[i], llm) == Rewritten(w.1)
      {
        if w in WriteOf(files[0], llm) {
          assert files[0].path == w.0 && FileOutcome(files[0], llm) == Rewritten(w.1);
        } else {
          assert w in Written(files[1..], llm);
          var i :| 0 <= i < |files[1..]| && files[1..][i].path == w.0 && FileOutcome(files[1..][i], llm) == Rewritten(w.1);
          assert files[i + 1] == files[1..][i];
        }
      }
    }
  }

  /** The files written by a run and, if a reply without a block stopped it,
      the definition that did. */
  datatype Run = Run(writes: seq<(string, string)>, crashedAt: Option<string>)

  /** Writes made before the rest of a run. */
  function Prepend(w: seq<(string, string)>, r: Run): (p: Run)
    ensures p.crashedAt == r.crashedAt && |p.writes| == |w| + |r.writes|
    ensures p.writes[..|w|] == w && p.writes[|w|..] == r.writes
  {
    Run(w + r.writes, r.crashedAt)
  }

  /** The run over `files`, file by file: a crash ends it, otherwise each
      file adds its write, if any, in front of the rest of the run. */
  function RunOf(files: seq<SourceFile>, llm: (string, string, string) -> string): Run
  {
    if files == [] then Run([], None)
    else
      var outcome := FileOutcome(files[0], llm);
      if outcome.Crashed? then Run([], Some(outcome.failedAt))
      else Prepend(WriteOf(files[0], llm), RunOf(files[1..], llm))
  }

  /** The run from file `i` on, after looking at file `i`. */
  lemma RunOfStep(files: seq<SourceFile>, i: nat, llm: (string, string, string) -> string)
    requires i < |files|
    ensures FileOutcome(files[i], llm).Crashed? ==>
      RunOf(files[i..], llm) == Run([], Some(FileOutcome(files[i], llm).failedAt))
    ensures !FileOutcome(files[i], llm).Crashed? ==>
      RunOf(files[i..], llm) == Prepend(WriteOf(files[i], llm), RunOf(files[i + 1..], llm))
  {
    assert files[i..][0] == files[i];
    assert files[i..][1..] == files[i + 1..];
  }

  /** A run that ends without a crash met no crashing file and wrote what
      every file writes, in order. */
  lemma {:induction false} RunOfCompleted(files: seq<SourceFile>, llm: (string, string, string) -> string)
    ensures RunOf(files, llm).crashedAt.None? <==> forall i :: 0 <= i < |files| ==> !FileOutcome(files[i], llm).Crashed?
    ensures RunOf(files, llm).crashedAt.None? ==> RunOf(files, llm).writes == Written(files, llm)
  {
    if files != [] {
      RunOfCompleted(files[1..], llm);
      assert forall i :: 1 <= i < |files| ==> files[i] == files[1..][i - 1];
    }
  }

  /** A run that crashes stops at the first crashing file, having written
      exactly what the files before it write. */
  lemma {:induction false} RunOfCrashed(files: seq<SourceFile>, llm: (string, string, string) -> string)
    returns (k: nat)
    requires RunOf(files, llm).crashedAt.Some?
    ensures k < |files| && FileOutcome(files[k], llm) == Crashed(RunOf(files, llm).crashedAt.value)
    ensures forall i :: 0 <= i < k ==> !FileOutcome(files[i], llm).Crashed?
    ensures RunOf(files, llm).writes == Written(files[..k], llm)
  {
    if FileOutcome(files[0], llm).Crashed? {
      k := 0;
      assert files[..0] == [];
    } else {
      var rest := files[1..];
      var k' := RunOfCrashed(rest, llm);
      k := k' + 1;
      assert files[k] == rest[k'];
      forall i | 1 <= i < k ensures !FileOutcome(files[i], llm).Crashed? {
        assert files[i] == rest[i - 1];
      }
      assert files[..k][0] == files[0] && files[..k][1..] == rest[..k'];
    }
  }

  /** The loop over `python_files`: every file's outcome in turn, writing
      each rewritten file, until a crash ends the run. */
  method ProcessFiles(files: seq<SourceFile>, llm: (string, string, string) -> string) returns (run: Run)
    ensures run == RunOf(files, llm)
  {
    var writes: seq<(string, string)> := [];
    var i := 0;
    assert files[0..] == files;
    while i < |files|
      invariant 0 <= i <= |files|
      invariant RunOf(files, llm) == Prepend(writes, RunOf(files[i..], llm))
    {
      var f := files[i];
      var outcome := ProcessFile(f, llm);
      RunOfStep(files, i, llm);
      if outcome.Crashed? {
        return Run(writes, Some(outcome.failedAt));
      }
      ghost var rest := RunOf(files[i + 1..], llm);
      assert writes + (WriteOf(f, llm) + rest.writes) == (writes + WriteOf(f, llm)) + rest.writes;
      if outcome.Rewritten? {
        writes := writes + [(f.path, outcome.text)];
      }
      i := i + 1;
    }
    assert files[i..] == [];
    run := Run(writes, None);
  }

  /** What a finished run means: no crash and every rewritten file written
      in order, or a crash at the first crashing file after writing exactly
      what the files before it write. */
  lemma ProcessFilesMeaning(files: seq<SourceFile>, llm: (string, string, string) -> string)
    ensures RunOf(files, llm).crashedAt.None? ==>
      (forall i :: 0 <= i < |files| ==> !FileOutcome(files[i], llm).Crashed?)
      && RunOf(files, llm).writes == Written(files, llm)
    ensures RunOf(files, llm).crashedAt.Some? ==>
      exists k :: (0 <= k < |files|
        && FileOutcome(files[k], llm) == Crashed(RunOf(files, llm).crashedAt.value)
        && (forall i :: 0 <= i < k ==> !FileOutcome(files[i], llm).Crashed?)
        && RunOf(files, llm).writes == Written(files[..k], llm))
  {
    RunOfCompleted(files, llm);
    if RunOf(files, llm).crashedAt.Some? {
      var k := RunOfCrashed(files, llm);
    }
  }
}
