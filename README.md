# docstring_generator, modelled in Dafny

`docstring_generator.py` walks directories of Python files. For each file
that parses, it asks a text-generation service for a docstring for every
public top-level function, for every top-level class and for every public
method of those classes. It pulls the first `"""…"""` block out of each
reply. It records one `(start, end, text)` line-range change per
definition, sorts the changes by start line from the largest down, and
splices each change into the file's lines as three lines: an opening
delimiter, the stripped text and a closing delimiter. All three are
indented like the first non-blank line after the range. It then writes the
joined lines back.

This project models that core and proves its properties. It has eight
modules, each in its own file.

- **`PyText`** (`pytext.dfy`) models Python's `str.strip`/`lstrip`,
  `startswith("_")`, `split('\n')` and `'\n'.join`. Whitespace is the set
  `str.isspace()` accepts. The module proves the split/join round trips.
- **`Indentation`** (`indentation.dfy`) models `get_indent`.
- **`Docstrings`** (`docstrings.dfy`) models the non-greedy, dot-matches-all
  first-match search that line 51 does with a regular expression, written
  out as a delimiter search. A reply without a block is the `IndexError`
  of `findall(...)[0]`.
- **`PyAst`** (`pyast.dfy`) holds the statement nodes the generator looks
  at. It also models `top_level_functions`, `top_level_classes` and the
  placeholder `ast.Expr` that is inserted in front of a body with no
  docstring.
- **`Planner`** (`planner.dfy`) models the planning loops at lines 87-149.
  They are methods proved against `PlanFor`, a recursive specification over
  the sequence of service calls (`Target`s) in visiting order.
- **`Sorting`** (`sorting.dfy`) models the stable `sort(key=start,
  reverse=True)` as an insertion sort (`SortChanges`). Its result is proved
  to be the only non-increasing order that keeps equal starts in their
  original order, which is what Python's stable sort produces.
- **`Splicing`** (`splicing.dfy`) models the splice loop as a method that
  reassigns the buffer, proved equal to the fold `ApplyAll`. The fold is
  proved equal to `Render`, which describes the rewritten document directly
  from the original lines, whenever the changes come in non-clashing
  descending order.
- **`Generator`** (`generator.dfy`) models what happens to one file
  (skipped, unparsable, crashed, rewritten) and the loop over the files,
  which a crash ends.

The service is the function parameter `llm(source, name, package)`, which
returns the reply text. The prompt template is folded into it. The parse
tree is an input: `Parsed(tree)` or `SyntaxError`. A tree has the type
`Tree`, which holds what `ast.parse` guarantees and the code relies on:
1-based line numbers, no node starting after it ends, and a non-empty body
for every definition.

Points where the code does something other than what its own comments and
names suggest (line 91, for instance, says "Check if there is a docstring"):

- A body counts as documented when its first statement is any expression
  statement (`isinstance(body[0], ast.Expr)`), not only a string literal.
- The generated text is only `strip()`ped. `format_docstring`, which would
  remove a common indent, is never called.
- The indent is `" "` repeated once per leading whitespace character, so a
  tab becomes one space. The whitespace is not copied verbatim.
- The middle block line is the whole stripped text, with any newlines kept
  inside that one buffer element, so only its first physical line is
  indented. Nothing is collapsed.
- That a file's changes do not overlap and have distinct starts is not a
  property of the code. It is the hypothesis `Separated` of the end-to-end
  lemma. For example, a one-line `def f(): "doc"` yields the change
  `(lineno - 1, lineno)`, which covers the `def` line itself. And an
  undocumented `class A:` on line 1 whose first member is the one-liner
  `def f(self): "doc"` yields the changes `(1, 1)` and `(1, 2)`. They do not
  overlap but share a start, so after the stable sort the method's splice
  lands on the opening delimiter of the class's block.

## Model

| member | source | states |
|---|---|---|
| PyText.LeadingSpaces | docstring_generator.py:27 | the count returned is exactly the run of leading whitespace characters (what `lstrip` removes) |
| PyText.TrailingStart | docstring_generator.py:161 | everything from the index returned on is whitespace, and the character before it is not (what `rstrip` removes) |
| PyText.StripEmptyIff | docstring_generator.py:26 | `line.strip()` is empty exactly when the line has no non-whitespace character |
| PyText.StripEnds | docstring_generator.py:161 | a stripped string is empty or neither starts nor ends with whitespace |
| PyText.StripPadded | docstring_generator.py:161 | stripping removes whitespace added on both sides of a string that has no outer whitespace |
| PyText.Split | docstring_generator.py:155 | `split('\n')` yields at least one part, and no part holds the separator |
| PyText.JoinSplit | docstring_generator.py:170 | joining the split lines gives back the original text |
| PyText.SplitJoin | docstring_generator.py:160 | splitting joined parts that hold no separator gives back the parts |
| Indentation.Spaces | docstring_generator.py:27 | `" " * n` has length n and only spaces |
| Indentation.GetIndent | docstring_generator.py:24-27 | the indent is made only of spaces |
| Indentation.GetIndentOfFirstNonBlank | docstring_generator.py:24-27 | the indent's length is the leading-whitespace count of the first line with a non-whitespace character |
| Indentation.GetIndentAllBlank | docstring_generator.py:26 | with no non-blank line the indent is `""` |
| Indentation.GetIndentAppend | docstring_generator.py:26 | the indent of `a + b` comes from `a` when `a` has a non-blank line, else from `b` |
| Indentation.IndentOfIndentedLine | docstring_generator.py:163 | a buffer headed by indent + a non-whitespace character has exactly that indent |
| Docstrings.Find | docstring_generator.py:51 | the index returned is the first occurrence at or after `from`; no result means no occurrence |
| Docstrings.ExtractDocstringSpec | docstring_generator.py:51 | extraction succeeds iff the reply has two non-overlapping delimiters, and then returns the group of the leftmost non-greedy match |
| Docstrings.BlockHasNoDelim | docstring_generator.py:51 | the extracted text never contains `"""` |
| Docstrings.FirstBlockUnique | docstring_generator.py:51 | the leftmost match is unique in position and text |
| Docstrings.ExtractWrapped | docstring_generator.py:51 | after a quote-free preamble, a text wrapped in delimiters is extracted unchanged, whatever follows, exactly when no delimiter starts inside it (not even one running into the closing delimiter) |
| PyAst.TopLevelFunctionsSpec | docstring_generator.py:13-17 | keeps exactly the `FunctionDef`s whose name does not start with `_` |
| PyAst.TopLevelFunctionsAppend | docstring_generator.py:13-17 | selection keeps source order: it distributes over concatenation |
| PyAst.TopLevelClassesSpec | docstring_generator.py:20-21 | keeps exactly the `ClassDef`s, whatever their name |
| PyAst.TopLevelClassesAppend | docstring_generator.py:20-21 | class selection keeps source order |
| PyAst.WithDocSlot | docstring_generator.py:92-98 | after the insertion the body starts with an `Expr`; it is the placeholder prepended when there was none, else the node is unchanged |
| PyAst.ClassMethodsAreAllPublicFunctions | docstring_generator.py:131-132 | `class_def.body[1:]` after the insertion yields exactly the public `FunctionDef`s of the original body, so `__init__` and other `_` names are skipped and no method is lost |
| Planner.ChangeFor | docstring_generator.py:102-106 | with no docstring the change is the zero-width `(lineno, lineno)` just after the header; otherwise it spans `body[0]`, `(body[0].lineno - 1, body[0].end_lineno)` |
| Planner.DefTargets | docstring_generator.py:87-101 | one service call per selected definition, in order: call k carries definition k's name, the given package and the node, and its first statement is readable |
| Planner.PlanForPlanned | docstring_generator.py:87-149 | planning succeeds iff every reply has a block; then there is one change per call, in call order, each built from its own reply |
| Planner.PlanForAborted | docstring_generator.py:101 | an aborted plan names the first definition whose reply had no block |
| Planner.PlanForAppend | docstring_generator.py:87-149 | planning a concatenation of calls plans the first part and, unless it aborted, the second |
| Planner.PlanFunctions | docstring_generator.py:87-106 | the loop over top-level functions computes the plan of their calls |
| Planner.PlanMethods | docstring_generator.py:131-149 | the loop over a class body computes the plan of its public methods, with the class name as package |
| Planner.PlanClass | docstring_generator.py:109-149 | one class's turn plans the class itself, then its methods |
| Planner.PlanClasses | docstring_generator.py:109-149 | the loop over the top-level classes computes the plan of every class's own calls, class by class, stopping at the first abort |
| Planner.PlanChanges | docstring_generator.py:87-149 | the planning loops compute the plan of all the file's calls: functions first, then each class followed by its methods |
| Planner.ClassStep | docstring_generator.py:109-149 | a class's plan extends the plan so far, or its abort ends the file's plan |
| Sorting.SortDesc | docstring_generator.py:152 | the sorted list is a permutation of the changes with non-increasing starts |
| Sorting.Insert | docstring_generator.py:152 | inserting a change adds exactly that change to the list |
| Sorting.InsertAt | docstring_generator.py:152 | the change goes in front of the first change whose start is not larger, so it follows every change with a larger start and precedes equal ones |
| Sorting.InsertChange | docstring_generator.py:152 | the scan for the insertion point and the insertion compute `Insert` |
| Sorting.SortChanges | docstring_generator.py:152 | the sort leaves the changes in the unique stable descending order `SortDesc` |
| Sorting.SortDescSameMembers | docstring_generator.py:152 | no change is lost or added by the sort |
| Sorting.SortDescStable | docstring_generator.py:152 | changes with equal start keep their relative order |
| Sorting.NonIncreasingUnique | docstring_generator.py:152 | two non-increasing lists with the same runs of equal starts are equal |
| Sorting.SortDescIsTheStableSort | docstring_generator.py:152 | any non-increasing, order-preserving arrangement of the changes is `SortDesc`'s |
| Splicing.DocLine | docstring_generator.py:160-161 | splitting the text on newlines, rejoining and stripping gives the stripped text |
| Splicing.ApplyFrame | docstring_generator.py:159-166 | one splice keeps `lines[:s]` and `lines[e:]`, puts the three-line block at `s` with the indent of `lines[e:]`, and has length `len - (e - s) + 3` |
| Splicing.ApplyAllSnoc | docstring_generator.py:158-166 | one more loop pass applies one more change to the buffer |
| Splicing.ApplyAllDescending | docstring_generator.py:158-166 | applied in descending, non-clashing order, the changes produce `Render`: original lines outside every range in order, each range replaced by its own block once |
| Splicing.RenderLength | docstring_generator.py:162-166 | the document loses each change's range and gains three lines per change |
| Splicing.SpliceAll | docstring_generator.py:158-166 | the loop computes the fold of the changes, and `Render` when they come in descending non-clashing order |
| Splicing.SortedIsDesc | docstring_generator.py:152 | sorting non-clashing changes by start, largest first, gives an order in which the loop never disturbs a range it has not reached |
| Splicing.FileOrderWouldMisplace | docstring_generator.py:152 | applied in file order, two adjacent changes do not give the intended document |
| Splicing.BlockRoundTrip | docstring_generator.py:163-165 | extracting from a spliced block of any delimiter-free text finds it, and its text strips to the text spliced in |
| Splicing.ExtractedRoundTrip | docstring_generator.py:51 | every docstring the extraction yields, spliced in as a block and extracted again, comes back equal up to stripping |
| Splicing.IndentThroughBlankGap | docstring_generator.py:159 | a block followed only by blank lines before the next change takes that change's block indent, read off the already rewritten buffer |
| Splicing.GapIndent | docstring_generator.py:159 | after blank lines, an inserted block's opening delimiter line fixes the indent |
| Generator.IsPackageInitSpec | docstring_generator.py:69 | a path is skipped exactly when it contains `__init__.py` |
| Generator.FilePlanIsPlanFor | docstring_generator.py:87-149 | a file's plan is the plan of its calls in visiting order |
| Generator.ProcessFile | docstring_generator.py:69-170 | one file's body computes that file's outcome: skipped, parse failure, crash, or the rewritten text |
| Generator.NoChangesKeepSource | docstring_generator.py:155-170 | with no changes the written text equals the source |
| Generator.NoTargetsKeepSource | docstring_generator.py:87-170 | a file with nothing to document is written back unchanged |
| Generator.CrashedIffMissingBlock | docstring_generator.py:87-149 | a parsed file crashes iff some reply has no block, naming the first such definition |
| Generator.RewrittenLayout | docstring_generator.py:151-170 | for non-clashing changes the written text is the join of `Render` over the file-order changes |
| Generator.WriteOf | docstring_generator.py:169-170 | a file is written, once, exactly when its outcome is a rewrite, with its own path and rewritten text |
| Generator.WrittenAreRewrites | docstring_generator.py:68-170 | every write of a run belongs to a file of the run whose outcome is that rewritten text; skipped, unparsable and crashed files are never written |
| Generator.RunOfCompleted | docstring_generator.py:68-170 | a run finishes without a crash iff no file crashes, and then it writes every rewritten file in order |
| Generator.RunOfCrashed | docstring_generator.py:68-170 | a crashed run stops at the first crashing file, names its definition, and has written exactly what the files before it write |
| Generator.ProcessFiles | docstring_generator.py:68-170 | the loop over the files computes the run `RunOf` describes |
| Generator.ProcessFilesMeaning | docstring_generator.py:68-170 | a run writes every rewritten file in order when nothing crashes; a crash stops it, and nothing from the crashing file on is written |

## Left out

- `llm.py` is not part of this model. The network client is the parameter `llm`.
- The service is a fixed function of `(source, name, package)`, so two calls with equal arguments (a property getter and setter of one name in one class, say) get the same reply. The real client samples at a non-zero temperature and may answer them differently.
- The prompt text at lines 39-50 is folded into the parameter `llm`.
- `ast.parse` is a foreign parser. Its result is an input, and a `SyntaxError` is the `ParseFailed` outcome.
- Only the node kinds the code tells apart are modelled. Every other statement is `Other`.
- The location of a node inside a class is taken from the input tree as it is. Nested definitions are never visited, as in the code.
- Directory globbing, argument parsing and the progress `print`s are I/O. The files are the input sequence of `ProcessFiles`.
- File reading and writing are I/O. A write is a `(path, text)` entry in the run's log, and a crash mid-write is not modelled.
- Text-mode newline translation on read is not modelled. The source is the text as read.
- `format_docstring` (lines 30-35) is never called from the pipeline.
- The regular expression engine is not modelled. The one pattern at line 51 is written out as a delimiter search.
- PyAst.WithDocSlot: the in-place `body.insert(0, ds)` on the tree is modelled as a new node value. The tree is not mutated, so a second visit of the same node is not modelled; the code never makes one.
- Sorting.SortChanges: the in-place `list.sort` is modelled as an insertion sort on a sequence whose result is assigned back to the variable. Python's own algorithm is not modelled; the result is proved to be the unique stable descending order, so any stable sort gives the same list.
- Generator.RewrittenLayout: that a real file's changes do not overlap and have distinct starts is a hypothesis, not derived from the tree's layout.
