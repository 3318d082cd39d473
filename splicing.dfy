/** The splice loop (lines 154-170): the sorted changes rewrite a buffer of
    lines one after the other, each reading its indent off the buffer as it
    stands at that moment. */
module Splicing {
  import opened PyText
  import opened Indentation
  import opened Docstrings
  import opened Planner
  import opened Sorting

  /** `lines[:n]`: Python clamps the bound to the length. */
  function PyTake(lines: seq<string>, n: nat): seq<string> {
    if n <= |lines| then lines[..n] else lines
  }

  /** `lines[n:]`: Python clamps the bound to the length. */
  function PyDrop(lines: seq<string>, n: nat): seq<string> {
    if n <= |lines| then lines[n..] else []
  }

  /** `'\n'.join([f'{line}' for line in text.split('\n')]).strip()`: the
      split and rejoin change nothing, so the line is the stripped text. */
  function DocLine(text: string): (r: string)
    ensures r == Strip(text)
  {
    JoinSplit(text, '\n');
    Strip(Join(Split(text, '\n'), '\n'))
  }

  /** The three buffer elements that replace a change's range. The middle
      one holds the whole stripped text, embedded newlines included. */
  function Block(indent: string, text: string): (b: seq<string>)
    ensures |b| == 3 && b[0] == b[2] == indent + Delim
  {
    [indent + Delim, indent + DocLine(text), indent + Delim]
  }

  /** One pass of the splice loop on the buffer `lines`. */
  function Apply(lines: seq<string>, c: Change): seq<string> {
    PyTake(lines, c.start) + Block(GetIndent(PyDrop(lines, c.end)), c.text) + PyDrop(lines, c.end)
  }

  /** A change inside the buffer keeps the lines before its start and from its
      end on, and puts the three block lines in between, indented like the
      first non-blank line after the range. */
  lemma ApplyFrame(lines: seq<string>, c: Change)
    requires c.start <= c.end <= |lines|
    ensures |Apply(lines, c)| == |lines| - (c.end - c.start) + 3
    ensures Apply(lines, c)[..c.start] == lines[..c.start]
    ensures Apply(lines, c)[c.start + 3..] == lines[c.end..]
    ensures Apply(lines, c)[c.start..c.start + 3] == Block(GetIndent(lines[c.end..]), c.text)
  {
    var ind := GetIndent(lines[c.end..]);
    assert Apply(lines, c) == lines[..c.start] + Block(ind, c.text) + lines[c.end..];
    ThreeParts(lines[..c.start], Block(ind, c.text), lines[c.end..]);
  }

  /** Where the parts of a concatenation sit. */
  lemma ThreeParts<T>(a: seq<T>, b: seq<T>, c: seq<T>)
    ensures |a + b + c| == |a| + |b| + |c|
    ensures (a + b + c)[..|a|] == a
    ensures (a + b + c)[|a| + |b|..] == c
    ensures forall i :: 0 <= i < |b| ==> (a + b + c)[|a| + i] == b[i]
    ensures forall i :: 0 <= i <= |a| ==> (a + b + c)[i..] == a[i..] + b + c
    ensures (a + b + c)[|a|..|a| + |b|] == b
  {
  }

  lemma Regroup<T>(a: seq<T>, x: T, y: T, z: T, b: seq<T>)
    ensures a + [x] + [y] + [z] + b == a + [x, y, z] + b
  {
    assert [x] + [y] + [z] == [x, y, z];
  }

  /** Two sequences that agree up to `n` agree on every slice below `n`. */
  lemma SamePrefix<T>(x: seq<T>, y: seq<T>, n: nat, i: nat, j: nat)
    requires n <= |x| && n <= |y| && x[..n] == y[..n] && i <= j <= n
    ensures x[i..j] == y[i..j]
  {
    forall k | 0 <= k < j - i ensures x[i..j][k] == y[i..j][k] {
      assert x[i + k] == x[..n][i + k] == y[..n][i + k] == y[i + k];
    }
  }

  /** The whole loop `for change in changes`, as a fold over the list. */
  function ApplyAll(lines: seq<string>, cs: seq<Change>): seq<string>
    decreases |cs|
  {
    if cs == [] then lines else ApplyAll(Apply(lines, cs[0]), cs[1..])
  }

  lemma {:induction false} ApplyAllSnoc(lines: seq<string>, cs: seq<Change>, c: Change)
    ensures ApplyAll(lines, cs + [c]) == Apply(ApplyAll(lines, cs), c)
    decreases |cs|
  {
    if cs == [] {
      assert [c][1..] == [];
    } else {
      assert (cs + [c])[1..] == cs[1..] + [c];
      ApplyAllSnoc(Apply(lines, cs[0]), cs[1..], c);
    }
  }

  /** Changes in the order they are applied: each lies in `[0, to)` and ends
      no later than where the one applied before it starts. */
  predicate Desc(cs: seq<Change>, to: nat) {
    cs == [] || (cs[0].start <= cs[0].end <= to && Desc(cs[1..], cs[0].start))
  }

  /** Changes in file order: each starts no earlier than `from` and ends no
      later than where the next starts, the last by `to`. */
  predicate Ascending(cs: seq<Change>, from: nat, to: nat) {
    if cs == [] then from <= to
    else from <= cs[0].start <= cs[0].end && Ascending(cs[1..], cs[0].end, to)
  }

  lemma {:induction false} AscendingBound(cs: seq<Change>, from: nat, to: nat)
    requires Ascending(cs, from, to)
    ensures from <= to
    ensures cs != [] ==> cs[0].end <= to
    decreases |cs|
  {
    if cs != [] {
      AscendingBound(cs[1..], cs[0].end, to);
    }
  }

  function Reverse(cs: seq<Change>): (r: seq<Change>)
    ensures |r| == |cs|
  {
    if cs == [] then [] else Reverse(cs[1..]) + [cs[0]]
  }

  /** The rewritten document described from the original lines: the lines
      between changes, untouched and in order, with each change's range
      replaced by its block, whose indent comes from what follows it in the
      finished document. */
  function Render(lines: seq<string>, asc: seq<Change>, from: nat): seq<string>
    requires Ascending(asc, from, |lines|)
    decreases |asc|
  {
    AscendingBound(asc, from, |lines|);
    if asc == [] then lines[from..]
    else
      var rest := Render(lines, asc[1..], asc[0].end);
      lines[from..asc[0].start] + Block(GetIndent(rest), asc[0].text) + rest
  }

  lemma {:induction false} DescWeaken(cs: seq<Change>, a: nat, b: nat)
    requires Desc(cs, a) && a <= b
    ensures Desc(cs, b)
  {
  }

  lemma {:induction false} AscendingSnoc(cs: seq<Change>, from: nat, c: Change, to: nat)
    requires Ascending(cs, from, c.start) && c.start <= c.end <= to
    ensures Ascending(cs + [c], from, to)
    decreases |cs|
  {
    if cs == [] {
      assert [c][1..] == [];
    } else {
      assert (cs + [c])[1..] == cs[1..] + [c];
      AscendingSnoc(cs[1..], cs[0].end, c, to);
    }
  }

  lemma {:induction false} AscendingWeaken(cs: seq<Change>, from: nat, a: nat, b: nat)
    requires Ascending(cs, from, a) && a <= b
    ensures Ascending(cs, from, b)
    decreases |cs|
  {
    if cs != [] {
      AscendingWeaken(cs[1..], cs[0].end, a, b);
    }
  }

  /** Read back to front, the order of application is the file order. */
  lemma {:induction false} DescReverse(cs: seq<Change>, to: nat)
    requires Desc(cs, to)
    ensures Ascending(Reverse(cs), 0, to)
    decreases |cs|
  {
    if cs != [] {
      DescReverse(cs[1..], cs[0].start);
      AscendingSnoc(Reverse(cs[1..]), 0, cs[0], to);
    }
  }

  /** Applying the last change of the file first leaves the lines in front of
      it where they were: rendering the earlier changes on the new buffer is
      rendering all of them on the old one. */
  lemma {:induction false} RenderAfterApply(lines: seq<string>, asc: seq<Change>, from: nat, c: Change)
    requires Ascending(asc, from, c.start) && c.start <= c.end <= |lines|
    ensures Ascending(asc, from, |Apply(lines, c)|)
    ensures Ascending(asc + [c], from, |lines|)
    ensures Render(Apply(lines, c), asc, from) == Render(lines, asc + [c], from)
    decreases |asc|
  {
    var after := Apply(lines, c);
    ApplyFrame(lines, c);
    AscendingWeaken(asc, from, c.start, |after|);
    AscendingSnoc(asc, from, c, |lines|);
    AscendingBound(asc, from, c.start);
    if asc == [] {
      assert [c][1..] == [];
      var ind := GetIndent(lines[c.end..]);
      assert after == lines[..c.start] + Block(ind, c.text) + lines[c.end..];
      ThreeParts(lines[..c.start], Block(ind, c.text), lines[c.end..]);
      assert lines[..c.start][from..] == lines[from..c.start];
    } else {
      var a := asc[0];
      assert (asc + [c])[1..] == asc[1..] + [c];
      RenderAfterApply(lines, asc[1..], a.end, c);
      SamePrefix(after, lines, c.start, from, a.start);
    }
  }

  /** The splice loop's correctness: applied in an order where every change
      ends before the previously applied one starts, the changes produce the
      document `Render` describes, each block in place of its own range. */
  lemma {:induction false} ApplyAllDescending(lines: seq<string>, cs: seq<Change>)
    requires Desc(cs, |lines|)
    ensures Ascending(Reverse(cs), 0, |lines|)
    ensures ApplyAll(lines, cs) == Render(lines, Reverse(cs), 0)
    decreases |cs|
  {
    DescReverse(cs, |lines|);
    if cs == [] {
    } else {
      var c := cs[0];
      var after := Apply(lines, c);
      ApplyFrame(lines, c);
      DescWeaken(cs[1..], c.start, |after|);
      ApplyAllDescending(after, cs[1..]);
      DescReverse(cs[1..], c.start);
      RenderAfterApply(lines, Reverse(cs[1..]), 0, c);
    }
  }

  /** How much the changes remove: the total width of their ranges. */
  function Removed(cs: seq<Change>): int {
    if cs == [] then 0 else cs[0].end - cs[0].start + Removed(cs[1..])
  }

  /** Each change removes its range and adds three lines. */
  lemma {:induction false} RenderLength(lines: seq<string>, asc: seq<Change>, from: nat)
    requires Ascending(asc, from, |lines|)
    ensures |Render(lines, asc, from)| == |lines| - from - Removed(asc) + 3 * |asc|
    decreases |asc|
  {
    if asc != [] {
      AscendingBound(asc, from, |lines|);
      RenderLength(lines, asc[1..], asc[0].end);
      var rest := Render(lines, asc[1..], asc[0].end);
      assert Render(lines, asc, from) == lines[from..asc[0].start] + Block(GetIndent(rest), asc[0].text) + rest;
    }
  }

  /** The loop body written out as the source spells it is one `Apply`. */
  lemma SpliceIsApply(before: seq<string>, c: Change, after: seq<string>)
    requires var indent := GetIndent(PyDrop(before, c.end));
      after == PyTake(before, c.start)
        + [indent + Delim] + [indent + Strip(Join(Split(c.text, '\n'), '\n'))] + [indent + Delim]
        + PyDrop(before, c.end)
    ensures after == Apply(before, c)
  {
    var indent := GetIndent(PyDrop(before, c.end));
    assert DocLine(c.text) == Strip(Join(Split(c.text, '\n'), '\n'));
    Regroup(PyTake(before, c.start), indent + Delim, indent + DocLine(c.text), indent + Delim, PyDrop(before, c.end));
  }

  lemma SpliceStep(lines: seq<string>, changes: seq<Change>, i: nat, before: seq<string>, after: seq<string>)
    requires i < |changes| && before == ApplyAll(lines, changes[..i]) && after == Apply(before, changes[i])
    ensures after == ApplyAll(lines, changes[..i + 1])
  {
    assert changes[..i + 1] == changes[..i] + [changes[i]];
    ApplyAllSnoc(lines, changes[..i], changes[i]);
  }

  method SpliceAll(lines: seq<string>, changes: seq<Change>) returns (buffer: seq<string>)
    ensures buffer == ApplyAll(lines, changes)
    ensures Desc(changes, |lines|) ==>
      Ascending(Reverse(changes), 0, |lines|) && buffer == Render(lines, Reverse(changes), 0)
  {
    buffer := lines;
    var i := 0;
    assert changes[..0] == [];
    while i < |changes|
      invariant 0 <= i <= |changes|
      invariant buffer == ApplyAll(lines, changes[..i])
    {
      var change := changes[i];
      var indent := GetIndent(PyDrop(buffer, change.end));
      var changedLines := Split(change.text, '\n');
      var docstring := Strip(Join(changedLines, '\n'));
      ghost var before := buffer;
      buffer := PyTake(buffer, change.start)
        + [indent + Delim] + [indent + docstring] + [indent + Delim]
        + PyDrop(buffer, change.end);
      SpliceIsApply(before, change, buffer);
      SpliceStep(lines, changes, i, before, buffer);
      i := i + 1;
    }
    assert changes[..i] == changes;
    if Desc(changes, |lines|) {
      ApplyAllDescending(lines, changes);
    }
  }

  /** Changes that can be laid into a file of `n` lines without clashing:
      each inside the file, no two with the same start or the same change
      twice, and a change that starts before another ends by the other's
      start. */
  predicate Separated(cs: seq<Change>, n: nat) {
    && (forall x :: x in cs ==> x.start <= x.end <= n)
    && (forall x :: x in cs ==> multiset(cs)[x] == 1)
    && (forall x, y :: x in cs && y in cs && x.start == y.start ==> x == y)
    && (forall x, y :: x in cs && y in cs && x.start < y.start ==> x.end <= y.start)
  }

  /** A change that occurs once is not repeated after the head. */
  lemma HeadOnce(r: seq<Change>)
    requires r != [] && multiset(r)[r[0]] == 1
    ensures r[0] !in r[1..]
  {
    assert r == [r[0]] + r[1..];
    assert multiset(r) == multiset{r[0]} + multiset(r[1..]);
    assert multiset(r[1..])[r[0]] == 0;
  }

  /** In a sorted separated list every later change starts strictly lower. */
  lemma SeparatedHeadStrict(r: seq<Change>, n: nat)
    requires r != [] && NonIncreasing(r) && Separated(r, n)
    ensures forall x :: x in r[1..] ==> x.start < r[0].start
  {
    var t := r[1..];
    assert r[0] in r;
    HeadOnce(r);
    forall x | x in t ensures x.start < r[0].start {
      var j :| 0 <= j < |t| && t[j] == x;
      assert r[j + 1] == x && x in r;
    }
  }

  lemma TailInside(r: seq<Change>, n: nat)
    requires r != [] && NonIncreasing(r) && Separated(r, n)
    ensures forall x :: x in r[1..] ==> x.start <= x.end <= r[0].start
  {
    SeparatedHeadStrict(r, n);
    forall x | x in r[1..] ensures x.start <= x.end <= r[0].start {
      assert x in r && r[0] in r;
    }
  }

  lemma TailOnce(r: seq<Change>, n: nat)
    requires r != [] && Separated(r, n)
    ensures forall x :: x in r[1..] ==> multiset(r[1..])[x] == 1
  {
    var t := r[1..];
    assert r == [r[0]] + t;
    assert multiset(r) == multiset{r[0]} + multiset(t);
    forall x | x in t ensures multiset(t)[x] == 1 {
      assert x in r;
      assert multiset(r)[x] == multiset{r[0]}[x] + multiset(t)[x];
    }
  }

  lemma TailPairs(r: seq<Change>, n: nat)
    requires r != [] && Separated(r, n)
    ensures forall x, y :: x in r[1..] && y in r[1..] && x.start == y.start ==> x == y
    ensures forall x, y :: x in r[1..] && y in r[1..] && x.start < y.start ==> x.end <= y.start
  {
    assert forall x :: x in r[1..] ==> x in r;
  }

  lemma SeparatedTail(r: seq<Change>, n: nat)
    requires r != [] && NonIncreasing(r) && Separated(r, n)
    ensures NonIncreasing(r[1..]) && Separated(r[1..], r[0].start)
  {
    TailInside(r, n);
    TailOnce(r, n);
    TailPairs(r, n);
    NonIncreasingTail(r);
  }

  lemma {:induction false} SeparatedSortedDesc(r: seq<Change>, n: nat)
    requires NonIncreasing(r) && Separated(r, n)
    ensures Desc(r, n)
    decreases |r|
  {
    if r != [] {
      SeparatedTail(r, n);
      SeparatedSortedDesc(r[1..], r[0].start);
    }
  }

  /** Sorting separated changes by start, largest first, yields an order in
      which the splice loop never disturbs a range it has yet to reach. */
  lemma SortedIsDesc(cs: seq<Change>, n: nat)
    requires Separated(cs, n)
    ensures Desc(SortDesc(cs), n)
  {
    var r := SortDesc(cs);
    SortDescSameMembers(cs);
    assert Separated(r, n);
    SeparatedSortedDesc(r, n);
  }

  /** Why the changes are sorted first: applied in file order, the second
      of two adjacent changes lands on the block the first one inserted. */
  lemma FileOrderWouldMisplace()
    ensures var lines := ["a", "b"];
      var cs := [Change(0, 1, "x"), Change(1, 2, "y")];
      && Ascending(cs, 0, |lines|)
      && ApplyAll(lines, cs) != Render(lines, cs, 0)
  {
    var lines := ["a", "b"];
    var c1 := Change(0, 1, "x");
    var c2 := Change(1, 2, "y");
    assert [c1, c2][1..] == [c2];
    InOrderApplied(lines, c1, c2);
    InOrderRendered(lines, c1, c2);
    var ind := GetIndent(Render(lines, [c2], 1));
    var ind2 := GetIndent(PyDrop(Apply(lines, c1), 2));
    ExtendedAllSpaces(ind, ind2);
  }

  /** The file-order fold: the second change lands on the first one's
      closing delimiter line. */
  lemma InOrderApplied(lines: seq<string>, c1: Change, c2: Change)
    requires lines == ["a", "b"] && c1 == Change(0, 1, "x") && c2 == Change(1, 2, "y")
    ensures |ApplyAll(lines, [c1, c2])| > 1
    ensures ApplyAll(lines, [c1, c2])[1] == GetIndent(PyDrop(Apply(lines, c1), 2)) + Delim
  {
    var once := Apply(lines, c1);
    var twice := Apply(once, c2);
    assert |once| == 4 by {
      assert |PyTake(lines, 0)| == 0 && |PyDrop(lines, 1)| == 1;
    }
    assert twice[1] == GetIndent(PyDrop(once, 2)) + Delim by {
      assert |PyTake(once, 1)| == 1;
    }
    assert [c1, c2][1..] == [c2] && [c2][1..] == [];
    assert ApplyAll(lines, [c1, c2]) == ApplyAll(once, [c2]);
    assert ApplyAll(once, [c2]) == ApplyAll(twice, []);
  }

  /** The intended document: the first change's middle line is second. */
  lemma InOrderRendered(lines: seq<string>, c1: Change, c2: Change)
    requires lines == ["a", "b"] && c1 == Change(0, 1, "x") && c2 == Change(1, 2, "y")
    ensures Ascending([c1, c2], 0, |lines|)
    ensures |Render(lines, [c1, c2], 0)| > 1
    ensures Render(lines, [c1, c2], 0)[1] == GetIndent(Render(lines, [c2], 1)) + "x"
  {
    assert [c1, c2][1..] == [c2] && [c2][1..] == [];
    var ind := GetIndent(Render(lines, [c2], 1));
    assert Render(lines, [c1, c2], 0)[1] == ind + DocLine("x");
    assert DocLine("x") == "x" by {
      assert LeadingSpaces("x") == 0;
      assert TrailingStart("x") == 1;
    }
  }

  lemma ExtendedAllSpaces(a: string, b: string)
    requires AllSpaces(a) && AllSpaces(b)
    ensures a + "x" != b + Delim
  {
    if |a| <= |b| {
      assert (a + "x")[|a|] == 'x';
      assert (b + Delim)[|a|] != 'x';
    } else {
      assert (a + "x")[|b|] == ' ';
      assert (b + Delim)[|b|] == '"';
    }
  }

  /** Stripping never introduces a delimiter. */
  lemma StripKeepsNoDelim(text: string)
    requires forall k: nat :: !OccursAt(text, k, Delim)
    ensures forall k: nat :: !OccursAt(Strip(text), k, Delim)
  {
    var n := LeadingSpaces(text);
    var t := TrailingStart(LStrip(text));
    assert Strip(text) == text[n..][..t] == text[n..n + t];
    InfixKeepsNoDelim(text, n, n + t);
  }

  /** A slice of a text without delimiters has none either. */
  lemma InfixKeepsNoDelim(text: string, i: nat, j: nat)
    requires i <= j <= |text|
    requires forall k: nat :: !OccursAt(text, k, Delim)
    ensures forall k: nat :: !OccursAt(text[i..j], k, Delim)
  {
    var m := text[i..j];
    forall k: nat | OccursAt(m, k, Delim) ensures OccursAt(text, i + k, Delim) {
      forall p | 0 <= p < |Delim| ensures text[i + k + p] == Delim[p] {
        assert m[k..k + |Delim|][p] == m[k + p] == text[i + k + p];
      }
      assert text[i + k..i + k + |Delim|] == Delim;
    }
  }

  /** A delimiter-free text between two quote-free, non-empty runs closes
      cleanly: no delimiter starts inside the whole, not even one running on
      into a closing delimiter. */
  lemma PaddedClosesCleanly(a: string, m: string)
    requires |a| > 0 && '"' !in a
    requires forall k: nat :: !OccursAt(m, k, Delim)
    ensures ClosesCleanly(a + m + a)
  {
    var v := a + m + a;
    var w := v + Delim;
    forall k | 0 <= k < |v| ensures !OccursAt(w, k, Delim) {
      if k < |a| {
        assert w[k] == a[k] && a[k] in a;
        NoQuoteNoDelim(w, k, k);
      } else if k < |a| + |m| {
        var t := k - |a|;
        if t + |Delim| <= |m| {
          assert w[k..k + |Delim|] == m[t..t + |Delim|];
          assert !OccursAt(m, t, Delim);
        } else {
          assert w[|a| + |m|] == a[0] && a[0] in a;
          NoQuoteNoDelim(w, k, |a| + |m|);
        }
      } else {
        assert w[k] == a[k - |a| - |m|] && a[k - |a| - |m|] in a;
        NoQuoteNoDelim(w, k, k);
      }
    }
  }

  /** A character other than a double quote rules out every delimiter that
      would cover it. */
  lemma NoQuoteNoDelim(w: string, k: nat, p: nat)
    requires k <= p < k + |Delim| && p < |w| && w[p] != '"'
    ensures !OccursAt(w, k, Delim)
  {
    if k + |Delim| <= |w| {
      assert w[k..k + |Delim|][p - k] == w[p] != Delim[p - k];
    }
  }

  /** The three block lines joined: the indent, a delimiter, the middle line
      between two newline-and-indent runs, and the closing delimiter. */
  lemma JoinBlock(indent: string, text: string)
    ensures var a := "\n" + indent;
      Join(Block(indent, text), '\n') == indent + Delim + (a + Strip(text) + a) + Delim + []
  {
    var block := Block(indent, text);
    assert block[1..][1..] == [indent + Delim];
    assert Join(block[1..], '\n') == (indent + Strip(text)) + "\n" + (indent + Delim);
  }

  /** Reading a spliced block back: the extraction applied to the block's
      three lines, joined, finds the block, and its text strips to the text
      that was spliced in, provided that text holds no delimiter (which no
      extracted text does). */
  lemma BlockRoundTrip(indent: string, text: string)
    requires AllSpaces(indent)
    requires forall k: nat :: !OccursAt(text, k, Delim)
    ensures var r := ExtractDocstring(Join(Block(indent, text), '\n'));
      r.Found? && Strip(r.text) == Strip(text)
  {
    var m := Strip(text);
    var a := "\n" + indent;
    var v := a + m + a;
    StripKeepsNoDelim(text);
    assert '"' !in indent by {
      assert forall k :: 0 <= k < |indent| ==> indent[k] == ' ';
    }
    assert '"' !in a;
    PaddedClosesCleanly(a, m);
    JoinBlock(indent, text);
    ExtractWrapped(indent, v, []);
    StripEnds(text);
    assert forall k :: 0 <= k < |a| ==> IsSpace(a[k]);
    StripPadded(a, m, a);
  }

  /** Every docstring the extraction yields survives being spliced in and
      read back, up to stripping. */
  lemma ExtractedRoundTrip(reply: string, indent: string)
    requires AllSpaces(indent) && ExtractDocstring(reply).Found?
    ensures var r := ExtractDocstring(Join(Block(indent, ExtractDocstring(reply).text), '\n'));
      r.Found? && Strip(r.text) == Strip(ExtractDocstring(reply).text)
  {
    var text := ExtractDocstring(reply).text;
    FoundIsFirstBlock(reply);
    var i: nat :| FirstBlockAt(reply, i, text);
    BlockHasNoDelim(reply, i, text);
    BlockRoundTrip(indent, text);
  }

  /** A block followed only by blank lines up to the next change takes the
      indent of the block spliced there before it: the indent is read off the
      buffer as already rewritten, whose first non-blank line after the gap
      is that block's opening delimiter. */
  lemma IndentThroughBlankGap(lines: seq<string>, asc: seq<Change>, from: nat)
    requires Ascending(asc, from, |lines|) && |asc| >= 2
    requires forall k :: asc[0].end <= k < asc[1].start && k < |lines| ==> !HasNonSpace(lines[k])
    ensures Ascending(asc[1..], asc[0].end, |lines|) && Ascending(asc[2..], asc[1].end, |lines|)
    ensures GetIndent(Render(lines, asc[1..], asc[0].end)) == GetIndent(Render(lines, asc[2..], asc[1].end))
  {
    var t := asc[1..];
    AscendingBound(t, asc[0].end, |lines|);
    assert t[1..] == asc[2..];
    var later := Render(lines, asc[2..], asc[1].end);
    var gap := lines[asc[0].end..asc[1].start];
    assert Render(lines, t, asc[0].end) == gap + Block(GetIndent(later), asc[1].text) + later;
    assert forall j :: 0 <= j < |gap| ==> !HasNonSpace(gap[j]) by {
      forall j | 0 <= j < |gap| ensures !HasNonSpace(gap[j]) {
        assert gap[j] == lines[asc[0].end + j];
      }
    }
    GapIndent(gap, GetIndent(later), asc[1].text, later);
  }

  lemma GapIndent(gap: seq<string>, indent: string, text: string, later: seq<string>)
    requires AllSpaces(indent)
    requires forall j :: 0 <= j < |gap| ==> !HasNonSpace(gap[j])
    ensures GetIndent(gap + Block(indent, text) + later) == indent
  {
    var block := Block(indent, text);
    assert gap + block + later == gap + (block + later);
    GetIndentAppend(gap, block + later);
    assert block + later == [indent + Delim] + (block[1..] + later);
    IndentOfIndentedLine(indent, Delim, block[1..] + later);
  }
}
