/** `get_indent`: the indentation the splice uses for an inserted block. */
module Indentation {
  import opened PyText

  /** A string of `n` spaces, Python's `" " * n`. */
  function Spaces(n: nat): (r: string)
    ensures |r| == n && forall k :: 0 <= k < n ==> r[k] == ' '
  {
    seq(n, _ => ' ')
  }

  predicate AllSpaces(s: string) {
    forall k :: 0 <= k < |s| ==> s[k] == ' '
  }

  /** `next((line for line in lines if line.strip()), "")` */
  function FirstNonBlank(lines: seq<string>): string {
    if lines == [] then ""
    else if Strip(lines[0]) != [] then lines[0]
    else FirstNonBlank(lines[1..])
  }

  /** `get_indent`: as many spaces as the first non-blank line has leading
      whitespace characters (so a tab counts as one space). */
  function GetIndent(lines: seq<string>): (indent: string)
    ensures AllSpaces(indent)
  {
    var first := FirstNonBlank(lines);
    Spaces(|first| - |LStrip(first)|)
  }

  /** The indent is the leading-whitespace count of the first line holding a
      non-whitespace character. */
  lemma {:induction false} GetIndentOfFirstNonBlank(lines: seq<string>, i: nat)
    requires i < |lines| && HasNonSpace(lines[i])
    requires forall j :: 0 <= j < i ==> !HasNonSpace(lines[j])
    ensures IsLeadingSpaceCount(lines[i], |GetIndent(lines)|)
  {
    FirstNonBlankIs(lines, i);
  }

  lemma {:induction false} FirstNonBlankIs(lines: seq<string>, i: nat)
    requires i < |lines| && HasNonSpace(lines[i])
    requires forall j :: 0 <= j < i ==> !HasNonSpace(lines[j])
    ensures FirstNonBlank(lines) == lines[i]
  {
    StripEmptyIff(lines[0]);
    if i > 0 {
      FirstNonBlankIs(lines[1..], i - 1);
    }
  }

  /** With no non-blank line the indent is empty. */
  lemma {:induction false} GetIndentAllBlank(lines: seq<string>)
    requires forall j :: 0 <= j < |lines| ==> !HasNonSpace(lines[j])
    ensures GetIndent(lines) == ""
  {
    FirstNonBlankAllBlank(lines);
  }

  lemma {:induction false} FirstNonBlankAllBlank(lines: seq<string>)
    requires forall j :: 0 <= j < |lines| ==> !HasNonSpace(lines[j])
    ensures FirstNonBlank(lines) == ""
  {
    if lines != [] {
      StripEmptyIff(lines[0]);
      FirstNonBlankAllBlank(lines[1..]);
    }
  }

  /** The indent of `a + b` comes from `a` if `a` has a non-blank line, else from `b`. */
  lemma {:induction false} GetIndentAppend(a: seq<string>, b: seq<string>)
    ensures (exists j :: 0 <= j < |a| && HasNonSpace(a[j])) ==> GetIndent(a + b) == GetIndent(a)
    ensures (forall j :: 0 <= j < |a| ==> !HasNonSpace(a[j])) ==> GetIndent(a + b) == GetIndent(b)
  {
    FirstNonBlankAppend(a, b);
  }

  lemma {:induction false} FirstNonBlankAppend(a: seq<string>, b: seq<string>)
    ensures (exists j :: 0 <= j < |a| && HasNonSpace(a[j])) ==> FirstNonBlank(a + b) == FirstNonBlank(a)
    ensures (forall j :: 0 <= j < |a| ==> !HasNonSpace(a[j])) ==> FirstNonBlank(a + b) == FirstNonBlank(b)
  {
    if a == [] {
      assert a + b == b;
    } else {
      StripEmptyIff(a[0]);
      assert (a + b)[0] == a[0];
      assert (a + b)[1..] == a[1..] + b;
      FirstNonBlankAppend(a[1..], b);
      if exists j :: 0 <= j < |a| && HasNonSpace(a[j]) {
        var j :| 0 <= j < |a| && HasNonSpace(a[j]);
        if j > 0 && !HasNonSpace(a[0]) {
          assert HasNonSpace(a[1..][j - 1]);
        }
      }
      if forall j :: 0 <= j < |a| ==> !HasNonSpace(a[j]) {
        assert forall j :: 0 <= j < |a[1..]| ==> !HasNonSpace(a[1..][j]) by {
          forall j | 0 <= j < |a[1..]| ensures !HasNonSpace(a[1..][j]) {
            assert a[1..][j] == a[j + 1];
          }
        }
      }
    }
  }

  /** A line made of an indent followed by a non-whitespace character fixes the
      indent of everything it heads: the splice relies on this when it reads
      the indent off a block it inserted earlier. */
  lemma IndentOfIndentedLine(ind: string, t: string, rest: seq<string>)
    requires AllSpaces(ind)
    requires t != [] && !IsSpace(t[0])
    ensures GetIndent([ind + t] + rest) == ind
  {
    var line := ind + t;
    assert line[|ind|] == t[0];
    assert HasNonSpace(line);
    StripEmptyIff(line);
    assert FirstNonBlank([line] + rest) == line;
    assert IsLeadingSpaceCount(line, |ind|);
    LeadingSpaceCountUnique(line, |ind|, |line| - |LStrip(line)|);
  }

  lemma LeadingSpaceCountUnique(s: string, m: nat, n: nat)
    requires IsLeadingSpaceCount(s, m) && IsLeadingSpaceCount(s, n)
    ensures m == n
  {
  }
}
