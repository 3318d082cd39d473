/** Pulling the generated docstring out of the service's reply: the first
    match of the non-greedy pattern `"""(.*?)"""` (dot matching newlines),
    written out as a search for the delimiter rather than a regex engine. */
module Docstrings {

  datatype Option<T> = None | Some(value: T)

  /** What `update_with_llm` yields: the text of the first block, or the
      `IndexError` that `findall(...)[0]` raises when there is no block. */
  datatype Extraction = Found(text: string) | NoBlock

  /** The docstring delimiter, three double quotes. */
  const Delim: string := ['"', '"', '"']

  /** `p` occurs in `s` starting at index `i`. */
  predicate OccursAt(s: string, i: nat, p: string) {
    i + |p| <= |s| && s[i..i + |p|] == p
  }

  /** `s.find(p, from)`: the first occurrence of `p` at or after `from`. */
  function Find(s: string, p: string, from: nat): (r: Option<nat>)
    ensures r.Some? ==> from <= r.value && OccursAt(s, r.value, p)
    ensures r.Some? ==> forall k :: from <= k < r.value ==> !OccursAt(s, k, p)
    ensures r.None? ==> forall k :: from <= k ==> !OccursAt(s, k, p)
    decreases |s| - from
  {
    if from + |p| > |s| then None
    else if s[from..from + |p|] == p then Some(from)
    else Find(s, p, from + 1)
  }

  /** The reply holds two delimiters that do not overlap. */
  ghost predicate HasBlock(reply: string) {
    exists p: nat, q: nat :: p + |Delim| <= q && OccursAt(reply, p, Delim) && OccursAt(reply, q, Delim)
  }

  /** `reply[i..]` begins with `"""` + `v` + `"""`, where the opening delimiter
      is the first in the reply and the closing one the first after it: the
      leftmost match of the non-greedy pattern, with `v` its group. */
  ghost predicate FirstBlockAt(reply: string, i: nat, v: string) {
    && OccursAt(reply, i, Delim + v + Delim)
    && (forall k :: 0 <= k < i ==> !OccursAt(reply, k, Delim))
    && (forall k :: i + |Delim| <= k < i + |Delim| + |v| ==> !OccursAt(reply, k, Delim))
  }

  /** `re.compile(r'"""(.*?)"""', re.DOTALL).findall(reply)[0]` */
  function ExtractDocstring(reply: string): Extraction {
    match Find(reply, Delim, 0)
    case None => NoBlock
    case Some(i) =>
      match Find(reply, Delim, i + |Delim|)
      case None => NoBlock
      case Some(j) => Found(reply[i + |Delim|..j])
  }

  lemma SliceSplit<T>(s: seq<T>, a: nat, b: nat, c: nat)
    requires a <= b <= c <= |s|
    ensures s[a..c] == s[a..b] + s[b..c]
  {
  }

  /** Two delimiters, the second the first one after the opening one, frame
      the text between them. */
  lemma FramedBy(reply: string, i: nat, j: nat)
    requires i + |Delim| <= j && OccursAt(reply, i, Delim) && OccursAt(reply, j, Delim)
    ensures OccursAt(reply, i, Delim + reply[i + |Delim|..j] + Delim)
  {
    var v := reply[i + |Delim|..j];
    SliceSplit(reply, i, i + |Delim|, j + |Delim|);
    SliceSplit(reply, i + |Delim|, j, j + |Delim|);
    assert reply[i..j + |Delim|] == Delim + v + Delim;
  }

  /** A found block is a leftmost match, so the reply has a block. */
  lemma FoundIsFirstBlock(reply: string)
    requires ExtractDocstring(reply).Found?
    ensures HasBlock(reply)
    ensures exists i: nat :: FirstBlockAt(reply, i, ExtractDocstring(reply).text)
  {
    var i := Find(reply, Delim, 0).value;
    var j := Find(reply, Delim, i + |Delim|).value;
    var v := reply[i + |Delim|..j];
    assert ExtractDocstring(reply).text == v;
    FramedBy(reply, i, j);
    assert FirstBlockAt(reply, i, v);
  }

  /** A reply with two non-overlapping delimiters yields a block. */
  lemma BlockIsFound(reply: string)
    requires HasBlock(reply)
    ensures ExtractDocstring(reply).Found?
  {
    var p: nat, q: nat :| p + |Delim| <= q && OccursAt(reply, p, Delim) && OccursAt(reply, q, Delim);
    assert Find(reply, Delim, 0).Some?;
    var i := Find(reply, Delim, 0).value;
    assert i <= p;
    assert Find(reply, Delim, i + |Delim|).Some?;
  }

  /** The delimiter search is the regular expression's first match: it
      succeeds exactly when the reply holds a block, and returns the group of
      the leftmost one. */
  lemma ExtractDocstringSpec(reply: string)
    ensures ExtractDocstring(reply).Found? <==> HasBlock(reply)
    ensures ExtractDocstring(reply).Found? ==> exists i: nat :: FirstBlockAt(reply, i, ExtractDocstring(reply).text)
  {
    if ExtractDocstring(reply).Found? {
      FoundIsFirstBlock(reply);
    }
    if HasBlock(reply) {
      BlockIsFound(reply);
    }
  }

  /** The extracted text never contains the delimiter itself. */
  lemma BlockHasNoDelim(reply: string, i: nat, v: string)
    requires FirstBlockAt(reply, i, v)
    ensures forall k: nat :: !OccursAt(v, k, Delim)
  {
    forall k: nat | OccursAt(v, k, Delim) ensures OccursAt(reply, i + |Delim| + k, Delim) {
      InnerOccurrence(reply, i, v, k);
    }
  }

  /** A delimiter inside the text of a framed block is a delimiter of the reply. */
  lemma InnerOccurrence(reply: string, i: nat, v: string, k: nat)
    requires OccursAt(reply, i, Delim + v + Delim) && OccursAt(v, k, Delim)
    ensures OccursAt(reply, i + |Delim| + k, Delim)
  {
    var whole := Delim + v + Delim;
    var at := i + |Delim| + k;
    forall m | 0 <= m < |Delim| ensures reply[at + m] == Delim[m] {
      assert reply[i..i + |whole|][|Delim| + k + m] == reply[at + m];
      assert whole[|Delim| + k + m] == v[k + m];
      assert v[k..k + |Delim|][m] == v[k + m];
    }
    assert reply[at..at + |Delim|] == Delim;
  }

  /** The first block of a reply is unique: `FirstBlockAt` pins down both the
      position and the text that `ExtractDocstring` returns. */
  lemma FirstBlockUnique(reply: string, i: nat, v: string, i': nat, v': string)
    requires FirstBlockAt(reply, i, v) && FirstBlockAt(reply, i', v')
    ensures i == i' && v == v'
  {
    assert reply[i..i + |Delim|] == (Delim + v + Delim)[..|Delim|];
    assert reply[i'..i' + |Delim|] == (Delim + v' + Delim)[..|Delim|];
    assert OccursAt(reply, i, Delim) && OccursAt(reply, i', Delim);
    assert i == i';
    var c := i + |Delim| + |v|;
    var c' := i + |Delim| + |v'|;
    assert reply[c..c + |Delim|] == (Delim + v + Delim)[|Delim| + |v|..];
    assert reply[c'..c' + |Delim|] == (Delim + v' + Delim)[|Delim| + |v'|..];
    assert OccursAt(reply, c, Delim) && OccursAt(reply, c', Delim);
    assert |v| == |v'|;
    assert v == (Delim + v + Delim)[|Delim|..|Delim| + |v|];
    assert v' == (Delim + v' + Delim)[|Delim|..|Delim| + |v'|];
  }

  /** `Find` returns the first occurrence at or after `from`. */
  lemma FindIs(s: string, p: string, from: nat, i: nat)
    requires from <= i && OccursAt(s, i, p)
    requires forall k :: from <= k < i ==> !OccursAt(s, k, p)
    ensures Find(s, p, from) == Some(i)
  {
  }

  /** No delimiter starts inside `v`, not even one that runs on into a
      closing delimiter placed right after it. */
  ghost predicate ClosesCleanly(v: string) {
    forall k :: 0 <= k < |v| ==> !OccursAt(v + Delim, k, Delim)
  }

  /** Wrapping a text in delimiters, after a preamble without double quotes,
      is undone by the extraction, whatever follows, exactly when no
      delimiter starts inside the text. */
  lemma ExtractWrapped(pre: string, v: string, post: string)
    requires '"' !in pre
    ensures ExtractDocstring(pre + Delim + v + Delim + post) == Found(v) <==> ClosesCleanly(v)
  {
    if ClosesCleanly(v) {
      WrappedClean(pre, v, post);
    } else {
      var k :| 0 <= k < |v| && OccursAt(v + Delim, k, Delim);
      WrappedCut(pre, v, post, k);
    }
  }

  lemma WrappedClean(pre: string, v: string, post: string)
    requires '"' !in pre && ClosesCleanly(v)
    ensures ExtractDocstring(pre + Delim + v + Delim + post) == Found(v)
  {
    var s := pre + Delim + v + Delim + post;
    var i := |pre|;
    var j := |pre| + |Delim| + |v|;
    WrappedOpens(pre, v, post);
    WrappedInside(pre, v, post);
    assert s[j..j + |Delim|] == Delim;
    forall k | i + |Delim| <= k < j ensures !OccursAt(s, k, Delim) {
      assert !OccursAt(v + Delim, k - i - |Delim|, Delim);
    }
    FindIs(s, Delim, i + |Delim|, j);
    assert s[i + |Delim|..j] == v;
  }

  /** A delimiter starting inside the text closes the match early. */
  lemma WrappedCut(pre: string, v: string, post: string, k: nat)
    requires '"' !in pre && k < |v| && OccursAt(v + Delim, k, Delim)
    ensures ExtractDocstring(pre + Delim + v + Delim + post) != Found(v)
  {
    var s := pre + Delim + v + Delim + post;
    var i := |pre|;
    WrappedOpens(pre, v, post);
    WrappedInside(pre, v, post);
    assert OccursAt(s, i + |Delim| + k, Delim);
    var r := Find(s, Delim, i + |Delim|);
    assert r.Some? && r.value <= i + |Delim| + k;
  }

  /** The opening delimiter after a quote-free preamble is the first one. */
  lemma WrappedOpens(pre: string, v: string, post: string)
    requires '"' !in pre
    ensures Find(pre + Delim + v + Delim + post, Delim, 0) == Some(|pre|)
  {
    var s := pre + Delim + v + Delim + post;
    var i := |pre|;
    assert s[i..i + |Delim|] == Delim;
    forall k | 0 <= k < i ensures !OccursAt(s, k, Delim) {
      assert s[k] == pre[k] != Delim[0];
      assert k + |Delim| <= |s| ==> s[k..k + |Delim|][0] == s[k];
    }
    FindIs(s, Delim, 0, i);
  }

  /** Inside the wrapped text, the delimiters of the whole are those of the
      text followed by the closing delimiter. */
  lemma WrappedInside(pre: string, v: string, post: string)
    ensures var s := pre + Delim + v + Delim + post;
      forall k :: 0 <= k < |v| ==>
        (OccursAt(s, |pre| + |Delim| + k, Delim) <==> OccursAt(v + Delim, k, Delim))
  {
    var s := pre + Delim + v + Delim + post;
    var i := |pre|;
    var j := |pre| + |Delim| + |v|;
    assert s[i + |Delim|..j + |Delim|] == v + Delim;
    forall k | 0 <= k < |v| ensures OccursAt(s, i + |Delim| + k, Delim) <==> OccursAt(v + Delim, k, Delim) {
      SliceSplit(s, i + |Delim|, i + |Delim| + k, j + |Delim|);
      assert s[i + |Delim| + k..j + |Delim|] == (v + Delim)[k..];
    }
  }
}
