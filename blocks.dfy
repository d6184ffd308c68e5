/** The block scanner of app.py:32,
    `re.findall(r"<IVRScripts>.*?</IVRScripts>", raw, re.DOTALL)`:
    leftmost, non-overlapping, shortest matches of an opening tag followed
    by the first closing tag after it. */
module Blocks {
  import opened Strings

  const Open: string := "<IVRScripts>"
  const Close: string := "</IVRScripts>"

  /** `pat` occurs in `s` starting at position `k`. */
  predicate OccursAt(s: string, pat: string, k: nat) {
    k + |pat| <= |s| && s[k..k + |pat|] == pat
  }

  /** The first occurrence of `pat` in `s` at or after `from`. */
  function IndexOf(s: string, pat: string, from: nat): (r: Option<nat>)
    ensures r.Some? ==> from <= r.value && OccursAt(s, pat, r.value)
    ensures r.Some? ==> forall k :: from <= k < r.value ==> !OccursAt(s, pat, k)
    ensures r.None? ==> forall k :: from <= k ==> !OccursAt(s, pat, k)
    decreases |s| - from
  {
    if from + |pat| > |s| then None
    else if OccursAt(s, pat, from) then Some(from)
    else IndexOf(s, pat, from + 1)
  }

  /** `s[start..end]` is a match of the pattern: it begins with the opening
      tag, ends with a closing tag, and holds no earlier closing tag after
      the opening one (the lazy `.*?` stops at the first). */
  predicate IsMatch(s: string, start: nat, end: nat) {
    start + |Open| + |Close| <= end <= |s|
    && OccursAt(s, Open, start)
    && OccursAt(s, Close, end - |Close|)
    && forall k :: start + |Open| <= k < end - |Close| ==> !OccursAt(s, Close, k)
  }

  /** No opening tag starts in `[lo, hi)`. */
  predicate NoOpenBetween(s: string, lo: nat, hi: nat) {
    forall q :: lo <= q < hi ==> !OccursAt(s, Open, q)
  }

  /** No match can start at or after `from`: no opening tag there has a
      closing tag after it. */
  ghost predicate NoMatchFrom(s: string, from: nat) {
    forall q, k :: from <= q && q + |Open| <= k ==> !(OccursAt(s, Open, q) && OccursAt(s, Close, k))
  }

  /** When the first opening tag at or after `from` has no closing tag after
      it, no match starts at or after `from`. */
  lemma NoCloseNoMatch(s: string, from: nat, i: nat)
    requires from <= i && OccursAt(s, Open, i) && NoOpenBetween(s, from, i)
    requires forall k :: i + |Open| <= k ==> !OccursAt(s, Close, k)
    ensures NoMatchFrom(s, from)
  {
    forall q, k | from <= q && q + |Open| <= k
      ensures !(OccursAt(s, Open, q) && OccursAt(s, Close, k))
    {
      if q < i {
        assert !OccursAt(s, Open, q);
      } else {
        assert !OccursAt(s, Close, k);
      }
    }
  }

  /** One search step of the regex engine from position `from`: the leftmost
      match starting at or after `from`, or none when no match starts there. */
  function NextSpan(s: string, from: nat): (r: Option<(nat, nat)>)
    ensures r.Some? ==> from <= r.value.0 && IsMatch(s, r.value.0, r.value.1)
    ensures r.Some? ==> NoOpenBetween(s, from, r.value.0)
    ensures r.None? ==> NoMatchFrom(s, from)
  {
    match IndexOf(s, Open, from)
    case None => None
    case Some(i) =>
      match IndexOf(s, Close, i + |Open|)
      case None =>
        NoCloseNoMatch(s, from, i);
        None
      case Some(j) =>
        assert IsMatch(s, i, j + |Close|);
        Some((i, j + |Close|))
  }

  /** The spans `[start, end)` that `re.findall` reports, scanning from
      `from`: matches, in increasing order, without overlap. */
  function Spans(s: string, from: nat): (r: seq<(nat, nat)>)
    ensures forall i :: 0 <= i < |r| ==> from <= r[i].0 && IsMatch(s, r[i].0, r[i].1)
    ensures forall i, k :: 0 <= i < k < |r| ==> r[i].1 <= r[k].0
    decreases |s| - from
  {
    match NextSpan(s, from)
    case None => []
    case Some(span) => [span] + Spans(s, span.1)
  }

  /** Each span is the leftmost match after the previous one (after `from`
      for the first), so no opening tag is passed over before or between
      spans; and after the last span (or from `from`, when there is none)
      no match starts any more. */
  lemma {:induction false} SpansAreSearches(s: string, from: nat)
    ensures var r := Spans(s, from);
            && (r != [] ==> NextSpan(s, from) == Some(r[0]))
            && (forall n :: 0 < n < |r| ==> NextSpan(s, r[n - 1].1) == Some(r[n]))
            && NextSpan(s, if r == [] then from else r[|r| - 1].1).None?
    decreases |s| - from
  {
    match NextSpan(s, from)
    case None =>
    case Some(span) =>
      var rest := Spans(s, span.1);
      SpansAreSearches(s, span.1);
      var r := Spans(s, from);
      assert r == [span] + rest;
      assert forall n :: 0 < n < |r| ==> r[n] == rest[n - 1];
  }

  /** Hence the scan is leftmost, skips nothing and is exhaustive. */
  lemma SpansExhaustive(s: string, from: nat)
    ensures var r := Spans(s, from);
            && (r != [] ==> NoOpenBetween(s, from, r[0].0))
            && (forall n :: 0 < n < |r| ==> NoOpenBetween(s, r[n - 1].1, r[n].0))
            && NoMatchFrom(s, if r == [] then from else r[|r| - 1].1)
  {
    SpansAreSearches(s, from);
  }

  /** One block as the pattern matches it: the opening tag, then text with
      no closing tag in it, then the closing tag. */
  predicate IsBlock(b: string) {
    IsMatch(b, 0, |b|)
  }

  lemma OccursInSlice(s: string, lo: nat, hi: nat, pat: string, k: nat)
    requires lo <= hi <= |s| && k + |pat| <= hi - lo
    ensures OccursAt(s[lo..hi], pat, k) <==> OccursAt(s, pat, lo + k)
  {
    var a := s[lo..hi][k..k + |pat|];
    var b := s[lo + k..lo + k + |pat|];
    assert forall n :: 0 <= n < |pat| ==> a[n] == b[n];
  }

  lemma MatchIsBlock(s: string, lo: nat, hi: nat)
    requires IsMatch(s, lo, hi)
    ensures IsBlock(s[lo..hi])
  {
    var b := s[lo..hi];
    OccursInSlice(s, lo, hi, Open, 0);
    OccursInSlice(s, lo, hi, Close, |b| - |Close|);
    forall k | |Open| <= k < |b| - |Close|
      ensures !OccursAt(b, Close, k)
    {
      OccursInSlice(s, lo, hi, Close, k);
    }
  }

  /** The matched substrings, in input order (app.py:32): each one is the
      text of a span of `Spans(raw, 0)` and has the shape of a block. */
  function FindBlocks(raw: string): (blocks: seq<string>)
    ensures |blocks| == |Spans(raw, 0)|
    ensures forall i :: 0 <= i < |blocks| ==>
              Spans(raw, 0)[i].0 <= Spans(raw, 0)[i].1 <= |raw|
              && blocks[i] == raw[Spans(raw, 0)[i].0..Spans(raw, 0)[i].1]
    ensures forall i :: 0 <= i < |blocks| ==> IsBlock(blocks[i])
  {
    var spans := Spans(raw, 0);
    forall i | 0 <= i < |spans|
      ensures IsBlock(raw[spans[i].0..spans[i].1])
    {
      MatchIsBlock(raw, spans[i].0, spans[i].1);
    }
    seq(|spans|, i requires 0 <= i < |spans| => raw[spans[i].0..spans[i].1])
  }

  /** A text without any opening tag yields no block at all. */
  lemma NoOpenNoBlocks(raw: string)
    requires forall q :: !OccursAt(raw, Open, q)
    ensures FindBlocks(raw) == []
  {
  }
}
