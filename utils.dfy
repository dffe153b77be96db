/**
 * DatabaseUtils: the depth of a nested array, measured to its deepest and to
 * its shallowest point, and replacement of the first occurrence of a string.
 */
module DatabaseUtils {
  import opened Errors
  import opened Php

  /* ---------------------------------------------------------------------
   * Maximum depth
   * ------------------------------------------------------------------- */

  /**
   * The depth of an array: 1, or one more than the depth of its deepest
   * nested array. Defined element by element from the front, as the loop
   * visits them.
   */
  function MaxDepth(es: seq<Entry>): (d: nat)
    ensures d >= 1
    decreases es
  {
    if es == [] then 1
    else
      var last := es[|es| - 1];
      assert last in es && last.val < last;
      var front := MaxDepth(es[..|es| - 1]);
      if last.val.Arr? && MaxDepth(last.val.entries) + 1 > front then MaxDepth(last.val.entries) + 1 else front
  }

  /**
   * `arrayMaxDepth($array)`: starts at 1 and raises the maximum for each
   * nested array to one more than that array's own depth.
   */
  method ArrayMaxDepth(es: seq<Entry>) returns (maxDepth: nat)
    ensures maxDepth == MaxDepth(es)
    decreases es
  {
    maxDepth := 1;
    var i := 0;
    while i < |es|
      invariant 0 <= i <= |es|
      invariant maxDepth == MaxDepth(es[..i])
    {
      var v := es[i].val;
      assert es[..i + 1][..i] == es[..i] && es[..i + 1][i] == es[i];
      if v.Arr? {
        assert es[i] in es && v < es[i];
        var depth := ArrayMaxDepth(v.entries);
        depth := depth + 1;
        if depth > maxDepth {
          maxDepth := depth;
        }
      }
      i := i + 1;
    }
    assert es[..i] == es;
  }

  /** An array with no nested array has depth 1. */
  lemma {:induction false} MaxDepthFlat(es: seq<Entry>)
    requires forall i :: 0 <= i < |es| ==> !es[i].val.Arr?
    ensures MaxDepth(es) == 1
  {
    if es != [] {
      MaxDepthFlat(es[..|es| - 1]);
    }
  }

  /** Every nested array is at least one level shallower than the array. */
  lemma {:induction false} MaxDepthBound(es: seq<Entry>, i: nat)
    requires i < |es| && es[i].val.Arr?
    ensures MaxDepth(es) >= MaxDepth(es[i].val.entries) + 1
  {
    var front := es[..|es| - 1];
    if i < |es| - 1 {
      assert front[i] == es[i];
      MaxDepthBound(front, i);
    }
  }

  /** A depth above 1 is reached through some nested array. */
  lemma {:induction false} MaxDepthAttained(es: seq<Entry>)
    requires MaxDepth(es) > 1
    ensures exists i :: 0 <= i < |es| && es[i].val.Arr? && MaxDepth(es) == MaxDepth(es[i].val.entries) + 1
  {
    var n := |es| - 1;
    var front := es[..n];
    if es[n].val.Arr? && MaxDepth(es) == MaxDepth(es[n].val.entries) + 1 {
    } else {
      assert MaxDepth(es) == MaxDepth(front);
      MaxDepthAttained(front);
      var i :| 0 <= i < |front| && front[i].val.Arr? && MaxDepth(front) == MaxDepth(front[i].val.entries) + 1;
      assert front[i] == es[i];
    }
  }

  function Max(a: nat, b: nat): nat {
    if a < b then b else a
  }

  /** The depth of two arrays one after the other is the larger of their depths. */
  lemma {:induction false} MaxDepthConcat(a: seq<Entry>, b: seq<Entry>)
    ensures MaxDepth(a + b) == Max(MaxDepth(a), MaxDepth(b))
    decreases |b|
  {
    if b == [] {
      assert a + b == a;
    } else {
      var n := |b| - 1;
      assert (a + b)[..|a + b| - 1] == a + b[..n];
      assert (a + b)[|a + b| - 1] == b[n];
      MaxDepthConcat(a, b[..n]);
    }
  }

  /** Adding or removing an element that is not an array leaves the depth as it was. */
  lemma ScalarIgnored(a: seq<Entry>, e: Entry, b: seq<Entry>)
    requires !e.val.Arr?
    ensures MaxDepth(a + [e] + b) == MaxDepth(a + b)
  {
    MaxDepthConcat(a + [e], b);
    MaxDepthConcat(a, [e]);
    MaxDepthConcat(a, b);
    assert [e][..0] == [];
  }

  /* ---------------------------------------------------------------------
   * Minimum depth
   * ------------------------------------------------------------------- */

  /** The smallest number of a non-empty list. */
  function Min(ds: seq<nat>): (m: nat)
    requires |ds| > 0
    ensures m in ds
    ensures forall i :: 0 <= i < |ds| ==> m <= ds[i]
  {
    if |ds| == 1 then ds[0]
    else
      var rest := Min(ds[1..]);
      assert forall i :: 1 <= i < |ds| ==> ds[i] == ds[1..][i - 1];
      if ds[0] <= rest then ds[0] else rest
  }

  /**
   * The depth map: 1 for an element that is not an array, one more than its
   * minimum depth for a nested array.
   */
  function DepthMap(es: seq<Entry>): (r: Result<seq<nat>>)
    ensures r.Ok? ==> |r.value| == |es|
    ensures r.Ok? ==> forall i :: 0 <= i < |es| ==> r.value[i] >= 1
    ensures r.Ok? ==> forall i :: 0 <= i < |es| && !es[i].val.Arr? ==> r.value[i] == 1
    ensures r.Err? ==> r.error == EngineError
    decreases es, 0
  {
    if es == [] then Ok([])
    else
      var last := es[|es| - 1];
      assert last in es && last.val < last;
      var front :- DepthMap(es[..|es| - 1]);
      if last.val.Arr? then
        var d :- MinDepth(last.val.entries);
        Ok(front + [d + 1])
      else Ok(front + [1])
  }

  /**
   * The minimum depth of an array: the smallest entry of its depth map.
   * `min` of an empty array is an engine error, here and inside any empty
   * nested array.
   */
  function MinDepth(es: seq<Entry>): (r: Result<nat>)
    ensures r.Ok? ==> r.value >= 1
    ensures es == [] ==> r == Err(EngineError)
    ensures r.Err? ==> r.error == EngineError
    decreases es, 1
  {
    var ds :- DepthMap(es);
    if ds == [] then Err(EngineError) else Ok(Min(ds))
  }

  /** `arrayMinDepth($array)`: the depth map built element by element, then its minimum. */
  method ArrayMinDepth(es: seq<Entry>) returns (r: Result<nat>)
    ensures r == MinDepth(es)
    decreases es
  {
    var depthMap: seq<nat> := [];
    var i := 0;
    while i < |es|
      invariant 0 <= i <= |es|
      invariant DepthMap(es[..i]) == Ok(depthMap)
    {
      var v := es[i].val;
      assert es[..i + 1][..i] == es[..i] && es[..i + 1][i] == es[i];
      if v.Arr? {
        assert es[i] in es && v < es[i];
        var d := ArrayMinDepth(v.entries);
        if d.Err? {
          DepthMapPrefixFails(es, i + 1);
          return Err(d.error);
        }
        depthMap := depthMap + [d.value + 1];
      } else {
        depthMap := depthMap + [1];
      }
      i := i + 1;
    }
    assert es[..i] == es;
    if depthMap == [] {
      return Err(EngineError);
    }
    return Ok(Min(depthMap));
  }

  /** A failure in the depth map of a prefix is a failure of the whole map. */
  lemma {:induction false} DepthMapPrefixFails(es: seq<Entry>, n: nat)
    requires n <= |es|
    requires DepthMap(es[..n]).Err?
    ensures DepthMap(es).Err?
    decreases |es| - n
  {
    if n < |es| {
      assert es[..n + 1][..n] == es[..n];
      DepthMapPrefixFails(es, n + 1);
    } else {
      assert es[..n] == es;
    }
  }

  /** One element that is not an array makes the minimum depth 1. */
  lemma MinDepthScalar(es: seq<Entry>, i: nat)
    requires i < |es| && !es[i].val.Arr?
    requires MinDepth(es).Ok?
    ensures MinDepth(es).value == 1
  {
    var ds := DepthMap(es).value;
    assert ds[i] == 1;
  }

  /**
   * The minimum depth of a non-empty array is a lower bound on its elements'
   * depths: at most one more than each nested array's minimum depth, and 1
   * once an element is not an array.
   */
  lemma MinDepthOfElements(es: seq<Entry>, i: nat)
    requires i < |es| && MinDepth(es).Ok?
    ensures es[i].val.Arr? ==> MinDepth(es[i].val.entries).Ok?
    ensures es[i].val.Arr? ==> MinDepth(es).value <= MinDepth(es[i].val.entries).value + 1
    ensures !es[i].val.Arr? ==> MinDepth(es).value == 1
  {
    DepthMapElement(es, i);
  }

  /** ... and it is attained: some element has exactly that depth. */
  lemma MinDepthAttained(es: seq<Entry>)
    requires MinDepth(es).Ok?
    ensures exists j :: 0 <= j < |es| &&
              if es[j].val.Arr? then
                MinDepth(es[j].val.entries).Ok? && MinDepth(es).value == MinDepth(es[j].val.entries).value + 1
              else MinDepth(es).value == 1
  {
    var ds := DepthMap(es).value;
    var j :| 0 <= j < |ds| && ds[j] == MinDepth(es).value;
    DepthMapElement(es, j);
  }

  lemma {:induction false} DepthMapElement(es: seq<Entry>, i: nat)
    requires i < |es| && DepthMap(es).Ok?
    ensures es[i].val.Arr? ==> MinDepth(es[i].val.entries).Ok?
    ensures es[i].val.Arr? ==> DepthMap(es).value[i] == MinDepth(es[i].val.entries).value + 1
    decreases |es|
  {
    var n := |es| - 1;
    if i < n {
      assert es[..n][i] == es[i];
      DepthMapElement(es[..n], i);
    }
  }

  /** The shallowest point is never below the deepest. */
  lemma {:induction false} MinDepthAtMostMaxDepth(es: seq<Entry>)
    requires MinDepth(es).Ok?
    ensures MinDepth(es).value <= MaxDepth(es)
    decreases es
  {
    var ds := DepthMap(es).value;
    var i := |es| - 1;
    DepthMapElement(es, i);
    if es[i].val.Arr? {
      assert es[i] in es && es[i].val < es[i];
      MinDepthAtMostMaxDepth(es[i].val.entries);
      MaxDepthBound(es, i);
    }
  }

  /* ---------------------------------------------------------------------
   * replaceOnce
   * ------------------------------------------------------------------- */

  predicate OccursAt(haystack: string, needle: string, p: nat) {
    p + |needle| <= |haystack| && haystack[p..p + |needle|] == needle
  }

  /** `strpos($haystack, $needle)` from position `from` on. */
  function StrPosFrom(haystack: string, needle: string, from: nat): (r: Option<nat>)
    requires from <= |haystack|
    ensures r.Some? ==> from <= r.value && OccursAt(haystack, needle, r.value)
    ensures r.Some? ==> forall p :: from <= p < r.value ==> !OccursAt(haystack, needle, p)
    ensures r.None? ==> forall p :: from <= p <= |haystack| ==> !OccursAt(haystack, needle, p)
    decreases |haystack| - from
  {
    if OccursAt(haystack, needle, from) then Some(from)
    else if from == |haystack| then None
    else StrPosFrom(haystack, needle, from + 1)
  }

  /** `strpos($haystack, $needle)`: the first position where the needle occurs. */
  function StrPos(haystack: string, needle: string): (r: Option<nat>)
    ensures r.Some? ==> OccursAt(haystack, needle, r.value)
    ensures r.Some? ==> forall p :: 0 <= p < r.value ==> !OccursAt(haystack, needle, p)
    ensures r.None? ==> forall p :: 0 <= p <= |haystack| ==> !OccursAt(haystack, needle, p)
  {
    StrPosFrom(haystack, needle, 0)
  }

  /**
   * `replaceOnce($needle, $replacement, $haystack)`: the first occurrence of
   * the needle replaced; false (None) when there is none.
   */
  function ReplaceOnce(needle: string, replacement: string, haystack: string): (r: Option<string>)
    ensures r.None? <==> forall p :: 0 <= p <= |haystack| ==> !OccursAt(haystack, needle, p)
  {
    match StrPos(haystack, needle)
    case None => None
    case Some(p) => Some(haystack[..p] + replacement + haystack[p + |needle|..])
  }

  /**
   * The text before the first occurrence and the text after it are kept;
   * the occurrence becomes the replacement.
   */
  lemma ReplaceOnceKeepsTheRest(needle: string, replacement: string, haystack: string)
    requires ReplaceOnce(needle, replacement, haystack).Some?
    ensures var r, p := ReplaceOnce(needle, replacement, haystack).value, StrPos(haystack, needle).value;
            |r| == |haystack| - |needle| + |replacement|
            && r[..p] == haystack[..p]
            && r[p..p + |replacement|] == replacement
            && r[p + |replacement|..] == haystack[p + |needle|..]
            && forall q :: 0 <= q < p ==> !OccursAt(haystack, needle, q)
  {
    var r, p := ReplaceOnce(needle, replacement, haystack).value, StrPos(haystack, needle).value;
    assert r == haystack[..p] + replacement + haystack[p + |needle|..];
  }

  /** Replacing the needle by itself gives the haystack back. */
  lemma ReplaceBySelf(needle: string, haystack: string)
    requires ReplaceOnce(needle, needle, haystack).Some?
    ensures ReplaceOnce(needle, needle, haystack) == Some(haystack)
  {
    var p := StrPos(haystack, needle).value;
    assert haystack == haystack[..p] + haystack[p..p + |needle|] + haystack[p + |needle|..];
  }

  /**
   * As written, the replacement reads `$replace`, which is undefined: it is
   * null, taken as the empty string, so the needle is cut out.
   */
  function ReplaceOnceAsWritten(needle: string, replacement: string, haystack: string): Option<string> {
    match StrPos(haystack, needle)
    case None => None
    case Some(p) => Some(haystack[..p] + haystack[p + |needle|..])
  }

  /** Replacing "a" by "b" in "a" gives "" as written, where "b" is meant. */
  lemma ReplaceOnceFinding()
    ensures ReplaceOnceAsWritten("a", "b", "a") == Some("")
    ensures ReplaceOnce("a", "b", "a") == Some("b")
  {
    var a := "a";
    assert a[0..1] == "a" && OccursAt(a, "a", 0);
    assert StrPos(a, "a") == Some(0);
    assert a[..0] == "" && a[1..] == "";
    assert a[..0] + "b" + a[1..] == "b";
    assert a[..0] + a[1..] == "";
  }
}
