/**
 * DatabaseTools, the older utility class: `arrayDepth` measures an array
 * the way DatabaseUtils' `arrayMaxDepth` does.
 */
module DatabaseTools {
  import opened Php
  import DatabaseUtils

  /**
   * `arrayDepth($array)`: 1, raised for each nested array to one more than
   * its own depth.
   */
  method ArrayDepth(es: seq<Entry>) returns (maxDepth: nat)
    ensures maxDepth == DatabaseUtils.MaxDepth(es)
    ensures maxDepth >= 1
    ensures (forall i :: 0 <= i < |es| ==> !es[i].val.Arr?) ==> maxDepth == 1
    decreases es
  {
    maxDepth := 1;
    var i := 0;
    while i < |es|
      invariant 0 <= i <= |es|
      invariant maxDepth == DatabaseUtils.MaxDepth(es[..i])
    {
      var value := es[i].val;
      assert es[..i + 1][..i] == es[..i] && es[..i + 1][i] == es[i];
      if value.Arr? {
        assert es[i] in es && value < es[i];
        var depth := ArrayDepth(value.entries);
        depth := depth + 1;
        if depth > maxDepth {
          maxDepth := depth;
        }
      }
      i := i + 1;
    }
    assert es[..i] == es;
    if forall i :: 0 <= i < |es| ==> !es[i].val.Arr? {
      DatabaseUtils.MaxDepthFlat(es);
    }
  }
}
