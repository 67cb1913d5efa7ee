/**
 * Descent into nested lists. The builder keeps only the outermost open list;
 * the list currently accepting items is found by walking down from it through
 * the LAST item of each level, whose element must itself be a `List`.
 */
module ListDescent {
  import opened Wrappers
  import opened Elements

  /**
   * How many levels the builder walks down below the open list at a given
   * list depth: the range `1..list_depth` is empty unless the depth exceeds 1.
   */
  function Levels(listDepth: int): nat
  {
    if listDepth > 1 then listDepth - 1 else 0
  }

  /** The values an integer range `lo..hi` yields, in order. */
  function RangeValues(lo: int, hi: int): seq<int>
    decreases hi - lo
  {
    if lo < hi then [lo] + RangeValues(lo + 1, hi) else []
  }

  /** The range `lo..hi` yields every integer from `lo` up to but excluding `hi`, once each. */
  lemma {:induction false} RangeValuesCount(lo: int, hi: int)
    ensures |RangeValues(lo, hi)| == if lo < hi then hi - lo else 0
    ensures forall v :: v in RangeValues(lo, hi) <==> lo <= v < hi
    decreases hi - lo
  {
    if lo < hi {
      RangeValuesCount(lo + 1, hi);
    }
  }

  /** The descent takes one step per value the range `1..list_depth` yields. */
  lemma LevelsCountsRange(listDepth: int)
    ensures Levels(listDepth) == |RangeValues(1, listDepth)|
    ensures forall v :: v in RangeValues(1, listDepth) <==> 1 <= v < listDepth
  {
    RangeValuesCount(1, listDepth);
  }

  /** The last item's element of a level, when the level is not empty. */
  function LastElement(level: seq<ListItem>): Element
    requires |level| > 0
  {
    level[|level| - 1].element
  }

  /**
   * The level reached from `items` by descending `k` times through the last
   * item; `None` when a level on the way is empty or ends in a non-list item.
   */
  function Descend(items: seq<ListItem>, k: nat): Option<seq<ListItem>>
    decreases k
  {
    if k == 0 then Some(items)
    else if |items| == 0 || !LastElement(items).List? then None
    else Descend(LastElement(items).items, k - 1)
  }

  /**
   * `a` and `b` agree on every level above depth `k` except for the last item
   * of each level on the path: all earlier items are equal, and the last items
   * are both lists with the same `numbered` flag. Depth `k` itself is free.
   */
  predicate SameOffPath(a: seq<ListItem>, b: seq<ListItem>, k: nat)
    decreases k
  {
    k == 0 ||
    (&& |a| == |b| > 0
     && a[..|a| - 1] == b[..|b| - 1]
     && LastElement(a).List? && LastElement(b).List?
     && LastElement(a).numbered == LastElement(b).numbered
     && SameOffPath(LastElement(a).items, LastElement(b).items, k - 1))
  }

  /**
   * Rewrites the level `k` steps down the path of last items with `f`, and
   * rebuilds every level above it. Fails where the descent fails (the source
   * panics there) or where `f` fails.
   */
  function ModifyLevel(items: seq<ListItem>, k: nat, f: seq<ListItem> -> Option<seq<ListItem>>)
    : (r: Option<seq<ListItem>>)
    ensures k == 0 ==> r == f(items)
    ensures k > 0 && |items| == 0 ==> r.None?
    ensures k > 0 && r.Some? ==> |r.value| == |items| && r.value[..|items| - 1] == items[..|items| - 1]
    decreases k
  {
    if k == 0 then f(items)
    else if |items| == 0 then None
    else
      match LastElement(items)
      case List(inner, numbered) =>
        (match ModifyLevel(inner, k - 1, f)
         case None => None
         case Some(inner') => Some(items[..|items| - 1] + [ListItem(List(inner', numbered))]))
      case _ => None
  }

  /**
   * `ModifyLevel` succeeds exactly when the descent reaches a level and `f`
   * accepts it; then the reached level is replaced by what `f` made of it and
   * nothing off the path changes.
   */
  lemma {:induction false} ModifyLevelSpec(items: seq<ListItem>, k: nat, f: seq<ListItem> -> Option<seq<ListItem>>)
    ensures ModifyLevel(items, k, f).Some? <==>
      Descend(items, k).Some? && f(Descend(items, k).value).Some?
    ensures ModifyLevel(items, k, f).Some? ==>
      && SameOffPath(items, ModifyLevel(items, k, f).value, k)
      && Descend(ModifyLevel(items, k, f).value, k) == f(Descend(items, k).value)
    decreases k
  {
    if k > 0 && |items| > 0 && LastElement(items).List? {
      var inner := LastElement(items).items;
      ModifyLevelSpec(inner, k - 1, f);
      if ModifyLevel(inner, k - 1, f).Some? {
        var r := ModifyLevel(items, k, f).value;
        assert LastElement(r) == List(ModifyLevel(inner, k - 1, f).value, LastElement(items).numbered);
        assert r[..|r| - 1] == items[..|items| - 1];
      }
    }
  }
}
