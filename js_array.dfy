/** The parts of JavaScript's Array API that the application relies on:
    `undefined` results as an Option, `filter`, `findIndex` and `find`. */
module JsArray {

  /** `undefined` (None) or a value (Some). */
  datatype Option<T> = None | Some(value: T)

  /** `s.filter(keep)`: the elements for which `keep` holds, in array order. */
  function Filter<T>(s: seq<T>, keep: T -> bool): (r: seq<T>)
    ensures |r| <= |s|
    ensures forall i :: 0 <= i < |r| ==> r[i] in s && keep(r[i])
    ensures forall j :: 0 <= j < |s| && keep(s[j]) ==> s[j] in r
  {
    if s == [] then []
    else
      var init, last := s[..|s| - 1], s[|s| - 1];
      assert s == init + [last];
      Filter(init, keep) + (if keep(last) then [last] else [])
  }

  /** The positions of `s` whose elements `Filter(s, keep)` keeps, in the order it keeps them. */
  function KeptIndices<T>(s: seq<T>, keep: T -> bool): seq<nat>
  {
    if s == [] then []
    else KeptIndices(s[..|s| - 1], keep) + (if keep(s[|s| - 1]) then [|s| - 1] else [])
  }

  /** `r` is the subsequence of `s` at the increasing positions `idx`, and those are
      exactly the positions whose elements `keep` accepts. */
  ghost predicate KeptExactly<T>(s: seq<T>, keep: T -> bool, r: seq<T>, idx: seq<nat>)
  {
    && |idx| == |r|
    && (forall k :: 0 <= k < |idx| ==> idx[k] < |s| && r[k] == s[idx[k]])
    && (forall k, l :: 0 <= k < l < |idx| ==> idx[k] < idx[l])
    && (forall j :: 0 <= j < |s| ==> (j in idx <==> keep(s[j])))
  }

  /** Appending one element to `s` extends such a subsequence by that element when
      `keep` accepts it, and leaves it as it was otherwise. */
  lemma KeptExactlyExtends<T>(init: seq<T>, x: T, keep: T -> bool, r: seq<T>, idx: seq<nat>)
    requires KeptExactly(init, keep, r, idx)
    ensures KeptExactly(init + [x], keep, r + (if keep(x) then [x] else []),
                        idx + (if keep(x) then [|init|] else []))
  {
    var s, n := init + [x], |init|;
    var r', idx' := r + (if keep(x) then [x] else []), idx + (if keep(x) then [n] else []);
    forall k | 0 <= k < |idx'|
      ensures idx'[k] < |s| && r'[k] == s[idx'[k]]
    {
      if k < |idx| {
        assert idx'[k] == idx[k] && r'[k] == r[k];
        assert init[idx[k]] == s[idx[k]];
      }
    }
    forall j | 0 <= j < |s|
      ensures j in idx' <==> keep(s[j])
    {
      if j < n {
        assert init[j] == s[j];
        assert j in idx' <==> j in idx;
      } else {
        assert n !in idx;
      }
    }
  }

  /** `Filter(s, keep)` is exactly the subsequence of `s` made of the elements that `keep`
      accepts: element k of the result sits at position `KeptIndices(s, keep)[k]` of `s`,
      those positions increase, and a position is among them exactly when `keep` accepts it. */
  lemma {:induction false} FilterKeepsExactlyInOrder<T>(s: seq<T>, keep: T -> bool)
    ensures var r, idx := Filter(s, keep), KeptIndices(s, keep);
      && |idx| == |r|
      && (forall k :: 0 <= k < |idx| ==> idx[k] < |s| && r[k] == s[idx[k]])
      && (forall k, l :: 0 <= k < l < |idx| ==> idx[k] < idx[l])
      && (forall j :: 0 <= j < |s| ==> (j in idx <==> keep(s[j])))
  {
    if s != [] {
      var init, x := s[..|s| - 1], s[|s| - 1];
      FilterKeepsExactlyInOrder(init, keep);
      KeptExactlyExtends(init, x, keep, Filter(init, keep), KeptIndices(init, keep));
      assert s == init + [x];
    }
  }

  /** `s.findIndex(pred)`: the first position where `pred` holds, or None (JavaScript's -1). */
  function FindIndex<T>(s: seq<T>, pred: T -> bool): (r: Option<nat>)
    ensures r.Some? ==> r.value < |s| && pred(s[r.value])
    ensures r.Some? ==> forall j :: 0 <= j < r.value ==> !pred(s[j])
    ensures r.None? <==> forall j :: 0 <= j < |s| ==> !pred(s[j])
  {
    if s == [] then None
    else if pred(s[0]) then Some(0)
    else
      match FindIndex(s[1..], pred)
      case None => None
      case Some(i) => Some(i + 1)
  }

  /** A position where `pred` holds with no earlier one is what `FindIndex` finds. */
  lemma FindIndexIsFirstMatch<T>(s: seq<T>, pred: T -> bool, i: nat)
    requires i < |s| && pred(s[i])
    requires forall j :: 0 <= j < i ==> !pred(s[j])
    ensures FindIndex(s, pred) == Some(i)
  {
  }

  /** `s.find(pred)`: the first element for which `pred` holds, or None (`undefined`). */
  function Find<T>(s: seq<T>, pred: T -> bool): (r: Option<T>)
    ensures r.Some? <==> exists j :: 0 <= j < |s| && pred(s[j])
    ensures r.Some? ==> r.value in s && pred(r.value)
    ensures r.Some? ==> exists k :: 0 <= k < |s| && r.value == s[k] && pred(s[k])
                                    && forall j :: 0 <= j < k ==> !pred(s[j])
  {
    match FindIndex(s, pred)
    case None => None
    case Some(i) => Some(s[i])
  }
}
