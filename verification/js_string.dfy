/**
 * The two JavaScript string built-ins the parser relies on:
 * `String.prototype.indexOf(search, position)` and `String.prototype.slice(start, end)`,
 * over strings indexed by position.
 */
module JsString {

  /** `search` occurs in `text` starting at index `k`. */
  predicate OccursAt(text: string, search: string, k: int) {
    0 <= k && k + |search| <= |text| && text[k..k + |search|] == search
  }

  /** `indexOf` clamps its starting position into `[0, |text|]`. */
  function ClampPosition(position: int, len: nat): (p: nat)
    ensures p <= len
    ensures 0 <= position <= len ==> p == position
  {
    if position < 0 then 0 else if position > len then len else position
  }

  /** First occurrence of `search` at an index `>= k`, or -1. */
  function IndexFrom(text: string, search: string, k: nat): (r: int)
    requires k <= |text|
    ensures r == -1 || (k <= r && OccursAt(text, search, r))
    ensures r == -1 ==> forall j :: k <= j <= |text| ==> !OccursAt(text, search, j)
    ensures r != -1 ==> forall j :: k <= j < r ==> !OccursAt(text, search, j)
    decreases |text| - k
  {
    if OccursAt(text, search, k) then k
    else if k == |text| then -1
    else IndexFrom(text, search, k + 1)
  }

  /**
   * `text.indexOf(search, position)`: the least index at or after the clamped
   * position where `search` occurs, or -1 when there is none.
   */
  function IndexOf(text: string, search: string, position: int): (r: int)
    ensures r == -1 || (ClampPosition(position, |text|) <= r && OccursAt(text, search, r))
    ensures r == -1 ==>
      forall j :: ClampPosition(position, |text|) <= j ==> !OccursAt(text, search, j)
    ensures r != -1 ==>
      forall j :: ClampPosition(position, |text|) <= j < r ==> !OccursAt(text, search, j)
  {
    IndexFrom(text, search, ClampPosition(position, |text|))
  }

  /** A one-character search occurs exactly where that character stands. */
  lemma OccursAtChar(text: string, c: char, k: int)
    ensures OccursAt(text, [c], k) <==> 0 <= k < |text| && text[k] == c
  {
    if 0 <= k < |text| {
      assert text[k..k + 1] == [text[k]];
    }
  }

  /** A relative `slice` bound: negative counts from the end, then clamped to `[0, len]`. */
  function SliceBound(x: int, len: nat): (p: nat)
    ensures p <= len
    ensures 0 <= x <= len ==> p == x
    ensures -(len as int) <= x < 0 ==> p == len + x
  {
    if x < 0 then (if len + x < 0 then 0 else len + x)
    else if x > len then len
    else x
  }

  /** `text.slice(start, end)`. */
  function Slice(text: string, start: int, end: int): (r: string)
    ensures 0 <= start <= end <= |text| ==> r == text[start..end]
    ensures 0 <= start <= |text| && -|text| <= end < 0 && start <= |text| + end ==>
      r == text[start..|text| + end]
    ensures |r| <= |text|
  {
    var from := SliceBound(start, |text|);
    var to := SliceBound(end, |text|);
    if from < to then text[from..to] else []
  }
}
