/**
 * The binary search the builder runs over its identifier column while records
 * still arrive in increasing identifier order.
 */
module BinarySearch {

  predicate StrictlyIncreasing(s: seq<int>) {
    forall i, j :: 0 <= i < j < |s| ==> s[i] < s[j]
  }

  /** Three-way comparison of two identifiers, as `Longs.compare`; the test of an identifier search. */
  function Compare(a: int, b: int): (r: int)
    ensures -1 <= r <= 1
    ensures r < 0 <==> a < b
    ensures r == 0 <==> a == b
    ensures r > 0 <==> a > b
  {
    if a < b then -1 else if a == b then 0 else 1
  }

  /** The insertion point of `t`: the length of the leading run of elements below `t`. */
  function Rank(s: seq<int>, t: int): (r: nat)
    ensures r <= |s|
    ensures forall i :: 0 <= i < r ==> s[i] < t
    ensures r < |s| ==> s[r] >= t
  {
    if |s| == 0 || s[0] >= t then 0 else 1 + Rank(s[1..], t)
  }

  /**
   * What a search over positions [0, |s|) returns: the position of `t` when it
   * is there, otherwise minus the insertion point, minus one.
   */
  function SearchOutcome(s: seq<int>, t: int): (r: int)
    requires StrictlyIncreasing(s)
    ensures r >= 0 <==> t in s
    ensures r >= 0 ==> r < |s| && s[r] == t
    ensures r < 0 ==> (0 <= -r - 1 <= |s|
                       && (forall i :: 0 <= i < -r - 1 ==> s[i] < t)
                       && (forall i :: -r - 1 <= i < |s| ==> s[i] > t))
  {
    var k: int := Rank(s, t);
    if k < |s| && s[k] == t then k else -k - 1
  }

  /** In a strictly increasing sequence, a split point with smaller elements before and no smaller ones after is the rank. */
  lemma RankIsUnique(s: seq<int>, t: int, k: nat)
    requires StrictlyIncreasing(s)
    requires k <= |s|
    requires forall i :: 0 <= i < k ==> s[i] < t
    requires k < |s| ==> s[k] >= t
    ensures Rank(s, t) == k
  {
  }

  /** Binary search for `t` in `s`, comparing with `Compare(t, s[mid])`. */
  method Search(s: seq<int>, t: int) returns (r: int)
    requires StrictlyIncreasing(s)
    ensures r == SearchOutcome(s, t)
  {
    var lo, hi := 0, |s|;
    while lo < hi
      invariant 0 <= lo <= hi <= |s|
      invariant forall i :: 0 <= i < lo ==> s[i] < t
      invariant forall i :: hi <= i < |s| ==> s[i] > t
      decreases hi - lo
    {
      var mid := lo + (hi - lo) / 2;
      var c := Compare(t, s[mid]);
      if c < 0 {
        hi := mid;
      } else if c > 0 {
        lo := mid + 1;
      } else {
        RankIsUnique(s, t, mid);
        return mid;
      }
    }
    RankIsUnique(s, t, lo);
    r := -lo - 1;
  }
}
