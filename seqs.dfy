/** Array operations the roster relies on: `indexOf` by identity and `splice(index, 1)`. */
module Seqs {

  /** No element occurs twice. */
  ghost predicate Distinct<T>(s: seq<T>) {
    forall i, j :: 0 <= i < j < |s| ==> s[i] != s[j]
  }

  /** `Array.prototype.indexOf`: the first position holding `x`, or -1 when there is none. */
  function IndexOf<T(==)>(s: seq<T>, x: T): (k: int)
    ensures -1 <= k < |s|
    ensures k == -1 <==> x !in s
    ensures 0 <= k ==> s[k] == x && x !in s[..k]
  {
    if s == [] then -1
    else if s[0] == x then 0
    else
      var k := IndexOf(s[1..], x);
      assert s[1..][..k + 1] == s[..k + 2][1..] by {
        if 0 <= k { assert s[1..][..k] == s[1..k + 1]; }
      }
      if k == -1 then -1 else k + 1
  }

  /** `splice(k, 1)`: drop the element at position `k`. */
  function RemoveAt<T>(s: seq<T>, k: nat): (r: seq<T>)
    requires k < |s|
    ensures |r| == |s| - 1
  {
    s[..k] + s[k + 1..]
  }

  /** Removing position `k` keeps every other element, in order, and only that one element is lost. */
  lemma RemoveAtKeepsOthers<T>(s: seq<T>, k: nat)
    requires k < |s|
    ensures forall j :: 0 <= j < k ==> RemoveAt(s, k)[j] == s[j]
    ensures forall j :: k <= j < |s| - 1 ==> RemoveAt(s, k)[j] == s[j + 1]
    ensures multiset(RemoveAt(s, k)) + multiset{s[k]} == multiset(s)
  {
    assert s == s[..k] + [s[k]] + s[k + 1..];
  }

  /** `splice(indexOf(x), 1)` removes exactly one occurrence of `x`, its first one. */
  lemma RemoveFirstOccurrence<T>(s: seq<T>, x: T)
    requires x in s
    ensures var k := IndexOf(s, x);
      && 0 <= k && s[k] == x
      && RemoveAt(s, k)[..k] == s[..k] && x !in s[..k]
      && multiset(RemoveAt(s, k))[x] == multiset(s)[x] - 1
  {
    var k := IndexOf(s, x);
    RemoveAtKeepsOthers(s, k);
    assert RemoveAt(s, k)[..k] == s[..k];
  }

  /** In a sequence without repetition, `indexOf` of the element at `i` is `i` itself. */
  lemma IndexOfDistinct<T>(s: seq<T>, i: nat)
    requires Distinct(s) && i < |s|
    ensures IndexOf(s, s[i]) == i
  {
  }

  /** Dropping one element keeps a sequence free of repetition. */
  lemma RemoveAtDistinct<T>(s: seq<T>, k: nat)
    requires Distinct(s) && k < |s|
    ensures Distinct(RemoveAt(s, k))
  {
    var r := RemoveAt(s, k);
    forall i, j | 0 <= i < j < |r| ensures r[i] != r[j] {
      var i' := if i < k then i else i + 1;
      var j' := if j < k then j else j + 1;
      assert r[i] == s[i'] && r[j] == s[j'];
    }
  }
}
