/** First-match search over sequences: every scan of the UI tree in the
    bot is a `for ... return` over nodes. */
module Search {

  datatype Option<T> = None | Some(value: T)

  /** The index of the first element satisfying `p`, or None. */
  function FirstIndex<T>(s: seq<T>, p: T -> bool): (r: Option<nat>)
    ensures r.Some? ==> r.value < |s|
  {
    if |s| == 0 then None
    else if p(s[0]) then Some(0)
    else match FirstIndex(s[1..], p)
      case None => None
      case Some(k) => Some(k + 1)
  }

  /** FirstIndex finds a match exactly when there is one, and the match it
      finds has none before it. */
  lemma {:induction false} FirstIndexFirst<T>(s: seq<T>, p: T -> bool)
    ensures var r := FirstIndex(s, p);
            && (r.Some? ==> p(s[r.value]) && forall j :: 0 <= j < r.value ==> !p(s[j]))
            && (r.None? <==> forall j :: 0 <= j < |s| ==> !p(s[j]))
    decreases |s|
  {
    if |s| > 0 && !p(s[0]) {
      FirstIndexFirst(s[1..], p);
      assert forall j :: 0 < j < |s| ==> s[j] == s[1..][j - 1];
    }
  }

  /** Dropping an element that fails `p` moves the first match after it
      one place to the left and leaves one before it where it was. */
  lemma {:induction false} FirstIndexSkip<T>(s: seq<T>, p: T -> bool, k: nat)
    requires k < |s| && !p(s[k])
    ensures FirstIndex(s[..k] + s[k + 1..], p)
            == match FirstIndex(s, p)
               case None => None
               case Some(i) => Some(if i < k then i else i - 1)
    decreases k
  {
    var rest := s[..k] + s[k + 1..];
    if k == 0 {
      assert rest == s[1..];
    } else if p(s[0]) {
      assert rest[0] == s[0];
      assert FirstIndex(rest, p) == Some(0) && FirstIndex(s, p) == Some(0);
    } else {
      assert rest[0] == s[0];
      assert rest[1..] == s[1..][..k - 1] + s[1..][k..];
      FirstIndexSkip(s[1..], p, k - 1);
      match FirstIndex(s[1..], p)
      case None =>
        assert FirstIndex(rest[1..], p) == None;
      case Some(j) =>
        assert FirstIndex(s, p) == Some(j + 1);
        assert FirstIndex(rest[1..], p) == Some(if j < k - 1 then j else j - 1);
    }
  }

  /** `n` copies of `x`. */
  function Repeat<T>(x: T, n: nat): (s: seq<T>)
    ensures |s| == n && forall j :: 0 <= j < n ==> s[j] == x
  {
    if n == 0 then [] else Repeat(x, n - 1) + [x]
  }
}
