/** Ordinal substring search, as .NET's `String.Contains` and `String.IndexOf` perform it. */
module Text {
  import opened Wrappers

  /** `t` occurs in `s` starting at index `i`. */
  predicate At(s: string, i: int, t: string)
  {
    0 <= i && i + |t| <= |s| && s[i..i + |t|] == t
  }

  /** An occurrence one position further into `s` is an occurrence in the tail of `s`. */
  lemma AtTail(s: string, t: string)
    requires |s| > 0
    ensures forall k {:trigger At(s, k, t)} :: 1 <= k ==> (At(s, k, t) <==> At(s[1..], k - 1, t))
  {
    forall k | 1 <= k
      ensures At(s, k, t) <==> At(s[1..], k - 1, t)
    {
      if k + |t| <= |s| {
        var here, there := s[k..k + |t|], s[1..][k - 1..k - 1 + |t|];
        assert forall i :: 0 <= i < |t| ==> here[i] == there[i];
        assert here == there;
      }
    }
  }

  /** The first index at which `t` occurs in `s`, or None when it does not occur. */
  function IndexOf(s: string, t: string): (r: Option<nat>)
    requires |t| > 0
    ensures r.Some? ==> At(s, r.value, t) && forall j :: 0 <= j < r.value ==> !At(s, j, t)
    ensures r.None? ==> forall j :: !At(s, j, t)
    decreases |s|
  {
    if |s| < |t| then None
    else if s[..|t|] == t then Some(0)
    else
      AtTail(s, t);
      match IndexOf(s[1..], t)
      case None => None
      case Some(i) => Some(i + 1)
  }

  /** `t` occurs somewhere in `s`. */
  predicate Contains(s: string, t: string)
    requires |t| > 0
  {
    IndexOf(s, t).Some?
  }

  /** An occurrence in a prefix is an occurrence in the whole text. */
  lemma ContainsExtend(s: string, u: string, t: string)
    requires |t| > 0 && Contains(s, t)
    ensures Contains(s + u, t)
  {
    var i := IndexOf(s, t).value;
    assert (s + u)[i..i + |t|] == s[i..i + |t|];
    assert At(s + u, i, t);
  }

  /** A text that does not hold the first character of `t` cannot contain `t`. */
  lemma MissingHead(s: string, t: string)
    requires |t| > 0 && t[0] !in s
    ensures !Contains(s, t)
  {
    forall j
      ensures !At(s, j, t)
    {
      if 0 <= j && j + |t| <= |s| {
        assert s[j..j + |t|][0] == s[j];
      }
    }
  }
}
