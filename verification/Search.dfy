/** Linear search, shared by the tables of the other modules. */
module Search {

  /** Position of the first element that satisfies `p`, or the length. */
  function First<T(!new)>(s: seq<T>, p: T -> bool): (r: nat)
    ensures r <= |s| && (forall i :: 0 <= i < r ==> !p(s[i])) && (r < |s| ==> p(s[r]))
  {
    if |s| == 0 then 0 else if p(s[0]) then 0 else 1 + First(s[1..], p)
  }

  lemma {:induction false} FirstAppend<T(!new)>(s: seq<T>, x: T, p: T -> bool)
    ensures First(s + [x], p) == if First(s, p) < |s| then First(s, p) else if p(x) then |s| else |s| + 1
  {
    if |s| > 0 {
      assert (s + [x])[0] == s[0] && (s + [x])[1..] == s[1..] + [x];
      FirstAppend(s[1..], x, p);
    }
  }
}
