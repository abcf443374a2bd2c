/** The position of the first element with a property, by which the collections look up entries. */
module Search {

  /** The first position whose element satisfies `p`, or the length when there is none. */
  function IndexOf<T>(s: seq<T>, p: T -> bool): (i: nat)
    ensures i <= |s| && (i < |s| ==> p(s[i]))
    ensures forall j :: 0 <= j < i ==> !p(s[j])
  {
    if s == [] || p(s[0]) then 0 else 1 + IndexOf(s[1..], p)
  }
}
