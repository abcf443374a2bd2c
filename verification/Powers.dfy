/** Powers of a positive base: the widths of varints, of hexadecimal numbers and of the span counter. */
module Powers {

  function Pow(base: nat, k: nat): (p: nat)
    requires base > 0
    ensures p > 0
  {
    if k == 0 then 1 else base * Pow(base, k - 1)
  }
}
