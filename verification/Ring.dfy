/** Positions on a circular probe path, as both hash tables of the repository walk it. */
module Ring {

  /** The d-th cell on the probe path that begins at h. */
  function At(h: nat, d: nat, n: nat): (p: nat)
    requires h < n && d < n
    ensures p < n
  {
    if h + d < n then h + d else h + d - n
  }

  /** How many steps p is away from h. */
  function Dist(h: nat, p: nat, n: nat): (d: nat)
    requires h < n && p < n
    ensures d < n && At(h, d, n) == p
  {
    if p >= h then p - h else p - h + n
  }

  lemma NextCell(i: nat, n: nat)
    requires i < n
    ensures (i + 1) % n == if i + 1 == n then 0 else i + 1
  {
  }
}
