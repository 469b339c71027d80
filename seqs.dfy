/** Sums of integer sequences (pandas `sum`). */
module Seqs {

  function Sum(s: seq<int>): int
  {
    if |s| == 0 then 0 else s[0] + Sum(s[1..])
  }
}
