/** Sums of integer sequences. */
module SeqSum {

  function Sum(s: seq<int>): int
  {
    if |s| == 0 then 0 else s[0] + Sum(s[1..])
  }
}
