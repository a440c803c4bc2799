/** Saturating unsigned 64-bit arithmetic. */
module Numeric {
  import opened Wrappers
  import opened Journal

  type uint64 = x: nat | x <= MAX_UINT64

  function SaturatingAdd(left: uint64, right: uint64): (r: uint64)
    ensures left + right <= MAX_UINT64 ==> r == left + right
    ensures left + right >= MAX_UINT64 ==> r == MAX_UINT64
  {
    if MAX_UINT64 - left < right then MAX_UINT64 else left + right
  }

  function SaturatingSub(left: uint64, right: uint64): (r: uint64)
    ensures r + right >= left && r <= left
    ensures r > 0 ==> r + right == left
  {
    if right > left then 0 else left - right
  }

  /** The smallest whole number of virtual time units no shorter than 1024 / weight. */
  function CeilQuantum(weight: uint64): (r: Option<uint64>)
    ensures r.None? <==> weight == 0
    ensures r.Some? ==> r.value * weight >= 1024 && (r.value - 1) * weight < 1024
  {
    if weight == 0 then None
    else
      CeilingDivision(weight);
      Some(1 + (1024 - 1) / weight)
  }

  lemma CeilingDivision(weight: nat)
    requires weight > 0
    ensures var q := 1 + 1023 / weight; q * weight >= 1024 && (q - 1) * weight < 1024 && q <= 1024
  {
    var d := 1023 / weight;
    assert 1023 == d * weight + 1023 % weight;
    assert (1 + d) * weight == weight + d * weight;
    assert d <= 1023 by {
      assert d * weight >= d;
    }
  }

  function SaturatingCap(value: nat, cap: uint64): (r: uint64)
    ensures r <= value && r <= cap && (r == value || r == cap)
  {
    if value > cap then cap else value
  }
}
