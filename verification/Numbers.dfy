/** Coordinates and the arithmetic on them, with exact reals for Go's float64. */
module Numbers {

  datatype Point = Point(x: real, y: real)

  function Abs(r: real): real {
    if r < 0.0 then -r else r
  }

  function Min(r: real, s: real): real {
    if r <= s then r else s
  }

  function Max(r: real, s: real): real {
    if r >= s then r else s
  }

  // math.Round: to the nearest integer, halves away from zero.
  function Round(r: real): (k: int)
    ensures r - 0.5 <= k as real <= r + 0.5
    ensures k as real == r - 0.5 ==> r < 0.0
    ensures k as real == r + 0.5 ==> r > 0.0
  {
    if r >= 0.0 then (r + 0.5).Floor else -(0.5 - r).Floor
  }

  // How many steps a long loop takes between two looks at the context.
  const CANCEL_CHECK_INTERVAL := 1024

  // The numbers 0 .. n-1.
  ghost function Below(n: nat): (s: set<int>)
    ensures |s| == n && forall i :: i in s <==> 0 <= i < n
  {
    if n == 0 then {} else Below(n - 1) + {n - 1}
  }

  lemma MultipleIsFar(s: nat, e: int)
    ensures e >= 1 ==> s * e >= s
    ensures e <= -1 ==> s * e + s <= 0
  {
  }

  lemma ModIs(v: int, s: nat, q: int, r: int)
    requires s > 0 && v == s * q + r && 0 <= r < s
    ensures v % s == r && v / s == q
  {
    MultipleIsFar(s, v / s - q);
    assert s * (v / s - q) == s * (v / s) - s * q;
  }
}
