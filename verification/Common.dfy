// What several parts of the model share.

module Common {
  datatype Option<+T> = None | Some(value: T)

  datatype Side = Buy | Sell

  function Opposite(side: Side): Side { if side.Buy? then Sell else Buy }

  function Abs(x: int): nat { if x < 0 then -x else x }

  function Min(x: int, y: int): int { if x <= y then x else y }

  function Max(x: int, y: int): int { if x <= y then y else x }

  function Sum(s: seq<int>): int {
    if s == [] then 0 else s[0] + Sum(s[1..])
  }

  /** `x` lies between nothing and `h`. */
  predicate InHull(x: int, h: int) {
    0 <= x <= h || h <= x <= 0
  }

  /** The point of the hull of `{0, h}` nearest to `x`. */
  function Toward(x: int, h: int): (r: int)
    ensures InHull(r, h)
    ensures forall y :: InHull(y, h) ==> Abs(x - r) <= Abs(x - y)
    ensures InHull(x, h) <==> r == x
  {
    if h >= 0 then Max(0, Min(x, h)) else Min(0, Max(x, h))
  }
}
