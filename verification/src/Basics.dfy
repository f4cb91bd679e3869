/** What several modules share. */
module Basics {

  datatype Option<+T> = None | Some(value: T)

  const MAX64: nat := 0xFFFF_FFFF_FFFF_FFFF

  /** Generations of a stored record are 32-bit and wrap. */
  const GENERATIONS: nat := 0x1_0000_0000

  /** An unsigned 64-bit integer. */
  predicate Integer(v: int) {
    0 <= v <= MAX64
  }

  function Pow2(n: nat): (r: nat)
    ensures r > 0
  {
    if n == 0 then 1 else 2 * Pow2(n - 1)
  }

  /** The last n elements, or all of them. */
  function Last<T>(s: seq<T>, n: nat): (r: seq<T>)
    ensures |r| == if |s| <= n then |s| else n
    ensures forall i | 0 <= i < |r| :: r[i] == s[|s| - |r| + i]
  {
    if |s| <= n then s else s[|s| - n..]
  }

  /** A key above all that are taken. */
  lemma {:induction false} FreshKey(keys: set<nat>) returns (k: nat)
    ensures forall x | x in keys :: x < k
    decreases keys
  {
    if keys == {} {
      k := 0;
    } else {
      var x :| x in keys;
      var above := FreshKey(keys - {x});
      k := if above <= x then x + 1 else above;
      assert forall y | y in keys :: y == x || y in keys - {x};
    }
  }
}
