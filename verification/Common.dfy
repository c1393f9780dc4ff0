/** Small vocabulary shared by every module of the model. */
module Common {

  datatype Option<+T> = None | Some(value: T)

  type byte = x: int | 0 <= x < 256

  function Min(a: int, b: int): int { if a <= b then a else b }

  function Max(a: int, b: int): int { if a >= b then a else b }

  lemma SliceOfSlice<T>(s: seq<T>, from: nat, to: nat, lo: nat, hi: nat)
    requires from <= to <= |s| && lo <= hi <= to - from
    ensures s[from..to][lo..hi] == s[from + lo..from + hi]
  {
    var t, u, v := s[from..to], s[from..to][lo..hi], s[from + lo..from + hi];
    forall i | 0 <= i < hi - lo
      ensures u[i] == v[i]
    {
      assert u[i] == t[lo + i] == s[from + lo + i];
    }
  }

  /** A slice of one more element. */
  lemma SliceSnoc<T>(s: seq<T>, from: nat, to: nat)
    requires from <= to < |s|
    ensures s[from..to + 1] == s[from..to] + [s[to]]
  {
  }

  /** Conversion of an integer to `int8_t`, the index type of the vectors. */
  function Int8(x: int): (r: int)
    ensures -128 <= r <= 127 && (x - r) % 256 == 0
  {
    (x + 128) % 256 - 128
  }
}
