/** Fixed-width unsigned integers, and the constants the other modules share. */
module Words {
  const TWO16 := 0x1_0000
  const TWO31 := 0x8000_0000
  const TWO32 := 0x1_0000_0000
  const TWO64 := 0x1_0000_0000_0000_0000

  type u8 = x: int | 0 <= x < 0x100
  type u16 = x: int | 0 <= x < TWO16
  type u32 = x: int | 0 <= x < TWO32
  type u64 = x: int | 0 <= x < TWO64

  type Bytes = seq<u8>

  datatype Option<+T> = None | Some(value: T)

  function Min(a: int, b: int): int {
    if a <= b then a else b
  }

  function Max(a: int, b: int): int {
    if a >= b then a else b
  }

  /** How much a flag adds. */
  function Flag(b: bool): nat {
    if b then 1 else 0
  }

  function Pow2(k: nat): (p: nat)
    ensures p > 0
  {
    if k == 0 then 1 else 2 * Pow2(k - 1)
  }

  lemma {:induction false} Pow2Grows(j: nat, k: nat)
    requires j <= k
    ensures Pow2(j) <= Pow2(k)
  {
    if j == k {
    } else {
      Pow2Grows(j, k - 1);
    }
  }

  /** `data` is what `whole` holds from position `pos` on. */
  ghost predicate IsSlice(whole: Bytes, pos: int, data: Bytes) {
    0 <= pos && pos + |data| <= |whole| && forall i :: 0 <= i < |data| ==> data[i] == whole[pos + i]
  }

  lemma SubSlice(whole: Bytes, pos: int, data: Bytes, a: nat, b: nat)
    requires IsSlice(whole, pos, data) && a <= b <= |data|
    ensures IsSlice(whole, pos + a, data[a..b])
  {
  }

  lemma SliceOfLonger(whole: Bytes, longer: Bytes, pos: int, data: Bytes)
    requires IsSlice(whole, pos, data) && whole <= longer
    ensures IsSlice(longer, pos, data)
  {
  }
}
