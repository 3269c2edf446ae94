/** 32-bit sequence numbers and the 64-bit absolute numbers they stand for. */
module WrappingIntegers {
  import opened Words

  /** Addition and subtraction in a 64-bit register. */
  function U64(x: int): u64 {
    x % TWO64
  }

  function Wrap(n: nat, isn: u32): u32 {
    U64(isn + n) % TWO32
  }

  function Unwrap(n: u32, isn: u32, checkpoint: u64): u64 {
    var diff := U64(U64(n - isn) + TWO32) % TWO32;
    var era := checkpoint / TWO32;
    var absSeq := U64(diff + era * TWO32);
    if absSeq > checkpoint && absSeq - checkpoint > TWO31 && absSeq >= TWO32 then
      absSeq - TWO32
    else if absSeq < checkpoint && checkpoint - absSeq > TWO31 then
      U64(absSeq + TWO32)
    else
      absSeq
  }

  function Distance(a: int, b: int): nat {
    if a <= b then b - a else a - b
  }

  /** The 64-bit register holds no later number with the wanted low 32 bits: `checkpoint` lies in
      the last era, more than half an era past that era's candidate. */
  predicate TopOfRange(n: u32, isn: u32, checkpoint: u64) {
    checkpoint / TWO32 == TWO32 - 1 && checkpoint % TWO32 > (n - isn) % TWO32 + TWO31
  }

  /** Reducing to 64 bits first does not change the low 32 bits. */
  lemma LowBitsSurvive(x: int)
    ensures U64(x) % TWO32 == x % TWO32
  {
    var q := x / TWO64;
    assert x == U64(x) + TWO32 * (q * TWO32);
    SameRemainder(U64(x), q * TWO32);
  }

  lemma SameRemainder(x: int, k: int)
    ensures (x + TWO32 * k) % TWO32 == x % TWO32
  {
    var q, r := x / TWO32, x % TWO32;
    QuotientUnique(x + TWO32 * k, q + k, r);
  }

  lemma QuotientUnique(x: int, q: int, r: int)
    requires x == TWO32 * q + r && 0 <= r < TWO32
    ensures x / TWO32 == q && x % TWO32 == r
  {
  }

  /** The offset `Unwrap` works with. */
  lemma OffsetIs(n: u32, isn: u32)
    ensures U64(U64(n - isn) + TWO32) % TWO32 == (n - isn) % TWO32
  {
    LowBitsSurvive(U64(n - isn) + TWO32);
    SameRemainder(U64(n - isn), 1);
    LowBitsSurvive(n - isn);
  }

  /** A number wraps to `n` exactly when its low 32 bits are the offset from the initial number. */
  lemma WrapsToIff(v: u64, n: u32, isn: u32)
    ensures Wrap(v, isn) == n <==> v % TWO32 == (n - isn) % TWO32
  {
    LowBitsSurvive(isn + v);
    var q, low := v / TWO32, v % TWO32;
    SameRemainder(isn + low, q);
    SumWrapsToIff(low, n, isn);
  }

  lemma SumWrapsToIff(low: u32, n: u32, isn: u32)
    ensures (isn + low) % TWO32 == n <==> low == (n - isn) % TWO32
  {
  }

  /** Numbers less than an era apart are told apart. */
  lemma WrapInjective(m: nat, n: nat, isn: u32)
    requires m < TWO32 && n < TWO32
    ensures Wrap(m, isn) == Wrap(n, isn) <==> m == n
  {
    hide Wrap;
    WrapsToIff(m, Wrap(n, isn), isn);
    WrapsToIff(n, Wrap(n, isn), isn);
  }

  /** The number before. */
  lemma WrapBefore(n: nat, isn: u32)
    requires n > 0
    ensures Wrap(n - 1, isn) == (Wrap(n, isn) - 1) % TWO32
  {
    LowBitsSurvive(isn + n);
    LowBitsSurvive(isn + n - 1);
    hide U64;
    var q, low := (isn + n) / TWO32, (isn + n) % TWO32;
    SameRemainder(low - 1, q);
    assert isn + n - 1 == low - 1 + TWO32 * q;
  }

  /** The three candidates, in terms of the checkpoint's era. */
  lemma UnwrapForm(n: u32, isn: u32, checkpoint: u64)
    ensures var d, era, low := (n - isn) % TWO32, checkpoint / TWO32, checkpoint % TWO32;
            Unwrap(n, isn, checkpoint) ==
              if d > low + TWO31 && era > 0 then (era - 1) * TWO32 + d
              else if low > d + TWO31 then (if era == TWO32 - 1 then d else (era + 1) * TWO32 + d)
              else era * TWO32 + d
  {
    OffsetIs(n, isn);
    var d, era := (n - isn) % TWO32, checkpoint / TWO32;
    EraOf(checkpoint);
    ThisEra(d, era);
    NextEra(d, era);
    hide U64;
  }

  lemma EraOf(checkpoint: u64)
    ensures checkpoint == checkpoint / TWO32 * TWO32 + checkpoint % TWO32 && checkpoint / TWO32 < TWO32
  {
  }

  lemma ThisEra(d: u32, era: nat)
    requires era < TWO32
    ensures U64(d + era * TWO32) == era * TWO32 + d
  {
  }

  lemma NextEra(d: u32, era: nat)
    requires era < TWO32
    ensures U64(era * TWO32 + d + TWO32) == if era == TWO32 - 1 then d else (era + 1) * TWO32 + d
  {
  }

  lemma UnwrapWrapsBack(n: u32, isn: u32, checkpoint: u64)
    ensures Wrap(Unwrap(n, isn, checkpoint), isn) == n
  {
    hide Wrap, Unwrap;
    var d, era := (n - isn) % TWO32, checkpoint / TWO32;
    UnwrapForm(n, isn, checkpoint);
    OffsetInEra(d, era - 1);
    OffsetInEra(d, era);
    OffsetInEra(d, era + 1);
    OffsetInEra(d, 0);
    WrapsToIff(Unwrap(n, isn, checkpoint), n, isn);
  }

  lemma OffsetInEra(d: u32, era: int)
    ensures (era * TWO32 + d) % TWO32 == d
  {
    QuotientUnique(era * TWO32 + d, era, d);
  }

  lemma NearerThan(n: u32, isn: u32, checkpoint: u64, v: u64)
    requires !TopOfRange(n, isn, checkpoint) && Wrap(v, isn) == n
    ensures Distance(Unwrap(n, isn, checkpoint), checkpoint) <= Distance(v, checkpoint)
  {
    WrapsToIff(v, n, isn);
    UnwrapForm(n, isn, checkpoint);
    var r := Unwrap(n, isn, checkpoint);
    ClosestEra((n - isn) % TWO32, checkpoint / TWO32, checkpoint % TWO32, v / TWO32, r);
  }

  /** The same choice on plain numbers: eras `e` and `j`, offsets `d` and `low` within them. */
  lemma ClosestEra(d: u32, e: nat, low: u32, j: nat, r: nat)
    requires j < TWO32 && e < TWO32 && !(e == TWO32 - 1 && low > d + TWO31)
    requires r == if d > low + TWO31 && e > 0 then (e - 1) * TWO32 + d
                  else if low > d + TWO31 then (e + 1) * TWO32 + d
                  else e * TWO32 + d
    ensures Distance(r, e * TWO32 + low) <= Distance(j * TWO32 + d, e * TWO32 + low)
  {
    if j < e {
      assert j * TWO32 <= (e - 1) * TWO32;
    } else if j > e {
      assert j * TWO32 >= (e + 1) * TWO32;
    }
  }

  /** No 64-bit number with the same low bits is closer to the checkpoint, exactly when the
      nearest one is representable. */
  lemma UnwrapIsNearestIff(n: u32, isn: u32, checkpoint: u64)
    ensures (forall v: u64 :: Wrap(v, isn) == n ==>
                Distance(Unwrap(n, isn, checkpoint), checkpoint) <= Distance(v, checkpoint))
            <==> !TopOfRange(n, isn, checkpoint)
  {
    var d, era := (n - isn) % TWO32, checkpoint / TWO32;
    UnwrapForm(n, isn, checkpoint);
    if TopOfRange(n, isn, checkpoint) {
      var v: u64 := era * TWO32 + d;
      QuotientUnique(v, era, d);
      WrapsToIff(v, n, isn);
      assert Wrap(v, isn) == n;
    } else {
      forall v: u64 | Wrap(v, isn) == n
        ensures Distance(Unwrap(n, isn, checkpoint), checkpoint) <= Distance(v, checkpoint)
      {
        NearerThan(n, isn, checkpoint, v);
      }
    }
  }

  /** At the very top it does miss: the last number of all lies half an era and more past the last one
      that wraps to zero, and zero itself is returned. */
  lemma UnwrapCanMiss()
    ensures Unwrap(0, 0, TWO64 - 1) == 0
    ensures Wrap(0xFFFF_FFFF_0000_0000, 0) == 0 && 0xFFFF_FFFF_0000_0000 < TWO64 - 1
  {
  }

  lemma UnwrapInvertsWrap(v: u64, isn: u32, checkpoint: u64)
    requires Distance(v, checkpoint) < TWO31
    ensures Unwrap(Wrap(v, isn), isn, checkpoint) == v
  {
    var n := Wrap(v, isn);
    WrapsToIff(v, n, isn);
    UnwrapForm(n, isn, checkpoint);
    OnlyEra(v % TWO32, v / TWO32, checkpoint / TWO32, checkpoint % TWO32);
  }

  lemma OnlyEra(d: u32, j: nat, e: nat, low: u32)
    requires j < TWO32 && e < TWO32 && Distance(j * TWO32 + d, e * TWO32 + low) < TWO31
    ensures j == if d > low + TWO31 && e > 0 then e - 1
                 else if low > d + TWO31 && e < TWO32 - 1 then e + 1 else e
    ensures low > d + TWO31 ==> e < TWO32 - 1
  {
  }
}
