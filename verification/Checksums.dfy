/** The Internet checksum: sixteen-bit words added up, carries folded back in, and complemented. */
module Checksums {
  import opened Words
  import opened Parsing

  /** A running sum, and whether the next byte is the low half of its word. */
  datatype Checksum = Checksum(sum: u32, parity: bool)

  function WordOf(x: u8, parity: bool): nat {
    if parity then x else x * 256
  }

  /** Adding bytes in 32-bit arithmetic. */
  function Add(c: Checksum, data: Bytes): Checksum
    decreases |data|
  {
    if data == [] then c
    else Add(Checksum((c.sum + WordOf(data[0], c.parity)) % TWO32, !c.parity), data[1..])
  }

  /** Folding the carries until sixteen bits remain. */
  function Fold(x: nat): nat
    decreases x
  {
    if x <= 0xffff then x else Fold(x / TWO16 + x % TWO16)
  }

  function Value(c: Checksum): u16 {
    (0xffff - Fold(c.sum)) % TWO16
  }

  /** The sum of the words as a mathematical integer. */
  function WordSum(data: Bytes, parity: bool): nat {
    if data == [] then 0 else WordOf(data[0], parity) + WordSum(data[1..], !parity)
  }

  predicate ParityAfter(parity: bool, len: nat) {
    parity != (len % 2 == 1)
  }

  // ---- laws ----

  lemma {:induction false} WordSumBound(data: Bytes, parity: bool)
    ensures WordSum(data, parity) <= 65280 * |data|
  {
    if data == [] {
    } else {
      WordSumBound(data[1..], !parity);
    }
  }

  /** As long as the sum fits 32 bits the arithmetic is exact. */
  lemma {:induction false} AddIsSum(c: Checksum, data: Bytes)
    requires c.sum + WordSum(data, c.parity) < TWO32
    ensures Add(c, data) == Checksum(c.sum + WordSum(data, c.parity), ParityAfter(c.parity, |data|))
    decreases |data|
  {
    if data == [] {
    } else {
      var c1 := Checksum((c.sum + WordOf(data[0], c.parity)) % TWO32, !c.parity);
      assert c1.sum == c.sum + WordOf(data[0], c.parity);
      AddIsSum(c1, data[1..]);
    }
  }

  lemma {:induction false} WordSumConcat(a: Bytes, b: Bytes, parity: bool)
    ensures WordSum(a + b, parity) == WordSum(a, parity) + WordSum(b, ParityAfter(parity, |a|))
    decreases |a|
  {
    if a == [] {
      assert a + b == b;
    } else {
      WordSumConcat(a[1..], b, !parity);
      assert (a + b)[1..] == a[1..] + b;
    }
  }

  /** A word laid down at an even offset adds exactly itself. */
  lemma WordSumWord(w: u16)
    ensures WordSum(BigEndian(w, 2), false) == w && |BigEndian(w, 2)| == 2
  {
    assert BigEndian(w / 256, 1) == BigEndian(w / 256 / 256, 0) + [w / 256 % 256] == [w / 256];
    var b := BigEndian(w, 2);
    assert b == [w / 256, w % 256];
    assert b[1..] == [w % 256] && b[1..][1..] == [];
    assert WordSum(b[1..], true) == w % 256 + WordSum([], false);
  }

  /** Folding keeps the residue modulo 65535 and loses only zero to zero. */
  lemma {:induction false} FoldLaw(x: nat)
    ensures Fold(x) <= 0xffff && Fold(x) % 0xffff == x % 0xffff && (Fold(x) == 0 <==> x == 0)
    decreases x
  {
    if x <= 0xffff {
    } else {
      var y := x / TWO16 + x % TWO16;
      FoldLaw(y);
      SameResidue(x, y);
    }
  }

  lemma SameResidue(x: nat, y: nat)
    requires y == x / TWO16 + x % TWO16
    ensures x % 0xffff == y % 0xffff
  {
    var q := x / TWO16;
    assert x == 0xffff * q + y;
    ResidueShift(y, q);
  }

  lemma ResidueShift(y: nat, q: nat)
    ensures (0xffff * q + y) % 0xffff == y % 0xffff
  {
    var k, r := y / 0xffff, y % 0xffff;
    OneQuotient(0xffff * q + y, q + k, r);
  }

  lemma OneQuotient(x: nat, q: nat, r: nat)
    requires x == 0xffff * q + r && r < 0xffff
    ensures x % 0xffff == r
  {
  }

  /** A sum passes exactly when it is a positive multiple of 65535. */
  lemma ValueZeroIff(c: Checksum)
    ensures Value(c) == 0 <==> c.sum > 0 && c.sum % 0xffff == 0
  {
    FoldLaw(c.sum);
  }

  /** Adding the checksum of a sum to that sum makes it pass. */
  lemma ChecksumPasses(c: Checksum, d: Checksum)
    requires d.sum == c.sum + Value(c)
    ensures Value(d) == 0
  {
    FoldLaw(c.sum);
    var f := Fold(c.sum);
    var q, r := c.sum / 0xffff, c.sum % 0xffff;
    assert d.sum == 0xffff * q + (r + (0xffff - f));
    ResidueShift(r + (0xffff - f), q);
    ValueZeroIff(d);
  }

  /** Data that passes still passes with one aligned word replaced exactly when both words are the
      same modulo 65535 and not everything added up is zero: every other single-word error is caught. */
  lemma {:induction false} WordErrorCaughtIff(sum: u32, before: Bytes, w: u16, w': u16, after: Bytes)
    requires |before| % 2 == 0 && sum + 65280 * (|before| + 2 + |after|) < TWO32
    requires Value(Add(Checksum(sum, false), before + (BigEndian(w, 2) + after))) == 0
    ensures Value(Add(Checksum(sum, false), before + (BigEndian(w', 2) + after))) == 0
            <==> w % 0xffff == w' % 0xffff && sum + WordSum(before, false) + w' + WordSum(after, false) > 0
  {
    hide Add, Fold, WordSum, BigEndian;
    var rest := sum + WordSum(before, false) + WordSum(after, false);
    SumOfThree(sum, before, w, after);
    SumOfThree(sum, before, w', after);
    ValueZeroIff(Add(Checksum(sum, false), before + (BigEndian(w, 2) + after)));
    ValueZeroIff(Add(Checksum(sum, false), before + (BigEndian(w', 2) + after)));
    ResidueCancel(rest, w, w');
  }

  lemma {:induction false} SumOfThree(sum: u32, before: Bytes, w: u16, after: Bytes)
    requires |before| % 2 == 0 && sum + 65280 * (|before| + 2 + |after|) < TWO32
    ensures Add(Checksum(sum, false), before + (BigEndian(w, 2) + after)).sum
            == sum + WordSum(before, false) + WordSum(after, false) + w
  {
    var word := BigEndian(w, 2);
    WordSumBound(before + (word + after), false);
    WordSumConcat(before, word + after, false);
    WordSumConcat(word, after, false);
    WordSumWord(w);
    AddIsSum(Checksum(sum, false), before + (word + after));
  }

  lemma ResidueCancel(rest: nat, w: u16, w': u16)
    requires (rest + w) % 0xffff == 0
    ensures (rest + w') % 0xffff == 0 <==> w % 0xffff == w' % 0xffff
  {
  }

  /** Filling in the checksum of everything else makes the whole pass. */
  lemma {:induction false} FilledInPasses(sum: u32, before: Bytes, after: Bytes)
    requires |before| % 2 == 0 && sum + 65280 * (|before| + 2 + |after|) < TWO32
    ensures var c := Value(Add(Checksum(sum, false), before + (BigEndian(0, 2) + after)));
            Value(Add(Checksum(sum, false), before + (BigEndian(c, 2) + after))) == 0
  {
    hide Add, Fold, WordSum, BigEndian;
    var c := Value(Add(Checksum(sum, false), before + (BigEndian(0, 2) + after)));
    SumOfThree(sum, before, 0, after);
    SumOfThree(sum, before, c, after);
    ChecksumPasses(Add(Checksum(sum, false), before + (BigEndian(0, 2) + after)),
                   Add(Checksum(sum, false), before + (BigEndian(c, 2) + after)));
  }

  // ---- the object ----

  class InternetChecksum {
    var sum: u32
    var parity: bool

    ghost function State(): Checksum
      reads this
    {
      Checksum(sum, parity)
    }

    constructor (initialSum: u32)
      ensures State() == Checksum(initialSum, false)
    {
      sum, parity := initialSum, false;
    }

    method AddBytes(data: Bytes)
      modifies this
      ensures State() == Add(old(State()), data)
    {
      for i := 0 to |data|
        invariant Add(State(), data[i..]) == Add(old(State()), data)
      {
        var val: int := data[i];
        if !parity {
          val := val * 256;
        }
        assert data[i..][1..] == data[i + 1..];
        sum := (sum + val) % TWO32;
        parity := !parity;
      }
      assert data[|data|..] == [];
    }

    method GetValue() returns (v: u16)
      ensures v == Value(State())
    {
      var ret: nat := sum;
      while ret > 0xffff
        invariant Fold(ret) == Fold(sum)
      {
        ret := ret / TWO16 + ret % TWO16;
      }
      v := 0xffff - ret;
    }
  }
}
