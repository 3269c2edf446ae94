/** Integers in network byte order: reading them off a buffer and appending them to a string. */
module Parsing {
  import opened Words

  datatype ParseResult =
    NoError | BadChecksum | PacketTooShort | WrongIPVersion | HeaderTooShort | TruncatedPacket | Unsupported

  // ---- values ----

  function Pow256(n: nat): (p: nat)
    ensures p > 0
  {
    if n == 0 then 1 else 256 * Pow256(n - 1)
  }

  /** `val` in `len` bytes, most significant first. */
  function BigEndian(val: nat, len: nat): (b: Bytes)
    ensures |b| == len
  {
    if len == 0 then [] else BigEndian(val / 256, len - 1) + [val % 256]
  }

  /** Shifting right by `n` bytes. */
  function ShiftBytes(val: nat, n: nat): nat {
    if n == 0 then val else ShiftBytes(val / 256, n - 1)
  }

  function FromBigEndian(b: Bytes): nat {
    if b == [] then 0 else FromBigEndian(b[..|b| - 1]) * 256 + b[|b| - 1]
  }

  /** A buffer being read, and the first thing that went wrong. */
  datatype Parser = Parser(buffer: Bytes, error: ParseResult)

  function CheckSize(p: Parser, size: nat): Parser {
    if size > |p.buffer| then p.(error := PacketTooShort) else p
  }

  /** The integer in the next `len` bytes, or zero after an error. */
  function IntOf(p: Parser, len: nat): (n: nat)
    ensures n < Pow256(len)
  {
    var p := CheckSize(p, len);
    if p.error != NoError then 0
    else
      FromBound(p.buffer[..len]);
      FromBigEndian(p.buffer[..len])
  }

  lemma {:induction false} FromBound(b: Bytes)
    ensures FromBigEndian(b) < Pow256(|b|)
  {
    if b == [] {
    } else {
      FromBound(b[..|b| - 1]);
    }
  }

  function After(p: Parser, len: nat): Parser {
    var p := CheckSize(p, len);
    if p.error != NoError then p else p.(buffer := p.buffer[len..])
  }

  /** Integers of the given widths, one after the other. */
  function IntsOf(p: Parser, widths: seq<nat>): (vals: seq<nat>)
    ensures |vals| == |widths| && forall i :: 0 <= i < |vals| ==> vals[i] < Pow256(widths[i])
    decreases |widths|
  {
    if widths == [] then [] else [IntOf(p, widths[0])] + IntsOf(After(p, widths[0]), widths[1..])
  }

  function AfterAll(p: Parser, widths: seq<nat>): Parser
    decreases |widths|
  {
    if widths == [] then p else AfterAll(After(p, widths[0]), widths[1..])
  }

  function Sum(widths: seq<nat>): nat {
    if widths == [] then 0 else widths[0] + Sum(widths[1..])
  }

  function BigEndians(vals: seq<nat>, widths: seq<nat>): (b: Bytes)
    requires |vals| == |widths|
    ensures |b| == Sum(widths)
  {
    if vals == [] then [] else BigEndian(vals[0], widths[0]) + BigEndians(vals[1..], widths[1..])
  }

  // ---- laws ----

  lemma FromSnoc(b: Bytes, x: u8)
    ensures FromBigEndian(b + [x]) == FromBigEndian(b) * 256 + x
  {
    assert (b + [x])[..|b|] == b;
  }

  lemma NoDigits(val: nat)
    ensures FromBigEndian(BigEndian(val, 0)) == 0 && Pow256(0) == 1
  {
  }

  lemma LastDigit(val: nat, len: nat)
    requires len > 0
    ensures BigEndian(val, len) == BigEndian(val / 256, len - 1) + [val % 256] && Pow256(len) == 256 * Pow256(len - 1)
  {
  }

  /** Writing and reading back an integer that fits keeps it. */
  lemma {:induction false} BigEndianRoundTrip(val: nat, len: nat)
    requires val < Pow256(len)
    ensures FromBigEndian(BigEndian(val, len)) == val
  {
    hide FromBigEndian, BigEndian, Pow256;
    if len == 0 {
      NoDigits(val);
    } else {
      LastDigit(val, len);
      LeadingFits(val, Pow256(len - 1));
      BigEndianRoundTrip(val / 256, len - 1);
      FromSnoc(BigEndian(val / 256, len - 1), val % 256);
    }
  }

  lemma LeadingFits(val: nat, p: nat)
    requires val < 256 * p
    ensures val / 256 < p && val / 256 * 256 + val % 256 == val
  {
  }

  lemma {:induction false} ShiftOneMore(val: nat, n: nat)
    ensures ShiftBytes(val, n) / 256 == ShiftBytes(val, n + 1)
  {
    if n == 0 {
    } else {
      ShiftOneMore(val / 256, n - 1);
    }
  }

  /** Reading an integer just written in front of `rest`. */
  lemma ReadsBack(val: nat, len: nat, rest: Bytes)
    requires val < Pow256(len)
    ensures IntOf(Parser(BigEndian(val, len) + rest, NoError), len) == val
    ensures After(Parser(BigEndian(val, len) + rest, NoError), len) == Parser(rest, NoError)
  {
    var b := BigEndian(val, len) + rest;
    assert b[..len] == BigEndian(val, len) && b[len..] == rest;
    BigEndianRoundTrip(val, len);
  }

  lemma {:induction false} AllReadBack(vals: seq<nat>, widths: seq<nat>, rest: Bytes)
    requires |vals| == |widths| && forall i :: 0 <= i < |vals| ==> vals[i] < Pow256(widths[i])
    ensures var p := Parser(BigEndians(vals, widths) + rest, NoError);
            IntsOf(p, widths) == vals && AfterAll(p, widths) == Parser(rest, NoError)
    decreases |vals|
  {
    hide BigEndian, FromBigEndian, IntOf, After, Pow256;
    var b := BigEndians(vals, widths);
    if vals == [] {
      assert b + rest == rest;
    } else {
      var tail := BigEndians(vals[1..], widths[1..]);
      ReadsBack(vals[0], widths[0], tail + rest);
      AllReadBack(vals[1..], widths[1..], rest);
      assert b + rest == BigEndian(vals[0], widths[0]) + (tail + rest);
    }
  }

  /** Reading within the buffer. */
  lemma {:induction false} AfterAllIs(p: Parser, widths: seq<nat>)
    requires p.error == NoError && Sum(widths) <= |p.buffer|
    ensures AfterAll(p, widths) == Parser(p.buffer[Sum(widths)..], NoError)
    decreases |widths|
  {
    if widths != [] {
      AfterAllIs(After(p, widths[0]), widths[1..]);
    } else {
      assert p.buffer[0..] == p.buffer;
    }
  }

  lemma {:induction false} ErrorStays(p: Parser, widths: seq<nat>)
    requires p.error == PacketTooShort
    ensures AfterAll(p, widths).error == PacketTooShort
    ensures forall i :: 0 <= i < |widths| ==> IntsOf(p, widths)[i] == 0
    decreases |widths|
  {
    if widths == [] {
    } else {
      ErrorStays(After(p, widths[0]), widths[1..]);
    }
  }

  /** Reading past the end of the buffer: the integers that still lie in it are read, the others are zero, and
      the buffer was too short. */
  lemma {:induction false} AfterAllShort(p: Parser, widths: seq<nat>) returns (k: nat)
    requires p.error == NoError && Sum(widths) > |p.buffer|
    ensures k < |widths| && Sum(widths[..k]) <= |p.buffer| < Sum(widths[..k + 1])
    ensures AfterAll(p, widths).error == PacketTooShort
    ensures forall i :: k <= i < |widths| ==> IntsOf(p, widths)[i] == 0
    decreases |widths|
  {
    hide IntOf;
    OffsetStep(widths, 0);
    if |p.buffer| < widths[0] {
      k := 0;
      ErrorStays(After(p, widths[0]), widths[1..]);
      ShortIsZero(p, widths[0]);
    } else {
      var j := AfterAllShort(After(p, widths[0]), widths[1..]);
      k := j + 1;
      assert widths[..k][1..] == widths[1..][..j] && widths[..k + 1][1..] == widths[1..][..k];
    }
  }

  lemma ShortIsZero(p: Parser, len: nat)
    requires len > |p.buffer|
    ensures IntOf(p, len) == 0
  {
  }

  lemma {:induction false} IntsAppend(p: Parser, widths: seq<nat>, w: nat)
    ensures IntsOf(p, widths + [w]) == IntsOf(p, widths) + [IntOf(AfterAll(p, widths), w)]
    ensures AfterAll(p, widths + [w]) == After(AfterAll(p, widths), w)
    decreases |widths|
  {
    hide IntOf, After;
    if widths == [] {
      assert widths + [w] == [w] && [w][1..] == [];
    } else {
      assert (widths + [w])[1..] == widths[1..] + [w];
      IntsAppend(After(p, widths[0]), widths[1..], w);
    }
  }

  lemma {:induction false} BigEndiansConcat(vals: seq<nat>, widths: seq<nat>, vals': seq<nat>, widths': seq<nat>)
    requires |vals| == |widths| && |vals'| == |widths'|
    ensures BigEndians(vals + vals', widths + widths') == BigEndians(vals, widths) + BigEndians(vals', widths')
    decreases |vals|
  {
    hide BigEndian;
    if vals == [] {
      assert vals + vals' == vals' && widths + widths' == widths';
    } else {
      assert (vals + vals')[1..] == vals[1..] + vals' && (widths + widths')[1..] == widths[1..] + widths';
      BigEndiansConcat(vals[1..], widths[1..], vals', widths');
    }
  }

  lemma OffsetStep(widths: seq<nat>, k: nat)
    requires k < |widths|
    ensures Sum(widths[..k + 1]) == Sum(widths[..k]) + widths[k]
    decreases k
  {
    if k == 0 {
      assert widths[..1] == [widths[0]] && [widths[0]][1..] == [] && widths[..0] == [];
    } else {
      OffsetStep(widths[1..], k - 1);
      assert widths[..k + 1][1..] == widths[1..][..k] && widths[..k][1..] == widths[1..][..k - 1];
    }
  }

  /** Each integer lies where the widths before it add up to. */
  lemma {:induction false} FieldAt(vals: seq<nat>, widths: seq<nat>, k: nat)
    requires |vals| == |widths| && k < |vals|
    ensures var b, at := BigEndians(vals, widths), Sum(widths[..k]);
            at + widths[k] <= |b| && b[at..at + widths[k]] == BigEndian(vals[k], widths[k])
    decreases k
  {
    hide BigEndian;
    var first, rest := BigEndian(vals[0], widths[0]), BigEndians(vals[1..], widths[1..]);
    if k == 0 {
      assert widths[..0] == [] && (first + rest)[..widths[0]] == first;
    } else {
      FieldAt(vals[1..], widths[1..], k - 1);
      assert widths[..k][1..] == widths[1..][..k - 1];
      var at := Sum(widths[1..][..k - 1]);
      assert (first + rest)[widths[0] + at..widths[0] + at + widths[k]] == rest[at..at + widths[k]];
    }
  }

  lemma OneDigit(x: nat)
    requires x < 0x100
    ensures BigEndian(x, 1) == [x]
  {
    assert BigEndian(x, 1) == BigEndian(x / 256, 0) + [x % 256];
  }

  lemma TwoDigits(x: nat)
    requires x < TWO16
    ensures BigEndian(x, 2) == [x / 256, x % 256]
  {
    OneDigit(x / 256);
    assert BigEndian(x, 2) == BigEndian(x / 256, 1) + [x % 256];
  }

  lemma FourDigits(x: nat)
    requires x < TWO32
    ensures BigEndian(x, 4) == BigEndian(x / TWO16, 2) + BigEndian(x % TWO16, 2)
  {
    var high, low := x / TWO16, x % TWO16;
    TwoDigits(low);
    assert x / 256 / 256 == high && low / 256 == x / 256 % 256;
    assert BigEndian(x, 4) == BigEndian(x / 256, 3) + [x % 256];
    assert BigEndian(x / 256, 3) == BigEndian(high, 2) + [x / 256 % 256];
  }

  /** The 16-bit number at a place in some bytes, most significant byte first, and the 32-bit one. */
  function Word(b: Bytes, at: nat): u16
    requires at + 2 <= |b|
  {
    (b[at] as int) * 256 + b[at + 1]
  }

  function LongWord(b: Bytes, at: nat): u32
    requires at + 4 <= |b|
  {
    Word(b, at) * TWO16 + Word(b, at + 2)
  }

  lemma ByteAt(b: Bytes, at: nat, x: u8)
    requires at + 1 <= |b| && b[at..at + 1] == BigEndian(x, 1)
    ensures b[at] == x
  {
    OneDigit(x);
    assert b[at] == b[at..at + 1][0];
  }

  lemma WordAt(b: Bytes, at: nat, x: u16)
    requires at + 2 <= |b| && b[at..at + 2] == BigEndian(x, 2)
    ensures Word(b, at) == x
  {
    TwoDigits(x);
    assert b[at] == b[at..at + 2][0] && b[at + 1] == b[at..at + 2][1];
  }

  lemma LongWordAt(b: Bytes, at: nat, x: u32)
    requires at + 4 <= |b| && b[at..at + 4] == BigEndian(x, 4)
    ensures LongWord(b, at) == x
  {
    hide BigEndian;
    FourDigits(x);
    var high, low := BigEndian(x / TWO16, 2), BigEndian(x % TWO16, 2);
    assert b[at..at + 2] == b[at..at + 4][..2] == high;
    assert b[at + 2..at + 4] == b[at..at + 4][2..] == low;
    WordAt(b, at, x / TWO16);
    WordAt(b, at + 2, x % TWO16);
  }

  lemma OneBigEndian(val: nat, w: nat)
    ensures BigEndians([val], [w]) == BigEndian(val, w)
  {
    assert [val][1..] == [] && [w][1..] == [];
  }

  // ---- the objects ----

  class NetParser {
    var buffer: Bytes
    var error: ParseResult

    ghost function State(): Parser
      reads this
    {
      Parser(buffer, error)
    }

    constructor (buffer: Bytes)
      ensures State() == Parser(buffer, NoError)
    {
      this.buffer := buffer;
      error := NoError;
    }

    method ParseInt(len: nat) returns (ret: nat)
      modifies this
      ensures ret == IntOf(old(State()), len) && State() == After(old(State()), len)
    {
      if len > |buffer| {
        error := PacketTooShort;
      }
      if error != NoError {
        return 0;
      }
      ret := 0;
      for i := 0 to len
        invariant ret == FromBigEndian(buffer[..i])
        invariant State() == old(State())
      {
        ret := ret * 256;
        ret := ret + buffer[i];
        assert buffer[..i + 1][..i] == buffer[..i];
      }
      buffer := buffer[len..];
    }

    /** Read one more integer, keeping track of all that were read since `start`. */
    method Field(w: nat, ghost start: Parser, ghost widths: seq<nat>, ghost vals: seq<nat>)
      returns (ret: nat, ghost widths': seq<nat>, ghost vals': seq<nat>)
      requires State() == AfterAll(start, widths) && IntsOf(start, widths) == vals
      modifies this
      ensures widths' == widths + [w] && vals' == vals + [ret]
      ensures State() == AfterAll(start, widths') && IntsOf(start, widths') == vals' && ret < Pow256(w)
    {
      IntsAppend(start, widths, w);
      ret := ParseInt(w);
      widths', vals' := widths + [w], vals + [ret];
    }

    method RemovePrefix(n: nat)
      modifies this
      ensures State() == After(old(State()), n)
    {
      if n > |buffer| {
        error := PacketTooShort;
      }
      if error != NoError {
        return;
      }
      buffer := buffer[n..];
    }
  }

  method UnparseInt(s: Bytes, val: nat, len: nat) returns (s': Bytes)
    ensures s' == s + BigEndian(val, len)
  {
    s' := s;
    for i := 0 to len
      invariant s' == s + BigEndian(ShiftBytes(val, len - i), i)
    {
      var theByte := ShiftBytes(val, len - i - 1) % 256;
      ShiftOneMore(val, len - i - 1);
      s' := s' + [theByte];
    }
  }

  /** Append one more integer, keeping track of all that were appended. */
  method AppendField(s: Bytes, val: nat, w: nat, ghost vals: seq<nat>, ghost widths: seq<nat>)
    returns (s': Bytes, ghost vals': seq<nat>, ghost widths': seq<nat>)
    requires |vals| == |widths| && s == BigEndians(vals, widths)
    ensures s' == s + BigEndian(val, w)
    ensures vals' == vals + [val] && widths' == widths + [w] && s' == BigEndians(vals', widths')
  {
    s' := UnparseInt(s, val, w);
    vals', widths' := vals + [val], widths + [w];
    BigEndiansConcat(vals, widths, [val], [w]);
    OneBigEndian(val, w);
  }
}
