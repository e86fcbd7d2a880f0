/**
 * The two reflected cyclic redundancy checks, kernel/runtime/crc32c.c (CRC-32C, section 12.1 of
 * RFC 3720) and kernel/runtime/crc32.c (CRC-32), which differ only in their polynomial.
 */
module Crc {
  const CASTAGNOLI: bv32 := 0x82f6_3b78
  const IEEE: bv32 := 0xedb8_8320

  /** One shift of the register: divide by x, subtracting the polynomial when a one falls out. */
  function Shift(poly: bv32, c: bv32): bv32 {
    (c >> 1) ^ (if c & 1 == 1 then poly else 0)
  }

  function Shifts(poly: bv32, c: bv32, n: nat): bv32
    decreases n
  {
    if n == 0 then c else Shifts(poly, Shift(poly, c), n - 1)
  }

  /** Sum of two registers, as polynomials over one bit. */
  function Join(c: bv32, d: bv32): bv32 { c ^ d }

  function Flip(c: bv32): bv32 { !c }

  function Wide(b: bv8): bv32 { b as bv32 }

  /** The bit-serial definition: the low n bits of b enter the register one at a time. */
  function FeedBits(poly: bv32, c: bv32, b: bv8, n: nat): bv32
    decreases n
  {
    if n == 0 then c else FeedBits(poly, Shift(poly, Join(c, Wide(b & 1))), b >> 1, n - 1)
  }

  function Feed(poly: bv32, c: bv32, data: seq<bv8>): bv32
    decreases |data|
  {
    if data == [] then c else Feed(poly, FeedBits(poly, c, data[0], 8), data[1..])
  }

  /** The check of a message, by feeding its bits to the complemented seed. */
  function Check(poly: bv32, seed: bv32, data: seq<bv8>): bv32 {
    Flip(Feed(poly, Flip(seed), data))
  }

  ghost predicate Monic(poly: bv32) {
    poly & 0x8000_0000 == 0x8000_0000
  }

  lemma JoinFacts(c: bv32, d: bv32, e: bv32)
    ensures Join(c, e) == Join(d, e) ==> c == d
    ensures Join(e, c) == Join(e, d) ==> c == d
    ensures Join(c, 0) == c
    ensures Flip(Flip(c)) == c
  {
  }

  lemma ShiftInjective(poly: bv32, c: bv32, d: bv32)
    requires Monic(poly) && Shift(poly, c) == Shift(poly, d)
    ensures c == d
  {
  }

  /** Bits that are not about to fall out pass through a shift unharmed. */
  lemma ShiftLinear(poly: bv32, c: bv32, d: bv32)
    requires d & 1 == 0
    ensures Shift(poly, Join(c, d)) == Join(Shift(poly, c), d >> 1)
  {
    hide Shift;
    ShiftLinearBits(poly, c, d);
  }

  lemma ShiftLinearBits(poly: bv32, c: bv32, d: bv32)
    requires d & 1 == 0
    ensures Shift(poly, c ^ d) == Shift(poly, c) ^ (d >> 1)
  {
  }

  lemma {:induction false} ShiftsInjective(poly: bv32, c: bv32, d: bv32, n: nat)
    requires Monic(poly) && Shifts(poly, c, n) == Shifts(poly, d, n)
    ensures c == d
    decreases n
  {
    hide Shift, Monic;
    if n > 0 {
      ShiftsInjective(poly, Shift(poly, c), Shift(poly, d), n - 1);
      ShiftInjective(poly, c, d);
    }
  }

  lemma {:induction false} ShiftsAdd(poly: bv32, c: bv32, m: nat, n: nat)
    ensures Shifts(poly, c, m + n) == Shifts(poly, Shifts(poly, c, m), n)
    decreases m
  {
    hide Shift;
    if m > 0 {
      ShiftsAdd(poly, Shift(poly, c), m - 1, n);
    }
  }

  lemma SplitLowBit(c: bv32, b: bv8)
    ensures Join(c, Wide(b)) == Join(Join(c, Wide(b & 1)), Wide(b & 0xfe))
    ensures Wide(b & 0xfe) & 1 == 0
    ensures Wide(b & 0xfe) >> 1 == Wide(b >> 1)
  {
  }

  /** The bits of b above the lowest n are zero. */
  ghost predicate Below(b: bv8, n: nat) {
    if n == 0 then b == 0 else Below(b >> 1, n - 1)
  }

  lemma AllBelowEight(b: bv8)
    ensures Below(b, 8)
  {
    assert Below(((((((b >> 1) >> 1) >> 1) >> 1) >> 1) >> 1) >> 1, 1);
    assert Below((((((b >> 1) >> 1) >> 1) >> 1) >> 1) >> 1, 2);
    assert Below(((((b >> 1) >> 1) >> 1) >> 1) >> 1, 3);
    assert Below((((b >> 1) >> 1) >> 1) >> 1, 4);
    assert Below(((b >> 1) >> 1) >> 1, 5);
    assert Below((b >> 1) >> 1, 6);
    assert Below(b >> 1, 7);
  }

  /** Entering the byte at once and shifting is the same as entering its bits one at a time. */
  lemma {:induction false} BitsAtOnce(poly: bv32, c: bv32, b: bv8, n: nat)
    requires Below(b, n)
    ensures FeedBits(poly, c, b, n) == Shifts(poly, Join(c, Wide(b)), n)
    decreases n
  {
    hide Shift, Join;
    if n == 0 {
      JoinFacts(c, c, c);
    } else {
      SplitLowBit(c, b);
      var low := Join(c, Wide(b & 1));
      ShiftLinear(poly, low, Wide(b & 0xfe));
      BitsAtOnce(poly, Shift(poly, low), b >> 1, n - 1);
    }
  }

  lemma ByteAtOnce(poly: bv32, c: bv32, b: bv8)
    ensures FeedBits(poly, c, b, 8) == Shifts(poly, Join(c, Wide(b)), 8)
  {
    hide *;
    AllBelowEight(b);
    BitsAtOnce(poly, c, b, 8);
  }

  lemma {:induction false} FeedConcat(poly: bv32, c: bv32, a: seq<bv8>, b: seq<bv8>)
    ensures Feed(poly, c, a + b) == Feed(poly, Feed(poly, c, a), b)
    decreases |a|
  {
    hide FeedBits;
    if a == [] {
      assert a + b == b;
    } else {
      assert (a + b)[1..] == a[1..] + b;
      FeedConcat(poly, FeedBits(poly, c, a[0], 8), a[1..], b);
    }
  }

  /** Continuing from the check of a gives the check of the whole. */
  lemma Chaining(poly: bv32, seed: bv32, a: seq<bv8>, b: seq<bv8>)
    ensures Check(poly, Check(poly, seed, a), b) == Check(poly, seed, a + b)
  {
    hide Feed, Flip;
    FeedConcat(poly, Flip(seed), a, b);
    JoinFacts(Feed(poly, Flip(seed), a), 0, 0);
  }

  /** The register is a one-to-one function of its start, whatever bytes follow. */
  lemma {:induction false} FeedInjective(poly: bv32, c: bv32, d: bv32, data: seq<bv8>)
    requires Monic(poly) && Feed(poly, c, data) == Feed(poly, d, data)
    ensures c == d
    decreases |data|
  {
    hide FeedBits, Monic, Join, Wide, Shifts;
    if data != [] {
      FeedInjective(poly, FeedBits(poly, c, data[0], 8), FeedBits(poly, d, data[0], 8), data[1..]);
      ByteAtOnce(poly, c, data[0]);
      ByteAtOnce(poly, d, data[0]);
      var b := Wide(data[0]);
      ShiftsInjective(poly, Join(c, b), Join(d, b), 8);
      JoinFacts(c, d, b);
    }
  }

  function Append(rest: bv32, b: bv8): bv32 { (rest << 8) | Wide(b) }

  /** Up to four bytes as one little-endian word. */
  function Word(w: seq<bv8>): bv32 {
    if w == [] then 0 else Append(Word(w[1..]), w[0])
  }

  ghost predicate Bytes(x: bv32, n: nat) {
    if n == 0 then x == 0
    else if n == 1 then x & 0xffff_ff00 == 0
    else if n == 2 then x & 0xffff_0000 == 0
    else if n == 3 then x & 0xff00_0000 == 0
    else true
  }

  lemma NoBytes()
    ensures Bytes(0, 0)
  {
  }

  lemma AppendGrows(x: bv32, b: bv8, n: nat)
    requires Bytes(x, n)
    ensures Bytes(Append(x, b), n + 1)
  {
  }

  lemma AppendInjective(x: bv32, a: bv8, y: bv32, b: bv8, n: nat)
    requires n <= 3 && Bytes(x, n) && Bytes(y, n)
    requires Append(x, a) == Append(y, b)
    ensures x == y && a == b
  {
    TopByteClear(x, n);
    TopByteClear(y, n);
    TopIsFree(x, a, y, b);
  }

  lemma TopIsFree(x: bv32, a: bv8, y: bv32, b: bv8)
    requires x & 0xff00_0000 == 0 && y & 0xff00_0000 == 0
    requires (x << 8) | (a as bv32) == (y << 8) | (b as bv32)
    ensures x == y && a == b
  {
  }

  lemma {:induction false} WordBytes(w: seq<bv8>)
    ensures Bytes(Word(w), |w|)
  {
    hide Append, Bytes;
    if w == [] {
      NoBytes();
    } else {
      WordBytes(w[1..]);
      AppendGrows(Word(w[1..]), w[0], |w| - 1);
    }
  }

  lemma {:induction false} WordInjective(v: seq<bv8>, w: seq<bv8>)
    requires |v| == |w| <= 4 && Word(v) == Word(w)
    ensures v == w
  {
    hide Append, Bytes;
    if v != [] {
      WordBytes(v[1..]);
      WordBytes(w[1..]);
      AppendInjective(Word(v[1..]), v[0], Word(w[1..]), w[0], |v| - 1);
      WordInjective(v[1..], w[1..]);
      assert v == [v[0]] + v[1..];
      assert w == [w[0]] + w[1..];
    }
  }

  /** e moved up by n bits, one at a time, and whether nothing is lost on the way. */
  function Lift(e: bv32, n: nat): bv32 {
    if n == 0 then e else Up(Lift(e, n - 1))
  }

  ghost predicate Fits(e: bv32, n: nat) {
    n > 0 ==> Fits(e, n - 1) && Room(Lift(e, n - 1))
  }

  ghost predicate Room(x: bv32) { x & 0x8000_0000 == 0 }

  lemma LiftDown(x: bv32)
    requires Room(x)
    ensures Up(x) & 1 == 0 && Up(x) >> 1 == x
  {
  }

  lemma {:induction false} ShiftsLinear(poly: bv32, c: bv32, e: bv32, n: nat)
    requires Fits(e, n)
    ensures Shifts(poly, Join(c, Lift(e, n)), n) == Join(Shifts(poly, c, n), e)
    decreases n
  {
    hide Shift, Join;
    if n > 0 {
      var lower := Lift(e, n - 1);
      LiftDown(lower);
      ShiftLinear(poly, c, Lift(e, n));
      ShiftsLinear(poly, Shift(poly, c), e, n - 1);
    }
  }

  /** Moving a register up by one, as a function so that eight moves stay readable. */
  function Up(x: bv32): bv32 { x << 1 }

  lemma EightUp(e: bv32)
    requires e & 0xff00_0000 == 0
    ensures Up(Up(Up(Up(Up(Up(Up(Up(e)))))))) == e << 8
    ensures Room(e) && Room(Up(e)) && Room(Up(Up(e))) && Room(Up(Up(Up(e)))) && Room(Up(Up(Up(Up(e)))))
    ensures Room(Up(Up(Up(Up(Up(e)))))) && Room(Up(Up(Up(Up(Up(Up(e))))))) && Room(Up(Up(Up(Up(Up(Up(Up(e))))))))
  {
  }

  lemma LiftStep(e: bv32, n: nat, x: bv32)
    requires Fits(e, n) && Lift(e, n) == x && Room(x)
    ensures Fits(e, n + 1) && Lift(e, n + 1) == Up(x)
  {
    hide Room, Up;
  }

  lemma LiftEight(e: bv32)
    requires e & 0xff00_0000 == 0
    ensures Fits(e, 8) && Lift(e, 8) == e << 8
  {
    hide Room, Up;
    EightUp(e);
    LiftStep(e, 0, e);
    LiftStep(e, 1, Up(e));
    LiftStep(e, 2, Up(Up(e)));
    LiftStep(e, 3, Up(Up(Up(e))));
    LiftStep(e, 4, Up(Up(Up(Up(e)))));
    LiftStep(e, 5, Up(Up(Up(Up(Up(e))))));
    LiftStep(e, 6, Up(Up(Up(Up(Up(Up(e)))))));
    LiftStep(e, 7, Up(Up(Up(Up(Up(Up(Up(e))))))));
  }

  lemma AppendIsJoin(c: bv32, x: bv32, b: bv8)
    ensures Join(c, Append(x, b)) == Join(Join(c, Wide(b)), x << 8)
  {
  }

  lemma TopByteClear(x: bv32, n: nat)
    requires Bytes(x, n) && n <= 3
    ensures x & 0xff00_0000 == 0
  {
    ByteMasks(x);
  }

  lemma ByteMasks(x: bv32)
    ensures x == 0 ==> x & 0xff00_0000 == 0
    ensures x & 0xffff_ff00 == 0 ==> x & 0xff00_0000 == 0
    ensures x & 0xffff_0000 == 0 ==> x & 0xff00_0000 == 0
  {
  }

  /** A window of at most four bytes enters as one word and is then shifted through. */
  lemma {:induction false} WindowAtOnce(poly: bv32, c: bv32, w: seq<bv8>)
    requires |w| <= 4
    ensures Feed(poly, c, w) == Shifts(poly, Join(c, Word(w)), 8 * |w|)
    decreases |w|
  {
    hide Append, Bytes, Join, Wide, Shifts, FeedBits, Fits, Lift;
    if w == [] {
      JoinFacts(c, c, c);
      NoShifts(poly, c);
    } else {
      var rest := Word(w[1..]);
      var first := Join(c, Wide(w[0]));
      WordBytes(w[1..]);
      TopByteClear(rest, |w| - 1);
      ByteAtOnce(poly, c, w[0]);
      WindowAtOnce(poly, Shifts(poly, first, 8), w[1..]);
      AppendIsJoin(c, rest, w[0]);
      LiftEight(rest);
      ShiftsLinear(poly, first, rest, 8);
      ShiftsAdd(poly, Join(c, Word(w)), 8, 8 * (|w| - 1));
    }
  }

  lemma NoShifts(poly: bv32, c: bv32)
    ensures Shifts(poly, c, 0) == c
  {
  }

  /**
   * Two messages that differ, but only within one window of at most four consecutive bytes,
   * never have the same check.
   */
  lemma BurstDetected(poly: bv32, seed: bv32, before: seq<bv8>, v: seq<bv8>, w: seq<bv8>, after: seq<bv8>)
    requires Monic(poly) && |v| == |w| <= 4 && v != w
    ensures Check(poly, seed, before + v + after) != Check(poly, seed, before + w + after)
  {
    hide Feed, Flip, Monic, Join, Word, Shifts;
    var c := Feed(poly, Flip(seed), before);
    FeedConcat(poly, Flip(seed), before, v);
    FeedConcat(poly, Flip(seed), before + v, after);
    FeedConcat(poly, Flip(seed), before, w);
    FeedConcat(poly, Flip(seed), before + w, after);
    var x, y := Feed(poly, c, v), Feed(poly, c, w);
    JoinFacts(Feed(poly, x, after), 0, 0);
    JoinFacts(Feed(poly, y, after), 0, 0);
    if Feed(poly, x, after) == Feed(poly, y, after) {
      FeedInjective(poly, x, y, after);
      WindowAtOnce(poly, c, v);
      WindowAtOnce(poly, c, w);
      ShiftsInjective(poly, Join(c, Word(v)), Join(c, Word(w)), 8 * |v|);
      JoinFacts(Word(v), Word(w), c);
      WordInjective(v, w);
    }
  }

  /** The same, said of two messages by position, for the two polynomials in use. */
  lemma WindowDetected(castagnoli: bool, seed: bv32, a: seq<bv8>, b: seq<bv8>, at: nat)
    requires |a| == |b| && a != b
    requires forall i :: 0 <= i < |a| && !(at <= i < at + 4) ==> a[i] == b[i]
    ensures var poly := if castagnoli then CASTAGNOLI else IEEE;
            Check(poly, seed, a) != Check(poly, seed, b)
  {
    var poly := if castagnoli then CASTAGNOLI else IEEE;
    var start := if at <= |a| then at else |a|;
    var end := if at + 4 <= |a| then at + 4 else |a|;
    assert a[..start] == b[..start] && a[end..] == b[end..];
    assert a == a[..start] + a[start..end] + a[end..];
    assert b == b[..start] + b[start..end] + b[end..];
    BurstDetected(poly, seed, a[..start], a[start..end], b[start..end], a[end..]);
  }

  /** The branch-free step of the source: the mask is all ones exactly when a one falls out. */
  /** All ones when a one is about to fall out, else all zeros. */
  function Mask(c: bv32): bv32 { 0 - (c & 1) }

  /** One shift without a branch. */
  function Masked(poly: bv32, c: bv32, mask: bv32): bv32 { (c >> 1) ^ (poly & mask) }

  lemma MaskedShift(poly: bv32, c: bv32)
    ensures Masked(poly, c, Mask(c)) == Shift(poly, c)
  {
  }

  /** The byte-at-a-time loop that both source functions share. */
  method Register(poly: bv32, start: bv32, data: array?<bv8>, size: nat) returns (crc: bv32)
    requires if data == null then size == 0 else size <= data.Length
    ensures crc == Feed(poly, start, if data == null then [] else data[..size])
  {
    hide Feed, FeedBits, Shifts, Shift, Join, Wide;
    FeedEnds(poly, start, 0);
    crc := start;
    var index := 0;
    while index < size
      invariant index <= size
      invariant data == null ==> crc == start
      invariant data != null ==> crc == Feed(poly, start, data[..index])
    {
      var byte := data[index];
      FeedEnds(poly, crc, byte);
      FeedConcat(poly, start, data[..index], [byte]);
      assert data[..index + 1] == data[..index] + [byte];
      crc := AbsorbByte(poly, crc, byte);
      index := index + 1;
    }
  }

  lemma FeedEnds(poly: bv32, c: bv32, b: bv8)
    ensures Feed(poly, c, []) == c
    ensures Feed(poly, c, [b]) == FeedBits(poly, c, b, 8)
  {
    hide FeedBits;
  }

  method AbsorbByte(poly: bv32, before: bv32, byte: bv8) returns (crc: bv32)
    ensures crc == FeedBits(poly, before, byte, 8)
  {
    hide FeedBits, Shift, Masked, Mask, Join, Wide;
    ByteAtOnce(poly, before, byte);
    crc := Join(before, Wide(byte));
    var bit := 0;
    while bit < 8
      invariant bit <= 8
      invariant Shifts(poly, crc, 8 - bit) == FeedBits(poly, before, byte, 8)
    {
      MaskedShift(poly, crc);
      crc := Masked(poly, crc, Mask(crc));
      bit := bit + 1;
    }
  }

  method Crc32c(initial: bv32, data: array?<bv8>, size: nat) returns (crc: bv32)
    requires if data == null then size == 0 else size <= data.Length
    ensures crc == Check(CASTAGNOLI, initial, if data == null then [] else data[..size])
  {
    hide Feed;
    crc := Register(CASTAGNOLI, Flip(initial), data, size);
    crc := Flip(crc);
  }

  method Crc32(seed: bv32, data: array?<bv8>, size: nat) returns (crc: bv32)
    requires data != null ==> size <= data.Length
    ensures data == null && size != 0 ==> crc == 0
    ensures data == null && size == 0 ==> crc == seed
    ensures data != null ==> crc == Check(IEEE, seed, data[..size])
  {
    hide Feed, Flip;
    if data == null && size != 0 {
      return 0;
    }
    FeedEnds(IEEE, Flip(seed), 0);
    JoinFacts(seed, 0, 0);
    crc := Register(IEEE, Flip(seed), data, size);
    crc := Flip(crc);
  }

  // Known answers.

  /** The digits one to nine, as the catalogues of checks feed them. */
  const DIGITS: seq<bv8> := [0x31, 0x32, 0x33, 0x34, 0x35, 0x36, 0x37, 0x38, 0x39]

  lemma FeedDigit(poly: bv32, c: bv32, i: nat, b: bv8, next: bv32)
    requires i < 9 && DIGITS[i] == b && FeedBits(poly, c, b, 8) == next
    ensures Feed(poly, c, DIGITS[i..]) == Feed(poly, next, DIGITS[i + 1..])
  {
    hide FeedBits;
    assert DIGITS[i..][0] == DIGITS[i] && DIGITS[i..][1..] == DIGITS[i + 1..];
  }

  lemma FedNothing(poly: bv32, c: bv32)
    ensures Feed(poly, c, []) == c
  {
  }

  /** The check values that the two codes are known by (for CRC-32C, appendix B.4 of RFC 3720 has more). */
  lemma KnownCastagnoli()
    ensures Check(CASTAGNOLI, 0, DIGITS) == 0xe306_9283
  {
    hide Feed;
    FeedDigit(CASTAGNOLI, 0xffff_ffff, 0, 0x31, 0x6f0a_661c);
    FeedDigit(CASTAGNOLI, 0x6f0a_661c, 1, 0x32, 0x8caa_3b9f);
    FeedDigit(CASTAGNOLI, 0x8caa_3b9f, 2, 0x33, 0xef84_d04d);
    FeedDigit(CASTAGNOLI, 0xef84_d04d, 3, 0x34, 0x09c5_0b11);
    FeedDigit(CASTAGNOLI, 0x09c5_0b11, 4, 0x35, 0xe72e_dcca);
    FeedDigit(CASTAGNOLI, 0xe72e_dcca, 5, 0x36, 0xbeca_8e79);
    FeedDigit(CASTAGNOLI, 0xbeca_8e79, 6, 0x37, 0xedbd_6815);
    FeedDigit(CASTAGNOLI, 0xedbd_6815, 7, 0x38, 0x9f78_7f65);
    FeedDigit(CASTAGNOLI, 0x9f78_7f65, 8, 0x39, 0x1cf9_6d7c);
    assert DIGITS[0..] == DIGITS && DIGITS[9..] == [];
    FedNothing(CASTAGNOLI, 0x1cf9_6d7c);
    assert Flip(0) == 0xffff_ffff && Flip(0x1cf9_6d7c) == 0xe306_9283;
  }

  lemma KnownIeee()
    ensures Check(IEEE, 0, DIGITS) == 0xcbf4_3926
  {
    hide Feed;
    FeedDigit(IEEE, 0xffff_ffff, 0, 0x31, 0x7c23_1048);
    FeedDigit(IEEE, 0x7c23_1048, 1, 0x32, 0xb0ac_bb32);
    FeedDigit(IEEE, 0xb0ac_bb32, 2, 0x33, 0x77b7_9c2d);
    FeedDigit(IEEE, 0x77b7_9c2d, 3, 0x34, 0x641c_1f5c);
    FeedDigit(IEEE, 0x641c_1f5c, 4, 0x35, 0x340a_c5e3);
    FeedDigit(IEEE, 0x340a_c5e3, 5, 0x36, 0xf68d_2c9e);
    FeedDigit(IEEE, 0xf68d_2c9e, 6, 0x37, 0xaffc_9660);
    FeedDigit(IEEE, 0xaffc_9660, 7, 0x38, 0x651f_2550);
    FeedDigit(IEEE, 0x651f_2550, 8, 0x39, 0x340b_c6d9);
    assert DIGITS[0..] == DIGITS && DIGITS[9..] == [];
    FedNothing(IEEE, 0x340b_c6d9);
    assert Flip(0) == 0xffff_ffff && Flip(0x340b_c6d9) == 0xcbf4_3926;
  }
}
