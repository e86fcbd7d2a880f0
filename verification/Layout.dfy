/** Byte layouts: little-endian integers and records made of fixed-width fields. */
module Layout {
  import opened Unicode
  import Crc

  type u16 = x: int | 0 <= x < 0x1_0000
  type u32 = x: int | 0 <= x < 0x1_0000_0000
  type u64 = x: int | 0 <= x < 0x1_0000_0000_0000_0000

  const MAX64: u64 := 0xffff_ffff_ffff_ffff

  function Power(width: nat): nat {
    if width == 0 then 1 else 0x100 * Power(width - 1)
  }

  function LE(width: nat, v: nat): (s: seq<byte>)
    ensures |s| == width
  {
    if width == 0 then [] else [v % 0x100] + LE(width - 1, v / 0x100)
  }

  function Number(s: seq<byte>): nat {
    if s == [] then 0 else s[0] + 0x100 * Number(s[1..])
  }

  lemma {:induction false} NumberOfLE(width: nat, v: nat)
    requires v < Power(width)
    ensures Number(LE(width, v)) == v
  {
    if width > 0 {
      NumberOfLE(width - 1, v / 0x100);
    }
  }

  lemma {:induction false} LEOfNumber(s: seq<byte>)
    ensures Number(s) < Power(|s|) && LE(|s|, Number(s)) == s
  {
    if s != [] {
      LEOfNumber(s[1..]);
      assert s == [s[0]] + s[1..];
    }
  }

  lemma Widths()
    ensures Power(1) == 0x100 && Power(2) == 0x1_0000 && Power(4) == 0x1_0000_0000
    ensures Power(8) == 0x1_0000_0000_0000_0000
  {
    assert Power(4) == 0x1_0000_0000;
    assert Power(6) == 0x1_0000_0000_0000;
  }

  function U16(s: seq<byte>): u16
    requires |s| == 2
  {
    LEOfNumber(s); Widths(); Number(s)
  }

  function U32(s: seq<byte>): u32
    requires |s| == 4
  {
    LEOfNumber(s); Widths(); Number(s)
  }

  function U64(s: seq<byte>): u64
    requires |s| == 8
  {
    LEOfNumber(s); Widths(); Number(s)
  }

  lemma RoundTrip16(v: u16)
    ensures U16(LE(2, v)) == v
  {
    Widths();
    NumberOfLE(2, v);
  }

  lemma RoundTrip32(v: u32)
    ensures U32(LE(4, v)) == v
  {
    Widths();
    NumberOfLE(4, v);
  }

  lemma RoundTrip64(v: u64)
    ensures U64(LE(8, v)) == v
  {
    Widths();
    NumberOfLE(8, v);
  }

  lemma SliceOfSlice(s: seq<byte>, lo: nat, hi: nat, i: nat, j: nat)
    requires lo <= hi <= |s| && i <= j <= hi - lo
    ensures s[lo..hi][i..j] == s[lo + i..lo + j]
  {
    assert forall k :: 0 <= k < j - i ==> s[lo..hi][i..j][k] == s[lo..hi][i + k] == s[lo + i + k];
  }

  function Total(widths: seq<nat>): nat {
    if widths == [] then 0 else widths[0] + Total(widths[1..])
  }

  /** The fields of a record, given their widths. */
  function Split(widths: seq<nat>, s: seq<byte>): (parts: seq<seq<byte>>)
    requires Total(widths) <= |s|
    ensures |parts| == |widths|
    ensures forall i :: 0 <= i < |parts| ==> |parts[i]| == widths[i]
  {
    if widths == [] then [] else [s[..widths[0]]] + Split(widths[1..], s[widths[0]..])
  }

  function Concat(parts: seq<seq<byte>>): seq<byte> {
    if parts == [] then [] else parts[0] + Concat(parts[1..])
  }

  predicate Fits(widths: seq<nat>, parts: seq<seq<byte>>) {
    |widths| == |parts| && forall i :: 0 <= i < |parts| ==> |parts[i]| == widths[i]
  }

  lemma {:induction false} SplitConcat(widths: seq<nat>, parts: seq<seq<byte>>, rest: seq<byte>)
    requires Fits(widths, parts)
    ensures |Concat(parts)| == Total(widths)
    ensures Split(widths, Concat(parts) + rest) == parts
  {
    if parts != [] {
      var s := Concat(parts) + rest;
      assert s == parts[0] + (Concat(parts[1..]) + rest);
      SplitConcat(widths[1..], parts[1..], rest);
      assert s[..widths[0]] == parts[0];
      assert s[widths[0]..] == Concat(parts[1..]) + rest;
      assert parts == [parts[0]] + parts[1..];
    }
  }

  /** The lowest byte comes first. */
  lemma LowestFirst(s: seq<byte>)
    ensures |s| == 2 ==> U16(s) == s[0] + 0x100 * (s[1] as int)
    ensures |s| == 4 ==> U32(s) == s[0] + 0x100 * (s[1] as int) + 0x1_0000 * (s[2] as int) + 0x100_0000 * (s[3] as int)
    ensures |s| == 8 ==> U64(s) == U32(s[..4]) + 0x1_0000_0000 * U32(s[4..])
  {
    if |s| == 2 {
      assert Number(s[1..]) == s[1];
    } else if |s| == 4 {
      FourBytes(s);
    } else if |s| == 8 {
      assert s[1..][1..][1..][1..] == s[4..];
      assert Number(s) == s[0] + 0x100 * Number(s[1..]);
      assert Number(s[1..]) == s[1] + 0x100 * Number(s[1..][1..]);
      assert Number(s[1..][1..]) == s[2] + 0x100 * Number(s[1..][1..][1..]);
      assert Number(s[1..][1..][1..]) == s[3] + 0x100 * Number(s[4..]);
      FourBytes(s[..4]);
    }
  }

  lemma FourBytes(s: seq<byte>)
    requires |s| == 4
    ensures Number(s) == s[0] + 0x100 * (s[1] as int) + 0x1_0000 * (s[2] as int) + 0x100_0000 * (s[3] as int)
  {
    assert Number(s[1..][1..][1..]) == s[3];
    assert Number(s[1..][1..]) == s[2] + 0x100 * Number(s[1..][1..][1..]);
    assert Number(s[1..]) == s[1] + 0x100 * Number(s[1..][1..]);
  }

  /** Each field is where the widths of those before it put it. */
  lemma {:induction false} FieldAt(widths: seq<nat>, s: seq<byte>, i: nat)
    requires Total(widths) <= |s| && i < |widths|
    ensures Total(widths[..i]) + widths[i] <= |s|
    ensures Split(widths, s)[i] == s[Total(widths[..i])..Total(widths[..i]) + widths[i]]
  {
    var w := widths[0];
    if i == 0 {
      assert widths[..0] == [];
    } else {
      FieldAt(widths[1..], s[w..], i - 1);
      assert widths[..i][0] == w && widths[..i][1..] == widths[1..][..i - 1];
      assert Split(widths, s)[i] == Split(widths[1..], s[w..])[i - 1];
    }
  }

  lemma {:induction false} TotalNext(widths: seq<nat>, i: nat)
    requires i < |widths|
    ensures Total(widths[..i + 1]) == Total(widths[..i]) + widths[i]
  {
    if i == 0 {
      assert widths[..1][1..] == [] && widths[..0] == [];
    } else {
      assert widths[..i + 1][1..] == widths[1..][..i] && widths[..i][1..] == widths[1..][..i - 1];
      TotalNext(widths[1..], i - 1);
    }
  }

  function Bits(s: seq<byte>): seq<bv8> {
    seq(|s|, i requires 0 <= i < |s| => s[i] as bv8)
  }

  /** CRC-32C of a run of bytes, continued from a seed. */
  function Checksum(seed: u32, s: seq<byte>): u32 {
    Crc.Check(Crc.CASTAGNOLI, seed as bv32, Bits(s)) as int
  }

  function Zeros(n: nat): (s: seq<byte>)
    ensures |s| == n
  {
    seq(n, _ => 0)
  }
}
