/**
 * UTF-8 and UTF-16, kernel/unicode/unicode.c. Bytes and code units are bounded integers; a mask or
 * shift of the source is the remainder or quotient it takes.
 */
module Unicode {
  import opened Status

  type byte = x: int | 0 <= x < 0x100
  type unit = x: int | 0 <= x < 0x1_0000

  predicate IsScalar(value: nat) {
    value <= 0x10ffff && !(0xd800 <= value <= 0xdfff)
  }

  type scalar = x: int | 0 <= x <= 0x10ffff && !(0xd800 <= x <= 0xdfff)

  predicate IsContinuation(b: byte) {
    0x80 <= b <= 0xbf
  }

  datatype Decoded = Decoded(value: scalar, consumed: nat)

  function Decode(text: seq<byte>): (r: Option<Decoded>)
    requires text != []
    ensures r.Some? ==> 1 <= r.value.consumed <= |text|
  {
    var first := text[0];
    if first <= 0x7f then
      Some(Decoded(first, 1))
    else if 0xc2 <= first <= 0xdf then
      if |text| < 2 || !IsContinuation(text[1]) then None
      else Accept(Join(first % 0x20, text[1]), 2)
    else if 0xe0 <= first <= 0xef then
      if |text| < 3 || !IsContinuation(text[1]) || !IsContinuation(text[2]) then None
      else if (first == 0xe0 && text[1] < 0xa0) || (first == 0xed && text[1] >= 0xa0) then None
      else Accept(Join(Join(first % 0x10, text[1]), text[2]), 3)
    else if 0xf0 <= first <= 0xf4 then
      if |text| < 4 || !IsContinuation(text[1]) || !IsContinuation(text[2]) || !IsContinuation(text[3]) then None
      else if (first == 0xf0 && text[1] < 0x90) || (first == 0xf4 && text[1] >= 0x90) then None
      else Accept(Join(Join(Join(first % 0x08, text[1]), text[2]), text[3]), 4)
    else
      None
  }

  /** Six more bits, from a continuation byte. */
  function Join(high: nat, b: byte): nat {
    high * 0x40 + b % 0x40
  }

  function Accept(value: nat, consumed: nat): (r: Option<Decoded>)
    ensures r.Some? ==> r.value.consumed == consumed
  {
    if IsScalar(value) then Some(Decoded(value, consumed)) else None
  }

  function EncodedSize(c: scalar): nat {
    if c <= 0x7f then 1 else if c <= 0x7ff then 2 else if c <= 0xffff then 3 else 4
  }

  function Encode(c: scalar): (s: seq<byte>)
    ensures |s| == EncodedSize(c)
  {
    var n: nat := c;
    if n <= 0x7f then [n]
    else if n <= 0x7ff then [Lead(0xc0, n / 0x40), Six(n)]
    else if n <= 0xffff then [Lead(0xe0, n / 0x1000), Six(n / 0x40), Six(n)]
    else [Lead(0xf0, n / 0x40000), Six(n / 0x1000), Six(n / 0x40), Six(n)]
  }

  function Lead(mark: nat, high: nat): byte
    requires mark + high < 0x100
  {
    mark + high
  }

  /** The continuation byte that carries the low six bits of n. */
  function Six(n: nat): (b: byte)
    ensures IsContinuation(b)
  {
    0x80 + n % 0x40
  }

  lemma JoinSix(n: nat)
    ensures Join(n / 0x40, Six(n)) == n
    ensures n / 0x1000 == n / 0x40 / 0x40
    ensures n / 0x40000 == n / 0x1000 / 0x40
  {
  }

  lemma JoinRange(high: nat, b: byte)
    requires IsContinuation(b)
    ensures Join(high, b) == high * 0x40 + b - 0x80
  {
  }

  lemma SixJoin(high: nat, b: byte)
    requires IsContinuation(b)
    ensures Join(high, b) / 0x40 == high && Six(Join(high, b)) == b
  {
  }

  /** The octet sequences of one character, by the grammar in section 4 of RFC 3629. */
  predicate WellFormed(s: seq<byte>) {
    || (|s| == 1 && s[0] <= 0x7f)
    || (|s| == 2 && 0xc2 <= s[0] <= 0xdf && Tail(s[1]))
    || (|s| == 3 && s[0] == 0xe0 && 0xa0 <= s[1] <= 0xbf && Tail(s[2]))
    || (|s| == 3 && 0xe1 <= s[0] <= 0xec && Tail(s[1]) && Tail(s[2]))
    || (|s| == 3 && s[0] == 0xed && 0x80 <= s[1] <= 0x9f && Tail(s[2]))
    || (|s| == 3 && 0xee <= s[0] <= 0xef && Tail(s[1]) && Tail(s[2]))
    || (|s| == 4 && s[0] == 0xf0 && 0x90 <= s[1] <= 0xbf && Tail(s[2]) && Tail(s[3]))
    || (|s| == 4 && 0xf1 <= s[0] <= 0xf3 && Tail(s[1]) && Tail(s[2]) && Tail(s[3]))
    || (|s| == 4 && s[0] == 0xf4 && 0x80 <= s[1] <= 0x8f && Tail(s[2]) && Tail(s[3]))
  }

  predicate Tail(b: byte) {
    0x80 <= b <= 0xbf
  }

  lemma InRange(high: nat, b: byte)
    requires Tail(b)
    ensures Join(high, b) == high * 0x40 + b - 0x80
    ensures high < 0x20 ==> IsScalar(Join(high, b))
  {
  }

  lemma InRange3(a: byte, b: byte, c: byte)
    requires 0xe0 <= a <= 0xef && Tail(b) && Tail(c)
    ensures IsScalar(Join(Join(a % 0x10, b), c)) <==> !(a == 0xed && b >= 0xa0)
  {
    hide Join;
    InRange(a % 0x10, b);
    InRange(Join(a % 0x10, b), c);
  }

  lemma InRange4(a: byte, b: byte, c: byte, d: byte)
    requires 0xf0 <= a <= 0xf4 && Tail(b) && Tail(c) && Tail(d)
    ensures !(a == 0xf0 && b < 0x90) ==>
      (IsScalar(Join(Join(Join(a % 0x08, b), c), d)) <==> !(a == 0xf4 && b >= 0x90))
  {
    hide Join;
    InRange(a % 0x08, b);
    InRange(Join(a % 0x08, b), c);
    InRange(Join(Join(a % 0x08, b), c), d);
  }

  /** Exactly the well-formed prefixes are accepted, and each text starts with at most one. */
  lemma DecodeAccepts(text: seq<byte>, n: nat)
    requires text != [] && n <= |text|
    ensures WellFormed(text[..n]) <==> Decode(text).Some? && Decode(text).value.consumed == n
  {
    hide Join;
    var s := text[..n];
    if |text| >= 2 && 0xc2 <= text[0] <= 0xdf && Tail(text[1]) {
      InRange(text[0] % 0x20, text[1]);
    }
    if |text| >= 3 && 0xe0 <= text[0] <= 0xef && Tail(text[1]) && Tail(text[2]) {
      InRange3(text[0], text[1], text[2]);
    }
    if |text| >= 4 && 0xf0 <= text[0] <= 0xf4 && Tail(text[1]) && Tail(text[2]) && Tail(text[3]) {
      InRange4(text[0], text[1], text[2], text[3]);
    }
    if n >= 1 { assert s[0] == text[0]; }
    if n >= 2 { assert s[1] == text[1]; }
    if n >= 3 { assert s[2] == text[2]; }
    if n >= 4 { assert s[3] == text[3]; }
  }

  lemma DecodeEncode(c: scalar, rest: seq<byte>)
    ensures Encode(c) + rest != []
    ensures Decode(Encode(c) + rest) == Some(Decoded(c, EncodedSize(c)))
  {
    var s := Encode(c);
    var text := s + rest;
    assert text[0] == s[0];
    if c > 0xffff {
      Decode4(c, text);
    } else if c > 0x7ff {
      Decode3(c, text);
    } else if c > 0x7f {
      Decode2(c, text);
    }
  }

  lemma Decode2(n: nat, text: seq<byte>)
    requires 0x7f < n <= 0x7ff && |text| >= 2
    requires text[0] == 0xc0 + n / 0x40 && text[1] == Six(n)
    ensures Decode(text) == Some(Decoded(n, 2))
  {
    hide Join, Six;
    JoinSix(n);
  }

  /** No overlong form and no surrogate at the ends of the three-byte range. */
  lemma Edge3(n: nat)
    requires 0x7ff < n <= 0xffff && IsScalar(n)
    ensures n / 0x1000 == 0 ==> Six(n / 0x40) >= 0xa0
    ensures n / 0x1000 == 0xd ==> Six(n / 0x40) < 0xa0
  {
    var q := n / 0x40;
    assert q / 0x40 == n / 0x1000;
    assert 0x20 <= q && !(0x360 <= q <= 0x37f);
  }

  /** No overlong form and nothing above the last plane at the ends of the four-byte range. */
  lemma Edge4(n: nat)
    requires 0xffff < n <= 0x10ffff
    ensures n / 0x40000 == 0 ==> Six(n / 0x1000) >= 0x90
    ensures n / 0x40000 == 4 ==> Six(n / 0x1000) < 0x90
  {
    var q := n / 0x1000;
    assert q / 0x40 == n / 0x40000;
    assert 0x10 <= q <= 0x10f;
  }

  lemma Decode3(n: nat, text: seq<byte>)
    requires 0x7ff < n <= 0xffff && IsScalar(n) && |text| >= 3
    requires text[0] == 0xe0 + n / 0x1000 && text[1] == Six(n / 0x40) && text[2] == Six(n)
    ensures Decode(text) == Some(Decoded(n, 3))
  {
    hide Join, Six;
    JoinSix(n);
    JoinSix(n / 0x40);
    Edge3(n);
  }

  lemma Decode4(n: nat, text: seq<byte>)
    requires 0xffff < n <= 0x10ffff && |text| >= 4
    requires text[0] == 0xf0 + n / 0x40000 && text[1] == Six(n / 0x1000)
    requires text[2] == Six(n / 0x40) && text[3] == Six(n)
    ensures Decode(text) == Some(Decoded(n, 4))
  {
    hide Join, Six;
    JoinSix(n);
    JoinSix(n / 0x40);
    JoinSix(n / 0x1000);
    Edge4(n);
  }

  lemma EncodeDecode(text: seq<byte>)
    requires text != [] && Decode(text).Some?
    ensures Encode(Decode(text).value.value) == text[..Decode(text).value.consumed]
  {
    hide Join, Six;
    var d := Decode(text).value;
    if d.consumed == 2 {
      Encode2(text[0], text[1], d.value);
    } else if d.consumed == 3 {
      Encode3(text[0], text[1], text[2], d.value);
    } else if d.consumed == 4 {
      Encode4(text[0], text[1], text[2], text[3], d.value);
    }
  }

  lemma Encode2(a: byte, b: byte, c: scalar)
    requires 0xc2 <= a <= 0xdf && IsContinuation(b) && c == Join(a % 0x20, b)
    ensures Encode(c) == [a, b]
  {
    SixJoin(a % 0x20, b);
  }

  lemma Encode3(a: byte, b: byte, d: byte, c: scalar)
    requires 0xe0 <= a <= 0xef && IsContinuation(b) && IsContinuation(d)
    requires a == 0xe0 ==> b >= 0xa0
    requires c == Join(Join(a % 0x10, b), d)
    ensures Encode(c) == [a, b, d]
  {
    SixJoin(a % 0x10, b);
    SixJoin(Join(a % 0x10, b), d);
    JoinSix(c);
  }

  lemma Encode4(a: byte, b: byte, d: byte, e: byte, c: scalar)
    requires 0xf0 <= a <= 0xf4 && IsContinuation(b) && IsContinuation(d) && IsContinuation(e)
    requires a == 0xf0 ==> b >= 0x90
    requires c == Join(Join(Join(a % 0x08, b), d), e)
    ensures Encode(c) == [a, b, d, e]
  {
    var x := Join(a % 0x08, b);
    var y := Join(x, d);
    JoinRange(a % 0x08, b);
    JoinRange(x, d);
    JoinRange(y, e);
    SixJoin(a % 0x08, b);
    SixJoin(x, d);
    SixJoin(y, e);
    JoinSix(c);
    hide Join, Six;
  }

  function EncodeAll(cs: seq<scalar>): seq<byte> {
    if cs == [] then [] else Encode(cs[0]) + EncodeAll(cs[1..])
  }

  /** The scalars of a text, or nothing when some position does not decode. */
  function Scalars(text: seq<byte>): Option<seq<scalar>>
    decreases |text|
  {
    if text == [] then Some([])
    else match Decode(text)
      case None => None
      case Some(d) =>
        match Scalars(text[d.consumed..])
        case None => None
        case Some(rest) => Some([d.value] + rest)
  }

  predicate Valid(text: seq<byte>) {
    Scalars(text).Some?
  }

  lemma {:induction false} ScalarsOfEncoding(cs: seq<scalar>)
    ensures Scalars(EncodeAll(cs)) == Some(cs)
  {
    hide Decode, Encode;
    if cs != [] {
      var rest := EncodeAll(cs[1..]);
      DecodeEncode(cs[0], rest);
      ScalarsOfEncoding(cs[1..]);
      assert (Encode(cs[0]) + rest)[EncodedSize(cs[0])..] == rest;
      assert [cs[0]] + cs[1..] == cs;
    }
  }

  /** A valid text is the encoding of its scalars, so decoding loses nothing and is one-to-one. */
  lemma {:induction false} EncodingOfScalars(text: seq<byte>)
    requires Valid(text)
    ensures EncodeAll(Scalars(text).value) == text
    decreases |text|
  {
    hide Decode, Encode;
    if text != [] {
      var d := Decode(text).value;
      var rest := Scalars(text[d.consumed..]).value;
      EncodeDecode(text);
      EncodingOfScalars(text[d.consumed..]);
      assert ([d.value] + rest)[1..] == rest;
    }
  }

  lemma {:induction false} EncodeAllConcat(a: seq<scalar>, b: seq<scalar>)
    ensures EncodeAll(a + b) == EncodeAll(a) + EncodeAll(b)
  {
    hide Encode;
    if a == [] {
      assert a + b == b;
    } else {
      assert (a + b)[1..] == a[1..] + b;
      EncodeAllConcat(a[1..], b);
    }
  }

  lemma ValidConcat(a: seq<byte>, b: seq<byte>)
    requires Valid(a) && Valid(b)
    ensures Valid(a + b) && Scalars(a + b).value == Scalars(a).value + Scalars(b).value
  {
    var x, y := Scalars(a).value, Scalars(b).value;
    EncodingOfScalars(a);
    EncodingOfScalars(b);
    EncodeAllConcat(x, y);
    ScalarsOfEncoding(x + y);
  }

  method Validate(text: array?<byte>, size: nat) returns (status: Status)
    requires text != null ==> size <= text.Length
    ensures text == null ==> status == if size == 0 then Success else InvalidArgument
    ensures text != null ==> status == if Valid(text[..size]) then Success else InvalidEncoding
  {
    hide Decode;
    if text == null {
      return if size == 0 then Success else InvalidArgument;
    }
    var offset := 0;
    while offset < size
      invariant offset <= size
      invariant Valid(text[..size]) <==> Valid(text[offset..size])
    {
      var decoded := Decode(text[offset..size]);
      if decoded.None? {
        return InvalidEncoding;
      }
      assert text[offset..size][decoded.value.consumed..] == text[offset + decoded.value.consumed..size];
      offset := offset + decoded.value.consumed;
    }
    return Success;
  }

  method EncodeTo(c: nat, output: array?<byte>, capacity: nat) returns (status: Status, size: nat)
    requires output != null ==> capacity <= output.Length
    modifies output
    ensures !IsScalar(c) ==> status == InvalidArgument && size == 0
    ensures IsScalar(c) ==> size == EncodedSize(c)
    ensures IsScalar(c) && (output == null || capacity < size) ==> status == BufferTooSmall
    ensures IsScalar(c) && output != null && size <= capacity ==>
      status == Success && output[..] == Encode(c) + old(output[..])[size..]
    ensures status != Success && output != null ==> output[..] == old(output[..])
  {
    hide Encode;
    if !IsScalar(c) {
      return InvalidArgument, 0;
    }
    size := EncodedSize(c);
    if output == null || capacity < size {
      return BufferTooSmall, size;
    }
    Store(output, 0, Encode(c));
    status := Success;
  }

  method Store<T>(output: array<T>, at: nat, s: seq<T>)
    requires at + |s| <= output.Length
    modifies output
    ensures output[..] == old(output[..])[..at] + s + old(output[..])[at + |s|..]
  {
    var i := 0;
    while i < |s|
      invariant i <= |s|
      invariant forall k :: 0 <= k < output.Length ==>
        output[k] == if at <= k < at + i then s[k - at] else old(output[k])
    {
      output[at + i] := s[i];
      i := i + 1;
    }
  }

  /** The code units of one scalar, by section 2.1 of RFC 2781. */
  function Units(c: scalar): seq<unit> {
    var n: nat := c;
    if n < 0x1_0000 then [n] else [High(n - 0x1_0000), Low(n - 0x1_0000)]
  }

  function High(adjusted: nat): (u: unit)
    requires adjusted < 0x10_0000
    ensures 0xd800 <= u <= 0xdbff
  {
    0xd800 + adjusted / 0x400
  }

  function Low(adjusted: nat): (u: unit)
    ensures 0xdc00 <= u <= 0xdfff
  {
    0xdc00 + adjusted % 0x400
  }

  function Pair(high: unit, low: unit): (c: scalar)
    requires 0xd800 <= high <= 0xdbff && 0xdc00 <= low <= 0xdfff
  {
    var h: int := high;
    var l: int := low;
    (h - 0xd800) * 0x400 + (l - 0xdc00) + 0x1_0000
  }

  lemma PairParts(adjusted: nat)
    requires adjusted < 0x10_0000
    ensures Pair(High(adjusted), Low(adjusted)) == adjusted + 0x1_0000
  {
  }

  /** Section 2.1 of RFC 2781: small scalars are units themselves, the others a pair with ten bits in each. */
  lemma UnitsMean(c: scalar)
    ensures c < 0x1_0000 ==> Units(c) == [c]
    ensures c >= 0x1_0000 ==>
      && |Units(c)| == 2 && 0xd800 <= Units(c)[0] <= 0xdbff && 0xdc00 <= Units(c)[1] <= 0xdfff
      && c == 0x1_0000 + (Units(c)[0] as int - 0xd800) * 0x400 + (Units(c)[1] as int - 0xdc00)
  {
  }

  /** One sequence of bytes comes before another: they agree up to a place where it has the smaller one. */
  ghost predicate Before(s: seq<byte>, t: seq<byte>) {
    exists k :: DiffersAt(s, t, k)
  }

  ghost predicate DiffersAt(s: seq<byte>, t: seq<byte>, k: nat) {
    k < |s| && k < |t| && s[..k] == t[..k] && s[k] < t[k]
  }

  /** The bits that the bytes of a character carry, six to each after the first. */
  function Carried(s: seq<byte>): int
    requires 1 <= |s| <= 4
  {
    if |s| == 1 then s[0]
    else if |s| == 2 then (s[0] as int - 0xc0) * 0x40 + (s[1] as int - 0x80)
    else if |s| == 3 then (s[0] as int - 0xe0) * 0x1000 + (s[1] as int - 0x80) * 0x40 + (s[2] as int - 0x80)
    else (s[0] as int - 0xf0) * 0x4_0000 + (s[1] as int - 0x80) * 0x1000 + (s[2] as int - 0x80) * 0x40 + (s[3] as int - 0x80)
  }

  lemma EncodeCarries(c: scalar)
    ensures Carried(Encode(c)) == c
  {
    JoinSix(c);
    JoinSix(c / 0x40);
    JoinSix(c / 0x1000);
  }

  lemma CarriedOrdered(s: seq<byte>, t: seq<byte>)
    requires 1 <= |s| == |t| <= 4 && Carried(s) < Carried(t)
    requires forall i :: 1 <= i < |s| ==> Tail(s[i]) && Tail(t[i])
    ensures Before(s, t)
  {
    if s[0] != t[0] {
      assert DiffersAt(s, t, 0);
    } else if s[1] != t[1] {
      assert DiffersAt(s, t, 1);
    } else if s[2] != t[2] {
      assert DiffersAt(s, t, 2);
    } else {
      assert DiffersAt(s, t, 3);
    }
  }

  /** The order of encoded characters is the order of their scalars (section 1 of RFC 3629), and ASCII is itself. */
  lemma EncodeOrdered(c: scalar, d: scalar)
    requires c < d
    ensures Before(Encode(c), Encode(d))
    ensures c <= 0x7f ==> Encode(c) == [c]
  {
    var s, t := Encode(c), Encode(d);
    if |s| == |t| {
      EncodeCarries(c);
      EncodeCarries(d);
      CarriedOrdered(s, t);
    } else {
      assert DiffersAt(s, t, 0);
    }
  }

  function UnitsAll(cs: seq<scalar>): seq<unit> {
    if cs == [] then [] else Units(cs[0]) + UnitsAll(cs[1..])
  }

  /** Section 2.2 of RFC 2781: a unit outside the surrogates stands alone, a pair is recombined. */
  function FromUnits(u: seq<unit>): Option<seq<scalar>>
    decreases |u|
  {
    if u == [] then Some([])
    else if IsScalar(u[0]) then Prepend(u[0], FromUnits(u[1..]))
    else if u[0] <= 0xdbff && |u| >= 2 && 0xdc00 <= u[1] <= 0xdfff then
      Prepend(Pair(u[0], u[1]), FromUnits(u[2..]))
    else None
  }

  function Prepend(c: scalar, rest: Option<seq<scalar>>): Option<seq<scalar>> {
    match rest
    case None => None
    case Some(cs) => Some([c] + cs)
  }

  lemma {:induction false} UnitsRoundTrip(cs: seq<scalar>)
    ensures FromUnits(UnitsAll(cs)) == Some(cs)
  {
    hide High, Low, Pair;
    if cs != [] {
      var rest := UnitsAll(cs[1..]);
      UnitsRoundTrip(cs[1..]);
      assert [cs[0]] + cs[1..] == cs;
      assert UnitsAll(cs)[|Units(cs[0])|..] == rest;
      if cs[0] >= 0x1_0000 {
        var n: int := cs[0];
        PairParts(n - 0x1_0000);
      }
    }
  }

  lemma {:induction false} UnitsAllConcat(a: seq<scalar>, b: seq<scalar>)
    ensures UnitsAll(a + b) == UnitsAll(a) + UnitsAll(b)
  {
    hide Units;
    if a == [] {
      assert a + b == b;
    } else {
      assert (a + b)[1..] == a[1..] + b;
      UnitsAllConcat(a[1..], b);
    }
  }

  /**
   * Conversion stores the units that fit, always reports how many the whole text needs, and
   * succeeds exactly when the text is valid and all of them fit.
   */
  method ToUtf16(text: array?<byte>, size: nat, output: array?<unit>, capacity: nat)
    returns (status: Status, units: nat)
    requires text != null ==> size <= text.Length
    requires output != null ==> capacity <= output.Length
    modifies output
    ensures text == null && size != 0 ==> status == InvalidArgument
    ensures var whole := if text == null then [] else text[..size];
            (text != null || size == 0) ==>
              if !Valid(whole) then status == InvalidEncoding
              else
                var expected := UnitsAll(Scalars(whole).value);
                && units == |expected|
                && status == (if output == null || capacity < units then BufferTooSmall else Success)
                && (status == Success ==> output[..] == expected + old(output[..])[units..])
  {
    hide Decode, Units, Rest, Scalars, Valid, UnitsAll;
    NoUnits();
    units := 0;
    if text == null && size != 0 {
      return InvalidArgument, 0;
    }
    var offset := 0;
    ghost var done: seq<scalar> := [];
    ghost var whole := if text == null then [] else text[..size];
    ghost var before := if output == null then [] else output[..];
    RestStart(whole);
    assert whole[0..] == whole;
    while offset < size
      invariant offset <= size
      invariant Rest(whole, whole[offset..], done)
      invariant units == |UnitsAll(done)|
      invariant output != null && units <= capacity ==> output[..] == UnitsAll(done) + before[units..]
    {
      assert text[offset..size] == whole[offset..];
      var decoded := Decode(text[offset..size]);
      if decoded.None? {
        RestFails(whole, whole[offset..], done);
        return InvalidEncoding, units;
      }
      var c := decoded.value.value;
      var u := Units(c);
      UnitsAllConcat(done, [c]);
      UnitsOfOne(c);
      if output != null && units + |u| <= capacity {
        Store(output, units, u);
        assert output[..] == (UnitsAll(done) + u) + before[units + |u|..];
      }
      RestStep(whole, whole[offset..], done);
      assert whole[offset..][decoded.value.consumed..] == whole[offset + decoded.value.consumed..];
      done := done + [c];
      units := units + |u|;
      offset := offset + decoded.value.consumed;
    }
    assert whole[offset..] == [];
    RestEnd(whole, done);
    status := if output == null || capacity < units then BufferTooSmall else Success;
  }

  /** The scalars of the whole text are those done so far and then those of what is left. */
  ghost predicate Rest(whole: seq<byte>, left: seq<byte>, done: seq<scalar>) {
    Scalars(whole) == (if Valid(left) then Some(done + Scalars(left).value) else None)
  }

  lemma NoUnits()
    ensures UnitsAll([]) == []
  {
  }

  lemma UnitsOfOne(c: scalar)
    ensures UnitsAll([c]) == Units(c)
  {
    hide Units;
    assert UnitsAll([c]) == Units(c) + UnitsAll([]);
  }

  lemma RestStart(whole: seq<byte>)
    ensures Rest(whole, whole, [])
  {
    hide Decode, Scalars;
    if Valid(whole) {
      assert [] + Scalars(whole).value == Scalars(whole).value;
    }
  }

  lemma RestEnd(whole: seq<byte>, done: seq<scalar>)
    requires Rest(whole, [], done)
    ensures Valid(whole) && Scalars(whole) == Some(done)
  {
    hide Decode;
    assert Scalars([]) == Some([]);
    assert done + [] == done;
  }

  lemma RestFails(whole: seq<byte>, left: seq<byte>, done: seq<scalar>)
    requires left != [] && Decode(left).None? && Rest(whole, left, done)
    ensures !Valid(whole)
  {
    hide Decode;
  }

  lemma RestStep(whole: seq<byte>, left: seq<byte>, done: seq<scalar>)
    requires left != [] && Decode(left).Some? && Rest(whole, left, done)
    ensures Rest(whole, left[Decode(left).value.consumed..], done + [Decode(left).value.value])
  {
    hide Decode;
    var d := Decode(left).value;
    var tail := left[d.consumed..];
    if Valid(tail) {
      assert (done + [d.value]) + Scalars(tail).value == done + ([d.value] + Scalars(tail).value);
    }
  }
}
