/** Opaque byte fields on the wire (`wire::base64url_bytes_bytes` and
    `base64url_bytes_opt`): written as unpadded base64url, read by the unpadded
    engine with the padded engine as a fallback. Both engines are strict: they
    reject a last symbol whose unused bits are not zero. */
module Base64Url {
  import opened Common

  type Sextet = x: int | 0 <= x < 64

  // ----- Symbols -----

  /** The alphabet of section 5 of RFC 4648. */
  function Symbol(n: Sextet): char {
    if n < 26 then (n + 'A' as int) as char
    else if n < 52 then (n - 26 + 'a' as int) as char
    else if n < 62 then (n - 52 + '0' as int) as char
    else if n == 62 then '-'
    else '_'
  }

  function Value(c: char): Option<Sextet> {
    if 'A' <= c <= 'Z' then Some(c as int - 'A' as int)
    else if 'a' <= c <= 'z' then Some(c as int - 'a' as int + 26)
    else if '0' <= c <= '9' then Some(c as int - '0' as int + 52)
    else if c == '-' then Some(62)
    else if c == '_' then Some(63)
    else None
  }

  lemma SymbolRoundTrip(c: char, n: Sextet)
    ensures Value(c) == Some(n) <==> c == Symbol(n)
  {
  }

  const ALPHABET: string := "ABCDEFGHIJKLMNOP" + "QRSTUVWXYZabcdef" + "ghijklmnopqrstuv" + "wxyz0123456789-_"

  lemma SymbolIsAlphabet(n: Sextet)
    ensures Symbol(n) == ALPHABET[n]
  {
  }

  function Symbols(v: seq<Sextet>): (s: string)
    ensures |s| == |v|
  {
    if v == [] then "" else [Symbol(v[0])] + Symbols(v[1..])
  }

  function Values(s: string): (r: Option<seq<Sextet>>)
    ensures r.Some? ==> |r.value| == |s|
  {
    if s == "" then Some([]) else
    var first, rest := Value(s[0]), Values(s[1..]);
    if first.Some? && rest.Some? then Some([first.value] + rest.value) else None
  }

  lemma {:induction false} ValuesExact(s: string, v: seq<Sextet>)
    ensures Values(s) == Some(v) <==> s == Symbols(v)
    decreases |s|
  {
    if s != "" && v != [] {
      ValuesExact(s[1..], v[1..]);
      SymbolRoundTrip(s[0], v[0]);
      assert s == [s[0]] + s[1..] && v == [v[0]] + v[1..];
      assert s == Symbols(v) <==> s[0] == Symbols(v)[0] && s[1..] == Symbols(v)[1..];
      if Values(s).Some? {
        var w := Values(s).value;
        assert w == [w[0]] + w[1..];
      }
    }
  }

  // ----- Bits -----

  /** Three bytes as four sextets; a final one or two bytes as two or three, with
      the unused low bits zero. */
  function Pack(b: Bytes): seq<Sextet> {
    if b == [] then []
    else if |b| == 1 then [b[0] / 4, b[0] % 4 * 16]
    else if |b| == 2 then [b[0] / 4, b[0] % 4 * 16 + b[1] / 16, b[1] % 16 * 4]
    else [b[0] / 4, b[0] % 4 * 16 + b[1] / 16, b[1] % 16 * 4 + b[2] / 64, b[2] % 64] + Pack(b[3..])
  }

  function First(v0: Sextet, v1: Sextet): Byte { v0 as int * 4 + v1 as int / 16 }

  function Second(v1: Sextet, v2: Sextet): Byte { v1 as int % 16 * 16 + v2 as int / 4 }

  function Third(v2: Sextet, v3: Sextet): Byte { v2 as int % 4 * 64 + v3 as int }

  function Unpack(v: seq<Sextet>): Option<Bytes> {
    if v == [] then Some([])
    else if |v| == 1 then None
    else if |v| == 2 then
      if v[1] % 16 == 0 then Some([First(v[0], v[1])]) else None
    else if |v| == 3 then
      if v[2] % 4 == 0 then Some([First(v[0], v[1]), Second(v[1], v[2])]) else None
    else
      var rest := Unpack(v[4..]);
      if rest.None? then None
      else Some([First(v[0], v[1]), Second(v[1], v[2]), Third(v[2], v[3])] + rest.value)
  }

  lemma ByFour(x: int, high: int, low: int)
    requires 0 <= low < 4
    ensures x == high * 4 + low <==> x / 4 == high && x % 4 == low
  {
  }

  lemma BySixteen(x: int, high: int, low: int)
    requires 0 <= low < 16
    ensures x == high * 16 + low <==> x / 16 == high && x % 16 == low
  {
  }

  lemma BySixtyFour(x: int, high: int, low: int)
    requires 0 <= low < 64
    ensures x == high * 64 + low <==> x / 64 == high && x % 64 == low
  {
  }

  lemma FirstSplits(v0: Sextet, v1: Sextet, a: Byte)
    ensures First(v0, v1) == a <==> v0 == a / 4 && v1 / 16 == a % 4
  {
    ByFour(a, v0, v1 / 16);
  }

  lemma SecondSplits(v1: Sextet, v2: Sextet, b: Byte)
    ensures Second(v1, v2) == b <==> v1 % 16 == b / 16 && v2 / 4 == b % 16
  {
    BySixteen(b, v1 % 16, v2 / 4);
  }

  lemma ThirdSplits(v2: Sextet, v3: Sextet, c: Byte)
    ensures Third(v2, v3) == c <==> v2 % 4 == c / 64 && v3 == c % 64
  {
    BySixtyFour(c, v2 % 4, v3);
  }

  lemma GroupRoundTrip(v0: Sextet, v1: Sextet, v2: Sextet, v3: Sextet, a: Byte, b: Byte, c: Byte)
    ensures First(v0, v1) == a && Second(v1, v2) == b && Third(v2, v3) == c
            <==> v0 == a / 4 && v1 == a % 4 * 16 + b / 16 && v2 == b % 16 * 4 + c / 64 && v3 == c % 64
  {
    FirstSplits(v0, v1, a);
    SecondSplits(v1, v2, b);
    ThirdSplits(v2, v3, c);
    BySixteen(v1, a % 4, b / 16);
    ByFour(v2, b % 16, c / 64);
  }

  /** A group is one 24-bit number, most significant bits first, in both radixes. */
  lemma GroupIsBigEndian(b: Bytes)
    requires |b| >= 3
    ensures |Pack(b)| >= 4
    ensures var v := Pack(b);
      ((v[0] as int * 64 + v[1]) * 64 + v[2]) * 64 + v[3] == (b[0] as int * 256 + b[1]) * 256 + b[2]
  {
    var x, y, z := b[0] as int, b[1] as int, b[2] as int;
    assert x == x / 4 * 4 + x % 4 && y == y / 16 * 16 + y % 16 && z == z / 64 * 64 + z % 64;
  }

  lemma SameInThrees(n: nat)
    requires n >= 3
    ensures (n - 3) % 3 == n % 3
  {
  }

  lemma {:induction false} PackLength(b: Bytes)
    ensures |Pack(b)| % 4 == (if |b| % 3 == 0 then 0 else |b| % 3 + 1)
    ensures b == [] <==> Pack(b) == []
  {
    if |b| >= 3 {
      PackLength(b[3..]);
      SameInThrees(|b|);
      assert |Pack(b)| == 4 + |Pack(b[3..])|;
    }
  }

  lemma TailBytes(a: Byte, b: Byte)
    ensures Unpack([a / 4, a % 4 * 16]) == Some([a])
    ensures Unpack([a / 4, a % 4 * 16 + b / 16, b % 16 * 4]) == Some([a, b])
  {
    var v0, v1, v2 := a / 4, a % 4 * 16 + b / 16, b % 16 * 4;
    BySixteen(a % 4 * 16, a % 4, 0);
    BySixteen(v1, a % 4, b / 16);
    ByFour(v2, b % 16, 0);
    FirstSplits(v0, a % 4 * 16, a);
    FirstSplits(v0, v1, a);
    SecondSplits(v1, v2, b);
  }

  lemma {:induction false} UnpackPack(b: Bytes)
    ensures Unpack(Pack(b)) == Some(b)
    decreases |b|, 1
  {
    if |b| >= 3 {
      UnpackPackGroup(b);
    } else if |b| == 2 {
      TailBytes(b[0], b[1]);
      assert b == [b[0], b[1]];
    } else if |b| == 1 {
      TailBytes(b[0], 0);
      assert b == [b[0]];
    }
  }

  lemma {:induction false} UnpackPackGroup(b: Bytes)
    requires |b| >= 3
    ensures Unpack(Pack(b)) == Some(b)
    decreases |b|, 0
  {
    UnpackPack(b[3..]);
    var v := Pack(b);
    GroupRoundTrip(v[0], v[1], v[2], v[3], b[0], b[1], b[2]);
    assert v[4..] == Pack(b[3..]);
    assert b == [b[0], b[1], b[2]] + b[3..];
  }

  lemma TailRoundTrip(v0: Sextet, v1: Sextet, v2: Sextet)
    ensures v1 % 16 == 0 ==> Pack([First(v0, v1)]) == [v0, v1]
    ensures v2 % 4 == 0 ==> Pack([First(v0, v1), Second(v1, v2)]) == [v0, v1, v2]
  {
    var a, b := First(v0, v1), Second(v1, v2);
    FirstSplits(v0, v1, a);
    SecondSplits(v1, v2, b);
    BySixteen(v1, a % 4, 0);
    BySixteen(v1, a % 4, b / 16);
    ByFour(v2, b % 16, 0);
  }

  lemma {:induction false} PackUnpack(v: seq<Sextet>)
    requires Unpack(v).Some?
    ensures Pack(Unpack(v).value) == v
    decreases |v|, 1
  {
    if |v| >= 4 {
      PackUnpackGroup(v);
    } else if |v| == 3 {
      TailRoundTrip(v[0], v[1], v[2]);
    } else if |v| == 2 {
      TailRoundTrip(v[0], v[1], 0);
    }
  }

  lemma {:induction false} PackUnpackGroup(v: seq<Sextet>)
    requires |v| >= 4 && Unpack(v).Some?
    ensures Pack(Unpack(v).value) == v
    decreases |v|, 0
  {
    var b := Unpack(v).value;
    GroupRoundTrip(v[0], v[1], v[2], v[3], b[0], b[1], b[2]);
    assert b[3..] == Unpack(v[4..]).value;
    PackUnpack(v[4..]);
    assert Pack(b) == [v[0], v[1], v[2], v[3]] + v[4..];
  }

  // ----- The two engines -----

  /** `URL_SAFE_NO_PAD.encode`: the only form ever written. */
  function Encode(b: Bytes): string {
    Symbols(Pack(b))
  }

  /** The padding that fills the last group of four. */
  function Padding(b: Bytes): string {
    if |b| % 3 == 0 then "" else if |b| % 3 == 1 then "==" else "="
  }

  function EncodePadded(b: Bytes): string {
    Encode(b) + Padding(b)
  }

  /** `URL_SAFE_NO_PAD.decode`. */
  function DecodeUnpadded(s: string): Option<Bytes> {
    var v := Values(s);
    if v.None? then None else Unpack(v.value)
  }

  /** How many trailing `=` the padded engine takes as padding. */
  function PadCount(s: string): (n: nat)
    ensures n <= |s|
  {
    if |s| >= 2 && s[|s| - 2] == '=' && s[|s| - 1] == '=' then 2
    else if |s| >= 1 && s[|s| - 1] == '=' then 1
    else 0
  }

  /** `URL_SAFE.decode`: whole groups of four, padding only at the end. */
  function DecodePadded(s: string): Option<Bytes> {
    if |s| % 4 != 0 then None else DecodeUnpadded(s[..|s| - PadCount(s)])
  }

  /** `base64url_bytes_bytes::deserialize`. */
  function Deserialize(s: string): Option<Bytes> {
    var v := DecodeUnpadded(s);
    if v.Some? then v else DecodePadded(s)
  }

  lemma UnpaddedExact(s: string, b: Bytes)
    ensures DecodeUnpadded(s) == Some(b) <==> s == Encode(b)
  {
    if DecodeUnpadded(s) == Some(b) {
      PackUnpack(Values(s).value);
      ValuesExact(s, Values(s).value);
    }
    ValuesExact(Encode(b), Pack(b));
    UnpackPack(b);
  }

  // ----- The text, position by position -----

  function Halved(x: nat, times: nat): nat {
    if times == 0 then x else Halved(x, times - 1) / 2
  }

  /** A bit of a byte, the most significant one first. */
  function BitOf(x: Byte, n: nat): (r: nat)
    requires n < 8
    ensures r < 2
  {
    Halved(x, 7 - n) % 2
  }

  /** A bit of the message, with zeros after the end. */
  function Bit(b: Bytes, n: nat): (r: nat)
    ensures r < 2
  {
    if n / 8 < |b| then BitOf(b[n / 8], n % 8) else 0
  }

  /** The bits of the message from position `n` on, as a number: three, and six. */
  function ThreeFrom(b: Bytes, n: nat): nat {
    4 * Bit(b, n) + 2 * Bit(b, n + 1) + Bit(b, n + 2)
  }

  function SixBits(b: Bytes, k: nat): nat {
    8 * ThreeFrom(b, 6 * k) + ThreeFrom(b, 6 * k + 3)
  }

  lemma HalvedOnce(x: nat, times: nat)
    ensures Halved(x, times) == 2 * Halved(x, times + 1) + Halved(x, times) % 2
  {
  }

  lemma ByteIsBits(x: Byte)
    ensures x == 128 * BitOf(x, 0) + 64 * BitOf(x, 1) + 32 * BitOf(x, 2) + 16 * BitOf(x, 3)
               + 8 * BitOf(x, 4) + 4 * BitOf(x, 5) + 2 * BitOf(x, 6) + BitOf(x, 7)
  {
    HalvedOnce(x, 0);
    HalvedOnce(x, 1);
    HalvedOnce(x, 2);
    HalvedOnce(x, 3);
    HalvedOnce(x, 4);
    HalvedOnce(x, 5);
    HalvedOnce(x, 6);
    HalvedOnce(x, 7);
    assert Halved(x, 0) == x;
  }

  /** A byte cut in the places where sextets begin. */
  lemma ByteCuts(x: Byte)
    ensures x / 4 == 32 * BitOf(x, 0) + 16 * BitOf(x, 1) + 8 * BitOf(x, 2) + 4 * BitOf(x, 3) + 2 * BitOf(x, 4) + BitOf(x, 5)
    ensures x % 4 == 2 * BitOf(x, 6) + BitOf(x, 7)
    ensures x / 16 == 8 * BitOf(x, 0) + 4 * BitOf(x, 1) + 2 * BitOf(x, 2) + BitOf(x, 3)
    ensures x % 16 == 8 * BitOf(x, 4) + 4 * BitOf(x, 5) + 2 * BitOf(x, 6) + BitOf(x, 7)
    ensures x / 64 == 2 * BitOf(x, 0) + BitOf(x, 1)
    ensures x % 64 == 32 * BitOf(x, 2) + 16 * BitOf(x, 3) + 8 * BitOf(x, 4) + 4 * BitOf(x, 5) + 2 * BitOf(x, 6) + BitOf(x, 7)
  {
    ByteIsBits(x);
    var b0, b1, b2, b3 := BitOf(x, 0), BitOf(x, 1), BitOf(x, 2), BitOf(x, 3);
    var b4, b5, b6, b7 := BitOf(x, 4), BitOf(x, 5), BitOf(x, 6), BitOf(x, 7);
    ByFour(x, 32 * b0 + 16 * b1 + 8 * b2 + 4 * b3 + 2 * b4 + b5, 2 * b6 + b7);
    BySixteen(x, 8 * b0 + 4 * b1 + 2 * b2 + b3, 8 * b4 + 4 * b5 + 2 * b6 + b7);
    BySixtyFour(x, 2 * b0 + b1, 32 * b2 + 16 * b3 + 8 * b4 + 4 * b5 + 2 * b6 + b7);
  }

  /** A byte of the message, or zero after the end. */
  function ByteAt(b: Bytes, i: nat): Byte {
    if i < |b| then b[i] else 0
  }

  lemma {:induction false} HalvedZero(times: nat)
    ensures Halved(0, times) == 0
  {
    if times > 0 {
      HalvedZero(times - 1);
    }
  }

  lemma BitOfByte(b: Bytes, i: nat, n: nat, position: nat)
    requires n < 8 && position == 8 * i + n
    ensures Bit(b, position) == BitOf(ByteAt(b, i), n)
  {
    assert position / 8 == i && position % 8 == n;
    HalvedZero(7 - n);
  }

  /** The first four sextets come from the first three bytes. */
  lemma Sextet0(b: Bytes)
    ensures SixBits(b, 0) == ByteAt(b, 0) / 4
  {
    BitOfByte(b, 0, 0, 0);
    BitOfByte(b, 0, 1, 1);
    BitOfByte(b, 0, 2, 2);
    BitOfByte(b, 0, 3, 3);
    BitOfByte(b, 0, 4, 4);
    BitOfByte(b, 0, 5, 5);
    ByteCuts(ByteAt(b, 0));
  }

  lemma Sextet1(b: Bytes)
    ensures SixBits(b, 1) == ByteAt(b, 0) % 4 * 16 + ByteAt(b, 1) / 16
  {
    BitOfByte(b, 0, 6, 6);
    BitOfByte(b, 0, 7, 7);
    BitOfByte(b, 1, 0, 8);
    BitOfByte(b, 1, 1, 9);
    BitOfByte(b, 1, 2, 10);
    BitOfByte(b, 1, 3, 11);
    ByteCuts(ByteAt(b, 0));
    ByteCuts(ByteAt(b, 1));
  }

  lemma Sextet2(b: Bytes)
    ensures SixBits(b, 2) == ByteAt(b, 1) % 16 * 4 + ByteAt(b, 2) / 64
  {
    BitOfByte(b, 1, 4, 12);
    BitOfByte(b, 1, 5, 13);
    BitOfByte(b, 1, 6, 14);
    BitOfByte(b, 1, 7, 15);
    BitOfByte(b, 2, 0, 16);
    BitOfByte(b, 2, 1, 17);
    ByteCuts(ByteAt(b, 1));
    ByteCuts(ByteAt(b, 2));
  }

  lemma Sextet3(b: Bytes)
    ensures SixBits(b, 3) == ByteAt(b, 2) % 64
  {
    BitOfByte(b, 2, 2, 18);
    BitOfByte(b, 2, 3, 19);
    BitOfByte(b, 2, 4, 20);
    BitOfByte(b, 2, 5, 21);
    BitOfByte(b, 2, 6, 22);
    BitOfByte(b, 2, 7, 23);
    ByteCuts(ByteAt(b, 2));
  }

  lemma BitShifts(b: Bytes, n: nat, m: nat)
    requires |b| >= 3 && n == m + 24
    ensures Bit(b, n) == Bit(b[3..], m)
  {
    assert n / 8 == m / 8 + 3 && n % 8 == m % 8;
  }

  lemma ThreeShift(b: Bytes, n: nat, m: nat)
    requires |b| >= 3 && n == m + 24
    ensures ThreeFrom(b, n) == ThreeFrom(b[3..], m)
  {
    BitShifts(b, n, m);
    BitShifts(b, n + 1, m + 1);
    BitShifts(b, n + 2, m + 2);
  }

  lemma SextetShifts(b: Bytes, k: nat)
    requires |b| >= 3 && k >= 4
    ensures SixBits(b, k) == SixBits(b[3..], k - 4)
  {
    ThreeShift(b, 6 * k, 6 * (k - 4));
    ThreeShift(b, 6 * k + 3, 6 * (k - 4) + 3);
  }

  /** The first group, or all there is of it. */
  lemma PackHead(b: Bytes, k: nat)
    requires k < |Pack(b)| && k < 4
    ensures Pack(b)[k] ==
      if k == 0 then ByteAt(b, 0) / 4
      else if k == 1 then ByteAt(b, 0) % 4 * 16 + ByteAt(b, 1) / 16
      else if k == 2 then ByteAt(b, 1) % 16 * 4 + ByteAt(b, 2) / 64
      else ByteAt(b, 2) % 64
  {
  }

  lemma {:induction false} PackAt(b: Bytes, k: nat)
    requires k < |Pack(b)|
    ensures Pack(b)[k] == SixBits(b, k)
    decreases k
  {
    if k >= 4 {
      assert Pack(b)[k] == Pack(b[3..])[k - 4];
      PackAt(b[3..], k - 4);
      SextetShifts(b, k);
    } else {
      PackHead(b, k);
      match k
      case 0 => Sextet0(b);
      case 1 => Sextet1(b);
      case 2 => Sextet2(b);
      case _ => Sextet3(b);
    }
  }

  lemma {:induction false} PackedLength(b: Bytes)
    ensures |Pack(b)| == (4 * |b| + 2) / 3
  {
    if |b| >= 3 {
      PackedLength(b[3..]);
      OneGroupMore(|b|);
    }
  }

  lemma OneGroupMore(n: nat)
    requires n >= 3
    ensures (4 * n + 2) / 3 == (4 * (n - 3) + 2) / 3 + 4
  {
  }

  lemma {:induction false} SymbolsAt(v: seq<Sextet>, k: nat)
    requires k < |v|
    ensures Symbols(v)[k] == ALPHABET[v[k]]
  {
    if k == 0 {
      SymbolIsAlphabet(v[0]);
    } else {
      SymbolsAt(v[1..], k - 1);
    }
  }

  /** The text, position by position: symbol `k` is the alphabet at the `k`-th six bits,
      and as many symbols are written as it takes. */
  lemma EncodeAt(b: Bytes, k: nat)
    ensures |Encode(b)| == (4 * |b| + 2) / 3
    ensures k < |Encode(b)| ==> SixBits(b, k) < 64 && Encode(b)[k] == ALPHABET[SixBits(b, k)]
  {
    PackedLength(b);
    if k < |Pack(b)| {
      PackAt(b, k);
      SymbolsAt(Pack(b), k);
    }
  }

  /** Padding is equals signs, up to a whole group of four. */
  lemma PaddingAt(b: Bytes, k: nat)
    ensures Encode(b) <= EncodePadded(b) && |EncodePadded(b)| % 4 == 0 && |EncodePadded(b)| <= |Encode(b)| + 2
    ensures |Encode(b)| <= k < |EncodePadded(b)| ==> EncodePadded(b)[k] == '='
  {
    PaddingFills(b, |Padding(b)|);
  }

  lemma {:induction false} SymbolsHaveNoPad(v: seq<Sextet>)
    ensures '=' !in Symbols(v)
  {
    if v != [] {
      SymbolsHaveNoPad(v[1..]);
    }
  }

  lemma PadCountOf(body: string, pad: string)
    requires '=' !in body && (pad == "" || pad == "=" || pad == "==")
    ensures PadCount(body + pad) == |pad|
  {
    assert body != "" ==> body[|body| - 1] in body;
  }

  /** Padding fills the last group, and only the right padding does. */
  lemma PaddingFills(b: Bytes, n: nat)
    requires n <= 2
    ensures (|Encode(b)| + n) % 4 == 0 <==> n == |Padding(b)|
  {
    PackLength(b);
    GroupsOfFour(|Pack(b)|, n);
  }

  lemma GroupsOfFour(len: nat, n: nat)
    requires n <= 2
    ensures (len + n) % 4 == 0 <==> len % 4 == (4 - n) % 4
  {
  }

  function PadText(n: nat): string {
    if n == 0 then "" else if n == 1 then "=" else "=="
  }

  lemma PadSplits(s: string)
    ensures s == s[..|s| - PadCount(s)] + PadText(PadCount(s))
  {
  }

  lemma PaddedBodyReads(body: string, pad: string, b: Bytes)
    requires '=' !in body && (pad == "" || pad == "=" || pad == "==")
    requires (|body| + |pad|) % 4 == 0 && DecodeUnpadded(body) == Some(b)
    ensures DecodePadded(body + pad) == Some(b)
  {
    PadCountOf(body, pad);
    assert (body + pad)[..|body|] == body;
  }

  lemma PaddedReads(b: Bytes)
    ensures DecodePadded(EncodePadded(b)) == Some(b)
  {
    var body := Encode(b);
    SymbolsHaveNoPad(Pack(b));
    PaddingFills(b, |Padding(b)|);
    UnpaddedExact(body, b);
    PaddedBodyReads(body, Padding(b), b);
  }

  lemma PaddedIsCanonical(s: string, b: Bytes)
    requires DecodePadded(s) == Some(b)
    ensures s == EncodePadded(b)
  {
    var body := s[..|s| - PadCount(s)];
    UnpaddedExact(body, b);
    PadSplits(s);
    assert |s| == |body| + PadCount(s);
    PaddingFills(b, PadCount(s));
    assert Padding(b) == PadText(|Padding(b)|);
  }

  lemma PaddedExact(s: string, b: Bytes)
    ensures DecodePadded(s) == Some(b) <==> s == EncodePadded(b)
  {
    PaddedReads(b);
    if DecodePadded(s) == Some(b) {
      PaddedIsCanonical(s, b);
    }
  }

  /** Reading is exact: a text reads as `b` if and only if it is the unpadded or
      the canonically padded encoding of `b`. */
  lemma DeserializeExact(s: string, b: Bytes)
    ensures Deserialize(s) == Some(b) <==> s == Encode(b) || s == EncodePadded(b)
  {
    UnpaddedExact(s, b);
    PaddedExact(s, b);
    if s == EncodePadded(b) && DecodeUnpadded(s).Some? {
      var c := DecodeUnpadded(s).value;
      UnpaddedExact(s, c);
      NoTextForTwo(b, c);
    }
  }

  /** The fallback never changes a reading: texts of different byte strings never meet. */
  lemma NoTextForTwo(b: Bytes, c: Bytes)
    requires EncodePadded(b) == Encode(c)
    ensures b == c
  {
    SymbolsHaveNoPad(Pack(c));
    var s := EncodePadded(b);
    assert s != "" ==> s[|s| - 1] in s;
    assert Padding(b) == "";
    assert Encode(b) == Encode(c);
    UnpaddedExact(Encode(c), b);
    UnpaddedExact(Encode(c), c);
  }

  /** Writing then reading is the identity, with or without padding, and no two
      byte strings share a text. */
  lemma RoundTrip(b: Bytes, c: Bytes)
    ensures Deserialize(Encode(b)) == Some(b) && Deserialize(EncodePadded(b)) == Some(b)
    ensures (Encode(b) == Encode(c) || Encode(b) == EncodePadded(c) || EncodePadded(b) == EncodePadded(c)) ==> b == c
  {
    DeserializeExact(Encode(b), b);
    DeserializeExact(EncodePadded(b), b);
    DeserializeExact(Encode(b), c);
    DeserializeExact(EncodePadded(b), c);
  }

  // ----- Optional fields -----

  /** `base64url_bytes_opt`: an absent field is a null, a present one a text. */
  function SerializeOptional(value: Option<Bytes>): Option<string> {
    match value
    case None => None
    case Some(b) => Some(Encode(b))
  }

  function DeserializeOptional(field: Option<string>): Result<Option<Bytes>, ()> {
    match field
    case None => Ok(None)
    case Some(s) =>
      var v := Deserialize(s);
      if v.Some? then Ok(v) else Err(())
  }

  /** An absent field and a present empty one stay distinct through the wire. */
  lemma OptionalExact(field: Option<string>, value: Option<Bytes>)
    ensures DeserializeOptional(SerializeOptional(value)) == Ok(value)
    ensures DeserializeOptional(field) == Ok(value)
            <==> field == SerializeOptional(value) || (value.Some? && field == Some(EncodePadded(value.value)))
  {
    if value.Some? {
      DeserializeExact(Encode(value.value), value.value);
      if field.Some? {
        DeserializeExact(field.value, value.value);
      }
    }
  }
}
