/** The two hexadecimal readers of the mesh: the canonical wire form of a peer
    key (`wire::hex_array`) and the case-tolerant `PeerId::from_hex`. */
module Hex {
  import opened Common

  function Digit(n: nat): char
    requires n < 16
  {
    if n < 10 then (n + '0' as int) as char else (n - 10 + 'a' as int) as char
  }

  lemma DigitIsAlphabet(n: nat)
    requires n < 16
    ensures Digit(n) == "0123456789abcdef"[n]
  {
  }

  function Encode(b: Bytes): (s: string)
    ensures |s| == 2 * |b|
  {
    if b == [] then "" else [Digit(b[0] / 16), Digit(b[0] % 16)] + Encode(b[1..])
  }

  /** The text, position by position: byte `k` is two digits, the high one first. */
  lemma {:induction false} EncodeAt(b: Bytes, k: nat)
    requires k < |b|
    ensures Encode(b)[2 * k] == "0123456789abcdef"[b[k] / 16]
    ensures Encode(b)[2 * k + 1] == "0123456789abcdef"[b[k] % 16]
  {
    if k == 0 {
      DigitIsAlphabet(b[0] / 16);
      DigitIsAlphabet(b[0] % 16);
    } else {
      EncodeAt(b[1..], k - 1);
      assert Encode(b) == [Digit(b[0] / 16), Digit(b[0] % 16)] + Encode(b[1..]);
    }
  }

  /** The value of one digit, of either case. */
  function Nibble(c: char): (r: Option<nat>)
    ensures r.Some? ==> r.value < 16
  {
    if '0' <= c <= '9' then Some(c as int - '0' as int)
    else if 'a' <= c <= 'f' then Some(c as int - 'a' as int + 10)
    else if 'A' <= c <= 'F' then Some(c as int - 'A' as int + 10)
    else None
  }

  predicate IsUpper(c: char) {
    'A' <= c <= 'Z'
  }

  function ToLower(c: char): char {
    if IsUpper(c) then (c as int + 32) as char else c
  }

  function Lowered(s: string): (r: string)
    ensures |r| == |s|
  {
    if s == "" then "" else [ToLower(s[0])] + Lowered(s[1..])
  }

  /** Lowering replaces the 26 capital letters, wherever they stand, and nothing else. */
  lemma {:induction false} LoweredAt(s: string, i: nat)
    requires i < |s|
    ensures Lowered(s)[i] ==
      if 'A' <= s[i] <= 'Z' then "abcdefghijklmnopqrstuvwxyz"[s[i] as int - 'A' as int] else s[i]
  {
    if i > 0 {
      LoweredAt(s[1..], i - 1);
    }
  }

  function DecodePair(high: char, low: char): Option<Byte> {
    if Nibble(high).Some? && Nibble(low).Some? then Some(Nibble(high).value * 16 + Nibble(low).value)
    else None
  }

  /** `hex::decode`: pairs of digits of either case, or nothing. */
  function Decode(s: string): (r: Option<Bytes>)
    ensures r.Some? ==> |s| == 2 * |r.value|
  {
    if s == "" then Some([])
    else if |s| == 1 then None
    else
      var first, rest := DecodePair(s[0], s[1]), Decode(s[2..]);
      if first.Some? && rest.Some? then Some([first.value] + rest.value) else None
  }

  predicate AllHex(s: string) {
    forall i :: 0 <= i < |s| ==> Nibble(s[i]).Some?
  }

  lemma AllHexSplits(s: string)
    requires |s| >= 2
    ensures AllHex(s) <==> Nibble(s[0]).Some? && Nibble(s[1]).Some? && AllHex(s[2..])
  {
    assert forall i :: 2 <= i < |s| ==> s[i] == s[2..][i - 2];
  }

  lemma SameParity(n: nat)
    requires n >= 2
    ensures n % 2 == (n - 2) % 2
  {
  }

  lemma {:induction false} DecodeFails(s: string)
    ensures Decode(s) == None <==> |s| % 2 == 1 || !AllHex(s)
  {
    if |s| >= 2 {
      DecodeFails(s[2..]);
      AllHexSplits(s);
      assert Decode(s) == None <==> DecodePair(s[0], s[1]) == None || Decode(s[2..]) == None;
      SameParity(|s|);
    }
  }

  /** A digit reads back as itself, and its value prints back as its lower case. */
  lemma DigitRoundTrip(c: char, n: nat)
    requires n < 16
    ensures Nibble(c) == Some(n) <==> ToLower(c) == Digit(n)
  {
  }

  lemma PairRoundTrip(high: char, low: char, x: Byte)
    ensures DecodePair(high, low) == Some(x) <==> ToLower(high) == Digit(x / 16) && ToLower(low) == Digit(x % 16)
  {
    DigitRoundTrip(high, x / 16);
    DigitRoundTrip(low, x % 16);
  }

  /** Decoding accepts the letter-case variants of a printed text, and nothing else. */
  lemma {:induction false} DecodeExact(s: string, b: Bytes)
    ensures Decode(s) == Some(b) <==> Lowered(s) == Encode(b)
    decreases |s|
  {
    if |s| >= 2 && b != [] {
      DecodeExact(s[2..], b[1..]);
      PairRoundTrip(s[0], s[1], b[0]);
      assert Lowered(s) == [ToLower(s[0]), ToLower(s[1])] + Lowered(s[2..]) by {
        assert s[1..][1..] == s[2..];
      }
      SplitTwo(Lowered(s), Encode(b));
      assert Encode(b)[2..] == Encode(b[1..]);
      assert Lowered(s)[2..] == Lowered(s[2..]);
      SplitOne(Decode(s), b);
    } else if |s| == 1 {
      assert |Lowered(s)| == 1;
    }
  }

  lemma SplitTwo(s: string, t: string)
    requires |s| >= 2 && |t| >= 2
    ensures s == t <==> s[0] == t[0] && s[1] == t[1] && s[2..] == t[2..]
  {
    assert s == [s[0], s[1]] + s[2..] && t == [t[0], t[1]] + t[2..];
  }

  lemma SplitOne(r: Option<Bytes>, b: Bytes)
    requires b != []
    ensures r == Some(b) <==> r.Some? && r.value != [] && r.value[0] == b[0] && r.value[1..] == b[1..]
  {
    assert b == [b[0]] + b[1..];
    if r.Some? && r.value != [] {
      assert r.value == [r.value[0]] + r.value[1..];
    }
  }

  lemma {:induction false} EncodeIsLower(b: Bytes)
    ensures Lowered(Encode(b)) == Encode(b)
    ensures forall i :: 0 <= i < 2 * |b| ==> !IsUpper(Encode(b)[i])
  {
    if b != [] {
      EncodeIsLower(b[1..]);
      var s := Encode(b);
      assert s[1..][1..] == s[2..] == Encode(b[1..]);
    }
  }

  lemma {:induction false} LoweredIsIdentity(s: string)
    requires forall i :: 0 <= i < |s| ==> !IsUpper(s[i])
    ensures Lowered(s) == s
  {
    if s != "" {
      LoweredIsIdentity(s[1..]);
    }
  }

  lemma EncodeIsInjective(a: Bytes, b: Bytes)
    requires Encode(a) == Encode(b)
    ensures a == b
  {
    EncodeIsLower(a);
    DecodeExact(Encode(a), a);
    DecodeExact(Encode(a), b);
  }

  // ----- The wire form of a key -----

  datatype WireError = InvalidLength | NotCanonical | Undecodable

  function PairAt(s: string, k: nat): Option<Byte>
    requires 2 * k + 1 < |s|
  {
    DecodePair(s[2 * k], s[2 * k + 1])
  }

  lemma {:induction false} DecodeByPairs(s: string, out: Bytes)
    requires |s| == 2 * |out|
    ensures Decode(s) == Some(out) <==> forall k :: 0 <= k < |out| ==> PairAt(s, k) == Some(out[k])
  {
    if out != [] {
      DecodeByPairs(s[2..], out[1..]);
      forall k | 0 <= k < |out| - 1 ensures PairAt(s[2..], k) == PairAt(s, k + 1) {
      }
      assert PairAt(s, 0) == DecodePair(s[0], s[1]);
      SplitOne(Decode(s), out);
      if forall k :: 0 <= k < |out| - 1 ==> PairAt(s[2..], k) == Some(out[1..][k]) {
        forall k | 1 <= k < |out| ensures PairAt(s, k) == Some(out[k]) {
          assert PairAt(s[2..], k - 1) == Some(out[1..][k - 1]);
        }
      }
    }
  }

  lemma BadPair(s: string, k: nat)
    requires 2 * k + 1 < |s| && |s| % 2 == 0 && PairAt(s, k) == None
    ensures Decode(s) == None
  {
    if Decode(s).Some? {
      DecodeByPairs(s, Decode(s).value);
    }
  }

  /** `hex::decode_to_slice`: fill `out` pair by pair, stopping at the first
      character that is not a digit. */
  method DecodeToSlice(s: string, out: array<Byte>) returns (ok: bool)
    modifies out
    ensures ok <==> |s| == 2 * out.Length && Decode(s).Some?
    ensures ok ==> Decode(s) == Some(out[..])
  {
    if |s| % 2 != 0 || |s| / 2 != out.Length {
      return false;
    }
    for i := 0 to out.Length
      invariant forall k :: 0 <= k < i ==> PairAt(s, k) == Some(out[k])
    {
      var pair := PairAt(s, i);
      if pair.None? {
        BadPair(s, i);
        return false;
      }
      out[i] := pair.value;
    }
    DecodeByPairs(s, out[..]);
    return true;
  }

  /** How many bytes a character takes in UTF-8, and a text. */
  function Utf8Width(c: char): nat {
    if c as int < 0x80 then 1 else if c as int < 0x800 then 2 else if c as int < 0x1_0000 then 3 else 4
  }

  function Utf8Len(s: string): nat {
    if s == "" then 0 else Utf8Width(s[0]) + Utf8Len(s[1..])
  }

  /** How many characters of the text are `limit` or beyond. */
  function CountFrom(s: string, limit: nat): nat {
    if s == "" then 0 else (if s[0] as int >= limit then 1 else 0) + CountFrom(s[1..], limit)
  }

  /** Every character takes a byte, and one more from each of three limits on. */
  lemma {:induction false} Utf8LenCounts(s: string)
    ensures Utf8Len(s) == |s| + CountFrom(s, 0x80) + CountFrom(s, 0x800) + CountFrom(s, 0x1_0000)
  {
    if s != "" {
      Utf8LenCounts(s[1..]);
    }
  }

  lemma {:induction false} EncodedLength(b: Bytes)
    ensures Utf8Len(Encode(b)) == 2 * |b|
  {
    if b != [] {
      EncodedLength(b[1..]);
      var s := Encode(b);
      assert s[1..][1..] == Encode(b[1..]);
      assert Utf8Len(s) == Utf8Width(s[0]) + (Utf8Width(s[1]) + Utf8Len(Encode(b[1..])));
    }
  }

  /** `hex_array::deserialize`. It accepts exactly one text per key. The length it
      asks for is measured in bytes. */
  method Deserialize(s: string) returns (r: Result<PeerId, WireError>)
    ensures forall id: PeerId :: r == Ok(id) <==> s == Encode(id)
    ensures r == Err(InvalidLength) <==> Utf8Len(s) != 64
    ensures r == Err(NotCanonical) <==> Utf8Len(s) == 64 && exists i :: 0 <= i < |s| && 'A' <= s[i] <= 'Z'
  {
    forall id: PeerId ensures Utf8Len(Encode(id)) == 64 {
      EncodedLength(id);
    }
    if Utf8Len(s) != 64 {
      return Err(InvalidLength);
    }
    if exists i :: 0 <= i < |s| && IsUpper(s[i]) {
      forall id: PeerId ensures s != Encode(id) {
        EncodeIsLower(id);
      }
      return Err(NotCanonical);
    }
    LoweredIsIdentity(s);
    forall id: PeerId ensures Decode(s) == Some(id) <==> s == Encode(id) {
      DecodeExact(s, id);
    }
    var out := new Byte[32](_ => 0);
    var ok := DecodeToSlice(s, out);
    r := if ok then Ok(out[..]) else Err(Undecodable);
  }

  // ----- The human form of a key -----

  datatype PeerIdError = WrongLength | Malformed

  /** `PeerId::from_hex`. */
  function FromHex(s: string): Result<PeerId, PeerIdError> {
    var bytes := Decode(s);
    if bytes.None? then Err(Malformed)
    else if |bytes.value| != 32 then Err(WrongLength)
    else Ok(bytes.value)
  }

  /** `from_hex` undoes `to_hex`, accepts exactly the letter-case variants of a
      key's printed form, and names the reason for every other text. */
  lemma FromHexExact(s: string, id: PeerId)
    ensures FromHex(s) == Ok(id) <==> Lowered(s) == Encode(id)
    ensures FromHex(Encode(id)) == Ok(id)
    ensures FromHex(s) == Err(Malformed) <==> |s| % 2 == 1 || !AllHex(s)
    ensures FromHex(s) == Err(WrongLength) <==> |s| % 2 == 0 && AllHex(s) && |s| != 64
  {
    DecodeExact(s, id);
    EncodeIsLower(id);
    DecodeExact(Encode(id), id);
    DecodeFails(s);
  }
}
