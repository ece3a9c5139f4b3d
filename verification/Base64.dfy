/**
  The base64 decoder for public keys in src/frontend/sshfs.rs, against the encoding
  of section 4 of RFC 4648.
  */
module Base64 {
  import opened Wrappers
  import opened Bytes

  const PAD: byte := 61

  /** The alphabet: A-Z, a-z, 0-9, + and /. */
  function Symbol(value: int): (c: byte)
    requires 0 <= value < 64
  {
    if value < 26 then 65 + value
    else if value < 52 then 97 + (value - 26)
    else if value < 62 then 48 + (value - 52)
    else if value == 62 then 43
    else 47
  }

  /** The alphabet's corners; between them the codes are consecutive. */
  lemma AlphabetIs(value: int)
    ensures Symbol(0) == 'A' as int && Symbol(25) == 'Z' as int && Symbol(26) == 'a' as int && Symbol(51) == 'z' as int
    ensures Symbol(52) == '0' as int && Symbol(61) == '9' as int && Symbol(62) == '+' as int && Symbol(63) == '/' as int
    ensures PAD == '=' as int
    ensures 0 <= value < 61 && value != 25 && value != 51 ==> Symbol(value + 1) == Symbol(value) + 1
  {
  }

  /** The position of a character in the alphabet. */
  function Position(c: byte): (r: Option<int>)
    ensures r.Some? ==> 0 <= r.value < 64
  {
    if 65 <= c < 91 then Some(c - 65)
    else if 97 <= c < 123 then Some(c - 97 + 26)
    else if 48 <= c < 58 then Some(c - 48 + 52)
    else if c == 43 then Some(62)
    else if c == 47 then Some(63)
    else None
  }

  function ValueOf(c: byte): int {
    match Position(c) case Some(v) => v case None => 0
  }

  /** The number that bytes spell, most significant first. */
  function ByteNumber(bytes: seq<byte>): int {
    if bytes == [] then 0 else ByteNumber(bytes[..|bytes| - 1]) * 256 + bytes[|bytes| - 1]
  }

  /** The number that sextets spell, most significant first. */
  function SextetNumber(s: seq<int>): int {
    if s == [] then 0 else SextetNumber(s[..|s| - 1]) * 64 + s[|s| - 1]
  }

  function Values(symbols: seq<byte>): (v: seq<int>)
    ensures |v| == |symbols|
  {
    seq(|symbols|, i requires 0 <= i < |symbols| => ValueOf(symbols[i]))
  }

  /** What is read of an input: everything before the first padding character. */
  function BeforePad(input: seq<byte>): seq<byte> {
    if input == [] || input[0] == PAD then [] else [input[0]] + BeforePad(input[1..])
  }

  predicate Decodable(symbols: seq<byte>) {
    forall i :: 0 <= i < |symbols| ==> Position(symbols[i]).Some?
  }

  /**
    What decoding means, without the accumulator: the symbols are read as one long
    bit string, whose whole bytes are the result; fewer than 8 bits are left over.
    */
  ghost predicate DecodesTo(symbols: seq<byte>, bytes: seq<byte>) {
    && |bytes| == 6 * |symbols| / 8
    && Shr(SextetNumber(Values(symbols)), 6 * |symbols| - 8 * |bytes|) == ByteNumber(bytes)
  }

  /** `n << bits`, `n >> bits` and `n & ((1 << bits) - 1)`, for the numbers of bits that can be pending. */
  function Shl(n: int, bits: int): int {
    if bits == 2 then n * 4 else if bits == 4 then n * 16 else if bits == 6 then n * 64 else n
  }

  function Shr(n: int, bits: int): int {
    if bits == 2 then n / 4 else if bits == 4 then n / 16 else if bits == 6 then n / 64 else n
  }

  function Low(n: int, bits: int): int {
    if bits == 2 then n % 4 else if bits == 4 then n % 16 else if bits == 6 then n % 64 else 0
  }

  // ---------------------------------------------------------------------
  // The decoder
  // ---------------------------------------------------------------------

  /** What the accumulator, the pending bits and the output say about the symbols consumed. */
  ghost predicate Accumulated(symbols: seq<byte>, result: seq<byte>, buf: int, bits: int) {
    && (bits == 0 || bits == 2 || bits == 4 || bits == 6)
    && 0 <= buf < Shl(1, bits)
    && 8 * |result| + bits == 6 * |symbols|
    && SextetNumber(Values(symbols)) == Shl(ByteNumber(result), bits) + buf
  }

  lemma ByteSnoc(bytes: seq<byte>, b: byte)
    ensures ByteNumber(bytes + [b]) == ByteNumber(bytes) * 256 + b
  {
    assert (bytes + [b])[..|bytes|] == bytes;
  }

  lemma SextetSnoc(s: seq<int>, v: int)
    ensures SextetNumber(s + [v]) == SextetNumber(s) * 64 + v
  {
    assert (s + [v])[..|s|] == s;
  }

  lemma ValuesSnoc(symbols: seq<byte>, c: byte)
    ensures SextetNumber(Values(symbols + [c])) == SextetNumber(Values(symbols)) * 64 + ValueOf(c)
  {
    assert Values(symbols + [c]) == Values(symbols) + [ValueOf(c)];
    SextetSnoc(Values(symbols), ValueOf(c));
  }

  /** One symbol that does not complete a byte. */
  lemma Keep(symbols: seq<byte>, c: byte, result: seq<byte>, buf: int, bits: int)
    requires Accumulated(symbols, result, buf, bits) && bits == 0
    ensures Accumulated(symbols + [c], result, buf * 64 + ValueOf(c), bits + 6)
  {
    ValuesSnoc(symbols, c);
  }

  lemma EmitNumber(high: int, buf: int, bits: int, value: int)
    requires (bits == 2 || bits == 4 || bits == 6) && 0 <= buf < Shl(1, bits) && 0 <= value < 64
    ensures var total := buf * 64 + value;
            && 0 <= Shr(total, bits - 2) < 256 && 0 <= Low(total, bits - 2) < Shl(1, bits - 2)
            && (Shl(high, bits) + buf) * 64 + value
            == Shl(high * 256 + Shr(total, bits - 2), bits - 2) + Low(total, bits - 2)
  {
  }

  /** One symbol that completes a byte. */
  lemma Emit(symbols: seq<byte>, c: byte, result: seq<byte>, buf: int, bits: int)
    requires Accumulated(symbols, result, buf, bits) && bits != 0
    ensures var total := buf * 64 + ValueOf(c);
            && 0 <= Shr(total, bits - 2) < 256
            && Accumulated(symbols + [c], result + [Shr(total, bits - 2)], Low(total, bits - 2), bits - 2)
  {
    EmitNumber(ByteNumber(result), buf, bits, ValueOf(c));
    ValuesSnoc(symbols, c);
    ByteSnoc(result, Shr(buf * 64 + ValueOf(c), bits - 2));
  }

  /** One symbol: no 32-bit overflow, and the state after it. */
  lemma Absorb(symbols: seq<byte>, c: byte, result: seq<byte>, buf: int, bits: int)
    requires Accumulated(symbols, result, buf, bits)
    ensures var total := buf * 64 + ValueOf(c);
            && 0 <= total < U32_LIMIT
            && if bits + 6 < 8 then Accumulated(symbols + [c], result, total, bits + 6)
               else && 0 <= Shr(total, bits - 2) < 256
                    && Accumulated(symbols + [c], result + [Shr(total, bits - 2)], Low(total, bits - 2), bits - 2)
  {
    if bits == 0 {
      Keep(symbols, c, result, buf, bits);
    } else {
      Emit(symbols, c, result, buf, bits);
    }
  }

  lemma {:induction false} BeforePadAt(input: seq<byte>, i: nat)
    requires i <= |input|
    requires forall k :: 0 <= k < i ==> input[k] != PAD
    requires i == |input| || input[i] == PAD
    ensures BeforePad(input) == input[..i]
  {
    if i > 0 {
      BeforePadAt(input[1..], i - 1);
      assert input[..i] == [input[0]] + input[1..][..i - 1];
    }
  }

  lemma {:induction false} BeforePadKeeps(input: seq<byte>, i: nat)
    requires i < |input|
    requires forall k :: 0 <= k <= i ==> input[k] != PAD
    ensures i < |BeforePad(input)| && BeforePad(input)[i] == input[i]
  {
    if i > 0 {
      BeforePadKeeps(input[1..], i - 1);
    }
  }

  predicate Readable(input: seq<byte>, i: nat)
    requires i <= |input|
  {
    forall k :: 0 <= k < i ==> input[k] != PAD && Position(input[k]).Some?
  }

  lemma Refused(input: seq<byte>, i: nat)
    requires i < |input| && Readable(input, i) && input[i] != PAD && Position(input[i]).None?
    ensures !Decodable(BeforePad(input))
  {
    BeforePadKeeps(input, i);
  }

  lemma Accepted(input: seq<byte>, i: nat, result: seq<byte>, buf: int, bits: int)
    requires i <= |input| && Readable(input, i) && (i == |input| || input[i] == PAD)
    requires Accumulated(input[..i], result, buf, bits)
    ensures Decodable(BeforePad(input)) && DecodesTo(BeforePad(input), result)
  {
    BeforePadAt(input, i);
  }

  /**
    `simple_base64_decode`: fails exactly when a character before the padding is not
    in the alphabet, and otherwise gives the whole bytes of the bit string.
    The accumulator never holds more than 6 + 6 bits, so the 32-bit shift loses none.
    */
  method SimpleBase64Decode(input: seq<byte>) returns (r: Result<seq<byte>, string>)
    ensures r.Success? <==> Decodable(BeforePad(input))
    ensures r.Success? ==> DecodesTo(BeforePad(input), r.value)
  {
    var result: seq<byte> := [];
    var buf, bits := 0, 0;
    var i := 0;
    while i < |input| && input[i] != PAD
      invariant 0 <= i <= |input|
      invariant Readable(input, i)
      invariant Accumulated(input[..i], result, buf, bits)
    {
      var c := input[i];
      match Position(c)
      case None =>
        Refused(input, i);
        return Failure("invalid base64");
      case Some(val) =>
        Absorb(input[..i], c, result, buf, bits);
        assert input[..i + 1] == input[..i] + [c];
        buf := buf * 64 + val;
        bits := bits + 6;
        if bits >= 8 {
          bits := bits - 8;
          result := result + [Shr(buf, bits)];
          buf := Low(buf, bits);
        }
        i := i + 1;
    }
    Accepted(input, i, result, buf, bits);
    r := Success(result);
  }

  // ---------------------------------------------------------------------
  // The encoding, and that decoding undoes it
  // ---------------------------------------------------------------------

  type sextet = v: int | 0 <= v < 64

  function Group(a: byte, b: byte, c: byte): (s: seq<sextet>)
    ensures |s| == 4
  {
    [a / 4, a % 4 * 16 + b / 16, b % 16 * 4 + c / 64, c % 64]
  }

  /** Whole groups of three bytes as four sextets each. */
  function Groups(bytes: seq<byte>): seq<sextet>
    requires |bytes| % 3 == 0
  {
    var n := |bytes|;
    if n == 0 then [] else Groups(bytes[..n - 3]) + Group(bytes[n - 3], bytes[n - 2], bytes[n - 1])
  }

  /** The last one or two bytes, filled up with zero bits to whole sextets. */
  function Tail(tail: seq<byte>): (s: seq<sextet>)
    requires |tail| < 3
    ensures 6 * |s| == 8 * |tail| + Fill(|tail|)
  {
    if |tail| == 0 then []
    else if |tail| == 1 then [tail[0] / 4, tail[0] % 4 * 16]
    else [tail[0] / 4, tail[0] % 4 * 16 + tail[1] / 16, tail[1] % 16 * 4]
  }

  /** How many zero bits a tail of n bytes needs. */
  function Fill(n: nat): int
    requires n < 3
  {
    if n == 0 then 0 else if n == 1 then 4 else 2
  }

  /** How many bytes fall in whole groups. */
  function Whole(n: nat): (w: nat)
    ensures w <= n < w + 3 && w % 3 == 0
  {
    n - n % 3
  }

  function Sextets(bytes: seq<byte>): seq<sextet> {
    var whole := Whole(|bytes|);
    Groups(bytes[..whole]) + Tail(bytes[whole..])
  }

  function Encode(bytes: seq<byte>): seq<byte> {
    var sextets := Sextets(bytes);
    seq(|sextets|, i requires 0 <= i < |sextets| => Symbol(sextets[i]))
  }

  function Padding(n: nat): seq<byte> {
    if n == Whole(n) then [] else if n == Whole(n) + 1 then [PAD, PAD] else [PAD]
  }

  lemma PutByte(s: seq<sextet>, a: byte, v: int)
    requires 0 <= v < 16
    ensures SextetNumber(s + [a / 4, a % 4 * 16 + v]) == (SextetNumber(s) * 256 + a) * 16 + v
  {
    SextetSnoc(s, a / 4);
    SextetSnoc(s + [a / 4], a % 4 * 16 + v);
    assert s + [a / 4, a % 4 * 16 + v] == s + [a / 4] + [a % 4 * 16 + v];
  }

  lemma PutTwoBytes(s: seq<sextet>, a: byte, b: byte, v: int)
    requires 0 <= v < 4
    ensures SextetNumber(s + [a / 4, a % 4 * 16 + b / 16, b % 16 * 4 + v])
         == ((SextetNumber(s) * 256 + a) * 256 + b) * 4 + v
  {
    var two, third := [a / 4, a % 4 * 16 + b / 16], b % 16 * 4 + v;
    PutByte(s, a, b / 16);
    SextetSnoc(s + two, third);
    assert s + two + [third] == s + [a / 4, a % 4 * 16 + b / 16, third];
  }

  lemma GroupNumber(s: seq<sextet>, a: byte, b: byte, c: byte)
    ensures SextetNumber(s + Group(a, b, c)) == ((SextetNumber(s) * 256 + a) * 256 + b) * 256 + c
  {
    var three := [a / 4, a % 4 * 16 + b / 16, b % 16 * 4 + c / 64];
    PutTwoBytes(s, a, b, c / 64);
    SextetSnoc(s + three, c % 64);
    assert s + Group(a, b, c) == s + three + [c % 64];
  }

  lemma {:induction false} GroupsNumber(bytes: seq<byte>)
    requires |bytes| % 3 == 0
    ensures SextetNumber(Groups(bytes)) == ByteNumber(bytes) && 6 * |Groups(bytes)| == 8 * |bytes|
  {
    var n := |bytes|;
    if n > 0 {
      var a, b, c, before := bytes[n - 3], bytes[n - 2], bytes[n - 1], bytes[..n - 3];
      GroupsNumber(before);
      GroupNumber(Groups(before), a, b, c);
      assert bytes == before + [a] + [b] + [c];
      ByteSnoc(before, a);
      ByteSnoc(before + [a], b);
      ByteSnoc(before + [a] + [b], c);
    }
  }

  lemma OneLeft(s: seq<sextet>, bytes: seq<byte>, a: byte)
    requires SextetNumber(s) == ByteNumber(bytes)
    ensures SextetNumber(s + Tail([a])) == ByteNumber(bytes + [a]) * 16
  {
    PutByte(s, a, 0);
    ByteSnoc(bytes, a);
    assert Tail([a]) == [a / 4, a % 4 * 16 + 0];
  }

  lemma TwoLeft(s: seq<sextet>, bytes: seq<byte>, a: byte, b: byte)
    requires SextetNumber(s) == ByteNumber(bytes)
    ensures SextetNumber(s + Tail([a, b])) == ByteNumber(bytes + [a, b]) * 4
  {
    PutTwoBytes(s, a, b, 0);
    ByteSnoc(bytes, a);
    ByteSnoc(bytes + [a], b);
    assert bytes + [a, b] == bytes + [a] + [b];
    assert Tail([a, b]) == [a / 4, a % 4 * 16 + b / 16, b % 16 * 4 + 0];
  }

  lemma TailNumber(s: seq<sextet>, bytes: seq<byte>, tail: seq<byte>)
    requires SextetNumber(s) == ByteNumber(bytes) && |tail| < 3
    ensures SextetNumber(s + Tail(tail)) == Shl(ByteNumber(bytes + tail), Fill(|tail|))
  {
    if |tail| == 0 {
      assert s + Tail(tail) == s && bytes + tail == bytes;
    } else if |tail| == 1 {
      OneLeft(s, bytes, tail[0]);
      assert tail == [tail[0]];
    } else {
      TwoLeft(s, bytes, tail[0], tail[1]);
      assert tail == [tail[0], tail[1]];
    }
  }

  lemma JoinNumber(groups: seq<byte>, tail: seq<byte>)
    requires |groups| % 3 == 0 && |tail| < 3
    ensures var s := Groups(groups) + Tail(tail);
            && SextetNumber(s) == Shl(ByteNumber(groups + tail), Fill(|tail|))
            && 6 * |s| == 8 * |groups + tail| + Fill(|tail|)
  {
    GroupsNumber(groups);
    TailNumber(Groups(groups), groups, tail);
  }

  /** The sextets carry the bytes' bits: the same number, shifted by the fill. */
  lemma SextetsNumber(bytes: seq<byte>)
    ensures SextetNumber(Sextets(bytes)) == Shl(ByteNumber(bytes), Fill(|bytes| - Whole(|bytes|)))
    ensures 6 * |Sextets(bytes)| == 8 * |bytes| + Fill(|bytes| - Whole(|bytes|))
  {
    var whole := Whole(|bytes|);
    JoinNumber(bytes[..whole], bytes[whole..]);
    assert bytes[..whole] + bytes[whole..] == bytes;
  }

  lemma SymbolHasValue(v: sextet)
    ensures Position(Symbol(v)) == Some(v) && Symbol(v) != PAD
  {
  }

  /** Reading the symbols of an encoding gives its sextets back. */
  lemma EncodeValues(bytes: seq<byte>)
    ensures Values(Encode(bytes)) == Sextets(bytes) && Decodable(Encode(bytes))
    ensures forall i :: 0 <= i < |Encode(bytes)| ==> Encode(bytes)[i] != PAD
  {
    var sextets := Sextets(bytes);
    forall i | 0 <= i < |sextets|
      ensures Position(Encode(bytes)[i]) == Some(sextets[i]) && Encode(bytes)[i] != PAD
    {
      SymbolHasValue(sextets[i]);
    }
  }

  lemma {:induction false} NumbersAreUnique(a: seq<byte>, b: seq<byte>)
    requires |a| == |b| && ByteNumber(a) == ByteNumber(b)
    ensures a == b
  {
    var n := |a|;
    if n > 0 {
      NumbersAreUnique(a[..n - 1], b[..n - 1]);
      assert a == a[..n - 1] + [a[n - 1]] && b == b[..n - 1] + [b[n - 1]];
    }
  }

  /** Decoding is a function: the length and the number leave one result. */
  lemma DecodesToOne(symbols: seq<byte>, a: seq<byte>, b: seq<byte>)
    requires DecodesTo(symbols, a) && DecodesTo(symbols, b)
    ensures a == b
  {
    NumbersAreUnique(a, b);
  }

  lemma BeforePadOf(symbols: seq<byte>, padding: seq<byte>)
    requires forall i :: 0 <= i < |symbols| ==> symbols[i] != PAD
    requires padding == [] || padding[0] == PAD
    ensures BeforePad(symbols + padding) == symbols
  {
    BeforePadAt(symbols + padding, |symbols|);
    assert (symbols + padding)[..|symbols|] == symbols;
  }

  /**
    The decoder inverts the standard encoding, padded or not, for every byte sequence:
    what `SimpleBase64Decode` returns on an encoded input is the original and nothing else.
    */
  lemma DecodeInvertsEncode(bytes: seq<byte>, padded: bool, result: seq<byte>)
    ensures var input := Encode(bytes) + (if padded then Padding(|bytes|) else []);
            && Decodable(BeforePad(input))
            && (DecodesTo(BeforePad(input), result) <==> result == bytes)
  {
    var symbols, fill := Encode(bytes), Fill(|bytes| - Whole(|bytes|));
    SextetsNumber(bytes);
    EncodeValues(bytes);
    BeforePadOf(symbols, if padded then Padding(|bytes|) else []);
    Shifted(ByteNumber(bytes), fill);
    assert DecodesTo(symbols, bytes);
    if DecodesTo(symbols, result) {
      DecodesToOne(symbols, result, bytes);
    }
  }

  lemma Shifted(n: int, fill: int)
    requires fill == 0 || fill == 2 || fill == 4
    ensures Shr(Shl(n, fill), fill) == n
  {
  }
}
