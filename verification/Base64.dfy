/**
 * The Base64 decoder of the over-the-air update example (examples/cc3220sf/xively_demo/OtaJson.c), and
 * the encoding of section 4 of RFC 4648 that it undoes.
 */
module Base64 {

  import opened Common

  const PAD: byte := 61 // '='

  // ---------------------------------------------------------------------------------------------
  // The alphabet

  function Symbol(i: nat): (c: byte)
    requires i < 64
  {
    if i < 26 then 65 + i
    else if i < 52 then 97 + (i - 26)
    else if i < 62 then 48 + (i - 52)
    else if i == 62 then 43
    else 47
  }

  /** What the decoding table holds; characters outside the alphabet keep the table's initial 0. */
  function Sextet(c: byte): (v: nat)
    ensures v < 64
  {
    if 65 <= c <= 90 then c - 65
    else if 97 <= c <= 122 then c - 71
    else if 48 <= c <= 57 then c + 4
    else if c == 43 then 62
    else if c == 47 then 63
    else 0
  }

  /** The encoding table is a bijection onto the alphabet, the decoding table its inverse. */
  lemma TablesAreInverse(i: nat, c: byte)
    requires i < 64
    ensures Sextet(Symbol(i)) == i && Symbol(i) != PAD
    ensures (exists k: nat :: k < 64 && Symbol(k) == c) <==> Symbol(Sextet(c)) == c
  {
  }

  /** The alphabet of Table 1 in section 4 of RFC 4648, in its order. */
  const UPPER := "ABCDEFGHIJKLMNOPQRSTUVWXYZ"
  const LOWER := "abcdefghijklmnopqrstuvwxyz"
  const DIGITS := "0123456789"

  lemma SymbolsAreTheAlphabet(i: nat)
    requires i < 64
    ensures Symbol(i) as char == (UPPER + LOWER + DIGITS + "+/")[i]
  {
    if i < 26 {
      assert UPPER[i] == (65 + i) as char;
    } else if i < 52 {
      assert LOWER[i - 26] == (71 + i) as char;
    } else if i < 62 {
      assert DIGITS[i - 52] == (i - 4) as char;
    }
  }

  /** Fills both tables; the decoding table is expected to be zero as globals are. */
  method InitTables(enc: array<byte>, dec: array<byte>)
    requires enc.Length == 64 && dec.Length == 256 && enc != dec
    requires forall c :: 0 <= c < 256 ==> dec[c] == 0
    modifies enc, dec
    ensures forall i :: 0 <= i < 64 ==> enc[i] == Symbol(i)
    ensures forall c :: 0 <= c < 256 ==> dec[c] == Sextet(c)
  {
    FillRange(enc, 65, 26, 0);
    FillRange(enc, 97, 26, 26);
    FillRange(enc, 48, 10, 52);
    enc[62] := 43;
    enc[63] := 47;
    for i := 0 to 64
      invariant forall k :: 0 <= k < 64 ==> enc[k] == Symbol(k)
      invariant forall c: byte :: dec[c] == if Symbol(Sextet(c)) == c && Sextet(c) < i then Sextet(c) else 0
    {
      dec[enc[i]] := i;
    }
  }

  method FillRange(enc: array<byte>, first: byte, count: nat, at: nat)
    requires at + count <= enc.Length && first + count <= 256
    modifies enc
    ensures forall k :: 0 <= k < enc.Length ==> enc[k] == if at <= k < at + count then first + (k - at) else old(enc[k])
  {
    for n := 0 to count
      invariant forall k :: 0 <= k < enc.Length ==> enc[k] == if at <= k < at + n then first + (k - at) else old(enc[k])
    {
      enc[at + n] := first + n;
    }
  }

  // ---------------------------------------------------------------------------------------------
  // Decoding

  function Nibble(c: byte): (v: nat)
    ensures v < 64
  {
    if c == PAD then 0 else Sextet(c)
  }

  function Value(s: seq<byte>): (v: nat)
    requires |s| == 4
    ensures v < 0x100_0000
  {
    Nibble(s[0]) * 0x4_0000 + Nibble(s[1]) * 0x1000 + Nibble(s[2]) * 0x40 + Nibble(s[3])
  }

  function Octets(v: nat): (b: seq<byte>)
    ensures |b| == 3
  {
    [v / 0x1_0000 % 256, v / 0x100 % 256, v % 256]
  }

  /** All groups of four characters decoded to three bytes each. */
  function Groups(s: seq<byte>): (b: seq<byte>)
    requires |s| % 4 == 0
    ensures |b| == |s| / 4 * 3
  {
    if s == [] then [] else Octets(Value(s[..4])) + Groups(s[4..])
  }

  /** The length the decoder announces: three bytes a group, less one for each pad in the last two places. */
  function DecodedLength(s: seq<byte>): (n: nat)
    requires s != [] && |s| % 4 == 0
    ensures n <= |s| / 4 * 3
  {
    |s| / 4 * 3 - (if s[|s| - 1] == PAD then 1 else 0) - (if s[|s| - 2] == PAD then 1 else 0)
  }

  function Decoded(s: seq<byte>): (b: seq<byte>)
    requires s != [] && |s| % 4 == 0
    ensures |b| == DecodedLength(s)
  {
    Groups(s)[..DecodedLength(s)]
  }

  /**
   * A length that is not a multiple of four is refused; without an output buffer only the length is
   * announced; otherwise exactly the announced number of bytes is written.
   */
  method Decode(input: seq<byte>, dec: array<byte>, output: array?<byte>) returns (ok: bool, length: int)
    requires input != [] && dec.Length == 256 && forall c :: 0 <= c < 256 ==> dec[c] == Sextet(c)
    requires output != null && |input| % 4 == 0 ==> DecodedLength(input) <= output.Length && output != dec
    modifies output
    ensures ok == (|input| % 4 == 0 && output != null)
    ensures |input| % 4 == 0 ==> length == DecodedLength(input)
    ensures ok ==> output[..length] == Decoded(input) && output[length..] == old(output[length..])
  {
    length := 0;
    if |input| % 4 != 0 {
      return false, length;
    }
    length := |input| / 4 * 3;
    if input[|input| - 1] == PAD {
      length := length - 1;
    }
    if input[|input| - 2] == PAD {
      length := length - 1;
    }
    if output == null {
      return false, length;
    }
    DecodeGroups(input, dec, output, length);
    ok := true;
  }

  method DecodeGroups(input: seq<byte>, dec: array<byte>, output: array<byte>, length: nat)
    requires dec.Length == 256 && forall c :: 0 <= c < 256 ==> dec[c] == Sextet(c)
    requires output != dec && |input| % 4 == 0 && length <= output.Length && length <= |input| / 4 * 3
    modifies output
    ensures output[..length] == Groups(input)[..length] && output[length..] == old(output[length..])
  {
    var i, j := 0, 0;
    while i < |input|
      invariant 0 <= i <= |input| && i % 4 == 0
      invariant j == if i / 4 * 3 <= length then i / 4 * 3 else length
      invariant output[..j] == Groups(input[..i])[..j]
      invariant output[length..] == old(output[length..])
    {
      ghost var before := Groups(input[..i]);
      GroupsStep(input, i);
      var value := ReadGroup(input, i, dec);
      j := WriteOctets(value, output, j, length, before);
      i := i + 4;
    }
    assert input[..|input|] == input;
  }

  /** Reads four characters; padding counts as 0. */
  method ReadGroup(input: seq<byte>, at: nat, dec: array<byte>) returns (value: nat)
    requires at + 4 <= |input| && dec.Length == 256 && forall c :: 0 <= c < 256 ==> dec[c] == Sextet(c)
    ensures value == Value(input[at..at + 4])
  {
    var i := at;
    var nibble1: nat := if input[i] == PAD then 0 else dec[input[i]];
    i := i + 1;
    var nibble2: nat := if input[i] == PAD then 0 else dec[input[i]];
    i := i + 1;
    var nibble3: nat := if input[i] == PAD then 0 else dec[input[i]];
    i := i + 1;
    var nibble4: nat := if input[i] == PAD then 0 else dec[input[i]];
    value := nibble1 * 0x4_0000 + nibble2 * 0x1000 + nibble3 * 0x40 + nibble4;
  }

  lemma GroupsStep(s: seq<byte>, i: nat)
    requires i + 4 <= |s| && i % 4 == 0
    ensures Groups(s[..i + 4]) == Groups(s[..i]) + Octets(Value(s[i..i + 4]))
  {
    assert s[..i + 4] == s[..i] + s[i..i + 4];
    GroupsConcat(s[..i], s[i..i + 4]);
    OneGroup(s[i..i + 4]);
  }

  /** Writes the bytes of one group as far as the announced length goes. */
  method WriteOctets(value: nat, output: array<byte>, at: nat, length: nat, ghost before: seq<byte>)
    returns (j: nat)
    requires length <= output.Length && at == (if |before| <= length then |before| else length)
    requires output[..at] == before[..at]
    modifies output
    ensures var all := before + Octets(value);
            j == (if |all| <= length then |all| else length) && output[..j] == all[..j]
    ensures output[length..] == old(output[length..])
  {
    j := at;
    ghost var all := before + Octets(value);
    assert all[..j] == before[..j];
    if j < length {
      output[j] := value / 0x1_0000 % 256;
      OneMore(output, all, j);
      j := j + 1;
    }
    if j < length {
      output[j] := value / 0x100 % 256;
      OneMore(output, all, j);
      j := j + 1;
    }
    if j < length {
      output[j] := value % 256;
      OneMore(output, all, j);
      j := j + 1;
    }
  }

  lemma OneMore(output: array<byte>, all: seq<byte>, j: nat)
    requires j < output.Length && j < |all| && output[..j] == all[..j] && output[j] == all[j]
    ensures output[..j + 1] == all[..j + 1]
  {
    SliceSnoc(output[..], 0, j);
    SliceSnoc(all, 0, j);
  }

  lemma {:induction false} GroupsConcat(a: seq<byte>, b: seq<byte>)
    requires |a| % 4 == 0 && |b| % 4 == 0
    ensures Groups(a + b) == Groups(a) + Groups(b)
    decreases |a|
  {
    if a == [] {
      assert a + b == b;
    } else {
      var c := a + b;
      assert c[..4] == a[..4] && c[4..] == a[4..] + b;
      GroupsConcat(a[4..], b);
    }
  }

  lemma OneGroup(s: seq<byte>)
    requires |s| == 4
    ensures Groups(s) == Octets(Value(s))
  {
    assert s[..4] == s && s[4..] == [];
  }

  // ---------------------------------------------------------------------------------------------
  // Encoding, and the round trip

  /** Three bytes as four symbols. */
  function Quad(b0: byte, b1: byte, b2: byte): (s: seq<byte>)
    ensures |s| == 4
  {
    [Symbol(b0 / 4), Symbol(b0 % 4 * 16 + b1 / 16), Symbol(b1 % 16 * 4 + b2 / 64), Symbol(b2 % 64)]
  }

  /** Section 4 of RFC 4648: a final group of one or two bytes is filled with zero bits and padded. */
  function Encode(b: seq<byte>): (s: seq<byte>)
    ensures |s| % 4 == 0 && |s| / 4 == (|b| + 2) / 3
  {
    if b == [] then []
    else if |b| == 1 then Quad(b[0], 0, 0)[..2] + [PAD, PAD]
    else if |b| == 2 then Quad(b[0], b[1], 0)[..3] + [PAD]
    else Quad(b[0], b[1], b[2]) + Encode(b[3..])
  }

  lemma QuadValue(b0: byte, b1: byte, b2: byte)
    ensures Value(Quad(b0, b1, b2)) == b0 * 0x1_0000 + b1 * 0x100 + b2
    ensures forall k :: 0 <= k < 4 ==> Quad(b0, b1, b2)[k] != PAD
  {
    TablesAreInverse(b0 / 4, 0);
    TablesAreInverse(b0 % 4 * 16 + b1 / 16, 0);
    TablesAreInverse(b1 % 16 * 4 + b2 / 64, 0);
    TablesAreInverse(b2 % 64, 0);
    assert b0 == 4 * (b0 / 4) + b0 % 4 && b1 == 16 * (b1 / 16) + b1 % 16 && b2 == 64 * (b2 / 64) + b2 % 64;
  }

  lemma OctetsOf(b0: byte, b1: byte, b2: byte)
    ensures Octets(b0 * 0x1_0000 + b1 * 0x100 + b2) == [b0, b1, b2]
  {
    var v := b0 * 0x1_0000 + b1 * 0x100 + b2;
    assert v / 0x1_0000 == b0 && v / 0x100 == b0 * 256 + b1;
  }

  /** Padding stands for the symbol of zero bits. */
  lemma PaddedValue(b0: byte, b1: byte)
    ensures Value(Quad(b0, 0, 0)[..2] + [PAD, PAD]) == Value(Quad(b0, 0, 0))
    ensures Value(Quad(b0, b1, 0)[..3] + [PAD]) == Value(Quad(b0, b1, 0))
  {
    QuadValue(b0, 0, 0);
    QuadValue(b0, b1, 0);
  }

  lemma {:induction false} DecodedPrefix(b: seq<byte>)
    ensures |b| <= |Groups(Encode(b))| && Groups(Encode(b))[..|b|] == b
    decreases |b|
  {
    var s := Encode(b);
    if b == [] {
      assert Groups(s)[..0] == b;
    } else if |b| <= 2 {
      LastGroup(b);
    } else {
      FirstGroup(b);
      DecodedPrefix(b[3..]);
      PrefixOf([b[0], b[1], b[2]], b[3..], Groups(Encode(b[3..])));
      assert b == [b[0], b[1], b[2]] + b[3..];
    }
  }

  lemma PrefixOf(head: seq<byte>, b: seq<byte>, g: seq<byte>)
    requires |b| <= |g| && g[..|b|] == b
    ensures (head + g)[..|head + b|] == head + b
  {
  }

  lemma LastGroup(b: seq<byte>)
    requires 0 < |b| <= 2
    ensures |b| <= |Groups(Encode(b))| && Groups(Encode(b))[..|b|] == b
  {
    var b1 := if |b| == 2 then b[1] else 0;
    PaddedValue(b[0], b1);
    QuadValue(b[0], b1, 0);
    OctetsOf(b[0], b1, 0);
    OneGroup(Encode(b));
    assert Octets(Value(Encode(b))) == [b[0], b1, 0];
  }

  lemma QuadGroup(b0: byte, b1: byte, b2: byte)
    ensures Groups(Quad(b0, b1, b2)) == [b0, b1, b2]
  {
    QuadValue(b0, b1, b2);
    OctetsOf(b0, b1, b2);
    OneGroup(Quad(b0, b1, b2));
  }

  lemma FirstGroup(b: seq<byte>)
    requires |b| >= 3
    ensures Groups(Encode(b)) == [b[0], b[1], b[2]] + Groups(Encode(b[3..]))
  {
    PrefixGroup(b[0], b[1], b[2], Encode(b[3..]));
  }

  lemma PrefixGroup(b0: byte, b1: byte, b2: byte, rest: seq<byte>)
    requires |rest| % 4 == 0
    ensures Groups(Quad(b0, b1, b2) + rest) == [b0, b1, b2] + Groups(rest)
  {
    QuadGroup(b0, b1, b2);
    GroupsConcat(Quad(b0, b1, b2), rest);
  }

  /** The last two characters of an encoding tell how many bytes its final group has. */
  lemma {:induction false} EncodedLength(b: seq<byte>)
    requires b != []
    ensures DecodedLength(Encode(b)) == |b|
    decreases |b|
  {
    if |b| <= 2 {
      QuadValue(b[0], if |b| == 2 then b[1] else 0, 0);
    } else {
      QuadValue(b[0], b[1], b[2]);
      if |b| > 3 {
        EncodedLength(b[3..]);
        var s, t := Encode(b), Encode(b[3..]);
        assert s[|s| - 1] == t[|t| - 1] && s[|s| - 2] == t[|t| - 2];
      }
    }
  }

  /** Decoding an encoding gives back exactly the bytes, for every padding. */
  lemma RoundTrip(b: seq<byte>)
    requires b != []
    ensures DecodedLength(Encode(b)) == |b| && Decoded(Encode(b)) == b
  {
    EncodedLength(b);
    DecodedPrefix(b);
  }

  /** Different byte sequences therefore have different encodings. */
  lemma EncodeIsInjective(a: seq<byte>, b: seq<byte>)
    ensures Encode(a) == Encode(b) <==> a == b
  {
    if a != [] && b != [] {
      RoundTrip(a);
      RoundTrip(b);
    }
  }
}
