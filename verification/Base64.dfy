/** Base64 as in section 4 of RFC 4648, with the lenient decoder behind base64.b64decode: characters outside the
    alphabet are passed over, and reading stops at a completed padding. */
module Base64 {
  import opened Common
  import opened Text

  type Byte = n: nat | n < 256

  type Sextet = n: nat | n < 64

  function CharOf(n: Sextet): char {
    if n < 26 then 'A' + n as char
    else if n < 52 then 'a' + (n - 26) as char
    else if n < 62 then '0' + (n - 52) as char
    else if n == 62 then '+'
    else '/'
  }

  function ValueOf(c: char): Option<Sextet> {
    if 'A' <= c <= 'Z' then Some(c as int - 'A' as int)
    else if 'a' <= c <= 'z' then Some(c as int - 'a' as int + 26)
    else if '0' <= c <= '9' then Some(c as int - '0' as int + 52)
    else if c == '+' then Some(62)
    else if c == '/' then Some(63)
    else None
  }

  function Encode(b: seq<Byte>): string {
    if |b| == 0 then ""
    else if |b| == 1 then [CharOf(b[0] / 4), CharOf(b[0] % 4 * 16), '=', '=']
    else if |b| == 2 then [CharOf(b[0] / 4), CharOf(b[0] % 4 * 16 + b[1] / 16), CharOf(b[1] % 16 * 4), '=']
    else
      [CharOf(b[0] / 4), CharOf(b[0] % 4 * 16 + b[1] / 16), CharOf(b[1] % 16 * 4 + b[2] / 64), CharOf(b[2] % 64)]
        + Encode(b[3..])
  }

  /** Where the decoder is: characters of the current group seen, the bits left over from the last one, and the
      padding characters since. */
  datatype State = State(quad: nat, left: nat, pads: nat)

  predicate StateOk(s: State) {
    s.quad < 4 && (s.quad == 0 ==> s.left == 0) && (s.quad == 1 ==> s.left < 64) && (s.quad == 2 ==> s.left < 16) && (s.quad == 3 ==> s.left < 4)
  }

  const START := State(0, 0, 0)

  function Prepend(x: Byte, rest: Option<seq<Byte>>): Option<seq<Byte>> {
    match rest case None => None case Some(bytes) => Some([x] + bytes)
  }

  /** What the decoder makes of the remaining text; None where it raises. */
  function DecodeFrom(text: string, s: State): Option<seq<Byte>>
    requires StateOk(s)
    decreases |text|
  {
    if text == "" then if s.quad == 0 then Some([]) else None
    else if text[0] == '=' then
      if s.quad < 2 then DecodeFrom(text[1..], s)
      else if s.quad + s.pads + 1 >= 4 then Some([])
      else DecodeFrom(text[1..], s.(pads := s.pads + 1))
    else
      match ValueOf(text[0])
      case None => DecodeFrom(text[1..], s)
      case Some(v) =>
        match s.quad
        case 0 => DecodeFrom(text[1..], State(1, v, 0))
        case 1 => Prepend(s.left * 4 + v / 16, DecodeFrom(text[1..], State(2, v % 16, 0)))
        case 2 => Prepend(s.left * 16 + v / 4, DecodeFrom(text[1..], State(3, v % 4, 0)))
        case _ => Prepend(s.left * 64 + v, DecodeFrom(text[1..], START))
  }

  /** base64.b64decode on a string: text that is not ASCII, and a last group without its padding, raise. */
  function Decode(text: string): Option<seq<Byte>> {
    if IsAscii(text) then DecodeFrom(text, START) else None
  }

  lemma {:induction false} ValueOfChar(n: Sextet)
    ensures ValueOf(CharOf(n)) == Some(n) && CharOf(n) != '=' && CharOf(n) < 128 as char
  {
  }

  lemma {:induction false} EncodeIsAscii(b: seq<Byte>)
    ensures IsAscii(Encode(b))
  {
    if |b| >= 3 {
      EncodeIsAscii(b[3..]);
    }
  }

  /** Reading one data character. */
  lemma {:induction false} ReadChar(n: Sextet, rest: string, s: State)
    requires StateOk(s)
    ensures DecodeFrom([CharOf(n)] + rest, s) ==
            match s.quad
            case 0 => DecodeFrom(rest, State(1, n, 0))
            case 1 => Prepend(s.left * 4 + n / 16, DecodeFrom(rest, State(2, n % 16, 0)))
            case 2 => Prepend(s.left * 16 + n / 4, DecodeFrom(rest, State(3, n % 4, 0)))
            case _ => Prepend(s.left * 64 + n, DecodeFrom(rest, START))
  {
    ValueOfChar(n);
    assert ([CharOf(n)] + rest)[1..] == rest;
  }

  /** The two data characters every group starts with. */
  lemma {:induction false} ReadTwo(c0: Sextet, c1: Sextet, rest: string)
    ensures DecodeFrom([CharOf(c0), CharOf(c1)] + rest, START) ==
            Prepend(c0 * 4 + c1 / 16, DecodeFrom(rest, State(2, c1 % 16, 0)))
  {
    assert [CharOf(c0), CharOf(c1)] + rest == [CharOf(c0)] + ([CharOf(c1)] + rest);
    ReadChar(c0, [CharOf(c1)] + rest, START);
    ReadChar(c1, rest, State(1, c0, 0));
  }

  lemma {:induction false} ReadFour(c0: Sextet, c1: Sextet, c2: Sextet, c3: Sextet, rest: string)
    ensures DecodeFrom([CharOf(c0), CharOf(c1), CharOf(c2), CharOf(c3)] + rest, START) ==
            Prepend(c0 * 4 + c1 / 16, Prepend(c1 % 16 * 16 + c2 / 4, Prepend(c2 % 4 * 64 + c3, DecodeFrom(rest, START))))
  {
    var r3 := [CharOf(c3)] + rest;
    var r2 := [CharOf(c2)] + r3;
    assert [CharOf(c0), CharOf(c1), CharOf(c2), CharOf(c3)] + rest == [CharOf(c0), CharOf(c1)] + r2;
    ReadTwo(c0, c1, r2);
    ReadChar(c2, r3, State(2, c1 % 16, 0));
    ReadChar(c3, rest, State(3, c2 % 4, 0));
  }

  /** Four sextets hold three bytes. */
  lemma {:induction false} Repack(x: Byte, y: Byte, z: Byte)
    ensures var c0, c1, c2, c3 := x / 4, x % 4 * 16 + y / 16, y % 16 * 4 + z / 64, z % 64;
            && c0 < 64 && c1 < 64 && c2 < 64 && c3 < 64
            && c0 * 4 + c1 / 16 == x && c1 % 16 * 16 + c2 / 4 == y && c2 % 4 * 64 + c3 == z
  {
  }

  lemma {:induction false} ReadGroup(x: Byte, y: Byte, z: Byte, rest: string)
    ensures DecodeFrom([CharOf(x / 4), CharOf(x % 4 * 16 + y / 16), CharOf(y % 16 * 4 + z / 64), CharOf(z % 64)] + rest, START)
            == Prepend(x, Prepend(y, Prepend(z, DecodeFrom(rest, START))))
  {
    Repack(x, y, z);
    ReadFour(x / 4, x % 4 * 16 + y / 16, y % 16 * 4 + z / 64, z % 64, rest);
  }

  lemma {:induction false} EndsAtPadding(left: nat)
    requires left < 4
    ensures DecodeFrom("=", State(3, left, 0)) == Some([]) && DecodeFrom("==", State(2, left, 0)) == Some([])
  {
    assert "=="[1..] == "=";
    assert DecodeFrom("=", State(2, left, 1)) == Some([]);
  }

  lemma {:induction false} ReadPair(x: Byte, y: Byte)
    ensures DecodeFrom([CharOf(x / 4), CharOf(x % 4 * 16 + y / 16), CharOf(y % 16 * 4), '='], START) == Some([x, y])
  {
    var c0, c1, c2 := x / 4, x % 4 * 16 + y / 16, y % 16 * 4;
    Repack(x, y, 0);
    var r2 := [CharOf(c2)] + "=";
    assert [CharOf(c0), CharOf(c1), CharOf(c2), '='] == [CharOf(c0), CharOf(c1)] + r2;
    ReadTwo(c0, c1, r2);
    ReadChar(c2, "=", State(2, c1 % 16, 0));
    EndsAtPadding(c2 % 4);
    assert [y] + [] == [y] && [x] + [y] == [x, y];
  }

  lemma {:induction false} ReadSingle(x: Byte)
    ensures DecodeFrom([CharOf(x / 4), CharOf(x % 4 * 16), '=', '='], START) == Some([x])
  {
    Repack(x, 0, 0);
    assert [CharOf(x / 4), CharOf(x % 4 * 16), '=', '='] == [CharOf(x / 4), CharOf(x % 4 * 16)] + "==";
    ReadTwo(x / 4, x % 4 * 16, "==");
    EndsAtPadding(0);
    assert [x] + [] == [x];
  }

  /** Decoding undoes encoding, for all bytes. */
  lemma {:induction false} DecodeEncode(b: seq<Byte>)
    ensures Decode(Encode(b)) == Some(b)
  {
    EncodeIsAscii(b);
    DecodeFromEncode(b);
  }

  lemma {:induction false} DecodeGroup(x: Byte, y: Byte, z: Byte, rest: seq<Byte>)
    requires DecodeFrom(Encode(rest), START) == Some(rest)
    ensures DecodeFrom(Encode([x, y, z] + rest), START) == Some([x, y, z] + rest)
  {
    var b := [x, y, z] + rest;
    assert b[3..] == rest;
    ReadGroup(x, y, z, Encode(rest));
    assert b == [x] + ([y] + ([z] + rest));
  }

  lemma {:induction false} DecodeTail(b: seq<Byte>)
    requires |b| < 3
    ensures DecodeFrom(Encode(b), START) == Some(b)
  {
    if |b| == 1 {
      ReadSingle(b[0]);
      assert b == [b[0]];
    } else if |b| == 2 {
      ReadPair(b[0], b[1]);
      assert b == [b[0], b[1]];
    }
  }

  lemma {:induction false} DecodeFromEncode(b: seq<Byte>)
    ensures DecodeFrom(Encode(b), START) == Some(b)
  {
    if |b| < 3 {
      DecodeTail(b);
    } else {
      DecodeFromEncode(b[3..]);
      DecodeGroup(b[0], b[1], b[2], b[3..]);
      assert b == [b[0], b[1], b[2]] + b[3..];
    }
  }

  const ALPHABET: string := "ABCDEFGHIJKLMNOPQRSTUVWXYZ" + "abcdefghijklmnopqrstuvwxyz" + "0123456789" + "+/"

  /** The alphabet of RFC 4648, section 4. */
  lemma {:induction false} AlphabetIsStandard(n: Sextet)
    ensures |ALPHABET| == 64 && CharOf(n) == ALPHABET[n]
  {
    var upper, lower, digits := "ABCDEFGHIJKLMNOPQRSTUVWXYZ", "abcdefghijklmnopqrstuvwxyz", "0123456789";
    if n < 26 {
      assert ALPHABET[n] == upper[n] == 'A' + n as char;
    } else if n < 52 {
      assert ALPHABET[n] == lower[n - 26] == 'a' + (n - 26) as char;
    } else if n < 62 {
      assert ALPHABET[n] == digits[n - 52] == '0' + (n - 52) as char;
    }
  }

  /** The test vectors of RFC 4648, section 10. */
  lemma {:induction false} StandardVectors()
    ensures Encode([]) == "" && Encode([102]) == "Zg==" && Encode([102, 111]) == "Zm8=" && Encode([102, 111, 111]) == "Zm9v"
    ensures Encode([102, 111, 111, 98, 97, 114]) == "Zm9vYmFy"
  {
    OneByte();
    TwoBytes();
    ThreeBytes();
    SixBytes();
  }

  lemma {:induction false} OneByte()
    ensures Encode([102]) == "Zg=="
  {
  }

  lemma {:induction false} TwoBytes()
    ensures Encode([102, 111]) == "Zm8="
  {
  }

  lemma {:induction false} ThreeBytes()
    ensures Encode([102, 111, 111]) == "Zm9v"
  {
    assert [102, 111, 111][3..] == [];
    assert Encode([102, 111, 111]) == "Zm9v" + "";
  }

  lemma {:induction false} LastThreeBytes()
    ensures Encode([98, 97, 114]) == "YmFy"
  {
    assert [98, 97, 114][3..] == [];
    assert Encode([98, 97, 114]) == "YmFy" + "";
  }

  lemma {:induction false} SixBytes()
    ensures Encode([102, 111, 111, 98, 97, 114]) == "Zm9vYmFy"
  {
    var b := [102, 111, 111, 98, 97, 114];
    LastThreeBytes();
    assert b[3..] == [98, 97, 114];
    assert Encode(b) == ['Z', 'm', '9', 'v'] + Encode(b[3..]);
  }

  /** What stands in the text and is neither in the alphabet nor padding is passed over. */
  lemma {:induction false} ForeignIsPassedOver(a: string, c: char, b: string, s: State)
    requires StateOk(s) && c != '=' && ValueOf(c).None?
    ensures DecodeFrom(a + [c] + b, s) == DecodeFrom(a + b, s)
    decreases |a|
  {
    if a == "" {
      assert ([c] + b)[1..] == b && a + [c] + b == [c] + b && a + b == b;
    } else {
      assert (a + [c] + b)[1..] == a[1..] + [c] + b && (a + b)[1..] == a[1..] + b;
      assert (a + [c] + b)[0] == a[0] && (a + b)[0] == a[0];
      if a[0] == '=' {
        ForeignIsPassedOver(a[1..], c, b, s);
        if s.quad >= 2 && s.quad + s.pads + 1 < 4 {
          ForeignIsPassedOver(a[1..], c, b, s.(pads := s.pads + 1));
        }
      } else {
        match ValueOf(a[0])
        case None => ForeignIsPassedOver(a[1..], c, b, s);
        case Some(v) =>
          if s.quad == 0 {
            ForeignIsPassedOver(a[1..], c, b, State(1, v, 0));
          } else if s.quad == 1 {
            ForeignIsPassedOver(a[1..], c, b, State(2, v % 16, 0));
          } else if s.quad == 2 {
            ForeignIsPassedOver(a[1..], c, b, State(3, v % 4, 0));
          } else {
            ForeignIsPassedOver(a[1..], c, b, START);
          }
      }
    }
  }

  lemma {:induction false} PadOne(left: nat, rest: string)
    requires left < 4
    ensures DecodeFrom("=" + rest, State(3, left, 0)) == Some([]) && DecodeFrom("", State(3, left, 0)) == None
  {
  }

  lemma {:induction false} ReadShort(c0: Sextet, c1: Sextet, rest: string)
    ensures DecodeFrom([CharOf(c0), CharOf(c1), '=', '='] + rest, START) == Some([c0 * 4 + c1 / 16])
    ensures DecodeFrom([CharOf(c0), CharOf(c1), '='], START) == None
  {
    assert [CharOf(c0), CharOf(c1), '=', '='] + rest == [CharOf(c0), CharOf(c1)] + ("==" + rest);
    assert [CharOf(c0), CharOf(c1), '='] == [CharOf(c0), CharOf(c1)] + "=";
    ReadTwo(c0, c1, "==" + rest);
    ReadTwo(c0, c1, "=");
    PadTwo(c1 % 16, rest);
    assert [c0 * 4 + c1 / 16] + [] == [c0 * 4 + c1 / 16];
  }

  lemma {:induction false} ReadThree(c0: Sextet, c1: Sextet, c2: Sextet, rest: string)
    ensures DecodeFrom([CharOf(c0), CharOf(c1), CharOf(c2)] + rest, START) ==
            Prepend(c0 * 4 + c1 / 16, Prepend(c1 % 16 * 16 + c2 / 4, DecodeFrom(rest, State(3, c2 % 4, 0))))
  {
    assert [CharOf(c0), CharOf(c1), CharOf(c2)] + rest == [CharOf(c0), CharOf(c1)] + ([CharOf(c2)] + rest);
    ReadTwo(c0, c1, [CharOf(c2)] + rest);
    ReadChar(c2, rest, State(2, c1 % 16, 0));
  }

  lemma {:induction false} ReadLonger(c0: Sextet, c1: Sextet, c2: Sextet, rest: string)
    ensures DecodeFrom([CharOf(c0), CharOf(c1), CharOf(c2), '='] + rest, START) == Some([c0 * 4 + c1 / 16, c1 % 16 * 16 + c2 / 4])
    ensures DecodeFrom([CharOf(c0), CharOf(c1), CharOf(c2)], START) == None
  {
    var three := [CharOf(c0), CharOf(c1), CharOf(c2)];
    assert three + [] == three && [CharOf(c0), CharOf(c1), CharOf(c2), '='] + rest == three + ("=" + rest);
    ReadThree(c0, c1, c2, "=" + rest);
    ReadThree(c0, c1, c2, []);
    PadOne(c2 % 4, rest);
    var x, y := c0 * 4 + c1 / 16, c1 % 16 * 16 + c2 / 4;
    assert [y] + [] == [y] && [x] + [y] == [x, y];
  }

  lemma {:induction false} PadTwo(left: nat, rest: string)
    requires left < 16
    ensures DecodeFrom("==" + rest, State(2, left, 0)) == Some([]) && DecodeFrom("=", State(2, left, 0)) == None
  {
    assert ("==" + rest)[1..] == "=" + rest && "="[1..] == "";
    assert DecodeFrom("=" + rest, State(2, left, 1)) == Some([]);
    assert DecodeFrom("", State(2, left, 1)) == None;
  }

  lemma {:induction false} LastGroup(b: seq<Byte>, rest: string)
    requires 1 <= |b| <= 2
    ensures DecodeFrom(Encode(b) + rest, START) == Some(b)
    ensures DecodeFrom(Encode(b)[..|Encode(b)| - 1], START) == None
  {
    if |b| == 1 {
      var c0, c1 := b[0] / 4, b[0] % 4 * 16;
      Repack(b[0], 0, 0);
      ReadShort(c0, c1, rest);
      assert Encode(b)[..|Encode(b)| - 1] == [CharOf(c0), CharOf(c1), '='];
      assert [b[0]] == b;
    } else {
      var c0, c1, c2 := b[0] / 4, b[0] % 4 * 16 + b[1] / 16, b[1] % 16 * 4;
      Repack(b[0], b[1], 0);
      ReadLonger(c0, c1, c2, rest);
      assert Encode(b)[..|Encode(b)| - 1] == [CharOf(c0), CharOf(c1), CharOf(c2)];
      assert [b[0], b[1]] == b;
    }
  }

  function GroupOf(b: seq<Byte>): string
    requires |b| >= 3
  {
    [CharOf(b[0] / 4), CharOf(b[0] % 4 * 16 + b[1] / 16), CharOf(b[1] % 16 * 4 + b[2] / 64), CharOf(b[2] % 64)]
  }

  lemma {:induction false} AfterGroup(b: seq<Byte>, text: string)
    requires |b| >= 3
    ensures DecodeFrom(text, START) == None ==> DecodeFrom(GroupOf(b) + text, START) == None
    ensures DecodeFrom(text, START) == Some(b[3..]) ==> DecodeFrom(GroupOf(b) + text, START) == Some(b)
  {
    ReadGroup(b[0], b[1], b[2], text);
    assert b == [b[0]] + ([b[1]] + ([b[2]] + b[3..]));
  }

  lemma {:induction false} EncodeGroup(b: seq<Byte>)
    requires |b| > 3
    ensures Encode(b) == GroupOf(b) + Encode(b[3..]) && Encode(b[3..]) != ""
    ensures Encode(b)[..|Encode(b)| - 1] == GroupOf(b) + Encode(b[3..])[..|Encode(b[3..])| - 1]
  {
  }

  lemma {:induction false} PaddedStep(b: seq<Byte>, rest: string)
    requires |b| > 3 && DecodeFrom(Encode(b[3..]) + rest, START) == Some(b[3..])
    ensures DecodeFrom(Encode(b) + rest, START) == Some(b)
  {
    var tail := Encode(b[3..]);
    EncodeGroup(b);
    AfterGroup(b, tail + rest);
    assert Encode(b) + rest == GroupOf(b) + (tail + rest);
  }

  lemma {:induction false} UnpaddedStep(b: seq<Byte>)
    requires |b| > 3 && Encode(b[3..]) != "" && DecodeFrom(Encode(b[3..])[..|Encode(b[3..])| - 1], START) == None
    ensures DecodeFrom(Encode(b)[..|Encode(b)| - 1], START) == None
  {
    var tail := Encode(b[3..]);
    EncodeGroup(b);
    AfterGroup(b, tail[..|tail| - 1]);
  }

  /** A padded last group ends the reading, whatever follows; without all of its padding it raises. */
  lemma {:induction false} PaddingEndsReading(b: seq<Byte>, rest: string)
    requires |b| % 3 != 0
    ensures DecodeFrom(Encode(b) + rest, START) == Some(b)
    ensures DecodeFrom(Encode(b)[..|Encode(b)| - 1], START) == None
  {
    if |b| < 3 {
      LastGroup(b, rest);
    } else {
      PaddingEndsReading(b[3..], rest);
      PaddedStep(b, rest);
      UnpaddedStep(b);
    }
  }

  /** Different bytes are printed differently. */
  lemma {:induction false} EncodeInjective(a: seq<Byte>, b: seq<Byte>)
    requires Encode(a) == Encode(b)
    ensures a == b
  {
    DecodeEncode(a);
    DecodeEncode(b);
  }

  /** The text is exactly what encoding prints for the bytes it decodes to. */
  predicate Canonical(text: string) {
    Decode(text).Some? && Encode(Decode(text).value) == text
  }

  /** Decodable text need not be canonical: a line break inside is passed over. */
  lemma {:induction false} LineBreaksArePassedOver()
    ensures Decode("QU\nI=") == Some([65, 66]) && !Canonical("QU\nI=")
  {
    assert "QU\nI="[1..] == "U\nI=" && "U\nI="[1..] == "\nI=" && "\nI="[1..] == "I=" && "I="[1..] == "=";
    assert DecodeFrom("=", State(3, 0, 0)) == Some([]);
    assert [66] + [] == [66] && [65] + [66] == [65, 66];
    assert DecodeFrom("I=", State(2, 4, 0)) == Some([66]);
    assert DecodeFrom("\nI=", State(2, 4, 0)) == Some([66]);
    assert DecodeFrom("U\nI=", State(1, 16, 0)) == Some([65, 66]);
    assert Encode([65, 66]) == "QUI=";
    assert "QUI="[2] != "QU\nI="[2];
  }
}
