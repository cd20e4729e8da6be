/** The base64 alphabet and padding of section 4 of RFC 4648. */
module Base64 {
  import opened Prelude

  type Byte = b: int | 0 <= b < 256
  type Digit = d: int | 0 <= d < 64

  function CharOf(d: Digit): char {
    if d < 26 then ('A' as int + d) as char
    else if d < 52 then ('a' as int + d - 26) as char
    else if d < 62 then ('0' as int + d - 52) as char
    else if d == 62 then '+'
    else '/'
  }

  function DigitOf(c: char): Option<Digit> {
    if 'A' <= c <= 'Z' then Some(c as int - 'A' as int)
    else if 'a' <= c <= 'z' then Some(c as int - 'a' as int + 26)
    else if '0' <= c <= '9' then Some(c as int - '0' as int + 52)
    else if c == '+' then Some(62)
    else if c == '/' then Some(63)
    else None
  }

  lemma DigitOfChar(d: Digit)
    ensures DigitOf(CharOf(d)) == Some(d)
    ensures CharOf(d) != '$' && CharOf(d) != '=' && CharOf(d) as int < 128
  {
  }

  /** Three bytes as four digits. */
  function Quad(a: Byte, b: Byte, c: Byte): (q: seq<Digit>)
    ensures |q| == 4
  {
    [a / 4, a % 4 * 16 + b / 16, b % 16 * 4 + c / 64, c % 64]
  }

  function Chars(ds: seq<Digit>): string {
    seq(|ds|, i requires 0 <= i < |ds| => CharOf(ds[i]))
  }

  function Encode(bytes: seq<Byte>): string {
    if bytes == [] then ""
    else if |bytes| == 1 then Chars(Quad(bytes[0], 0, 0)[..2]) + "=="
    else if |bytes| == 2 then Chars(Quad(bytes[0], bytes[1], 0)[..3]) + "="
    else Chars(Quad(bytes[0], bytes[1], bytes[2])) + Encode(bytes[3..])
  }

  function DecodeGroup(g: string): Option<seq<Byte>>
    requires |g| == 4
  {
    var a, b, c, d := DigitOf(g[0]), DigitOf(g[1]), DigitOf(g[2]), DigitOf(g[3]);
    if a.None? || b.None? then None
    else if c.None? then if g[2..] == "==" && b.value % 16 == 0 then Some([a.value * 4 + b.value / 16]) else None
    else if d.None? then
      if g[3] == '=' && c.value % 4 == 0 then Some([a.value * 4 + b.value / 16, b.value % 16 * 16 + c.value / 4])
      else None
    else Some([a.value * 4 + b.value / 16, b.value % 16 * 16 + c.value / 4, c.value % 4 * 64 + d.value])
  }

  function Decode(text: string): Option<seq<Byte>> {
    if text == "" then Some([])
    else if |text| < 4 then None
    else
      var group, rest := DecodeGroup(text[..4]), Decode(text[4..]);
      if group.None? || rest.None? || (|text| > 4 && |group.value| < 3) then None else Some(group.value + rest.value)
  }

  lemma QuadSplits(a: Byte, b: Byte, c: Byte)
    ensures var q := Quad(a, b, c);
            && a == (q[0] as int) * 4 + q[1] / 16
            && b == (q[1] as int) % 16 * 16 + q[2] / 4
            && c == (q[2] as int) % 4 * 64 + q[3]
    ensures b == 0 ==> Quad(a, b, c)[1] % 16 == 0
    ensures c == 0 ==> Quad(a, b, c)[2] % 4 == 0
  {
  }

  lemma DecodeThree(a: Byte, b: Byte, c: Byte)
    ensures DecodeGroup(Chars(Quad(a, b, c))) == Some([a, b, c])
  {
    QuadSplits(a, b, c);
    forall i | 0 <= i < 4
      ensures DigitOf(Chars(Quad(a, b, c))[i]) == Some(Quad(a, b, c)[i])
    {
      DigitOfChar(Quad(a, b, c)[i]);
    }
  }

  lemma DecodeTwo(a: Byte, b: Byte)
    ensures DecodeGroup(Chars(Quad(a, b, 0)[..3]) + "=") == Some([a, b])
  {
    var g := Chars(Quad(a, b, 0)[..3]) + "=";
    QuadSplits(a, b, 0);
    forall i | 0 <= i < 3
      ensures DigitOf(g[i]) == Some(Quad(a, b, 0)[i])
    {
      DigitOfChar(Quad(a, b, 0)[i]);
    }
  }

  lemma DecodeOne(a: Byte)
    ensures DecodeGroup(Chars(Quad(a, 0, 0)[..2]) + "==") == Some([a])
  {
    var g := Chars(Quad(a, 0, 0)[..2]) + "==";
    QuadSplits(a, 0, 0);
    assert g[2..] == "==";
    forall i | 0 <= i < 2
      ensures DigitOf(g[i]) == Some(Quad(a, 0, 0)[i])
    {
      DigitOfChar(Quad(a, 0, 0)[i]);
    }
  }

  lemma DecodeAppend(g: string, rest: string)
    requires |g| == 4
    ensures Decode(g + rest) ==
            if DecodeGroup(g).None? || Decode(rest).None? || (rest != "" && |DecodeGroup(g).value| < 3) then None
            else Some(DecodeGroup(g).value + Decode(rest).value)
  {
    assert (g + rest)[..4] == g && (g + rest)[4..] == rest;
  }

  lemma EncodeLong(a: Byte, b: Byte, c: Byte, rest: seq<Byte>)
    ensures Encode([a, b, c] + rest) == Chars(Quad(a, b, c)) + Encode(rest)
  {
    assert ([a, b, c] + rest)[3..] == rest;
  }

  lemma DecodeLong(a: Byte, b: Byte, c: Byte, rest: seq<Byte>)
    requires Decode(Encode(rest)) == Some(rest)
    ensures Decode(Encode([a, b, c] + rest)) == Some([a, b, c] + rest)
  {
    EncodeLong(a, b, c, rest);
    DecodeThree(a, b, c);
    DecodeAppend(Chars(Quad(a, b, c)), Encode(rest));
  }

  lemma DecodeOneByte(a: Byte)
    ensures Decode(Encode([a])) == Some([a])
  {
    DecodeOne(a);
    DecodeLast(Chars(Quad(a, 0, 0)[..2]) + "==", [a]);
  }

  lemma DecodeTwoBytes(a: Byte, b: Byte)
    ensures Decode(Encode([a, b])) == Some([a, b])
  {
    DecodeTwo(a, b);
    DecodeLast(Chars(Quad(a, b, 0)[..3]) + "=", [a, b]);
  }

  lemma CutThree(bytes: seq<Byte>)
    requires |bytes| >= 3
    ensures bytes == [bytes[0], bytes[1], bytes[2]] + bytes[3..]
  {
  }

  /** Every byte string is read back from its text. */
  lemma {:induction false} DecodeEncode(bytes: seq<Byte>)
    ensures Decode(Encode(bytes)) == Some(bytes)
  {
    if |bytes| == 1 {
      DecodeOneByte(bytes[0]);
      assert bytes == [bytes[0]];
    } else if |bytes| == 2 {
      DecodeTwoBytes(bytes[0], bytes[1]);
      assert bytes == [bytes[0], bytes[1]];
    } else if |bytes| >= 3 {
      DecodeEncode(bytes[3..]);
      DecodeLong(bytes[0], bytes[1], bytes[2], bytes[3..]);
      CutThree(bytes);
    }
  }

  lemma DecodeLast(g: string, bytes: seq<Byte>)
    requires |g| == 4 && DecodeGroup(g) == Some(bytes)
    ensures Decode(g) == Some(bytes)
  {
    DecodeAppend(g, "");
    assert g + "" == g && bytes + [] == bytes;
  }

  lemma CharOfDigit(c: char)
    requires DigitOf(c).Some?
    ensures CharOf(DigitOf(c).value) == c
  {
  }

  lemma CutByte(n: nat, r: nat)
    ensures r < 4 ==> (n * 4 + r) / 4 == n && (n * 4 + r) % 4 == r
    ensures r < 16 ==> (n * 16 + r) / 16 == n && (n * 16 + r) % 16 == r
    ensures r < 64 ==> (n * 64 + r) / 64 == n && (n * 64 + r) % 64 == r
  {
  }

  lemma QuadJoins(w: Digit, x: Digit, y: Digit, z: Digit)
    ensures Quad(w * 4 + x / 16, x % 16 * 16 + y / 4, y % 4 * 64 + z) == [w, x, y, z]
  {
    CutByte(w, x / 16);
    CutByte(x % 16, y / 4);
    CutByte(y % 4, z);
  }

  lemma OneEncodesBack(g: string)
    requires |g| == 4 && DecodeGroup(g).Some? && DigitOf(g[2]).None?
    ensures |DecodeGroup(g).value| == 1 && Encode(DecodeGroup(g).value) == g
  {
    var x := DigitOf(g[1]).value;
    QuadJoins(DigitOf(g[0]).value, x, 0, 0);
    assert x % 16 * 16 + 0 / 4 == 0 && 0 % 4 * 64 + 0 == 0;
    CharOfDigit(g[0]);
    CharOfDigit(g[1]);
    assert g == [g[0], g[1]] + g[2..];
  }

  lemma TwoEncodeBack(g: string)
    requires |g| == 4 && DecodeGroup(g).Some? && DigitOf(g[2]).Some? && DigitOf(g[3]).None?
    ensures |DecodeGroup(g).value| == 2 && Encode(DecodeGroup(g).value) == g
  {
    var y := DigitOf(g[2]).value;
    QuadJoins(DigitOf(g[0]).value, DigitOf(g[1]).value, y, 0);
    assert y % 4 * 64 + 0 == 0;
    CharOfDigit(g[0]);
    CharOfDigit(g[1]);
    CharOfDigit(g[2]);
    assert g == [g[0], g[1], g[2]] + "=";
  }

  lemma ThreeEncodeBack(g: string)
    requires |g| == 4 && DecodeGroup(g).Some? && DigitOf(g[2]).Some? && DigitOf(g[3]).Some?
    ensures |DecodeGroup(g).value| == 3 && Encode(DecodeGroup(g).value) == g
  {
    QuadJoins(DigitOf(g[0]).value, DigitOf(g[1]).value, DigitOf(g[2]).value, DigitOf(g[3]).value);
    CharOfDigit(g[0]);
    CharOfDigit(g[1]);
    CharOfDigit(g[2]);
    CharOfDigit(g[3]);
    assert DecodeGroup(g).value[3..] == [];
    assert g == [g[0], g[1], g[2], g[3]] + "";
  }

  /** A group that decodes is what its bytes encode to, padding included. */
  lemma GroupEncodesBack(g: string)
    requires |g| == 4 && DecodeGroup(g).Some?
    ensures 1 <= |DecodeGroup(g).value| <= 3 && Encode(DecodeGroup(g).value) == g
  {
    if DigitOf(g[2]).None? {
      OneEncodesBack(g);
    } else if DigitOf(g[3]).None? {
      TwoEncodeBack(g);
    } else {
      ThreeEncodeBack(g);
    }
  }

  /** Only texts that some bytes encode to are decoded, and to those bytes. */
  lemma {:induction false} EncodeDecode(text: string)
    requires Decode(text).Some?
    ensures Encode(Decode(text).value) == text
    decreases |text|
  {
    if text != "" {
      var group, rest := DecodeGroup(text[..4]).value, Decode(text[4..]).value;
      assert text == text[..4] + text[4..];
      GroupEncodesBack(text[..4]);
      EncodeDecode(text[4..]);
      if |group| == 3 {
        assert group == [group[0], group[1], group[2]];
        EncodeLong(group[0], group[1], group[2], rest);
        EncodeLong(group[0], group[1], group[2], []);
        assert group + [] == group;
      } else {
        assert text[4..] == "" && group + rest == group;
      }
    }
  }

  lemma EncodeIsInjective(a: seq<Byte>, b: seq<Byte>)
    requires Encode(a) == Encode(b)
    ensures a == b
  {
    DecodeEncode(a);
    DecodeEncode(b);
  }

  lemma {:induction false} EncodeHasNoDollar(bytes: seq<Byte>)
    ensures '$' !in Encode(bytes)
    ensures forall c :: c in Encode(bytes) ==> c as int < 128
  {
    forall d: Digit
      ensures CharOf(d) != '$' && CharOf(d) as int < 128
    {
      DigitOfChar(d);
    }
    if |bytes| >= 3 {
      EncodeHasNoDollar(bytes[3..]);
    }
  }
}
