/** The hexadecimal colour helpers of index.js: `toHex` and the grey enemy colour. */
module Colour {
  import opened Digits
  import opened Rules

  const UpperHexDigits: string := "0123456789ABCDEF"

  /**
   * `toHex(decimal)`: the hexadecimal digits of `n`, with one leading zero
   * added when their count is odd, in upper case.
   */
  function ToHex(n: nat): (hex: string)
    ensures |hex| % 2 == 0 && 2 <= |hex|
    ensures forall i :: 0 <= i < |hex| ==> hex[i] in UpperHexDigits
  {
    var padded := PadEven(ToDigits(n, 16));
    UpperHexOfDigits(padded);
    ToUpper(padded)
  }

  /** Reading the digits `toHex` writes back in base 16 gives the input. */
  lemma ToHexSpec(n: nat)
    ensures Value(ToHex(n), 16) == n
  {
    var padded := PadEven(ToDigits(n, 16));
    ValueOfToDigits(n, 16);
    ValueToUpper(padded, 16);
    UpperHexOfDigits(padded);
  }

  /** The digits with one leading zero when their count is odd. */
  function PadEven(hex: string): (r: string)
    requires AllDigits(hex, 16)
    ensures |r| % 2 == 0
    ensures AllDigits(r, 16)
    ensures Value(r, 16) == Value(hex, 16)
    ensures |hex| % 2 == 0 ==> r == hex
  {
    ValueLeadingZero(hex, 16);
    if |hex| % 2 != 0 then "0" + hex else hex
  }

  lemma UpperHexOfDigits(s: string)
    requires AllDigits(s, 16)
    ensures forall i :: 0 <= i < |s| ==> ToUpper(s)[i] in UpperHexDigits
  {
    forall i | 0 <= i < |s|
      ensures ToUpper(s)[i] in UpperHexDigits
    {
      var c := s[i];
      assert IsDigit(c, 16);
      if '0' <= c <= '9' {
        assert ToUpper(s)[i] == UpperHexDigits[c as int - '0' as int];
      } else if 'a' <= c <= 'f' {
        assert ToUpper(s)[i] == UpperHexDigits[c as int - 'a' as int + 10];
      } else {
        assert ToUpper(s)[i] == UpperHexDigits[c as int - 'A' as int + 10];
      }
    }
  }

  /** Every channel value from 16 to 255 becomes exactly two hex digits. */
  lemma {:induction false} ToHexTwoDigits(n: nat)
    requires 16 <= n < 256
    ensures |ToHex(n)| == 2
  {
    var q := n / 16;
    assert q < 16;
    var hex := ToDigits(n, 16);
    assert hex == ToDigits(q, 16) + [DigitChar(n % 16)];
    assert |ToDigits(q, 16)| == 1;
    assert |hex| == 2;
    assert PadEven(hex) == hex;
  }

  /** `Math.floor(getRandom(100, 220))`: the grey level of an enemy. */
  function GreyLevel(r: real): (level: nat)
    requires IsUnitDraw(r)
    ensures 100 <= level <= 219
  {
    var v := GetRandom(100.0, 220.0, r);
    assert 100.0 <= v < 220.0;
    v.Floor
  }

  /** A colour "#RRGGBB" whose three channels are the same upper-case hex pair. */
  predicate IsGrey(color: string) {
    && |color| == 7
    && color[0] == '#'
    && color[1..3] == color[3..5] == color[5..7]
    && forall i :: 1 <= i < 7 ==> color[i] in UpperHexDigits
  }

  /**
   * `"#" + rgbFactor + rgbFactor + rgbFactor`: the same hex pair on all three
   * channels; for a channel value that fits in one byte with two hex digits,
   * a seven-character grey.
   */
  function GreyColour(level: nat): (c: string)
    ensures |c| >= 7 && c[0] == '#'
    ensures 16 <= level < 256 ==> IsGrey(c)
  {
    var pair := ToHex(level);
    if 16 <= level < 256 then
      ToHexTwoDigits(level);
      RepeatedPairIsGrey(pair);
      "#" + pair + pair + pair
    else
      "#" + pair + pair + pair
  }

  /** `#` and three copies of one upper-case hex pair form a grey. */
  lemma RepeatedPairIsGrey(pair: string)
    requires |pair| == 2 && pair[0] in UpperHexDigits && pair[1] in UpperHexDigits
    ensures IsGrey("#" + pair + pair + pair)
  {
    var c := "#" + pair + pair + pair;
    assert c[1] == pair[0] && c[3] == pair[0] && c[5] == pair[0];
    assert c[2] == pair[1] && c[4] == pair[1] && c[6] == pair[1];
    assert c[1..3] == pair && c[3..5] == pair && c[5..7] == pair;
  }

  /**
   * A grey level from 100 to 219 gives a grey colour each of whose channel
   * pairs reads back in base 16 as the level.
   */
  lemma GreyColourShape(level: nat)
    requires 100 <= level <= 219
    ensures IsGrey(GreyColour(level))
    ensures var c := GreyColour(level);
      Value(c[1..3], 16) == level && Value(c[3..5], 16) == level && Value(c[5..7], 16) == level
  {
    var pair := ToHex(level);
    ToHexSpec(level);
    ToHexTwoDigits(level);
    var c := GreyColour(level);
    assert c == "#" + pair + pair + pair;
    assert c[1..3] == pair;
  }
}
