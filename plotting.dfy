/**
 * Colour helpers of desmasks/plotting.py: the `#rrggbb` encoding of an RGB
 * triple and the table from mask values to colours. The rainbow palette
 * itself is floating-point hue arithmetic and is given as a parameter.
 */
module Plotting {
  import opened Errors

  // ---------------------------------------------------------------------
  // rgb_to_hex

  /** The lowercase hexadecimal digit of `d`. */
  function HexDigit(d: nat): (c: char)
    requires d < 16
    ensures IsHexDigit(c)
  {
    if d < 10 then (48 + d) as char else (87 + d) as char
  }

  /** A lowercase hexadecimal digit, as `%x` writes them. */
  predicate IsHexDigit(c: char)
  {
    '0' <= c <= '9' || 'a' <= c <= 'f'
  }

  /** The value of a lowercase hexadecimal digit. */
  function HexValue(c: char): (d: nat)
    requires IsHexDigit(c)
    ensures d < 16
  {
    if c <= '9' then c as int - 48 else c as int - 87
  }

  /** Digits and their values correspond one to one. */
  lemma HexDigitValue()
    ensures forall d :: 0 <= d < 16 ==> HexValue(HexDigit(d)) == d
    ensures forall c :: IsHexDigit(c) ==> HexDigit(HexValue(c)) == c
  {
  }

  /** `'%x' % n` for `n >= 0`: the digits without leading zeros. */
  function Hex(n: nat): (r: string)
    ensures |r| >= 1
    ensures forall k :: 0 <= k < |r| ==> IsHexDigit(r[k])
    ensures n < 16 <==> |r| == 1
    ensures n >= 256 ==> |r| >= 3
    ensures |r| > 1 ==> r[0] != '0'
  {
    if n < 16 then [HexDigit(n)] else Hex(n / 16) + [HexDigit(n % 16)]
  }

  /** The number a string of hexadecimal digits spells, most significant first. */
  function HexNumber(s: string): nat
    requires forall k :: 0 <= k < |s| ==> IsHexDigit(s[k])
  {
    if |s| == 0 then 0 else HexNumber(s[..|s| - 1]) * 16 + HexValue(s[|s| - 1])
  }

  /** The digits `%x` writes spell the number. */
  lemma {:induction false} HexSpells(n: nat)
    ensures HexNumber(Hex(n)) == n
  {
    HexDigitValue();
    if n >= 16 {
      HexSpells(n / 16);
      var r := Hex(n);
      assert r[..|r| - 1] == Hex(n / 16);
    }
  }

  /** A leading zero does not change the number a digit string spells. */
  lemma {:induction false} LeadingZero(s: string)
    requires forall k :: 0 <= k < |s| ==> IsHexDigit(s[k])
    ensures HexNumber("0" + s) == HexNumber(s)
  {
    if |s| > 0 {
      var t := "0" + s;
      assert t[..|t| - 1] == "0" + s[..|s| - 1];
      LeadingZero(s[..|s| - 1]);
    }
  }

  /** `'%02x' % n`: at least two characters, zero-padded; a negative number keeps its sign. */
  function Hex02(n: int): (r: string)
    ensures |r| >= 2
    ensures 0 <= n < 256 ==> r == [HexDigit(n / 16), HexDigit(n % 16)]
    ensures n < 0 ==> r == "-" + Hex(-n)
    ensures n >= 16 ==> r == Hex(n)
    ensures n < 0 ==> |r| >= 2 && r[0] == '-'
    ensures n >= 256 ==> |r| >= 3 && forall k :: 0 <= k < |r| ==> IsHexDigit(r[k])
  {
    if n < 0 then "-" + Hex(-n)
    else if n < 16 then "0" + Hex(n)
    else
      assert Hex(n) == Hex(n / 16) + [HexDigit(n % 16)];
      Hex(n)
  }

  /** `%02x` of a non-negative number is a digit string that spells it. */
  lemma Hex02Spells(n: nat)
    ensures forall k :: 0 <= k < |Hex02(n)| ==> IsHexDigit(Hex02(n)[k])
    ensures HexNumber(Hex02(n)) == n
  {
    HexSpells(n);
    if n < 16 {
      LeadingZero(Hex(n));
    }
  }

  /** `rgb_to_hex`: `'#%02x%02x%02x' % rgb`. */
  function RgbToHex(r: int, g: int, b: int): (s: string)
    ensures |s| >= 7 && s[0] == '#'
    ensures IsByte(r) && IsByte(g) && IsByte(b) ==>
      s == ['#', HexDigit(r / 16), HexDigit(r % 16), HexDigit(g / 16), HexDigit(g % 16),
            HexDigit(b / 16), HexDigit(b % 16)]
  {
    var (hr, hg, hb) := (Hex02(r), Hex02(g), Hex02(b));
    var s := "#" + hr + hg + hb;
    assert s[0] == '#';
    assert IsByte(r) && IsByte(g) && IsByte(b) ==>
      |s| == 7 && s[1..3] == hr && s[3..5] == hg && s[5..] == hb;
    s
  }

  predicate IsByte(n: int)
  {
    0 <= n < 256
  }

  /** The triple a `#rrggbb` string spells, if it is one. */
  function DecodeHex(s: string): (r: Option<(int, int, int)>)
    ensures r.Some? <==> |s| == 7 && s[0] == '#' && forall k :: 1 <= k < 7 ==> IsHexDigit(s[k])
    ensures r.Some? ==> IsByte(r.value.0) && IsByte(r.value.1) && IsByte(r.value.2)
  {
    if |s| == 7 && s[0] == '#' && forall k :: 1 <= k < 7 ==> IsHexDigit(s[k]) then
      Some((HexValue(s[1]) * 16 + HexValue(s[2]),
            HexValue(s[3]) * 16 + HexValue(s[4]),
            HexValue(s[5]) * 16 + HexValue(s[6])))
    else None
  }

  /** The two digits of a byte decode to the byte. */
  lemma ByteDigits(n: int)
    requires IsByte(n)
    ensures HexValue(HexDigit(n / 16)) * 16 + HexValue(HexDigit(n % 16)) == n
  {
    HexDigitValue();
  }

  /** The byte that two digits spell is written with those two digits. */
  lemma DigitsByte(hi: char, lo: char)
    requires IsHexDigit(hi) && IsHexDigit(lo)
    ensures var n := HexValue(hi) * 16 + HexValue(lo);
      HexDigit(n / 16) == hi && HexDigit(n % 16) == lo
  {
    HexDigitValue();
    var n := HexValue(hi) * 16 + HexValue(lo);
    assert n / 16 == HexValue(hi) && n % 16 == HexValue(lo);
  }

  /** Decoding the encoding of a byte triple gives the triple back. */
  lemma DecodeRgbToHex(r: int, g: int, b: int)
    requires IsByte(r) && IsByte(g) && IsByte(b)
    ensures DecodeHex(RgbToHex(r, g, b)) == Some((r, g, b))
  {
    ByteDigits(r);
    ByteDigits(g);
    ByteDigits(b);
  }

  /** Encoding a decoded `#rrggbb` string gives the string back. */
  lemma RgbToHexDecode(s: string)
    requires DecodeHex(s).Some?
    ensures RgbToHex(DecodeHex(s).value.0, DecodeHex(s).value.1, DecodeHex(s).value.2) == s
  {
    DigitsByte(s[1], s[2]);
    DigitsByte(s[3], s[4]);
    DigitsByte(s[5], s[6]);
    var r := HexValue(s[1]) * 16 + HexValue(s[2]);
    var g := HexValue(s[3]) * 16 + HexValue(s[4]);
    var b := HexValue(s[5]) * 16 + HexValue(s[6]);
    assert DecodeHex(s).value == (r, g, b);
    var t := RgbToHex(r, g, b);
    assert t == ['#', HexDigit(r / 16), HexDigit(r % 16), HexDigit(g / 16), HexDigit(g % 16),
                 HexDigit(b / 16), HexDigit(b % 16)];
    assert t[1] == s[1] && t[2] == s[2] && t[3] == s[3] && t[4] == s[4] && t[5] == s[5] && t[6] == s[6];
    assert |t| == |s| && t[0] == s[0];
  }

  /** A component outside 0..255 gives a string that is not a `#rrggbb` colour. */
  lemma {:induction false} OutOfRangeNotAColour(r: int, g: int, b: int)
    requires !(IsByte(r) && IsByte(g) && IsByte(b))
    ensures DecodeHex(RgbToHex(r, g, b)).None?
  {
    var s := RgbToHex(r, g, b);
    var (hr, hg, hb) := (Hex02(r), Hex02(g), Hex02(b));
    assert |hr| >= 2 && |hg| >= 2 && |hb| >= 2;
    if |s| == 7 {
      assert |hr| == 2 && |hg| == 2 && |hb| == 2;
      if r < 0 {
        assert s[1] == '-';
      } else if g < 0 {
        assert s[3] == hg[0] == '-';
      } else {
        assert b < 0;
        assert s[5] == hb[0] == '-';
      }
    }
  }

  // ---------------------------------------------------------------------
  // get_colors

  /** The mask values `get_colors` assigns colours to. */
  const UVals: seq<int> := [32, 64, 96, 128, 160, 192, 224, 256, 288, 320, 352, 384, 416, 448, 480]

  /** The mask values are exactly the multiples of 32 from 32 to 480. */
  lemma UValsAreMultiplesOf32()
    ensures forall i :: 0 <= i < |UVals| ==> UVals[i] == 32 * (i + 1)
    ensures forall v :: v in UVals <==> 32 <= v <= 480 && v % 32 == 0
  {
    assert |UVals| == 15;
    forall i | 0 <= i < |UVals|
      ensures UVals[i] == 32 * (i + 1)
    {
    }
    forall v | 32 <= v <= 480 && v % 32 == 0
      ensures v in UVals
    {
      assert UVals[v / 32 - 1] == v;
    }
  }

  /** `list(reversed(s))` */
  function Reverse<T>(s: seq<T>): (r: seq<T>)
    ensures |r| == |s| && forall i :: 0 <= i < |s| ==> r[i] == s[|s| - 1 - i]
  {
    seq(|s|, i requires 0 <= i < |s| => s[|s| - 1 - i])
  }

  /**
   * `get_colors`, with `rainbow(15)` given: mask value `32 * (i + 1)` gets
   * the rainbow colour counted `i` from the end.
   */
  method GetColors(rainbow: seq<string>) returns (d: map<int, string>)
    requires |rainbow| == |UVals|
    ensures forall v :: v in d.Keys <==> v in UVals
    ensures forall i :: 0 <= i < |UVals| ==> d[UVals[i]] == rainbow[|UVals| - 1 - i]
  {
    UValsAreMultiplesOf32();
    var colors := Reverse(rainbow);
    d := map[];
    for i := 0 to |UVals|
      invariant forall v :: v in d.Keys <==> v in UVals[..i]
      invariant forall j :: 0 <= j < i ==> d[UVals[j]] == colors[j]
    {
      assert UVals[..i + 1] == UVals[..i] + [UVals[i]];
      d := d[UVals[i] := colors[i]];
    }
    assert UVals[..|UVals|] == UVals;
  }
}
