/**
 * The two colour helpers of `AnimatedBlock`: `hexToRgba` reads the three
 * hexadecimal byte pairs of a `#rrggbb` colour, and `lightenColor` mixes each
 * byte toward white and writes the colour back as `#rrggbb`.
 */
module BlockColour {

  predicate IsHexDigit(c: char)
  {
    '0' <= c <= '9' || 'a' <= c <= 'f' || 'A' <= c <= 'F'
  }

  /** The value of one digit under `parseInt(_, 16)`, which accepts either case. */
  function HexValue(c: char): (v: int)
    requires IsHexDigit(c)
    ensures 0 <= v < 16
  {
    if '0' <= c <= '9' then c as int - '0' as int
    else if 'a' <= c <= 'f' then c as int - 'a' as int + 10
    else c as int - 'A' as int + 10
  }

  /** The lower-case digit `Number.prototype.toString(16)` writes for `v`. */
  function HexDigit(v: int): (c: char)
    requires 0 <= v < 16
    ensures IsHexDigit(c) && HexValue(c) == v
    ensures '0' <= c <= '9' || 'a' <= c <= 'f'
  {
    if v < 10 then ('0' as int + v) as char else ('a' as int + v - 10) as char
  }

  /** `parseInt` of two hexadecimal digits: one byte. */
  function ParseHexPair(hi: char, lo: char): (n: int)
    requires IsHexDigit(hi) && IsHexDigit(lo)
    ensures 0 <= n <= 255
  {
    16 * HexValue(hi) + HexValue(lo)
  }

  /**
   * The characters the helpers read: `hex.slice(1, 3)`, `slice(3, 5)` and
   * `slice(5, 7)` must be hexadecimal byte pairs (the leading `#` is skipped,
   * not checked).
   */
  predicate HasHexColour(s: string)
  {
    |s| >= 7 && forall i :: 1 <= i < 7 ==> IsHexDigit(s[i])
  }

  /** The components `hexToRgba` places in its `rgba(r, g, b, alpha)` string. */
  datatype Rgba = Rgba(r: int, g: int, b: int, alpha: real)

  /** `hexToRgba`: three bytes in [0, 255] and the alpha passed through. */
  function HexToRgba(hex: string, alpha: real): (c: Rgba)
    requires HasHexColour(hex)
    ensures 0 <= c.r <= 255 && 0 <= c.g <= 255 && 0 <= c.b <= 255
    ensures c.alpha == alpha
  {
    Rgba(ParseHexPair(hex[1], hex[2]), ParseHexPair(hex[3], hex[4]), ParseHexPair(hex[5], hex[6]), alpha)
  }

  /** `n.toString(16)` for a non-negative integer: lower-case digits, most significant first. */
  function ToBase16(n: nat): (s: string)
    ensures |s| >= 1 && forall i :: 0 <= i < |s| ==> IsHexDigit(s[i])
    decreases n
  {
    if n < 16 then [HexDigit(n)] else ToBase16(n / 16) + [HexDigit(n % 16)]
  }

  /** `s.padStart(2, "0")`. */
  function PadStart2(s: string): (p: string)
    ensures |s| >= 2 ==> p == s
    ensures |s| < 2 ==> |p| == 2 && p[2 - |s|..] == s && forall i :: 0 <= i < 2 - |s| ==> p[i] == '0'
    decreases 2 - |s|
  {
    if |s| >= 2 then s else PadStart2("0" + s)
  }

  /** The two characters `lightenColor` writes for one byte. */
  function HexByte(n: int): (p: string)
    requires 0 <= n <= 255
    ensures |p| == 2 && IsHexDigit(p[0]) && IsHexDigit(p[1])
  {
    var s := ToBase16(n);
    assert |s| <= 2 by {
      if n >= 16 {
        assert ToBase16(n / 16) == [HexDigit(n / 16)];
      }
    }
    PadStart2(s)
  }

  /** A byte written by `HexByte` parses back to it. */
  lemma HexByteRoundTrip(n: int)
    requires 0 <= n <= 255
    ensures ParseHexPair(HexByte(n)[0], HexByte(n)[1]) == n
  {
    if n < 16 {
      assert ToBase16(n) == [HexDigit(n)];
      assert HexByte(n) == ['0', HexDigit(n)];
    } else {
      assert ToBase16(n / 16) == [HexDigit(n / 16)];
      assert HexByte(n) == [HexDigit(n / 16), HexDigit(n % 16)];
    }
  }

  /** `Math.round`: the nearest integer, halves rounded up. */
  function Round(x: real): (r: int)
    ensures x - 0.5 < r as real <= x + 0.5
  {
    (x + 0.5).Floor
  }

  /**
   * One channel of `lightenColor`: `round(c + (255 - c) * amount)`. It never
   * darkens, never leaves the byte range, keeps the channel for amount 0 and
   * gives white for amount 1.
   */
  function LightenChannel(c: int, amount: real): (n: int)
    requires 0 <= c <= 255 && 0.0 <= amount <= 1.0
    ensures c <= n <= 255
    ensures amount == 0.0 ==> n == c
    ensures amount == 1.0 ==> n == 255
  {
    ShareOf(c, amount);
    RoundWithin(c as real + (255 - c) as real * amount, c, 255);
    Round(c as real + (255 - c) as real * amount)
  }

  /**
   * Mixing `c` toward 255 by a share in [0, 1] stays between the two, at both
   * ends exactly.
   */
  lemma ShareOf(c: int, amount: real)
    requires 0 <= c <= 255 && 0.0 <= amount <= 1.0
    ensures c as real <= c as real + (255 - c) as real * amount <= 255 as real
    ensures amount == 0.0 ==> c as real + (255 - c) as real * amount == c as real
    ensures amount == 1.0 ==> c as real + (255 - c) as real * amount == 255 as real
  {
    var d := (255 - c) as real;
    assert c as real + d == 255 as real;
    ShareBetween(d, amount);
    assert c as real + d * amount <= 255 as real;
  }

  /** A share in [0, 1] of a non-negative quantity lies between 0 and the quantity. */
  lemma ShareBetween(d: real, a: real)
    requires d >= 0.0 && 0.0 <= a <= 1.0
    ensures 0.0 <= d * a <= d
  {
    assert d - d * a == d * (1.0 - a);
    assert d * (1.0 - a) >= 0.0;
  }

  /** Rounding a value between two integers stays between them, and an integer rounds to itself. */
  lemma RoundWithin(x: real, lo: int, hi: int)
    requires lo as real <= x <= hi as real
    ensures lo <= Round(x) <= hi
    ensures x == lo as real ==> Round(x) == lo
    ensures x == hi as real ==> Round(x) == hi
  {
    var r := Round(x);
    assert (lo - 1) as real < r as real < (hi + 1) as real;
  }

  /**
   * `lightenColor`: `#` and three two-digit byte pairs. The component is
   * defined but never called by the page.
   */
  function LightenColor(hex: string, amount: real): (s: string)
    requires HasHexColour(hex) && 0.0 <= amount <= 1.0
    ensures |s| == 7 && s[0] == '#' && HasHexColour(s)
  {
    var c := HexToRgba(hex, 1.0);
    BytesRoundTrip(LightenChannel(c.r, amount), LightenChannel(c.g, amount), LightenChannel(c.b, amount), 1.0);
    "#" + HexByte(LightenChannel(c.r, amount)) + HexByte(LightenChannel(c.g, amount))
      + HexByte(LightenChannel(c.b, amount))
  }

  /**
   * What `lightenColor` writes is again a colour the helpers read, and reading
   * it gives back exactly the lightened channels.
   */
  lemma LightenColorRoundTrip(hex: string, amount: real, alpha: real)
    requires HasHexColour(hex) && 0.0 <= amount <= 1.0
    ensures var c := HexToRgba(hex, alpha);
      HexToRgba(LightenColor(hex, amount), alpha)
        == Rgba(LightenChannel(c.r, amount), LightenChannel(c.g, amount), LightenChannel(c.b, amount), alpha)
  {
    var c := HexToRgba(hex, 1.0);
    assert HexToRgba(hex, alpha) == c.(alpha := alpha);
    BytesRoundTrip(LightenChannel(c.r, amount), LightenChannel(c.g, amount), LightenChannel(c.b, amount), alpha);
  }

  /** `#` and three written bytes make a colour that reads back as those bytes. */
  lemma BytesRoundTrip(r: int, g: int, b: int, alpha: real)
    requires 0 <= r <= 255 && 0 <= g <= 255 && 0 <= b <= 255
    ensures |"#" + HexByte(r) + HexByte(g) + HexByte(b)| == 7
    ensures HasHexColour("#" + HexByte(r) + HexByte(g) + HexByte(b))
    ensures HexToRgba("#" + HexByte(r) + HexByte(g) + HexByte(b), alpha) == Rgba(r, g, b, alpha)
  {
    HexByteRoundTrip(r);
    HexByteRoundTrip(g);
    HexByteRoundTrip(b);
    PairsRead(HexByte(r), HexByte(g), HexByte(b), alpha);
  }

  /** `#` and three pairs of hexadecimal digits are read pair by pair. */
  lemma PairsRead(p: string, q: string, u: string, alpha: real)
    requires |p| == 2 && |q| == 2 && |u| == 2
    requires IsHexDigit(p[0]) && IsHexDigit(p[1]) && IsHexDigit(q[0]) && IsHexDigit(q[1])
    requires IsHexDigit(u[0]) && IsHexDigit(u[1])
    ensures HasHexColour("#" + p + q + u)
    ensures HexToRgba("#" + p + q + u, alpha)
      == Rgba(ParseHexPair(p[0], p[1]), ParseHexPair(q[0], q[1]), ParseHexPair(u[0], u[1]), alpha)
  {
    var s := "#" + p + q + u;
    assert s[1] == p[0] && s[2] == p[1] && s[3] == q[0] && s[4] == q[1] && s[5] == u[0] && s[6] == u[1];
  }

  /** Lightening by 0 keeps the colour's channels. */
  lemma LightenByNothing(hex: string, alpha: real)
    requires HasHexColour(hex)
    ensures HexToRgba(LightenColor(hex, 0.0), alpha) == HexToRgba(hex, alpha)
  {
    LightenColorRoundTrip(hex, 0.0, alpha);
    SameChannels(HexToRgba(hex, alpha));
  }

  /** Lightening each channel of a colour by 0 gives back the colour. */
  lemma SameChannels(c: Rgba)
    requires 0 <= c.r <= 255 && 0 <= c.g <= 255 && 0 <= c.b <= 255
    ensures Rgba(LightenChannel(c.r, 0.0), LightenChannel(c.g, 0.0), LightenChannel(c.b, 0.0), c.alpha) == c
  {}

  /** Lightening by 1 gives white. */
  lemma LightenFully(hex: string, alpha: real)
    requires HasHexColour(hex)
    ensures HexToRgba(LightenColor(hex, 1.0), alpha) == Rgba(255, 255, 255, alpha)
  {
    var c := HexToRgba(hex, alpha);
    LightenColorRoundTrip(hex, 1.0, alpha);
    var l := HexToRgba(LightenColor(hex, 1.0), alpha);
    assert l == Rgba(LightenChannel(c.r, 1.0), LightenChannel(c.g, 1.0), LightenChannel(c.b, 1.0), alpha);
  }
}
