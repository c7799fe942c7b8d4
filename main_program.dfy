/**
 * The command-line helpers of src/main.cc: reading a colour from its
 * hexadecimal code, checking the planet parameters, and building the floor
 * the planet is drawn above.
 */
module MainProgram {
  import opened Geometry
  import opened Config

  /** The largest value of the 32-bit `unsigned` parseHexCode reads into. */
  const UintMax: nat := 0xFFFF_FFFF

  // ---------------------------------------------------------------------
  // parseHexCode
  // ---------------------------------------------------------------------

  /** Whitespace the stream extraction skips before the number. */
  predicate IsSpace(c: char)
  {
    c == ' ' || c == '\t' || c == '\n' || c == '\r' || c == '\U{000B}' || c == '\U{000C}'
  }

  predicate IsHexDigit(c: char)
  {
    '0' <= c <= '9' || 'a' <= c <= 'f' || 'A' <= c <= 'F'
  }

  function DigitValue(c: char): (d: nat)
    requires IsHexDigit(c)
    ensures d < 16
  {
    if '0' <= c <= '9' then c as nat - '0' as nat
    else if 'a' <= c <= 'f' then c as nat - 'a' as nat + 10
    else c as nat - 'A' as nat + 10
  }

  /** The lower-case digit for a value below 16. */
  function DigitChar(d: nat): (c: char)
    requires d < 16
    ensures IsHexDigit(c) && DigitValue(c) == d
  {
    if d < 10 then ('0' as nat + d) as char else ('a' as nat + d - 10) as char
  }

  /** `s` with its leading whitespace removed. */
  function SkipSpace(s: string): (r: string)
    ensures |r| <= |s| && r == s[|s| - |r|..]
    ensures forall i :: 0 <= i < |s| - |r| ==> IsSpace(s[i])
    ensures r == [] || !IsSpace(r[0])
  {
    if s != [] && IsSpace(s[0]) then SkipSpace(s[1..]) else s
  }

  /** The longest prefix of `s` made of hexadecimal digits. */
  function DigitRun(s: string): (r: string)
    ensures |r| <= |s| && r == s[..|r|]
    ensures forall i :: 0 <= i < |r| ==> IsHexDigit(r[i])
    ensures |r| == |s| || !IsHexDigit(s[|r|])
  {
    if s != [] && IsHexDigit(s[0]) then
      var rest := DigitRun(s[1..]);
      assert |rest| < |s| - 1 ==> s[1 + |rest|] == s[1..][|rest|];
      [s[0]] + rest
    else []
  }

  /** The number a run of hexadecimal digits spells, most significant first. */
  function DigitsValue(ds: string): nat
    requires forall i :: 0 <= i < |ds| ==> IsHexDigit(ds[i])
  {
    if ds == [] then 0
    else DigitsValue(ds[..|ds| - 1]) * 16 + DigitValue(ds[|ds| - 1])
  }

  /**
   * What `ss << std::hex << s; ss >> hexval` leaves in the unsigned
   * `hexval`: leading whitespace is skipped, the digits that follow are
   * read, 0 when there are none, and the largest unsigned when the number
   * does not fit. When nothing but whitespace is left, extraction stops
   * before reading anything and the uninitialised `hexval` keeps an
   * indeterminate value, so such strings are excluded.
   */
  function HexValue(s: string): (h: nat)
    requires SkipSpace(s) != []
    ensures h <= UintMax
    ensures DigitRun(SkipSpace(s)) == [] ==> h == 0
  {
    var v := DigitsValue(DigitRun(SkipSpace(s)));
    if v <= UintMax then v else UintMax
  }

  /** Leading whitespace does not change the value read. */
  lemma LeadingSpaceIgnored(c: char, s: string)
    requires IsSpace(c) && SkipSpace(s) != []
    ensures SkipSpace([c] + s) == SkipSpace(s) && HexValue([c] + s) == HexValue(s)
  {
    assert ([c] + s)[1..] == s;
  }

  /** The three 8-bit channels of a colour, before the division by 255. */
  datatype Rgb = Rgb(r: nat, g: nat, b: nat)

  /** `(h >> 16) & 0xFF`, `(h >> 8) & 0xFF` and `h & 0xFF` of an unsigned. */
  function Channels(h: nat): (c: Rgb)
    ensures c.r < 256 && c.g < 256 && c.b < 256
  {
    Rgb((h / 0x1_0000) % 0x100, (h / 0x100) % 0x100, h % 0x100)
  }

  /** parseHexCode, with the channels kept as integers in [0, 255]. */
  function ParseHexCode(s: string): (c: Rgb)
    requires SkipSpace(s) != []
    ensures c.r < 256 && c.g < 256 && c.b < 256
  {
    Channels(HexValue(s))
  }

  lemma DivMod256(h: nat, q: nat, r: nat)
    requires r < 0x100 && h == q * 0x100 + r
    ensures h / 0x100 == q && h % 0x100 == r
  {
  }

  lemma DivMod65536(h: nat, q: nat, r: nat)
    requires r < 0x1_0000 && h == q * 0x1_0000 + r
    ensures h / 0x1_0000 == q && h % 0x1_0000 == r
  {
  }

  lemma DivMod16M(h: nat, q: nat, r: nat)
    requires r < 0x100_0000 && h == q * 0x100_0000 + r
    ensures h / 0x100_0000 == q && h % 0x100_0000 == r
  {
  }

  /** The channels of a value given by its bytes above and within the low 24 bits. */
  lemma ChannelsOfBytes(h: nat, q: nat, hi: nat, mid: nat, lo: nat)
    requires hi < 0x100 && mid < 0x100 && lo < 0x100
    requires h == q * 0x100_0000 + hi * 0x1_0000 + mid * 0x100 + lo
    ensures Channels(h) == Rgb(hi, mid, lo)
    ensures h % 0x100_0000 == hi * 0x1_0000 + mid * 0x100 + lo
  {
    DivMod16M(h, q, hi * 0x1_0000 + mid * 0x100 + lo);
    DivMod65536(h, q * 0x100 + hi, mid * 0x100 + lo);
    DivMod256(h, q * 0x1_0000 + hi * 0x100 + mid, lo);
    DivMod256(q * 0x100 + hi, q, hi);
    DivMod256(q * 0x1_0000 + hi * 0x100 + mid, q * 0x100 + hi, mid);
  }

  /** The bytes of a value: what lies above the low 24 bits, then three bytes. */
  lemma Bytes(h: nat) returns (q: nat, hi: nat, mid: nat, lo: nat)
    ensures hi < 0x100 && mid < 0x100 && lo < 0x100
    ensures h == q * 0x100_0000 + hi * 0x1_0000 + mid * 0x100 + lo
  {
    var l, m;
    q, l := h / 0x100_0000, h % 0x100_0000;
    hi, m := l / 0x1_0000, l % 0x1_0000;
    mid, lo := m / 0x100, m % 0x100;
  }

  /** The channels depend only on the low 24 bits of the value. */
  lemma ChannelsOfLow24(h: nat)
    ensures Channels(h) == Channels(h % 0x100_0000)
  {
    var q, hi, mid, lo := Bytes(h);
    ChannelsOfBytes(h, q, hi, mid, lo);
    ChannelsOfBytes(h % 0x100_0000, 0, hi, mid, lo);
  }

  /** The channels put back together give the low 24 bits of the value. */
  lemma ChannelsRecompose(h: nat)
    ensures var c := Channels(h); c.r * 0x1_0000 + c.g * 0x100 + c.b == h % 0x100_0000
  {
    var q, hi, mid, lo := Bytes(h);
    ChannelsOfBytes(h, q, hi, mid, lo);
  }

  /** `v` written with exactly `n` lower-case hexadecimal digits. */
  function HexString(v: nat, n: nat): (s: string)
    ensures |s| == n && forall i :: 0 <= i < n ==> IsHexDigit(s[i])
  {
    if n == 0 then [] else HexString(v / 16, n - 1) + [DigitChar(v % 16)]
  }

  function Pow16(n: nat): (p: nat)
    ensures p > 0
  {
    if n == 0 then 1 else 16 * Pow16(n - 1)
  }

  /** Reading back a number written with `n` digits gives it, when it fits. */
  lemma {:induction false} DigitsOfHexString(v: nat, n: nat)
    requires v < Pow16(n)
    ensures DigitsValue(HexString(v, n)) == v
  {
    if n > 0 {
      var s := HexString(v, n);
      assert s[..n - 1] == HexString(v / 16, n - 1);
      assert v / 16 < Pow16(n - 1);
      DigitsOfHexString(v / 16, n - 1);
    }
  }

  lemma DigitRunOfDigits(s: string)
    requires forall i :: 0 <= i < |s| ==> IsHexDigit(s[i])
    ensures DigitRun(s) == s
  {
  }

  /**
   * A colour code written as the six hexadecimal digits of the 24-bit
   * value `rgb`, the "000000 - ffffff" form the colour options document,
   * reads back as the channels of `rgb`.
   */
  lemma ParseSixDigitCode(rgb: nat)
    requires rgb < 0x100_0000
    ensures var s := HexString(rgb, 6);
      && SkipSpace(s) == s
      && HexValue(s) == rgb
      && ParseHexCode(s) == Channels(rgb)
  {
    var s := HexString(rgb, 6);
    assert Pow16(6) == 0x100_0000;
    DigitsOfHexString(rgb, 6);
    assert SkipSpace(s) == s;
    DigitRunOfDigits(s);
  }

  /** "1a1a66" spells 0x1a1a66, one digit at a time. */
  lemma OceanDigits()
    ensures DigitsValue("1a1a66") == 0x1a1a66
  {
    assert "1a"[..1] == "1";
    assert DigitsValue("1a") == 0x1a;
    assert "1a1"[..2] == "1a";
    assert DigitsValue("1a1") == 0x1a1;
    assert "1a1a"[..3] == "1a1";
    assert DigitsValue("1a1a") == 0x1a1a;
    assert "1a1a6"[..4] == "1a1a";
    assert DigitsValue("1a1a6") == 0x1a1a6;
    assert "1a1a66"[..5] == "1a1a6";
  }

  /** 0x1a1a66 holds the channels (26, 26, 102). */
  lemma OceanChannels()
    ensures Channels(0x1a1a66) == Rgb(26, 26, 102)
  {
  }

  /** The default ocean colour "1a1a66" is (26, 26, 102). */
  lemma DefaultOceanColour()
    ensures SkipSpace("1a1a66") == "1a1a66" && ParseHexCode("1a1a66") == Rgb(26, 26, 102)
  {
    var s := "1a1a66";
    assert SkipSpace(s) == s;
    DigitRunOfDigits(s);
    OceanDigits();
    OceanChannels();
  }

  // ---------------------------------------------------------------------
  // Parameter checks
  // ---------------------------------------------------------------------

  /** How main continues after its parameter checks. */
  datatype Launch =
    | Render(numRegions: nat, oceanHeight: real)
    | Exit(code: int)

  /** The region count main accepts. */
  predicate RegionsInRange(n: nat)
  {
    500 <= n <= 100000
  }

  /** The ocean-height parameter main accepts. */
  predicate HeightInRange(h: int)
  {
    0 <= h <= 200
  }

  /** `1 + (h / 1000 - 0.1)`: the sphere radius the ocean reaches. */
  function OceanHeight(h: int): real
  {
    1.0 + ((h as real / 1000.0) - 0.1)
  }

  /**
   * The checks main makes on --regions and --ocean_ht before it builds
   * anything: the region count first, then the ocean height, each failure
   * ending the program with status 1.
   */
  function CheckParameters(numRegions: nat, heightParam: int): (l: Launch)
    ensures l.Exit? <==> !RegionsInRange(numRegions) || !HeightInRange(heightParam)
    ensures l.Exit? ==> l.code == 1
    ensures l.Render? ==> l.numRegions == numRegions && 0.9 <= l.oceanHeight <= 1.1
  {
    if numRegions < 500 || numRegions > 100000 then Exit(1)
    else if heightParam < 0 || heightParam > 200 then Exit(1)
    else Render(numRegions, OceanHeight(heightParam))
  }

  /** A higher parameter puts the ocean higher. */
  lemma OceanHeightMonotone(h1: int, h2: int)
    requires h1 < h2
    ensures OceanHeight(h1) < OceanHeight(h2)
  {
  }

  /** The defaults, 10000 regions and ocean height 120, pass the checks. */
  lemma DefaultsAccepted()
    ensures CheckParameters(10000, 120) == Render(10000, 1.02)
  {
  }

  // ---------------------------------------------------------------------
  // create_floor
  // ---------------------------------------------------------------------

  /** The four floor corners create_floor pushes, in order. */
  function FloorCorners(): (vs: seq<Vec3>)
    ensures |vs| == 4 && forall i :: 0 <= i < 4 ==> vs[i].y == FloorY
  {
    [Vec3(FloorXMin, FloorY, FloorZMax), Vec3(FloorXMax, FloorY, FloorZMax),
     Vec3(FloorXMax, FloorY, FloorZMin), Vec3(FloorXMin, FloorY, FloorZMin)]
  }

  /**
   * create_floor: pushes the four corners of the floor rectangle onto
   * `vertices` and its two triangles onto `faces` (both vectors are passed
   * by reference; here they come in and go out).
   */
  method CreateFloor(vertices: seq<Vec3>, faces: seq<Tri>)
    returns (vertices': seq<Vec3>, faces': seq<Tri>)
    ensures |vertices'| == |vertices| + 4 && vertices'[..|vertices|] == vertices
    ensures vertices'[|vertices|..] == FloorCorners()
    ensures faces' == faces + [Tri(0, 1, 2), Tri(2, 3, 0)]
    ensures forall i :: |faces| <= i < |faces'| ==> faces'[i].a < 4 && faces'[i].b < 4 && faces'[i].c < 4
  {
    vertices' := vertices;
    vertices' := vertices' + [Vec3(FloorXMin, FloorY, FloorZMax)];
    vertices' := vertices' + [Vec3(FloorXMax, FloorY, FloorZMax)];
    vertices' := vertices' + [Vec3(FloorXMax, FloorY, FloorZMin)];
    vertices' := vertices' + [Vec3(FloorXMin, FloorY, FloorZMin)];
    faces' := faces;
    faces' := faces' + [Tri(0, 1, 2)];
    faces' := faces' + [Tri(2, 3, 0)];
  }

  /** The y component of the normal (b - a) x (c - a) of a triangle. */
  function NormalY(a: Vec3, b: Vec3, c: Vec3): real
  {
    (b.z - a.z) * (c.x - a.x) - (b.x - a.x) * (c.z - a.z)
  }

  /**
   * main builds the floor into empty vectors; then every face index names
   * one of the four corners, and both triangles are wound to face up (+y),
   * each covering half the rectangle.
   */
  lemma FloorFromEmpty(vertices: seq<Vec3>, faces: seq<Tri>)
    requires vertices == FloorCorners() && faces == [Tri(0, 1, 2), Tri(2, 3, 0)]
    ensures forall f :: f in faces ==> f.a < |vertices| && f.b < |vertices| && f.c < |vertices|
    ensures forall f :: f in faces ==>
      NormalY(vertices[f.a], vertices[f.b], vertices[f.c])
        == (FloorXMax - FloorXMin) * (FloorZMax - FloorZMin)
    ensures FloorXMax > FloorXMin && FloorZMax > FloorZMin
  {
  }
}
