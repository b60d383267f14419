/**
 * The pattern-based VGA preview of the webview simulator: the constants of
 * the 640x480@60Hz raster, the integer test patterns (animated stripes,
 * checkerboard, a cellular pattern), the RGBA write of one pixel into the
 * canvas buffer, the choice of pattern from the Verilog text, the reset of
 * the counters and the values of the example list.
 */
module VgaPatterns {
  import opened JsInt
  import JsString

  const H_DISPLAY: int := 640
  const H_BACK: int := 48
  const H_FRONT: int := 16
  const H_SYNC: int := 96
  const V_DISPLAY: int := 480
  const V_TOP: int := 33
  const V_BOTTOM: int := 10
  const V_SYNC: int := 2

  /** The last horizontal and vertical counts of the raster. */
  const H_MAX: int := H_DISPLAY + H_BACK + H_FRONT + H_SYNC - 1
  const V_MAX: int := V_DISPLAY + V_TOP + V_BOTTOM + V_SYNC - 1

  /** The raster is 800 x 525 counts. */
  lemma RasterSize()
    ensures H_MAX == 799 && V_MAX == 524
  {
  }

  /** A colour with 2-bit channels as the Verilog designs drive it. */
  datatype Rgb = Rgb(r: int, g: int, b: int)

  predicate TwoBitChannels(c: Rgb)
  {
    0 <= c.r < 4 && 0 <= c.g < 4 && 0 <= c.b < 4
  }

  /**
   * getStripesPattern: the stripes design evaluated at (x, y), with the
   * frame counter in the role of the design's counter. The 10-bit
   * moving_x is the sum modulo 1024; each channel packs two bits.
   */
  function StripesPattern(x: int, y: int, frameCount: int): (c: Rgb)
    ensures TwoBitChannels(c)
    ensures var movingX := (x + frameCount) % 1024;
            c.r == 2 * Bit(movingX, 5) + Bit(y, 2) &&
            c.g == 2 * Bit(movingX, 6) + Bit(y, 2) &&
            c.b == 2 * Bit(movingX, 7) + Bit(y, 5)
  {
    var v := x + frameCount;
    StripesChannel(v, 5, y, 2);
    StripesChannel(v, 6, y, 2);
    StripesChannel(v, 7, y, 5);
    Rgb(Or(Shl(And(Sar(And(v, 0x3ff), 5), 1), 1), And(Sar(y, 2), 1)),
        Or(Shl(And(Sar(And(v, 0x3ff), 6), 1), 1), And(Sar(y, 2), 1)),
        Or(Shl(And(Sar(And(v, 0x3ff), 7), 1), 1), And(Sar(y, 5), 1)))
  }

  /** One stripes channel: bit i of the 10-bit sum over bit j of y. */
  lemma StripesChannel(v: int, i: nat, y: int, j: nat)
    requires i < 32 && j < 32
    ensures Or(Shl(And(Sar(And(v, 0x3ff), i), 1), 1), And(Sar(y, j), 1)) == 2 * Bit(v % 1024, i) + Bit(y, j)
  {
    TenBitMask(v);
    PackedChannel(And(v, 0x3ff), i, y, j);
  }

  /** `& 0x3ff` keeps the value modulo 1024. */
  lemma TenBitMask(v: int)
    ensures And(v, 0x3ff) == v % 1024
  {
    Pow2Known();
    AndLowMask(v, 10);
  }

  /** Bit i of v above bit j of w, packed into one two-bit channel. */
  lemma PackedChannel(v: int, i: nat, w: int, j: nat)
    requires i < 32 && j < 32
    ensures Or(Shl(And(Sar(v, i), 1), 1), And(Sar(w, j), 1)) == 2 * Bit(v, i) + Bit(w, j)
  {
    SarBit(v, i);
    SarBit(w, j);
    PackTwoBits(Bit(v, i), Bit(w, j));
  }

  /** getCheckersPattern: white where bit 5 of x and bit 5 of y differ, black elsewhere. */
  function CheckersPattern(x: int, y: int): (c: Rgb)
    ensures TwoBitChannels(c) && c.r == c.g == c.b
    ensures c.r == 3 <==> Bit(x, 5) != Bit(y, 5)
    ensures c.r == 0 <==> Bit(x, 5) == Bit(y, 5)
  {
    var checker := And(Xor(Sar(x, 5), Sar(y, 5)), 1);
    ShiftedLowBit(x, 5);
    ShiftedLowBit(y, 5);
    XorLowBit(Sar(x, 5), Sar(y, 5));
    var v := if checker != 0 then 3 else 0;
    Rgb(v, v, v)
  }

  /** Bit 0 of `v >> i` is bit i of v. */
  lemma ShiftedLowBit(v: int, i: nat)
    requires i < 32
    ensures Bit(Sar(v, i), 0) == Bit(v, i)
  {
    assert Pow2(0) == 1 && Pow2(1) == 2;
    SarBits(v, i, 1);
  }

  /**
   * getConwayPattern: the screen is cut into 8 x 8 cells and a cell is
   * alive when its diagonal index plus the frame counter leaves a JavaScript
   * remainder below 3 modulo 7.
   */
  function ConwayPattern(x: int, y: int, frameCount: int): (c: Rgb)
    ensures TwoBitChannels(c)
    ensures c == Rgb(3, 3, 1) || c == Rgb(0, 0, 0)
    ensures x / 8 + y / 8 + frameCount >= 0 ==>
              (c == Rgb(3, 3, 1) <==> (x / 8 + y / 8 + frameCount) % 7 < 3)
  {
    var cellX := x / 8;
    var cellY := y / 8;
    var alive := Rem(cellX + cellY + frameCount, 7) < 3;
    if alive then Rgb(3, 3, 1) else Rgb(0, 0, 0)
  }

  /** Every pixel of an 8 x 8 cell has the colour of the cell's top-left corner. */
  lemma ConwayCells(x: int, y: int, frameCount: int)
    ensures ConwayPattern(x, y, frameCount) == ConwayPattern(8 * (x / 8), 8 * (y / 8), frameCount)
  {
    CellCorner(x);
    CellCorner(y);
  }

  lemma CellCorner(x: int)
    ensures (8 * (x / 8)) / 8 == x / 8
  {
    DivModAddMultiple(0, 8, x / 8);
  }

  /** On the visible screen the pattern repeats every 7 frames. */
  lemma ConwayPeriod(x: int, y: int, frameCount: int)
    requires x >= 0 && y >= 0 && frameCount >= 0
    ensures ConwayPattern(x, y, frameCount + 7) == ConwayPattern(x, y, frameCount)
  {
    var n := x / 8 + y / 8 + frameCount;
    DivModAddMultiple(n, 7, 1);
  }

  /** What a Uint8ClampedArray stores for an integer. */
  function Clamp8(v: int): (r: int)
    ensures 0 <= r <= 255
    ensures 0 <= v <= 255 ==> r == v
    ensures v < 0 ==> r == 0
    ensures v > 255 ==> r == 255
  {
    if v < 0 then 0 else if v > 255 then 255 else v
  }

  /** A typed-array store: an index outside the buffer is ignored. */
  function StoreAt(s: seq<int>, i: int, v: int): (r: seq<int>)
    ensures |r| == |s|
    ensures forall j :: 0 <= j < |s| && j != i ==> r[j] == s[j]
    ensures 0 <= i < |s| ==> r[i] == Clamp8(v)
  {
    if 0 <= i < |s| then s[i := Clamp8(v)] else s
  }

  /** The byte offset of pixel (x, y) in the 640-pixel-wide RGBA buffer. */
  function PixelIndex(x: int, y: int): int
  {
    (y * 640 + x) * 4
  }

  /** The buffer after setPixel(x, y, c). */
  function WritePixel(s: seq<int>, x: int, y: int, c: Rgb): (r: seq<int>)
    ensures |r| == |s|
    ensures forall j :: 0 <= j < |s| && !(PixelIndex(x, y) <= j < PixelIndex(x, y) + 4) ==> r[j] == s[j]
  {
    var i := PixelIndex(x, y);
    StoreAt(StoreAt(StoreAt(StoreAt(s, i, c.r * 85), i + 1, c.g * 85), i + 2, c.b * 85), i + 3, 255)
  }

  /**
   * On a full 640 x 480 buffer a pixel of the screen takes exactly the four
   * bytes at its offset: the channels scaled to 0, 85, 170 or 255, and an
   * opaque alpha.
   */
  lemma WritePixelOnScreen(s: seq<int>, x: int, y: int, c: Rgb)
    requires |s| == 640 * 480 * 4 && 0 <= x < 640 && 0 <= y < 480
    requires TwoBitChannels(c)
    ensures var i := PixelIndex(x, y);
            0 <= i && i + 4 <= |s| &&
            WritePixel(s, x, y, c)[i..i + 4] == [c.r * 85, c.g * 85, c.b * 85, 255]
    ensures forall j :: 0 <= j < |s| && !(PixelIndex(x, y) <= j < PixelIndex(x, y) + 4) ==>
              WritePixel(s, x, y, c)[j] == s[j]
    ensures forall j :: PixelIndex(x, y) <= j < PixelIndex(x, y) + 3 ==>
              WritePixel(s, x, y, c)[j] in {0, 85, 170, 255}
  {
    var i := PixelIndex(x, y);
    assert i + 4 <= |s| by {
      assert y * 640 + x <= 479 * 640 + 639;
    }
    var r := WritePixel(s, x, y, c);
    var s1 := StoreAt(s, i, c.r * 85);
    var s2 := StoreAt(s1, i + 1, c.g * 85);
    var s3 := StoreAt(s2, i + 2, c.b * 85);
    assert r == StoreAt(s3, i + 3, 255);
    assert r[i..i + 4] == [r[i], r[i + 1], r[i + 2], r[i + 3]];
  }

  /** The patterns the preview can draw. */
  datatype Pattern = Default | Stripes | Checkers | Conway | Bouncing | Logo

  /** analyzeVerilogPattern's decision, keyword group by keyword group. */
  function DetectPattern(code: string): Pattern
  {
    if JsString.Includes(code, "moving_x") || JsString.Includes(code, "counter") then Stripes
    else if JsString.Includes(code, "checkers") || JsString.Includes(code, "checker") then Checkers
    else if JsString.Includes(code, "conway") || JsString.Includes(code, "life") then Conway
    else if JsString.Includes(code, "ball") || JsString.Includes(code, "bounce") then Bouncing
    else if JsString.Includes(code, "logo") then Logo
    else Default
  }

  /** The keyword groups in the order they are tried. */
  function KeywordGroups(): seq<(Pattern, seq<string>)>
  {
    [ (Stripes, ["moving_x", "counter"]),
      (Checkers, ["checkers", "checker"]),
      (Conway, ["conway", "life"]),
      (Bouncing, ["ball", "bounce"]),
      (Logo, ["logo"]) ]
  }

  predicate AnyIncluded(code: string, words: seq<string>)
  {
    exists w :: w in words && JsString.Includes(code, w)
  }

  /** The pattern of the first group with a keyword in the text, or the default. */
  function FirstMatch(code: string, groups: seq<(Pattern, seq<string>)>): Pattern
  {
    if groups == [] then Default
    else if AnyIncluded(code, groups[0].1) then groups[0].0
    else FirstMatch(code, groups[1..])
  }

  lemma AnyIncludedPair(code: string, a: string, b: string)
    ensures AnyIncluded(code, [a, b]) <==> JsString.Includes(code, a) || JsString.Includes(code, b)
  {
    if JsString.Includes(code, a) {
      assert a in [a, b];
    } else if JsString.Includes(code, b) {
      assert b in [a, b];
    }
  }

  /** The decision is the first-match rule over the keyword table. */
  lemma DetectIsFirstMatch(code: string)
    ensures DetectPattern(code) == FirstMatch(code, KeywordGroups())
  {
    var g4: seq<(Pattern, seq<string>)> := [(Logo, ["logo"])];
    var g3 := [(Bouncing, ["ball", "bounce"])] + g4;
    var g2 := [(Conway, ["conway", "life"])] + g3;
    var g1 := [(Checkers, ["checkers", "checker"])] + g2;
    var g0 := [(Stripes, ["moving_x", "counter"])] + g1;
    assert g0 == KeywordGroups();
    FirstMatchCons(code, Logo, ["logo"], []);
    FirstMatchCons(code, Bouncing, ["ball", "bounce"], g4);
    FirstMatchCons(code, Conway, ["conway", "life"], g3);
    FirstMatchCons(code, Checkers, ["checkers", "checker"], g2);
    FirstMatchCons(code, Stripes, ["moving_x", "counter"], g1);
    AnyIncludedPair(code, "moving_x", "counter");
    AnyIncludedPair(code, "checkers", "checker");
    AnyIncludedPair(code, "conway", "life");
    AnyIncludedPair(code, "ball", "bounce");
    AnyIncludedOne(code, "logo");
  }

  lemma FirstMatchCons(code: string, p: Pattern, words: seq<string>, rest: seq<(Pattern, seq<string>)>)
    ensures FirstMatch(code, [(p, words)] + rest) == if AnyIncluded(code, words) then p else FirstMatch(code, rest)
  {
    assert ([(p, words)] + rest)[1..] == rest;
  }

  lemma AnyIncludedOne(code: string, a: string)
    ensures AnyIncluded(code, [a]) <==> JsString.Includes(code, a)
  {
    if JsString.Includes(code, a) {
      assert a in [a];
    }
  }

  /** The default pattern is chosen exactly when no keyword occurs in the text. */
  lemma DefaultWhenNoKeyword(code: string)
    ensures DetectPattern(code) == Default <==>
              forall i, w :: 0 <= i < |KeywordGroups()| && w in KeywordGroups()[i].1 ==> !JsString.Includes(code, w)
  {
    var g := KeywordGroups();
    if DetectPattern(code) != Default {
      var (i, w) :=
        if JsString.Includes(code, "moving_x") then (0, "moving_x")
        else if JsString.Includes(code, "counter") then (0, "counter")
        else if JsString.Includes(code, "checkers") then (1, "checkers")
        else if JsString.Includes(code, "checker") then (1, "checker")
        else if JsString.Includes(code, "conway") then (2, "conway")
        else if JsString.Includes(code, "life") then (2, "life")
        else if JsString.Includes(code, "ball") then (3, "ball")
        else if JsString.Includes(code, "bounce") then (3, "bounce")
        else (4, "logo");
      assert w in g[i].1 && JsString.Includes(code, w);
    }
  }

  predicate IsSlugChar(c: char)
  {
    'a' <= c <= 'z' || '0' <= c <= '9' || c == '-'
  }

  function SlugChar(c: char): char
  {
    var l := JsString.ToLowerChar(c);
    if 'a' <= l <= 'z' || '0' <= l <= '9' then l else '-'
  }

  /**
   * The option value of an example: its name lower-cased, with every
   * character outside [a-z0-9] replaced by '-'.
   */
  function ExampleValue(name: string): (r: string)
    ensures |r| == |name|
    ensures forall i :: 0 <= i < |r| ==> IsSlugChar(r[i])
    ensures forall i :: 0 <= i < |r| && ('a' <= name[i] <= 'z' || '0' <= name[i] <= '9') ==> r[i] == name[i]
    ensures forall i :: 0 <= i < |r| && 'A' <= name[i] <= 'Z' ==> r[i] == (name[i] as int + 32) as char
  {
    seq(|name|, i requires 0 <= i < |name| => SlugChar(name[i]))
  }

  /** A value is its own value: the mapping is idempotent. */
  lemma ExampleValueIdempotent(name: string)
    ensures ExampleValue(ExampleValue(name)) == ExampleValue(name)
  {
    var v := ExampleValue(name);
    var w := ExampleValue(v);
    forall i | 0 <= i < |v|
      ensures w[i] == v[i]
    {
      assert w[i] == SlugChar(v[i]);
    }
  }

  /** The examples offered by the picker, in order. */
  function ExampleNames(): seq<string>
  {
    [ "Stripes", "Bouncing Logo", "Conway's Game of Life", "Checkers",
      "Balls", "Drop Demo", "Music Visualizer", "Gamepad Test" ]
  }

  /** The eight option values are pairwise distinct, so a value names one example. */
  lemma ExampleValuesDistinct()
    ensures forall i, j :: 0 <= i < j < |ExampleNames()| ==>
              ExampleValue(ExampleNames()[i]) != ExampleValue(ExampleNames()[j])
  {
    var names := ExampleNames();
    var heads := ["st", "bo", "co", "ch", "ba", "dr", "mu", "ga"];
    forall i | 0 <= i < |names|
      ensures |ExampleValue(names[i])| >= 2 && ExampleValue(names[i])[..2] == heads[i]
    {
      var v := ExampleValue(names[i]);
      assert v[..2] == [SlugChar(names[i][0]), SlugChar(names[i][1])];
    }
  }

  /** The value of the third example. */
  lemma ConwayExampleValue()
    ensures ExampleValue("Conway's Game of Life") == "conway-s-game-of-life"
  {
  }

  /**
   * The preview's mutable state: the clock and frame counters, the chosen
   * pattern, the stand-in module created when a design is loaded (only its
   * ena and rst_n inputs matter here) and the RGBA canvas buffer.
   */
  class VgaSimulator {
    var clockCount: int
    var frameCount: int
    var patternType: Pattern
    var hasModule: bool
    var ena: int
    var rstN: int
    var pixels: array<int>

    constructor ()
      ensures clockCount == 0 && frameCount == 0 && patternType == Default && !hasModule
      ensures fresh(pixels) && pixels.Length == 640 * 480 * 4
      ensures forall j :: 0 <= j < pixels.Length ==> pixels[j] == 0
    {
      clockCount := 0;
      frameCount := 0;
      patternType := Default;
      hasModule := false;
      ena := 0;
      rstN := 0;
      pixels := new int[640 * 480 * 4](j => 0);
    }

    /** analyzeVerilogPattern: remembers the pattern the text calls for. */
    method AnalyzeVerilogPattern(code: string)
      modifies this
      ensures patternType == FirstMatch(code, KeywordGroups())
      ensures clockCount == old(clockCount) && frameCount == old(frameCount)
      ensures hasModule == old(hasModule) && ena == old(ena) && rstN == old(rstN) && pixels == old(pixels)
    {
      DetectIsFirstMatch(code);
      patternType := Default;
      if JsString.Includes(code, "moving_x") || JsString.Includes(code, "counter") {
        patternType := Stripes;
      } else if JsString.Includes(code, "checkers") || JsString.Includes(code, "checker") {
        patternType := Checkers;
      } else if JsString.Includes(code, "conway") || JsString.Includes(code, "life") {
        patternType := Conway;
      } else if JsString.Includes(code, "ball") || JsString.Includes(code, "bounce") {
        patternType := Bouncing;
      } else if JsString.Includes(code, "logo") {
        patternType := Logo;
      }
    }

    /**
     * reset: with a module loaded, enable it, hold reset low over ten clock
     * pairs (the stand-in's tick2 only advances clockCount) and release it;
     * then both counters restart from zero.
     */
    method Reset()
      modifies this
      ensures clockCount == 0 && frameCount == 0
      ensures hasModule ==> ena == 1 && rstN == 1
      ensures !hasModule ==> ena == old(ena) && rstN == old(rstN)
      ensures hasModule == old(hasModule) && patternType == old(patternType) && pixels == old(pixels)
    {
      if hasModule {
        ena := 1;
        rstN := 0;
        clockCount := clockCount + 10;
        rstN := 1;
      }
      clockCount := 0;
      frameCount := 0;
    }

    /**
     * initializeSimulation: installs the pattern-based stand-in module, whose
     * state starts with ena = 1 and rst_n = 1, then resets.
     */
    method InitializeSimulation()
      modifies this
      ensures hasModule && ena == 1 && rstN == 1
      ensures clockCount == 0 && frameCount == 0
      ensures patternType == old(patternType) && pixels == old(pixels)
    {
      hasModule := true;
      ena := 1;
      rstN := 1;
      Reset();
    }

    /** setPixel: the four bytes of pixel (x, y) in the canvas buffer. */
    method SetPixel(x: int, y: int, c: Rgb)
      modifies pixels
      ensures pixels[..] == WritePixel(old(pixels[..]), x, y, c)
    {
      var index := (y * 640 + x) * 4;
      StoreClamped(pixels, index, c.r * 85);
      StoreClamped(pixels, index + 1, c.g * 85);
      StoreClamped(pixels, index + 2, c.b * 85);
      StoreClamped(pixels, index + 3, 255);
    }
  }

  /** One store into a Uint8ClampedArray. */
  method StoreClamped(a: array<int>, i: int, v: int)
    modifies a
    ensures a[..] == StoreAt(old(a[..]), i, v)
  {
    if 0 <= i < a.Length {
      a[i] := Clamp8(v);
    }
  }
}
