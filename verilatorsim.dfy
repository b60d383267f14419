/**
 * The fallback path of the Verilator-backed simulator, used when no compiled
 * simulator is loaded: VGA timing computed in closed form from a running
 * clock count (640x480 at 60 Hz, 800 x 525 counts per frame), colours taken
 * from bits 5, 6 and 7 of the moving x position, and a frame buffer filled
 * pixel by pixel.
 */
module VerilatorFallback {
  import opened JsInt
  import opened JsString

  const H_SYNC_PULSE: int := 96
  const H_BACK_PORCH: int := 48
  const H_DISPLAY: int := 640
  const H_FRONT_PORCH: int := 16
  const H_TOTAL: int := H_SYNC_PULSE + H_BACK_PORCH + H_DISPLAY + H_FRONT_PORCH

  const V_SYNC_PULSE: int := 2
  const V_BACK_PORCH: int := 33
  const V_DISPLAY: int := 480
  const V_FRONT_PORCH: int := 10
  const V_TOTAL: int := V_SYNC_PULSE + V_BACK_PORCH + V_DISPLAY + V_FRONT_PORCH

  const WIDTH: int := 640
  const HEIGHT: int := 480
  /** Bytes of an RGBA frame. */
  const FRAME_BYTES: int := WIDTH * HEIGHT * 4

  /** The signals one simulation call reports. */
  datatype Signals = Signals(
    hsync: bool, vsync: bool,
    red: seq<int>, green: seq<int>, blue: seq<int>,
    videoActive: bool, pixX: int, pixY: int, sound: bool)

  /** A generated frame; the pixels are RGBA bytes, row by row. */
  datatype Frame = Frame(width: int, height: int, pixels: array<int>, frameNumber: int, clockCount: int)

  /** `clock % H_TOTAL`, with JavaScript's remainder. */
  function HCount(clock: int): int
  {
    Rem(clock, H_TOTAL)
  }

  /** `Math.floor(clock / H_TOTAL) % V_TOTAL`. */
  function VCount(clock: int): int
  {
    Rem(clock / H_TOTAL, V_TOTAL)
  }

  /** The visible window of the raster. */
  predicate Active(h: int, v: int)
  {
    H_SYNC_PULSE + H_BACK_PORCH <= h < H_SYNC_PULSE + H_BACK_PORCH + H_DISPLAY &&
    V_SYNC_PULSE + V_BACK_PORCH <= v < V_SYNC_PULSE + V_BACK_PORCH + V_DISPLAY
  }

  /** `(movingX >> i) & 1` */
  function ColourBit(movingX: int, i: nat): int
  {
    And(Sar(movingX, i), 1)
  }

  /** What fallbackSimulate reports once the clock has reached `clock`. */
  function SignalsAt(clock: int, counter: int): Signals
  {
    var h := HCount(clock);
    var v := VCount(clock);
    var active := Active(h, v);
    var px := if active then h - (H_SYNC_PULSE + H_BACK_PORCH) else 0;
    var py := if active then v - (V_SYNC_PULSE + V_BACK_PORCH) else 0;
    var movingX := px + counter;
    var r := if active then ColourBit(movingX, 5) else 0;
    var g := if active then ColourBit(movingX, 6) else 0;
    var b := if active then ColourBit(movingX, 7) else 0;
    Signals(h >= H_SYNC_PULSE, v >= V_SYNC_PULSE, [r, 0], [g, 0], [b, 0], active, px, py, false)
  }

  /**
   * For a non-negative clock the raster position is the clock modulo 800 and
   * the line count modulo 525; the sync, active and pixel outputs follow it,
   * colours are bits 5, 6 and 7 of pix_x + counter (inside the window), the
   * second colour bit is always 0 and there is no sound.
   */
  lemma SignalsAtMeaning(clock: int, counter: int)
    requires clock >= 0
    ensures var s := SignalsAt(clock, counter);
            var h := clock % 800;
            var v := (clock / 800) % 525;
            (s.hsync <==> h >= 96) && (s.vsync <==> v >= 2) &&
            (s.videoActive <==> 144 <= h < 784 && 35 <= v < 515) &&
            (s.videoActive ==> s.pixX == h - 144 && s.pixY == v - 35 &&
                               0 <= s.pixX < 640 && 0 <= s.pixY < 480) &&
            (!s.videoActive ==> s.pixX == 0 && s.pixY == 0) &&
            s.red == [if s.videoActive then Bit(s.pixX + counter, 5) else 0, 0] &&
            s.green == [if s.videoActive then Bit(s.pixX + counter, 6) else 0, 0] &&
            s.blue == [if s.videoActive then Bit(s.pixX + counter, 7) else 0, 0] &&
            !s.sound
  {
    var s := SignalsAt(clock, counter);
    assert clock / 800 >= 0;
    SarBit(s.pixX + counter, 5);
    SarBit(s.pixX + counter, 6);
    SarBit(s.pixX + counter, 7);
  }

  /** One byte of the fallback frame: R, G, B from bits 5..7 of x + counter, then alpha. */
  function FrameByte(j: int, counter: int): int
  {
    var x := (j / 4) % WIDTH;
    var c := j % 4;
    if c == 3 then 255 else ColourBit(x + counter, 5 + c) * 255
  }

  /**
   * Pixel (x, y) occupies bytes (y * 640 + x) * 4 .. + 3: its colour bytes are
   * 0 or 255 according to bits 5, 6, 7 of x + counter, and its alpha is 255.
   */
  lemma FrameBytePixel(x: int, y: int, c: int, counter: int)
    requires 0 <= x < WIDTH && 0 <= y < HEIGHT && 0 <= c < 4
    ensures FrameByte((y * WIDTH + x) * 4 + c, counter) ==
            if c == 3 then 255 else Bit(x + counter, 5 + c) * 255
    ensures FrameByte((y * WIDTH + x) * 4 + c, counter) in {0, 255}
  {
    PixelPosition(x, y, c);
    if c < 3 {
      SarBit(x + counter, 5 + c);
    }
  }

  /** The four frame bytes of pixel (x, y). */
  lemma PixelFrameBytes(x: int, y: int, counter: int)
    requires 0 <= x < WIDTH && 0 <= y
    ensures var i := (y * WIDTH + x) * 4;
            forall j :: i <= j < i + 4 ==>
              FrameByte(j, counter) == if j == i + 3 then 255 else ColourBit(x + counter, 5 + j - i) * 255
  {
    PixelPosition(x, y, 0);
    PixelPosition(x, y, 1);
    PixelPosition(x, y, 2);
    PixelPosition(x, y, 3);
  }

  lemma PixelPosition(x: int, y: int, c: int)
    requires 0 <= x < WIDTH && 0 <= y && 0 <= c < 4
    ensures ((y * WIDTH + x) * 4 + c) / 4 == y * WIDTH + x
    ensures ((y * WIDTH + x) * 4 + c) % 4 == c
    ensures (y * WIDTH + x) % WIDTH == x
  {
    DivModUnique((y * WIDTH + x) * 4 + c, 4, y * WIDTH + x, c);
    DivModUnique(y * WIDTH + x, WIDTH, y, x);
  }

  /** fallbackCompile: the text names a module, closes it and mentions a VGA signal. */
  function FallbackCompile(code: string): bool
  {
    var hasModule := Includes(code, "module");
    var hasEndModule := Includes(code, "endmodule");
    var hasVga := Includes(code, "hsync") || Includes(code, "vsync") ||
                  Includes(code, "R") || Includes(code, "G") || Includes(code, "B");
    hasModule && hasEndModule && hasVga
  }

  /** Every "endmodule" contains "module", so the first test of fallbackCompile is redundant. */
  lemma FallbackCompileNeedsEnd(code: string)
    ensures FallbackCompile(code) <==>
            Includes(code, "endmodule") &&
            (Includes(code, "hsync") || Includes(code, "vsync") ||
             Includes(code, "R") || Includes(code, "G") || Includes(code, "B"))
  {
    if Includes(code, "endmodule") {
      var i := IndexOf(code, "endmodule");
      assert code[i + 3..i + 9] == code[i..i + 9][3..9];
      assert OccursAt(code, "module", i + 3);
      IncludesAt(code, "module", i + 3);
    }
  }

  /** The four bytes of pixel (x, y): colour bits of x + counter scaled to 255, then alpha. */
  method WritePixel(pixels: array<int>, x: int, y: int, counter: int)
    requires pixels.Length == FRAME_BYTES && 0 <= x < WIDTH && 0 <= y < HEIGHT
    modifies pixels
    ensures forall j :: 0 <= j < (y * WIDTH + x) * 4 ==> pixels[j] == old(pixels[j])
    ensures forall j :: (y * WIDTH + x) * 4 <= j < (y * WIDTH + x + 1) * 4 ==> pixels[j] == FrameByte(j, counter)
    ensures forall j :: (y * WIDTH + x + 1) * 4 <= j < pixels.Length ==> pixels[j] == old(pixels[j])
  {
    var movingX := x + counter;
    var r := ColourBit(movingX, 5) * 255;
    var g := ColourBit(movingX, 6) * 255;
    var b := ColourBit(movingX, 7) * 255;
    var index := (y * WIDTH + x) * 4;
    PixelFrameBytes(x, y, counter);
    StoreRgba(pixels, index, r, g, b);
  }

  /** The stores of one pixel: r, g, b and alpha 255 at index .. index + 3, nothing else. */
  method StoreRgba(pixels: array<int>, index: int, r: int, g: int, b: int)
    requires 0 <= index && index + 4 <= pixels.Length
    modifies pixels
    ensures forall j :: 0 <= j < index ==> pixels[j] == old(pixels[j])
    ensures pixels[index] == r && pixels[index + 1] == g && pixels[index + 2] == b && pixels[index + 3] == 255
    ensures forall j :: index + 4 <= j < pixels.Length ==> pixels[j] == old(pixels[j])
  {
    pixels[index] := r;
    pixels[index + 1] := g;
    pixels[index + 2] := b;
    pixels[index + 3] := 255;
  }

  /** The simulator's state record (the fallback only). */
  class Simulator {
    var clock: int
    var frame: int
    var counter: int
    var pixX: int
    var pixY: int
    var videoActive: bool

    constructor ()
      ensures clock == 0 && frame == 0 && counter == 0
      ensures pixX == 0 && pixY == 0 && !videoActive
    {
      clock := 0;
      frame := 0;
      counter := 0;
      pixX := 0;
      pixY := 0;
      videoActive := false;
    }

    /** reset without a loaded simulator: the initial state again. */
    method Reset()
      modifies this
      ensures clock == 0 && frame == 0 && counter == 0
      ensures pixX == 0 && pixY == 0 && !videoActive
    {
      clock := 0;
      frame := 0;
      counter := 0;
      pixX := 0;
      pixY := 0;
      videoActive := false;
    }

    /**
     * fallbackSimulate: advance the clock by clockCycles and report the
     * signals at the new clock; pix_x and pix_y are stored, nothing else.
     */
    method FallbackSimulate(clockCycles: int) returns (s: Signals)
      modifies this
      ensures clock == old(clock) + clockCycles
      ensures s == SignalsAt(clock, counter)
      ensures pixX == s.pixX && pixY == s.pixY
      ensures frame == old(frame) && counter == old(counter) && videoActive == old(videoActive)
    {
      clock := clock + clockCycles;
      var hCount := Rem(clock, H_TOTAL);
      var vCount := Rem(clock / H_TOTAL, V_TOTAL);
      var hsync := hCount >= H_SYNC_PULSE;
      var vsync := vCount >= V_SYNC_PULSE;
      var active := hCount >= H_SYNC_PULSE + H_BACK_PORCH &&
                    hCount < H_SYNC_PULSE + H_BACK_PORCH + H_DISPLAY &&
                    vCount >= V_SYNC_PULSE + V_BACK_PORCH &&
                    vCount < V_SYNC_PULSE + V_BACK_PORCH + V_DISPLAY;
      if active {
        pixX := hCount - (H_SYNC_PULSE + H_BACK_PORCH);
        pixY := vCount - (V_SYNC_PULSE + V_BACK_PORCH);
      } else {
        pixX := 0;
        pixY := 0;
      }
      var movingX := pixX + counter;
      var r := if active then And(Sar(movingX, 5), 1) else 0;
      var g := if active then And(Sar(movingX, 6), 1) else 0;
      var b := if active then And(Sar(movingX, 7), 1) else 0;
      s := Signals(hsync, vsync, [r, 0], [g, 0], [b, 0], active, pixX, pixY, false);
    }

    /**
     * fallbackGetFrame: a fresh 640 x 480 RGBA buffer whose every byte is
     * FrameByte; pix_x and pix_y are left at the last pixel.
     */
    method FallbackGetFrame() returns (f: Frame)
      modifies this
      ensures fresh(f.pixels) && f.pixels.Length == FRAME_BYTES
      ensures f.width == WIDTH && f.height == HEIGHT
      ensures f.frameNumber == frame && f.clockCount == clock
      ensures forall j :: 0 <= j < FRAME_BYTES ==> f.pixels[j] == FrameByte(j, counter)
      ensures pixX == WIDTH - 1 && pixY == HEIGHT - 1
      ensures clock == old(clock) && frame == old(frame) && counter == old(counter)
      ensures videoActive == old(videoActive)
    {
      var pixels := new int[FRAME_BYTES](_ => 0);
      var y := 0;
      while y < HEIGHT
        invariant 0 <= y <= HEIGHT
        invariant forall j :: 0 <= j < y * WIDTH * 4 ==> pixels[j] == FrameByte(j, counter)
        invariant y > 0 ==> pixX == WIDTH - 1 && pixY == y - 1
        invariant clock == old(clock) && frame == old(frame) && counter == old(counter)
        invariant videoActive == old(videoActive)
      {
        var x := 0;
        while x < WIDTH
          invariant 0 <= x <= WIDTH
          invariant forall j :: 0 <= j < (y * WIDTH + x) * 4 ==> pixels[j] == FrameByte(j, counter)
          invariant x > 0 ==> pixX == x - 1 && pixY == y
          invariant clock == old(clock) && frame == old(frame) && counter == old(counter)
          invariant videoActive == old(videoActive)
        {
          pixX := x;
          pixY := y;
          WritePixel(pixels, x, y, counter);
          x := x + 1;
        }
        y := y + 1;
      }
      f := Frame(WIDTH, HEIGHT, pixels, frame, clock);
    }

    /** updateCounter: the 10-bit counter advances and wraps at 1024. */
    method UpdateCounter()
      modifies this
      ensures counter == Rem(old(counter) + 1, 1024)
      ensures 0 <= old(counter) < 1024 ==> 0 <= counter < 1024
      ensures old(counter) == 1023 ==> counter == 0
      ensures clock == old(clock) && frame == old(frame) && pixX == old(pixX) && pixY == old(pixY)
      ensures videoActive == old(videoActive)
    {
      counter := Rem(counter + 1, 1024);
    }
  }
}
