/**
 * The string-level Verilog simulator: a VGA raster driven by counters that
 * step once per clock, continuous assignments re-evaluated with the
 * expression evaluator after every step, and always blocks whose only effect
 * is the 10-bit `counter`.
 */
module VerilogSim {
  import opened JsInt
  import opened JsString
  import opened VerilogEval
  import VgaPatterns
  import VerilatorFallback

  /** The raster counters: clock cycles, frames, horizontal and vertical position. */
  datatype Raster = Raster(clock: int, frame: int, hCount: int, vCount: int)

  /** The output signals: sync, blanking, the two-bit colour arrays and sound. */
  datatype Outputs = Outputs(hsync: bool, vsync: bool, videoActive: bool,
                             red: seq<int>, green: seq<int>, blue: seq<int>, sound: bool)

  /** The pixel position inside the visible area and the scrolled x. */
  datatype Position = Position(pixX: int, pixY: int, movingX: int)

  /** The simulator's state record, its fields grouped by who changes them. */
  datatype SimState = SimState(raster: Raster, out: Outputs, pos: Position, counter: int)

  /** The state a new or reset simulator starts from. */
  const Initial: SimState :=
    SimState(Raster(0, 0, 0, 0), Outputs(true, true, false, [0, 0], [0, 0], [0, 0], false), Position(0, 0, 0), 0)

  /** An expression evaluator over the current signals and state. */
  type Evaluator = (string, Env) -> int

  /** What the evaluator sees of the simulator: its signals and the live state. */
  function EnvOf(st: SimState, signals: map<string, seq<int>>): Env
  {
    Env(signals, st.pos.pixX, st.pos.pixY, st.pos.movingX, st.out.videoActive)
  }

  // ---------------------------------------------------------------------
  // VGA timing
  // ---------------------------------------------------------------------

  /** updateVGATiming on the state record. */
  function TimingStep(st: SimState): (t: SimState)
    ensures t.raster.clock == st.raster.clock && t.counter == st.counter
    ensures t.out.red == st.out.red && t.out.green == st.out.green && t.out.blue == st.out.blue
    ensures t.out.sound == st.out.sound
  {
    var r := st.raster;
    var wrapH := r.hCount == 799;
    var wrapV := wrapH && r.vCount == 524;
    var h := if wrapH then 0 else r.hCount + 1;
    var v := if wrapV then 0 else if wrapH then r.vCount + 1 else r.vCount;
    var active := 144 <= h && h < 784 && 35 <= v && v < 515;
    var px := if active then h - 144 else 0;
    var py := if active then v - 35 else 0;
    st.(raster := Raster(r.clock, if wrapV then r.frame + 1 else r.frame, h, v),
        out := st.out.(hsync := h >= 96, vsync := v >= 2, videoActive := active),
        pos := Position(px, py, px + st.counter))
  }

  /** The counters in range. */
  predicate InRaster(r: Raster)
  {
    0 <= r.hCount < 800 && 0 <= r.vCount < 525
  }

  /**
   * One timing step keeps the counters in the raster: h wraps from 799 to 0
   * and only then does v advance; v wraps from 524 to 0 and only then does
   * the frame count advance. The outputs are functions of the new counters.
   */
  lemma {:induction false} TimingStepMeaning(st: SimState)
    requires InRaster(st.raster)
    ensures var t := TimingStep(st);
            var r, r' := st.raster, t.raster;
            InRaster(r') &&
            (r.hCount < 799 ==> r'.hCount == r.hCount + 1 && r'.vCount == r.vCount && r'.frame == r.frame) &&
            (r.hCount == 799 && r.vCount < 524 ==> r'.hCount == 0 && r'.vCount == r.vCount + 1 && r'.frame == r.frame) &&
            (r.hCount == 799 && r.vCount == 524 ==> r'.hCount == 0 && r'.vCount == 0 && r'.frame == r.frame + 1) &&
            (t.out.hsync <==> r'.hCount >= 96) && (t.out.vsync <==> r'.vCount >= 2) &&
            (t.out.videoActive <==> 144 <= r'.hCount < 784 && 35 <= r'.vCount < 515) &&
            (t.out.videoActive ==> t.pos.pixX == r'.hCount - 144 && t.pos.pixY == r'.vCount - 35 &&
                                   0 <= t.pos.pixX < 640 && 0 <= t.pos.pixY < 480) &&
            (!t.out.videoActive ==> t.pos.pixX == 0 && t.pos.pixY == 0) &&
            t.pos.movingX == t.pos.pixX + t.counter
  {
  }

  /** The counters are the closed-form position of the clock count. */
  predicate OnClock(r: Raster)
  {
    r.clock >= 0 && r.hCount == r.clock % 800 && r.vCount == (r.clock / 800) % 525 &&
    r.frame == (r.clock / 800) / 525
  }

  lemma {:induction false} SuccDivMod(c: int, m: int)
    requires c >= 0 && m > 0
    ensures (c + 1) % m == if c % m == m - 1 then 0 else c % m + 1
    ensures (c + 1) / m == if c % m == m - 1 then c / m + 1 else c / m
  {
    var q := c / m;
    var r := c % m;
    if r == m - 1 {
      DivModUnique(c + 1, m, q + 1, 0);
    } else {
      DivModUnique(c + 1, m, q, r + 1);
    }
  }

  /** The state with the clock advanced by one, as simulate does before the timing step. */
  function Tick(st: SimState): SimState
  {
    st.(raster := st.raster.(clock := st.raster.clock + 1))
  }

  /**
   * Stepping the counters once per clock keeps them equal to the closed form
   * the fallback simulator computes from the clock: h = clock mod 800,
   * v = (clock div 800) mod 525, and the frame count is clock div 420000.
   */
  lemma {:induction false} TimingStepOnClock(st: SimState)
    requires OnClock(st.raster)
    ensures OnClock(TimingStep(Tick(st)).raster)
  {
    var c := st.raster.clock;
    SuccDivMod(c, 800);
    SuccDivMod(c / 800, 525);
  }

  lemma {:induction false} FrameIsClockDiv(c: int)
    requires c >= 0
    ensures (c / 800) / 525 == c / 420000
  {
    var q := c / 800;
    var r := c % 800;
    var a := q / 525;
    var b := q % 525;
    assert c == 420000 * a + (800 * b + r);
    DivModUnique(c, 420000, a, 800 * b + r);
  }

  /**
   * After a timing step at clock c, the raster position and pixel outputs
   * are exactly those the fallback simulator reports for clock c.
   */
  lemma {:induction false} TimingAgreesWithFallback(st: SimState)
    requires OnClock(st.raster)
    ensures var t := TimingStep(Tick(st));
            var s := VerilatorFallback.SignalsAt(t.raster.clock, t.counter);
            t.out.hsync == s.hsync && t.out.vsync == s.vsync && t.out.videoActive == s.videoActive &&
            t.pos.pixX == s.pixX && t.pos.pixY == s.pixY &&
            t.raster.frame == t.raster.clock / 420000
  {
    var t := TimingStep(Tick(st));
    TimingStepOnClock(st);
    FrameIsClockDiv(t.raster.clock);
    assert t.raster.clock / 800 >= 0;
  }

  // ---------------------------------------------------------------------
  // Continuous assignments
  // ---------------------------------------------------------------------

  /** parseColorValue: bit 1 then bit 0 of the value's 32-bit pattern. */
  function ParseColorValue(value: int): (r: seq<int>)
    ensures |r| == 2 && r[0] in {0, 1} && r[1] in {0, 1}
  {
    [Bit(value, 1), Bit(value, 0)]
  }

  /**
   * The two elements are `(value >> 1) & 1` and `value & 1`, and read as a
   * two-bit number they are the value modulo 4.
   */
  lemma {:induction false} ParseColorValueBits(value: int)
    ensures var r := ParseColorValue(value);
            r == [And(Sar(value, 1), 1), And(value, 1)] && 2 * r[0] + r[1] == value % 4
  {
    SarBit(value, 1);
    Pow2Known();
    assert Pow2(1) == 2 && Pow2(2) == 4;
    AndMaskIs(value, 1);
    var u := ToUint32(value);
    assert Bit(value, 0) == u % 2;
    assert Bit(value, 1) == (u / 2) % 2;
    DivModPow2(u, 2);
    ModOfUint32(value, 2);
  }

  /** One assignment of evaluateAssignments: only R, G, B, sound, hsync, vsync and video_active have an effect. */
  function AssignStep(out: Outputs, signal: string, value: int): Outputs
  {
    if signal == "R" then out.(red := ParseColorValue(value))
    else if signal == "G" then out.(green := ParseColorValue(value))
    else if signal == "B" then out.(blue := ParseColorValue(value))
    else if signal == "sound" then out.(sound := value != 0)
    else if signal == "hsync" then out.(hsync := value != 0)
    else if signal == "vsync" then out.(vsync := value != 0)
    else if signal == "video_active" then out.(videoActive := value != 0)
    else out
  }

  /** All assignments in order, each evaluated in the state the previous ones left. */
  function AssignAll(st: SimState, assigns: seq<(string, string)>, signals: map<string, seq<int>>, ev: Evaluator): SimState
    decreases |assigns|
  {
    if assigns == [] then st
    else
      var (signal, expression) := assigns[0];
      AssignAll(st.(out := AssignStep(st.out, signal, ev(expression, EnvOf(st, signals)))), assigns[1..], signals, ev)
  }

  /** The colour arrays hold two bits each. */
  predicate ColoursValid(out: Outputs)
  {
    |out.red| == 2 && |out.green| == 2 && |out.blue| == 2 &&
    out.red[0] in {0, 1} && out.green[0] in {0, 1} && out.blue[0] in {0, 1}
  }

  /**
   * Assignments never touch the clock, the raster counters, the pixel
   * position or the counter, and they keep the colours two-bit arrays.
   */
  /** One assignment keeps the colours two-bit arrays. */
  lemma {:induction false} AssignStepColours(out: Outputs, signal: string, value: int)
    requires ColoursValid(out)
    ensures ColoursValid(AssignStep(out, signal, value))
  {
  }

  lemma {:induction false} AssignAllKeeps(st: SimState, assigns: seq<(string, string)>, signals: map<string, seq<int>>, ev: Evaluator)
    ensures var t := AssignAll(st, assigns, signals, ev);
            t.raster == st.raster && t.pos == st.pos && t.counter == st.counter &&
            (ColoursValid(st.out) ==> ColoursValid(t.out))
    decreases |assigns|
  {
    if assigns != [] {
      var (signal, expression) := assigns[0];
      var value := ev(expression, EnvOf(st, signals));
      if ColoursValid(st.out) {
        AssignStepColours(st.out, signal, value);
      }
      AssignAllKeeps(st.(out := AssignStep(st.out, signal, value)), assigns[1..], signals, ev);
    }
  }

  /** Without an assignment to R, the red bits stay as they were. */
  lemma {:induction false} RedUnassigned(st: SimState, assigns: seq<(string, string)>, signals: map<string, seq<int>>, ev: Evaluator)
    requires forall k :: 0 <= k < |assigns| ==> assigns[k].0 != "R"
    ensures AssignAll(st, assigns, signals, ev).out.red == st.out.red
    decreases |assigns|
  {
    if assigns != [] {
      var (signal, expression) := assigns[0];
      assert forall k :: 0 <= k < |assigns[1..]| ==> assigns[1..][k].0 == assigns[k + 1].0;
      var out := AssignStep(st.out, signal, ev(expression, EnvOf(st, signals)));
      RedUnassigned(st.(out := out), assigns[1..], signals, ev);
    }
  }

  // ---------------------------------------------------------------------
  // Always blocks
  // ---------------------------------------------------------------------

  /**
   * shouldTriggerAlwaysBlock: a vsync edge is tested as `vsync && !vsync`;
   * otherwise a clock edge or a reset edge triggers.
   */
  function ShouldTrigger(sensitivity: string, vsync: bool): bool
  {
    if Includes(sensitivity, "posedge vsync") then vsync && !vsync
    else Includes(sensitivity, "posedge clk") || Includes(sensitivity, "negedge rst_n")
  }

  /** A block sensitive to the vsync edge never runs; one on the clock or reset edge always does. */
  lemma {:induction false} ShouldTriggerMeaning(sensitivity: string, vsync: bool)
    ensures Includes(sensitivity, "posedge vsync") ==> !ShouldTrigger(sensitivity, vsync)
    ensures !Includes(sensitivity, "posedge vsync") ==>
              (ShouldTrigger(sensitivity, vsync) <==>
               Includes(sensitivity, "posedge clk") || Includes(sensitivity, "negedge rst_n"))
  {
  }

  /** executeAlwaysBlock: the 10-bit counter advances when a `counter` signal is declared. */
  function ExecuteStep(counter: int, signals: map<string, seq<int>>): int
  {
    if "counter" in signals then Rem(counter + 1, 1024) else counter
  }

  /** evaluateAlwaysBlocks: every triggering block runs once, in order. */
  function AlwaysAll(st: SimState, blocks: seq<string>, signals: map<string, seq<int>>): SimState
    decreases |blocks|
  {
    if blocks == [] then st
    else
      var st' := if ShouldTrigger(blocks[0], st.out.vsync) then st.(counter := ExecuteStep(st.counter, signals)) else st;
      AlwaysAll(st', blocks[1..], signals)
  }

  /** How many of the blocks trigger. */
  function TriggerCount(blocks: seq<string>, vsync: bool): nat
    decreases |blocks|
  {
    if blocks == [] then 0
    else (if ShouldTrigger(blocks[0], vsync) then 1 else 0) + TriggerCount(blocks[1..], vsync)
  }

  /**
   * The always blocks advance the counter once per triggering block, modulo
   * 1024, when a counter is declared, and change nothing else.
   */
  lemma {:induction false} AlwaysAllCounts(st: SimState, blocks: seq<string>, signals: map<string, seq<int>>)
    requires 0 <= st.counter < 1024
    ensures AlwaysAll(st, blocks, signals) ==
            if "counter" in signals then st.(counter := (st.counter + TriggerCount(blocks, st.out.vsync)) % 1024)
            else st
    decreases |blocks|
  {
    if blocks != [] {
      var fires := ShouldTrigger(blocks[0], st.out.vsync);
      var st' := if fires then st.(counter := ExecuteStep(st.counter, signals)) else st;
      var n := TriggerCount(blocks[1..], st.out.vsync);
      assert AlwaysAll(st, blocks, signals) == AlwaysAll(st', blocks[1..], signals);
      assert TriggerCount(blocks, st.out.vsync) == (if fires then 1 else 0) + n;
      AlwaysAllCounts(st', blocks[1..], signals);
      if "counter" in signals {
        if fires {
          CounterWrap(st.counter, n);
          assert st'.counter == Rem(st.counter + 1, 1024);
        }
        assert (st'.counter + n) % 1024 == (st.counter + TriggerCount(blocks, st.out.vsync)) % 1024;
      }
    }
  }

  /** Adding one modulo 1024 and then n more is adding n + 1 modulo 1024. */
  lemma {:induction false} CounterWrap(c: int, n: nat)
    requires 0 <= c < 1024
    ensures (Rem(c + 1, 1024) + n) % 1024 == (c + 1 + n) % 1024
  {
    if c == 1023 {
      DivModAddMultiple(n, 1024, 1);
    }
  }

  // ---------------------------------------------------------------------
  // Whole cycles and frames
  // ---------------------------------------------------------------------

  /** One iteration of simulate's loop. */
  function Cycle(st: SimState, signals: map<string, seq<int>>, assigns: seq<(string, string)>,
                 blocks: seq<string>, ev: Evaluator): SimState
  {
    AlwaysAll(AssignAll(TimingStep(Tick(st)), assigns, signals, ev), blocks, signals)
  }

  /** n iterations. */
  function Cycles(st: SimState, n: nat, signals: map<string, seq<int>>, assigns: seq<(string, string)>,
                  blocks: seq<string>, ev: Evaluator): SimState
  {
    if n == 0 then st else Cycle(Cycles(st, n - 1, signals, assigns, blocks, ev), signals, assigns, blocks, ev)
  }

  /** The invariant of the simulator's state. */
  predicate Valid(st: SimState)
  {
    OnClock(st.raster) && 0 <= st.counter < 1024 && ColoursValid(st.out)
  }

  /** A cycle adds one to the clock and keeps the state valid. */
  lemma {:induction false} CycleKeepsValid(st: SimState, signals: map<string, seq<int>>, assigns: seq<(string, string)>,
                        blocks: seq<string>, ev: Evaluator)
    requires Valid(st)
    ensures var t := Cycle(st, signals, assigns, blocks, ev);
            Valid(t) && t.raster.clock == st.raster.clock + 1
  {
    var timed := TimingStep(Tick(st));
    TimingStepOnClock(st);
    AssignAllKeeps(timed, assigns, signals, ev);
    AlwaysAllCounts(AssignAll(timed, assigns, signals, ev), blocks, signals);
  }

  /**
   * From the initial state, n cycles leave the clock at n and the raster
   * where the fallback's closed form puts clock n: the simulators agree.
   */
  lemma {:induction false} CyclesFromInitial(n: nat, signals: map<string, seq<int>>, assigns: seq<(string, string)>,
                                             blocks: seq<string>, ev: Evaluator)
    ensures var t := Cycles(Initial, n, signals, assigns, blocks, ev);
            Valid(t) && t.raster.clock == n && t.raster.hCount == n % 800 &&
            t.raster.vCount == (n / 800) % 525 && t.raster.frame == n / 420000
  {
    if n > 0 {
      CyclesFromInitial(n - 1, signals, assigns, blocks, ev);
      CycleKeepsValid(Cycles(Initial, n - 1, signals, assigns, blocks, ev), signals, assigns, blocks, ev);
    }
    FrameIsClockDiv(n);
  }

  /** What simulate reports. */
  function Report(st: SimState): VerilatorFallback.Signals
  {
    VerilatorFallback.Signals(st.out.hsync, st.out.vsync, st.out.red, st.out.green, st.out.blue,
                              st.out.videoActive, st.pos.pixX, st.pos.pixY, st.out.sound)
  }

  /** The state a pixel of generateFrame is evaluated in. */
  function EnterPixel(st: SimState, x: int, y: int): SimState
  {
    st.(pos := Position(x, y, x + st.counter), out := st.out.(videoActive := true))
  }

  /** The state after the first k pixels of a frame, row by row. */
  function PixelState(st: SimState, k: nat, signals: map<string, seq<int>>, assigns: seq<(string, string)>, ev: Evaluator): SimState
  {
    if k == 0 then st
    else AssignAll(EnterPixel(PixelState(st, k - 1, signals, assigns, ev), (k - 1) % 640, (k - 1) / 640), assigns, signals, ev)
  }

  /** A colour byte: the first bit of the channel times 255, as the clamped array stores it. */
  function ChannelByte(bits: seq<int>): int
  {
    if bits == [] then 0 else VgaPatterns.Clamp8(bits[0] * 255)
  }

  /** Byte c of a pixel evaluated with outputs out. */
  function PixelByte(out: Outputs, c: int): int
  {
    if c == 0 then ChannelByte(out.red)
    else if c == 1 then ChannelByte(out.green)
    else if c == 2 then ChannelByte(out.blue)
    else 255
  }

  /** Byte j of the frame generated from state st. */
  function FrameByte(st: SimState, j: nat, signals: map<string, seq<int>>, assigns: seq<(string, string)>, ev: Evaluator): int
  {
    PixelByte(PixelState(st, j / 4 + 1, signals, assigns, ev).out, j % 4)
  }

  /**
   * In a frame generated from a valid state every alpha byte is 255 and
   * every colour byte is 0 or 255.
   */
  lemma {:induction false} FrameBytesAreFull(st: SimState, j: nat, signals: map<string, seq<int>>, assigns: seq<(string, string)>, ev: Evaluator)
    requires ColoursValid(st.out)
    ensures j % 4 == 3 ==> FrameByte(st, j, signals, assigns, ev) == 255
    ensures FrameByte(st, j, signals, assigns, ev) in {0, 255}
  {
    PixelStateColours(st, j / 4 + 1, signals, assigns, ev);
  }

  lemma {:induction false} PixelStateColours(st: SimState, k: nat, signals: map<string, seq<int>>, assigns: seq<(string, string)>, ev: Evaluator)
    requires ColoursValid(st.out)
    ensures ColoursValid(PixelState(st, k, signals, assigns, ev).out)
  {
    if k > 0 {
      PixelStateColours(st, k - 1, signals, assigns, ev);
      var prev := PixelState(st, k - 1, signals, assigns, ev);
      AssignAllKeeps(EnterPixel(prev, (k - 1) % 640, (k - 1) / 640), assigns, signals, ev);
    }
  }

  /**
   * Without an assignment to R, every pixel's red byte repeats the red bits
   * held before the frame.
   */
  lemma {:induction false} FrameRedUnassigned(st: SimState, j: nat, signals: map<string, seq<int>>, assigns: seq<(string, string)>, ev: Evaluator)
    requires forall k :: 0 <= k < |assigns| ==> assigns[k].0 != "R"
    requires j % 4 == 0
    ensures FrameByte(st, j, signals, assigns, ev) == ChannelByte(st.out.red)
  {
    PixelStateRed(st, j / 4 + 1, signals, assigns, ev);
  }

  lemma {:induction false} PixelStateRed(st: SimState, k: nat, signals: map<string, seq<int>>, assigns: seq<(string, string)>, ev: Evaluator)
    requires forall i :: 0 <= i < |assigns| ==> assigns[i].0 != "R"
    ensures PixelState(st, k, signals, assigns, ev).out.red == st.out.red
  {
    if k > 0 {
      PixelStateRed(st, k - 1, signals, assigns, ev);
      var prev := PixelState(st, k - 1, signals, assigns, ev);
      RedUnassigned(EnterPixel(prev, (k - 1) % 640, (k - 1) / 640), assigns, signals, ev);
    }
  }

  /** Pixel k sits at x = k mod 640, y = k div 640. */
  lemma {:induction false} PixelOrder(x: int, y: int)
    requires 0 <= x < 640 && 0 <= y
    ensures (y * 640 + x) % 640 == x && (y * 640 + x) / 640 == y
  {
    DivModUnique(y * 640 + x, 640, y, x);
  }

  lemma {:induction false} ByteOrder(k: int, c: int)
    requires 0 <= k && 0 <= c < 4
    ensures (k * 4 + c) / 4 == k && (k * 4 + c) % 4 == c
  {
    DivModUnique(k * 4 + c, 4, k, c);
  }

  /** The four frame bytes of pixel k are the bytes of the state after k + 1 pixels. */
  lemma {:induction false} PixelBytesAt(st: SimState, k: nat, signals: map<string, seq<int>>, assigns: seq<(string, string)>, ev: Evaluator)
    ensures forall j :: k * 4 <= j < k * 4 + 4 ==>
              FrameByte(st, j, signals, assigns, ev) == PixelByte(PixelState(st, k + 1, signals, assigns, ev).out, j - k * 4)
  {
    forall j | k * 4 <= j < k * 4 + 4
      ensures FrameByte(st, j, signals, assigns, ev) == PixelByte(PixelState(st, k + 1, signals, assigns, ev).out, j - k * 4)
    {
      ByteOrder(k, j - k * 4);
    }
  }

  /** The generated frame. */
  datatype Frame = Frame(width: int, height: int, pixels: array<int>, frameNumber: int, clockCount: int)

  class Simulator {
    var state: SimState
    var signals: map<string, seq<int>>
    /** The assignments in the order they were declared: signal name and expression text. */
    var assignments: seq<(string, string)>
    /** The sensitivity lists of the always blocks. */
    var alwaysBlocks: seq<string>
    var evaluator: Evaluator

    constructor ()
      ensures state == Initial && signals == map[] && assignments == [] && alwaysBlocks == []
      ensures evaluator == Evaluate
    {
      state := Initial;
      signals := map[];
      assignments := [];
      alwaysBlocks := [];
      evaluator := Evaluate;
    }

    /** reset: the initial state, no signals, assignments or blocks, and a fresh evaluator. */
    method Reset()
      modifies this
      ensures state == Initial && signals == map[] && assignments == [] && alwaysBlocks == []
      ensures evaluator == Evaluate
    {
      state := Initial;
      signals := map[];
      assignments := [];
      alwaysBlocks := [];
      evaluator := Evaluate;
    }

    /** updateVGATiming */
    method UpdateVGATiming()
      modifies this
      ensures state == TimingStep(old(state))
      ensures signals == old(signals) && assignments == old(assignments)
      ensures alwaysBlocks == old(alwaysBlocks) && evaluator == old(evaluator)
    {
      var h := state.raster.hCount;
      var v := state.raster.vCount;
      var frame := state.raster.frame;
      if h == 800 - 1 {
        h := 0;
        if v == 525 - 1 {
          v := 0;
          frame := frame + 1;
        } else {
          v := v + 1;
        }
      } else {
        h := h + 1;
      }
      var active := h >= 96 + 48 && h < 96 + 48 + 640 && v >= 2 + 33 && v < 2 + 33 + 480;
      var px := 0;
      var py := 0;
      if active {
        px := h - (96 + 48);
        py := v - (2 + 33);
      }
      state := state.(raster := Raster(state.raster.clock, frame, h, v),
                      out := state.out.(hsync := h >= 96, vsync := v >= 2, videoActive := active),
                      pos := Position(px, py, px + state.counter));
    }

    /** evaluateAssignments */
    method EvaluateAssignments()
      modifies this
      ensures state == AssignAll(old(state), assignments, signals, evaluator)
      ensures signals == old(signals) && assignments == old(assignments)
      ensures alwaysBlocks == old(alwaysBlocks) && evaluator == old(evaluator)
    {
      var i := 0;
      while i < |assignments|
        invariant 0 <= i <= |assignments|
        invariant AssignAll(state, assignments[i..], signals, evaluator) ==
                  AssignAll(old(state), assignments, signals, evaluator)
        invariant signals == old(signals) && assignments == old(assignments)
        invariant alwaysBlocks == old(alwaysBlocks) && evaluator == old(evaluator)
      {
        var (signal, expression) := assignments[i];
        assert assignments[i..][1..] == assignments[i + 1..];
        var value := evaluator(expression, Env(signals, state.pos.pixX, state.pos.pixY, state.pos.movingX, state.out.videoActive));
        var out := state.out;
        if signal == "R" {
          out := out.(red := ParseColorValue(value));
        } else if signal == "G" {
          out := out.(green := ParseColorValue(value));
        } else if signal == "B" {
          out := out.(blue := ParseColorValue(value));
        } else if signal == "sound" {
          out := out.(sound := value != 0);
        } else if signal == "hsync" {
          out := out.(hsync := value != 0);
        } else if signal == "vsync" {
          out := out.(vsync := value != 0);
        } else if signal == "video_active" {
          out := out.(videoActive := value != 0);
        }
        state := state.(out := out);
        i := i + 1;
      }
      assert assignments[|assignments|..] == [];
    }

    /** evaluateAlwaysBlocks */
    method EvaluateAlwaysBlocks()
      modifies this
      ensures state == AlwaysAll(old(state), alwaysBlocks, signals)
      ensures signals == old(signals) && assignments == old(assignments)
      ensures alwaysBlocks == old(alwaysBlocks) && evaluator == old(evaluator)
    {
      var i := 0;
      while i < |alwaysBlocks|
        invariant 0 <= i <= |alwaysBlocks|
        invariant AlwaysAll(state, alwaysBlocks[i..], signals) == AlwaysAll(old(state), alwaysBlocks, signals)
        invariant signals == old(signals) && assignments == old(assignments)
        invariant alwaysBlocks == old(alwaysBlocks) && evaluator == old(evaluator)
      {
        assert alwaysBlocks[i..][1..] == alwaysBlocks[i + 1..];
        if ShouldTrigger(alwaysBlocks[i], state.out.vsync) {
          ExecuteAlwaysBlock();
        }
        i := i + 1;
      }
      assert alwaysBlocks[|alwaysBlocks|..] == [];
    }

    /** executeAlwaysBlock */
    method ExecuteAlwaysBlock()
      modifies this
      ensures state == old(state).(counter := ExecuteStep(old(state).counter, signals))
      ensures signals == old(signals) && assignments == old(assignments)
      ensures alwaysBlocks == old(alwaysBlocks) && evaluator == old(evaluator)
    {
      if "counter" in signals {
        state := state.(counter := Rem(state.counter + 1, 1024));
      }
    }

    /** One iteration of simulate's loop: the clock, the raster, the assignments, the always blocks. */
    method Step()
      modifies this
      ensures state == Cycle(old(state), signals, assignments, alwaysBlocks, evaluator)
      ensures signals == old(signals) && assignments == old(assignments)
      ensures alwaysBlocks == old(alwaysBlocks) && evaluator == old(evaluator)
    {
      state := state.(raster := state.raster.(clock := state.raster.clock + 1));
      UpdateVGATiming();
      EvaluateAssignments();
      EvaluateAlwaysBlocks();
    }

    /** simulate: clockCycles iterations of clock, timing, assignments and always blocks. */
    method Simulate(clockCycles: int) returns (s: VerilatorFallback.Signals)
      modifies this
      ensures clockCycles >= 0 ==> state == Cycles(old(state), clockCycles, signals, assignments, alwaysBlocks, evaluator)
      ensures clockCycles < 0 ==> state == old(state)
      ensures s == Report(state)
      ensures signals == old(signals) && assignments == old(assignments)
      ensures alwaysBlocks == old(alwaysBlocks) && evaluator == old(evaluator)
    {
      var i: nat := 0;
      while i < clockCycles
        invariant clockCycles >= 0 ==> i <= clockCycles
        invariant clockCycles < 0 ==> i == 0
        invariant state == Cycles(old(state), i, signals, assignments, alwaysBlocks, evaluator)
        invariant signals == old(signals) && assignments == old(assignments)
        invariant alwaysBlocks == old(alwaysBlocks) && evaluator == old(evaluator)
      {
        Step();
        i := i + 1;
      }
      s := Report(state);
    }

    /** One pixel of generateFrame: position, moving_x and video_active set, assignments re-evaluated. */
    method ShadePixel(pixels: array<int>, x: int, y: int)
      requires 0 <= x < 640 && 0 <= y < 480 && pixels.Length == 640 * 480 * 4
      modifies this, pixels
      ensures state == AssignAll(EnterPixel(old(state), x, y), assignments, signals, evaluator)
      ensures forall j :: 0 <= j < (y * 640 + x) * 4 ==> pixels[j] == old(pixels[j])
      ensures forall j :: (y * 640 + x) * 4 <= j < (y * 640 + x) * 4 + 4 ==>
                pixels[j] == PixelByte(state.out, j - (y * 640 + x) * 4)
      ensures forall j :: (y * 640 + x) * 4 + 4 <= j < pixels.Length ==> pixels[j] == old(pixels[j])
      ensures signals == old(signals) && assignments == old(assignments)
      ensures alwaysBlocks == old(alwaysBlocks) && evaluator == old(evaluator)
    {
      state := state.(pos := Position(x, y, x + state.counter), out := state.out.(videoActive := true));
      EvaluateAssignments();
      StorePixel(pixels, y * 640 + x, state.out);
    }

    /** One row of generateFrame, left to right. */
    method ShadeRow(pixels: array<int>, y: int, ghost st0: SimState)
      requires 0 <= y < 480 && pixels.Length == 640 * 480 * 4
      requires state == PixelState(st0, y * 640, signals, assignments, evaluator) && state.raster == st0.raster
      requires forall j :: 0 <= j < y * 640 * 4 ==> pixels[j] == FrameByte(st0, j, signals, assignments, evaluator)
      modifies this, pixels
      ensures state == PixelState(st0, (y + 1) * 640, signals, assignments, evaluator) && state.raster == st0.raster
      ensures forall j :: 0 <= j < (y + 1) * 640 * 4 ==> pixels[j] == FrameByte(st0, j, signals, assignments, evaluator)
      ensures forall j :: (y + 1) * 640 * 4 <= j < pixels.Length ==> pixels[j] == old(pixels[j])
      ensures signals == old(signals) && assignments == old(assignments)
      ensures alwaysBlocks == old(alwaysBlocks) && evaluator == old(evaluator)
    {
      var x := 0;
      while x < 640
        invariant 0 <= x <= 640
        invariant state == PixelState(st0, y * 640 + x, signals, assignments, evaluator)
        invariant forall j :: 0 <= j < (y * 640 + x) * 4 ==> pixels[j] == FrameByte(st0, j, signals, assignments, evaluator)
        invariant forall j :: (y * 640 + x) * 4 <= j < pixels.Length ==> pixels[j] == old(pixels[j])
        invariant state.raster == st0.raster
        invariant signals == old(signals) && assignments == old(assignments)
        invariant alwaysBlocks == old(alwaysBlocks) && evaluator == old(evaluator)
      {
        ShadeNext(pixels, x, y, st0);
        x := x + 1;
      }
    }

    /** Pixel x of row y, after the pixels before it: the frame prefix grows by its four bytes. */
    method ShadeNext(pixels: array<int>, x: int, y: int, ghost st0: SimState)
      requires 0 <= x < 640 && 0 <= y < 480 && pixels.Length == 640 * 480 * 4
      requires state == PixelState(st0, y * 640 + x, signals, assignments, evaluator) && state.raster == st0.raster
      requires forall j :: 0 <= j < (y * 640 + x) * 4 ==> pixels[j] == FrameByte(st0, j, signals, assignments, evaluator)
      modifies this, pixels
      ensures state == PixelState(st0, y * 640 + x + 1, signals, assignments, evaluator) && state.raster == st0.raster
      ensures forall j :: 0 <= j < (y * 640 + x + 1) * 4 ==> pixels[j] == FrameByte(st0, j, signals, assignments, evaluator)
      ensures forall j :: (y * 640 + x + 1) * 4 <= j < pixels.Length ==> pixels[j] == old(pixels[j])
      ensures signals == old(signals) && assignments == old(assignments)
      ensures alwaysBlocks == old(alwaysBlocks) && evaluator == old(evaluator)
    {
      ghost var k := y * 640 + x;
      PixelOrder(x, y);
      AssignAllKeeps(EnterPixel(state, x, y), assignments, signals, evaluator);
      ShadePixel(pixels, x, y);
      assert state == PixelState(st0, k + 1, signals, assignments, evaluator);
      PixelBytesAt(st0, k, signals, assignments, evaluator);
    }

    /**
     * generateFrame: every pixel, row by row, is evaluated in the state the
     * previous pixel left, with its own position, moving_x and video_active
     * set; its bytes go to (y * 640 + x) * 4.
     */
    method GenerateFrame() returns (f: Frame)
      modifies this
      ensures fresh(f.pixels) && f.pixels.Length == 640 * 480 * 4
      ensures f.width == 640 && f.height == 480
      ensures f.frameNumber == old(state).raster.frame && f.clockCount == old(state).raster.clock
      ensures forall j :: 0 <= j < 640 * 480 * 4 ==>
                f.pixels[j] == FrameByte(old(state), j, signals, assignments, evaluator)
      ensures state == PixelState(old(state), 640 * 480, signals, assignments, evaluator)
      ensures signals == old(signals) && assignments == old(assignments)
      ensures alwaysBlocks == old(alwaysBlocks) && evaluator == old(evaluator)
    {
      var pixels := new int[640 * 480 * 4](_ => 0);
      ghost var st0 := state;
      var y := 0;
      while y < 480
        invariant 0 <= y <= 480
        invariant state == PixelState(st0, y * 640, signals, assignments, evaluator)
        invariant forall j :: 0 <= j < y * 640 * 4 ==> pixels[j] == FrameByte(st0, j, signals, assignments, evaluator)
        invariant state.raster == st0.raster
        invariant signals == old(signals) && assignments == old(assignments)
        invariant alwaysBlocks == old(alwaysBlocks) && evaluator == old(evaluator)
      {
        ShadeRow(pixels, y, st0);
        y := y + 1;
      }
      f := Frame(640, 480, pixels, state.raster.frame, state.raster.clock);
    }
  }

  /** The four bytes of pixel k from the outputs out. */
  method StorePixel(pixels: array<int>, k: int, out: Outputs)
    requires 0 <= k < 640 * 480 && pixels.Length == 640 * 480 * 4
    modifies pixels
    ensures forall j :: 0 <= j < k * 4 ==> pixels[j] == old(pixels[j])
    ensures forall j :: k * 4 <= j < k * 4 + 4 ==> pixels[j] == PixelByte(out, j - k * 4)
    ensures forall j :: k * 4 + 4 <= j < pixels.Length ==> pixels[j] == old(pixels[j])
  {
    var index := k * 4;
    pixels[index] := if |out.red| > 0 then VgaPatterns.Clamp8(out.red[0] * 255) else 0;
    pixels[index + 1] := if |out.green| > 0 then VgaPatterns.Clamp8(out.green[0] * 255) else 0;
    pixels[index + 2] := if |out.blue| > 0 then VgaPatterns.Clamp8(out.blue[0] * 255) else 0;
    pixels[index + 3] := 255;
  }
}
