/**
 * The line scanner over Verilog source text: it splits the text into lines,
 * trims each, and recognises VGA signal declarations, bit ranges, module
 * ports, the VGA continuous assignments, always blocks and module
 * instantiations by substring tests and small regular expressions. Each
 * regular expression is written here as the deterministic shape its
 * backtracking matcher accepts at a start position, searched leftmost first.
 */
module VerilogParser {
  import opened JsValues
  import opened JsString

  /** The trimmed lines of the text, split on '\n'. */
  function Lines(content: string): (r: seq<string>)
    ensures |r| >= 1
  {
    var raw := Split(content, '\n');
    seq(|raw|, k requires 0 <= k < |raw| => Trim(raw[k]))
  }

  // ---------------------------------------------------------------------
  // The last line wins
  // ---------------------------------------------------------------------

  /** The value of the last present entry, or d when none is present. */
  function LastSome<T>(xs: seq<Option<T>>, d: T): T
  {
    if xs == [] then d
    else if xs[|xs| - 1].Some? then xs[|xs| - 1].value
    else LastSome(xs[..|xs| - 1], d)
  }

  /** An entry with nothing present after it decides the result. */
  lemma {:induction false} LastSomeIs<T>(xs: seq<Option<T>>, d: T, k: nat)
    requires k < |xs| && xs[k].Some?
    requires forall j :: k < j < |xs| ==> xs[j].None?
    ensures LastSome(xs, d) == xs[k].value
  {
    if k < |xs| - 1 {
      var init := xs[..|xs| - 1];
      assert forall j :: k < j < |init| ==> init[j] == xs[j];
      LastSomeIs(init, d, k);
    }
  }

  /** With nothing present, the default stands. */
  lemma {:induction false} LastSomeNone<T>(xs: seq<Option<T>>, d: T)
    requires forall j :: 0 <= j < |xs| ==> xs[j].None?
    ensures LastSome(xs, d) == d
  {
    if xs != [] {
      var init := xs[..|xs| - 1];
      assert forall j :: 0 <= j < |init| ==> init[j] == xs[j];
      LastSomeNone(init, d);
    }
  }

  lemma {:induction false} LastSomeStep<T>(xs: seq<Option<T>>, d: T, i: nat)
    requires i < |xs|
    ensures LastSome(xs[..i + 1], d) == if xs[i].Some? then xs[i].value else LastSome(xs[..i], d)
  {
    assert xs[..i + 1][..i] == xs[..i];
  }

  // ---------------------------------------------------------------------
  // extractBitWidth
  // ---------------------------------------------------------------------

  /** `wire\s+\[(\d+):(\d+)\]` at position i: the two digit strings. */
  function WireRangeAt(s: string, i: nat): Option<(string, string)>
  {
    if !OccursAt(s, "wire", i) then None
    else
      var a := i + 4;
      var b := a + SpaceRun(s, a);
      if b == a || b >= |s| || s[b] != '[' then None
      else
        var c := b + 1 + DigitRun(s, b + 1);
        if c == b + 1 || c >= |s| || s[c] != ':' then None
        else
          var e := c + 1 + DigitRun(s, c + 1);
          if e == c + 1 || e >= |s| || s[e] != ']' then None
          else Some((s[b + 1..c], s[c + 1..e]))
  }

  /** The leftmost match at or after from. */
  function FirstWireRange(s: string, from: nat): Option<(string, string)>
    decreases |s| - from
  {
    if from >= |s| then None
    else if WireRangeAt(s, from).Some? then WireRangeAt(s, from)
    else FirstWireRange(s, from + 1)
  }

  /** The largest length `new Array(n)` accepts. */
  const MAX_ARRAY_LENGTH: int := 0xFFFF_FFFF

  /**
   * extractBitWidth: `msb - lsb + 1` zeros for the first "wire [msb:lsb]",
   * [0, 0] when there is none; `new Array` rejects a negative or too large
   * length with a RangeError.
   */
  function ExtractBitWidth(line: string): (r: Result<seq<int>, string>)
    ensures r.Ok? ==> forall k :: 0 <= k < |r.value| ==> r.value[k] == 0
  {
    match FirstWireRange(line, 0)
    case None => Ok([0, 0])
    case Some((msb, lsb)) =>
      var width := DigitsValue(msb, 10) - DigitsValue(lsb, 10) + 1;
      if 0 <= width <= MAX_ARRAY_LENGTH then Ok(seq(width, _ => 0))
      else Err("RangeError: Invalid array length")
  }

  /**
   * A line "p wire [m:l] rest", where the text p before the declaration holds
   * no "wire" (as in "output wire [1:0] R"), gets m - l + 1 zeros, or a
   * RangeError when l > m + 1.
   */
  lemma {:induction false} ExtractBitWidthDecl(p: string, msb: string, lsb: string, rest: string)
    requires !Includes(p, "wire")
    requires msb != [] && forall k :: 0 <= k < |msb| ==> IsDigit(msb[k])
    requires lsb != [] && forall k :: 0 <= k < |lsb| ==> IsDigit(lsb[k])
    ensures var width := DigitsValue(msb, 10) - DigitsValue(lsb, 10) + 1;
            var r := ExtractBitWidth(p + "wire [" + msb + ":" + lsb + "]" + rest);
            (0 <= width <= MAX_ARRAY_LENGTH ==> r == Ok(seq(width, _ => 0))) &&
            (width < 0 ==> r.Err?)
  {
    var s := p + "wire [" + msb + ":" + lsb + "]" + rest;
    DeclLayout(p, msb, lsb, rest, s);
    NoWireBefore(s, p);
    SkipToWireRange(s, 0, |p|);
    WireRangeLayout(s, |p|, msb, lsb);
    ExtractBitWidthOf(s, msb, lsb);
  }

  /** The width of a line whose first "wire [m:l]" captures msb and lsb. */
  lemma ExtractBitWidthOf(s: string, msb: string, lsb: string)
    requires FirstWireRange(s, 0) == Some((msb, lsb))
    ensures var width := DigitsValue(msb, 10) - DigitsValue(lsb, 10) + 1;
            var r := ExtractBitWidth(s);
            (0 <= width <= MAX_ARRAY_LENGTH ==> r == Ok(seq(width, _ => 0))) &&
            (width < 0 ==> r.Err?)
  {
  }

  /** "wire" laid out at n as "wire [" msb ":" lsb "]": the match at n is (msb, lsb). */
  lemma {:induction false} WireRangeLayout(s: string, n: nat, msb: string, lsb: string)
    requires msb != [] && forall k :: 0 <= k < |msb| ==> IsDigit(msb[k])
    requires lsb != [] && forall k :: 0 <= k < |lsb| ==> IsDigit(lsb[k])
    requires |s| >= n + 8 + |msb| + |lsb|
    requires OccursAt(s, "wire", n) && s[n + 4] == ' ' && s[n + 5] == '['
    requires forall k :: 0 <= k < |msb| ==> s[n + 6 + k] == msb[k]
    requires s[n + 6 + |msb|] == ':'
    requires forall k :: 0 <= k < |lsb| ==> s[n + 7 + |msb| + k] == lsb[k]
    requires s[n + 7 + |msb| + |lsb|] == ']'
    requires s[n + 6..n + 6 + |msb|] == msb && s[n + 7 + |msb|..n + 7 + |msb| + |lsb|] == lsb
    ensures WireRangeAt(s, n) == Some((msb, lsb))
  {
    var c := n + 6 + |msb|;
    var e := c + 1 + |lsb|;
    assert SpaceRun(s, n + 4) == 1 by {
      assert s[n + 4] == ' ' && s[n + 5] == '[';
    }
    DigitRunExact(s, n + 6, |msb|);
    DigitRunExact(s, c + 1, |lsb|);
    WireRangeAtIs(s, n, n + 5, c, e);
  }

  /** Where the pieces of a "p wire [m:l] rest" line sit. */
  lemma {:induction false} DeclLayout(p: string, msb: string, lsb: string, rest: string, s: string)
    requires s == p + "wire [" + msb + ":" + lsb + "]" + rest
    ensures |s| == |p| + 8 + |msb| + |lsb| + |rest|
    ensures s[..|p|] == p && s[|p|] == 'w'
    ensures OccursAt(s, "wire", |p|) && s[|p| + 4] == ' ' && s[|p| + 5] == '['
    ensures forall k :: 0 <= k < |msb| ==> s[|p| + 6 + k] == msb[k]
    ensures s[|p| + 6 + |msb|] == ':'
    ensures forall k :: 0 <= k < |lsb| ==> s[|p| + 7 + |msb| + k] == lsb[k]
    ensures s[|p| + 7 + |msb| + |lsb|] == ']'
    ensures s[|p| + 6..|p| + 6 + |msb|] == msb
    ensures s[|p| + 7 + |msb|..|p| + 7 + |msb| + |lsb|] == lsb
  {
    var n := |p|;
    assert s == p + ("wire [" + msb + ":" + lsb + "]" + rest);
    assert s[n..n + 4] == "wire";
  }

  /** The match at i, from the positions of its '[', ':' and ']'. */
  lemma {:induction false} WireRangeAtIs(s: string, i: nat, b: nat, c: nat, e: nat)
    requires OccursAt(s, "wire", i) && b > i + 4 && b == i + 4 + SpaceRun(s, i + 4)
    requires b < |s| && s[b] == '['
    requires c > b + 1 && c == b + 1 + DigitRun(s, b + 1) && c < |s| && s[c] == ':'
    requires e > c + 1 && e == c + 1 + DigitRun(s, c + 1) && e < |s| && s[e] == ']'
    ensures WireRangeAt(s, i) == Some((s[b + 1..c], s[c + 1..e]))
  {
  }

  /**
   * A line "p wire [q", where neither p nor q holds "wire" and q does not
   * start with a digit, gets the default [0, 0]: the bracket opens no
   * "m:l" range, as in "wire [WIDTH-1:0] R;".
   */
  lemma {:induction false} ExtractBitWidthDefault(p: string, q: string)
    requires !Includes(p, "wire") && !Includes(q, "wire")
    requires q == [] || !IsDigit(q[0])
    ensures ExtractBitWidth(p + "wire [" + q) == Ok([0, 0])
  {
    var s := p + "wire [" + q;
    var n := |p|;
    OpenLayout(p, q, s);
    NoWireBefore(s, p);
    SkipToWireRange(s, 0, n);
    OpenWithoutRange(s, n);
    NoWireAfterOpen(s, n, q);
    NoWireRange(s, n + 1);
  }

  /** Where the pieces of a "p wire [q" line sit. */
  lemma OpenLayout(p: string, q: string, s: string)
    requires s == p + "wire [" + q
    ensures |s| == |p| + 6 + |q| && s[..|p|] == p && s[|p| + 6..] == q
    ensures OccursAt(s, "wire", |p|) && s[|p|] == 'w'
    ensures s[|p| + 1] == 'i' && s[|p| + 2] == 'r' && s[|p| + 3] == 'e'
    ensures s[|p| + 4] == ' ' && s[|p| + 5] == '['
    ensures q != [] ==> s[|p| + 6] == q[0]
  {
    assert s == p + ("wire [" + q);
    assert s[|p|..|p| + 4] == "wire";
  }

  /** "wire [" followed by no digit opens no range. */
  lemma OpenWithoutRange(s: string, n: nat)
    requires OccursAt(s, "wire", n) && n + 6 <= |s|
    requires s[n + 4] == ' ' && s[n + 5] == '['
    requires n + 6 == |s| || !IsDigit(s[n + 6])
    ensures WireRangeAt(s, n).None?
  {
    assert SpaceRun(s, n + 4) == 1 by {
      assert !IsSpace(s[n + 5]);
    }
    assert DigitRun(s, n + 6) == 0;
  }

  /** After "wire [" at n, "wire" occurs only inside q. */
  lemma NoWireAfterOpen(s: string, n: nat, q: string)
    requires n + 6 <= |s| && s[n + 6..] == q && !Includes(q, "wire")
    requires s[n + 1] == 'i' && s[n + 2] == 'r' && s[n + 3] == 'e'
    requires s[n + 4] == ' ' && s[n + 5] == '['
    ensures forall j :: n < j ==> !OccursAt(s, "wire", j)
  {
    forall j | n < j
      ensures !OccursAt(s, "wire", j)
    {
      if n + 6 <= j {
        if j + 4 <= |s| {
          assert s[j..j + 4] == q[j - n - 6..j - n - 2];
          assert !OccursAt(q, "wire", j - n - 6);
        }
      } else if j + 4 <= |s| {
        assert s[j..j + 4][0] == s[j] != 'w';
      }
    }
  }

  /** A line without "wire" anywhere gets the default [0, 0] too. */
  lemma {:induction false} ExtractBitWidthNoWire(line: string)
    requires !Includes(line, "wire")
    ensures ExtractBitWidth(line) == Ok([0, 0])
  {
    NoWireRange(line, 0);
  }

  /** No match starts before the end of p when the text goes on with 'w'. */
  lemma NoWireBefore(s: string, p: string)
    requires |p| < |s| && s[..|p|] == p && s[|p|] == 'w'
    requires !Includes(p, "wire")
    ensures forall j :: 0 <= j < |p| ==> WireRangeAt(s, j).None?
  {
    forall j | 0 <= j < |p|
      ensures !OccursAt(s, "wire", j)
    {
      if j + 4 <= |p| {
        assert s[j..j + 4] == p[j..j + 4];
        assert !OccursAt(p, "wire", j);
      } else if j + 4 <= |s| {
        assert s[j..j + 4][|p| - j] == s[|p|];
      }
    }
  }

  /** Positions without a match are skipped by the leftmost search. */
  lemma {:induction false} SkipToWireRange(s: string, from: nat, upto: nat)
    requires from <= upto <= |s|
    requires forall j :: from <= j < upto ==> WireRangeAt(s, j).None?
    ensures FirstWireRange(s, from) == FirstWireRange(s, upto)
    decreases upto - from
  {
    if from < upto {
      SkipToWireRange(s, from + 1, upto);
    }
  }

  lemma {:induction false} NoWireRange(s: string, from: nat)
    requires forall j :: from <= j ==> !OccursAt(s, "wire", j)
    ensures FirstWireRange(s, from) == None
    decreases |s| - from
  {
    if from < |s| {
      NoWireRange(s, from + 1);
    }
  }

  // ---------------------------------------------------------------------
  // parseVGASignals
  // ---------------------------------------------------------------------

  /** The presence flags of parseVGASignals' result. */
  datatype Flag = HSync | VSync | VideoActive | PixX | PixY | Sound | DisplayOn | HPos | VPos

  /** The result: the flags that are true, and the three colour arrays. */
  datatype VgaSignals = VgaSignals(flags: set<Flag>, red: seq<int>, green: seq<int>, blue: seq<int>)

  const NoSignals: VgaSignals := VgaSignals({}, [], [], [])

  /** Whether a trimmed line sets flag f. */
  predicate Declares(t: string, f: Flag)
  {
    match f
    case HSync => Includes(t, "wire hsync") || Includes(t, "reg hsync")
    case VSync => Includes(t, "wire vsync") || Includes(t, "reg vsync")
    case VideoActive => Includes(t, "wire video_active") || Includes(t, "reg video_active")
    case PixX => Includes(t, "wire [") && Includes(t, "pix_x")
    case PixY => Includes(t, "wire [") && Includes(t, "pix_y")
    case Sound => Includes(t, "wire sound") || Includes(t, "reg sound")
    case DisplayOn => Includes(t, "wire display_on") || Includes(t, "reg display_on")
    case HPos => Includes(t, "wire [") && Includes(t, "hpos")
    case VPos => Includes(t, "wire [") && Includes(t, "vpos")
  }

  datatype Channel = Red | Green | Blue

  /** A colour array is re-read from a range declaration whose line contains the channel's letter. */
  predicate ReadsChannel(t: string, c: Channel)
  {
    Includes(t, "wire [") && Includes(t, match c case Red => "R" case Green => "G" case Blue => "B")
  }

  /** What parseVGASignals reads from one trimmed line. */
  datatype LineInfo = LineInfo(flags: set<Flag>, channels: set<Channel>, width: Result<seq<int>, string>)

  function Classify(t: string): (info: LineInfo)
    ensures forall f :: f in info.flags <==> Declares(t, f)
    ensures forall c :: c in info.channels <==> ReadsChannel(t, c)
  {
    var flags := set f: Flag | Declares(t, f);
    var channels := set c: Channel | ReadsChannel(t, c);
    LineInfo(flags, channels, ExtractBitWidth(t))
  }

  /** One line of parseVGASignals: flags are set, colours re-read; a RangeError ends the scan. */
  function SignalStep(sig: VgaSignals, info: LineInfo): Result<VgaSignals, string>
  {
    if info.channels != {} && info.width.Err? then Err(info.width.error)
    else
      Ok(VgaSignals(sig.flags + info.flags,
                    if Red in info.channels then info.width.value else sig.red,
                    if Green in info.channels then info.width.value else sig.green,
                    if Blue in info.channels then info.width.value else sig.blue))
  }

  /** The scan over the classified lines, in order. */
  function ScanSignals(sig: VgaSignals, infos: seq<LineInfo>): Result<VgaSignals, string>
  {
    if infos == [] then Ok(sig)
    else
      match ScanSignals(sig, infos[..|infos| - 1])
      case Err(e) => Err(e)
      case Ok(s) => SignalStep(s, infos[|infos| - 1])
  }

  /** The classification of every line. */
  function ClassifyAll(lines: seq<string>): (infos: seq<LineInfo>)
    ensures |infos| == |lines| && forall k :: 0 <= k < |lines| ==> infos[k] == Classify(lines[k])
  {
    seq(|lines|, k requires 0 <= k < |lines| => Classify(lines[k]))
  }

  /**
   * Flags only go from false to true: a flag is set at the end exactly when
   * it was set at the start or some line declares it.
   */
  lemma {:induction false} ScanSignalsFlags(sig: VgaSignals, infos: seq<LineInfo>, f: Flag)
    requires ScanSignals(sig, infos).Ok?
    ensures f in ScanSignals(sig, infos).value.flags <==>
            f in sig.flags || exists k :: 0 <= k < |infos| && f in infos[k].flags
  {
    if infos != [] {
      var init := infos[..|infos| - 1];
      ScanSignalsFlags(sig, init, f);
      assert forall k :: 0 <= k < |init| ==> init[k] == infos[k];
      if exists k :: 0 <= k < |infos| && f in infos[k].flags {
        var k :| 0 <= k < |infos| && f in infos[k].flags;
        if k < |init| {
          assert f in init[k].flags;
        }
      }
    }
  }

  /** The scan fails exactly when some colour line holds a range no array can have. */
  lemma {:induction false} ScanSignalsFails(sig: VgaSignals, infos: seq<LineInfo>)
    ensures ScanSignals(sig, infos).Err? <==>
            exists k :: 0 <= k < |infos| && infos[k].channels != {} && infos[k].width.Err?
  {
    if infos != [] {
      var init := infos[..|infos| - 1];
      ScanSignalsFails(sig, init);
      assert forall k :: 0 <= k < |init| ==> init[k] == infos[k];
      var last := infos[|infos| - 1];
      if exists k :: 0 <= k < |infos| && infos[k].channels != {} && infos[k].width.Err? {
        var k :| 0 <= k < |infos| && infos[k].channels != {} && infos[k].width.Err?;
        if k < |init| {
          assert init[k].channels != {} && init[k].width.Err?;
        }
      }
    }
  }

  /**
   * On a successful scan of the lines of a text, a flag ends up set exactly
   * when some line declares it.
   */
  lemma {:induction false} ParseVGASignalsFlags(lines: seq<string>, f: Flag)
    requires ScanLines(NoSignals, lines).Ok?
    ensures f in ScanLines(NoSignals, lines).value.flags <==>
            exists k :: 0 <= k < |lines| && Declares(lines[k], f)
  {
    var infos := ClassifyAll(lines);
    ScanLinesClassified(NoSignals, lines);
    ScanSignalsFlags(NoSignals, infos, f);
    if exists k :: 0 <= k < |lines| && Declares(lines[k], f) {
      var k :| 0 <= k < |lines| && Declares(lines[k], f);
      assert f in infos[k].flags;
    }
  }

  /**
   * The scan fails exactly when a line holding a colour letter declares a
   * range no array can have.
   */
  lemma {:induction false} ParseVGASignalsFails(lines: seq<string>)
    ensures ScanLines(NoSignals, lines).Err? <==>
            exists k, c :: 0 <= k < |lines| && ReadsChannel(lines[k], c) && ExtractBitWidth(lines[k]).Err?
  {
    ScanLinesClassified(NoSignals, lines);
    ScanSignalsFails(NoSignals, ClassifyAll(lines));
    ClassifiedFails(lines);
  }

  /** A classified line fails exactly when the line reads a colour channel and its width is an error. */
  lemma ClassifiedFails(lines: seq<string>)
    ensures var infos := ClassifyAll(lines);
            (exists k :: 0 <= k < |infos| && infos[k].channels != {} && infos[k].width.Err?) <==>
            exists k, c :: 0 <= k < |lines| && ReadsChannel(lines[k], c) && ExtractBitWidth(lines[k]).Err?
  {
    var infos := ClassifyAll(lines);
    if exists k, c :: 0 <= k < |lines| && ReadsChannel(lines[k], c) && ExtractBitWidth(lines[k]).Err? {
      var k, c :| 0 <= k < |lines| && ReadsChannel(lines[k], c) && ExtractBitWidth(lines[k]).Err?;
      ClassifyFails(lines[k], c);
      assert infos[k] == Classify(lines[k]);
    }
    if exists k :: 0 <= k < |infos| && infos[k].channels != {} && infos[k].width.Err? {
      var k :| 0 <= k < |infos| && infos[k].channels != {} && infos[k].width.Err?;
      assert infos[k] == Classify(lines[k]);
      var c :| c in infos[k].channels;
      ClassifyFails(lines[k], c);
    }
  }

  /** One line: its classification fails through channel c exactly when it reads c and its width is an error. */
  lemma ClassifyFails(t: string, c: Channel)
    ensures var info := Classify(t);
            (c in info.channels && info.width.Err?) <==> (ReadsChannel(t, c) && ExtractBitWidth(t).Err?)
  {
  }


  /** The scan over the lines themselves, each classified as it is reached. */
  function ScanLines(sig: VgaSignals, lines: seq<string>): Result<VgaSignals, string>
  {
    if lines == [] then Ok(sig)
    else
      match ScanLines(sig, lines[..|lines| - 1])
      case Err(e) => Err(e)
      case Ok(s) => SignalStep(s, Classify(lines[|lines| - 1]))
  }

  lemma {:induction false} ScanLinesClassified(sig: VgaSignals, lines: seq<string>)
    ensures ScanLines(sig, lines) == ScanSignals(sig, ClassifyAll(lines))
  {
    if lines != [] {
      var init := lines[..|lines| - 1];
      ScanLinesClassified(sig, init);
      assert ClassifyAll(lines)[..|lines| - 1] == ClassifyAll(init);
    }
  }

  /** Once the scan has failed, later lines do not matter. */
  lemma {:induction false} ScanLinesErrSticks(sig: VgaSignals, lines: seq<string>, i: nat)
    requires i <= |lines| && ScanLines(sig, lines[..i]).Err?
    ensures ScanLines(sig, lines) == ScanLines(sig, lines[..i])
    decreases |lines| - i
  {
    if i < |lines| {
      assert lines[..i + 1][..i] == lines[..i];
      ScanLinesErrSticks(sig, lines, i + 1);
    } else {
      assert lines[..i] == lines;
    }
  }

  lemma {:induction false} ScanLinesStep(sig: VgaSignals, lines: seq<string>, i: nat)
    requires i < |lines|
    ensures ScanLines(sig, lines[..i + 1]) ==
            match ScanLines(sig, lines[..i])
            case Err(e) => Err(e)
            case Ok(s) => SignalStep(s, Classify(lines[i]))
  {
    assert lines[..i + 1][..i] == lines[..i];
  }

  /** parseVGASignals */
  method ParseVGASignals(content: string) returns (r: Result<VgaSignals, string>)
    ensures r == ScanLines(NoSignals, Lines(content))
  {
    r := ScanVGASignals(Lines(content));
  }

  /** The line loop of parseVGASignals over the trimmed lines. */
  method ScanVGASignals(lines: seq<string>) returns (r: Result<VgaSignals, string>)
    ensures r == ScanLines(NoSignals, lines)
  {
    var sig := NoSignals;
    var i := 0;
    while i < |lines|
      invariant 0 <= i <= |lines|
      invariant ScanLines(NoSignals, lines[..i]) == Ok(sig)
    {
      var info := Classify(lines[i]);
      ScanLinesStep(NoSignals, lines, i);
      if info.channels != {} && info.width.Err? {
        ScanLinesErrSticks(NoSignals, lines, i + 1);
        return Err(info.width.error);
      }
      sig := VgaSignals(sig.flags + info.flags,
                        if Red in info.channels then info.width.value else sig.red,
                        if Green in info.channels then info.width.value else sig.green,
                        if Blue in info.channels then info.width.value else sig.blue);
      i := i + 1;
    }
    assert lines[..|lines|] == lines;
    r := Ok(sig);
  }

  // ---------------------------------------------------------------------
  // Collecting matches in line order
  // ---------------------------------------------------------------------

  /** The present entries, in order. */
  function Somes<T>(xs: seq<Option<T>>): (r: seq<T>)
    ensures |r| <= |xs|
  {
    if xs == [] then []
    else Somes(xs[..|xs| - 1]) + (match xs[|xs| - 1] case Some(x) => [x] case None => [])
  }

  /** A value is collected exactly when some entry holds it. */
  lemma {:induction false} SomesMember<T>(xs: seq<Option<T>>, x: T)
    ensures x in Somes(xs) <==> exists k :: 0 <= k < |xs| && xs[k] == Some(x)
  {
    if xs != [] {
      var init := xs[..|xs| - 1];
      var last := xs[|xs| - 1];
      SomesMember(init, x);
      assert Somes(xs) == Somes(init) + (match last case Some(y) => [y] case None => []);
      if x in Somes(xs) {
        if x in Somes(init) {
          var k :| 0 <= k < |init| && init[k] == Some(x);
          assert xs[k] == Some(x);
        } else {
          assert xs[|xs| - 1] == Some(x);
        }
      }
      if exists k :: 0 <= k < |xs| && xs[k] == Some(x) {
        var k :| 0 <= k < |xs| && xs[k] == Some(x);
        if k < |init| {
          assert init[k] == Some(x);
        }
      }
    }
  }

  /** Collecting over a concatenation collects each part in turn. */
  lemma {:induction false} SomesAppend<T>(xs: seq<Option<T>>, ys: seq<Option<T>>)
    ensures Somes(xs + ys) == Somes(xs) + Somes(ys)
    decreases |ys|
  {
    if ys != [] {
      var init := ys[..|ys| - 1];
      assert (xs + ys)[..|xs + ys| - 1] == xs + init;
      SomesAppend(xs, init);
    } else {
      assert xs + ys == xs;
    }
  }

  lemma {:induction false} SomesStep<T>(xs: seq<Option<T>>, i: nat)
    requires i < |xs|
    ensures Somes(xs[..i + 1]) == Somes(xs[..i]) + (match xs[i] case Some(x) => [x] case None => [])
  {
    assert xs[..i + 1][..i] == xs[..i];
  }

  // ---------------------------------------------------------------------
  // parseModulePorts
  // ---------------------------------------------------------------------

  /** `module\s+(\w+)` at position i: the module name. */
  function ModuleAt(s: string, i: nat): Option<string>
  {
    if !OccursAt(s, "module", i) then None
    else
      var a := i + 6;
      var b := a + SpaceRun(s, a);
      var n := WordRun(s, b);
      if b == a || n == 0 then None else Some(s[b..b + n])
  }

  function FirstModule(s: string, from: nat): Option<string>
    decreases |s| - from
  {
    if from >= |s| then None
    else if ModuleAt(s, from).Some? then ModuleAt(s, from)
    else FirstModule(s, from + 1)
  }

  /** The module name a trimmed line announces, if any. */
  function ModuleNameOn(t: string): Option<string>
  {
    if StartsWith(t, "module ") then FirstModule(t, 0) else None
  }


  /** "module NAME ..." announces NAME when a non-word character or the end follows it. */
  lemma {:induction false} ModuleNameDecl(name: string, rest: string)
    requires name != [] && forall k :: 0 <= k < |name| ==> IsWordChar(name[k])
    requires rest != [] ==> !IsWordChar(rest[0])
    ensures ModuleNameOn("module " + name + rest) == Some(name)
  {
    var s := "module " + name + rest;
    assert s[..7] == "module " && s[..6] == "module";
    assert forall k :: 0 <= k < |name| ==> s[7 + k] == name[k];
    assert 7 + |name| < |s| ==> s[7 + |name|] == rest[0];
    assert SpaceRun(s, 6) == 1 by {
      assert s[6] == ' ' && IsWordChar(s[7]);
    }
    WordRunExact(s, 7, |name|);
    assert s[7..7 + |name|] == name;
  }

  /** One entry of the inputs or outputs list. */
  datatype Port = Port(name: string, width: int)

  /** The three captures of the port pattern: msb digits, lsb digits if captured, name. */
  datatype PortMatch = PortMatch(msb: string, lsb: Option<string>, name: string)

  /** The width of a port: msb - lsb + 1 when the lsb was captured, else 1. */
  function PortOf(m: PortMatch): Port
  {
    Port(m.name, match m.lsb case Some(l) => DigitsValue(m.msb, 10) - DigitsValue(l, 10) + 1 case None => 1)
  }

  /**
   * `kw\s+wire\s+\[?(\d+):(\d+)?\]?\s*(\w+)` at position i.  The second number
   * is taken in full when a name follows it (after an optional ']' and
   * spaces); otherwise the matcher gives back its last digit, which then
   * serves as the name.
   */
  function PortAt(s: string, kw: string, i: nat): Option<PortMatch>
  {
    if !OccursAt(s, kw, i) then None
    else
      var a := i + |kw|;
      var b := a + SpaceRun(s, a);
      if b == a || !OccursAt(s, "wire", b) then None else PortRangeAt(s, b + 4)
  }

  /** The rest of the port pattern after "wire": `\s+\[?` and then the msb digits. */
  function PortRangeAt(s: string, c: nat): Option<PortMatch>
    requires c <= |s|
  {
    var d := c + SpaceRun(s, c);
    if d == c then None
    else if d < |s| && s[d] == '[' then PortDigitsAt(s, d + 1)
    else PortDigitsAt(s, d)
  }

  /** `(\d+):` from p, then the tail. */
  function PortDigitsAt(s: string, p: nat): Option<PortMatch>
    requires p <= |s|
  {
    var n1 := DigitRun(s, p);
    if n1 == 0 || p + n1 >= |s| || s[p + n1] != ':' then None
    else PortTailAt(s, s[p..p + n1], p + n1 + 1)
  }

  /** The tail `(\d+)?\]?\s*(\w+)` from q, after the msb digits and ':'. */
  function PortTailAt(s: string, msb: string, q: nat): Option<PortMatch>
    requires q <= |s|
  {
    var e := q + DigitRun(s, q);
    var f := if e < |s| && s[e] == ']' then e + 1 else e;
    var g := f + SpaceRun(s, f);
    var w := WordRun(s, g);
    // without a name after it, the last digit goes back to (\w+)
    var lsbEnd := if w > 0 then e else e - 1;
    var nameStart := if w > 0 then g else e - 1;
    var nameEnd := if w > 0 then g + w else e;
    if w == 0 && e == q then None
    else Some(PortMatch(msb, if lsbEnd > q then Some(s[q..lsbEnd]) else None, s[nameStart..nameEnd]))
  }

  function FirstPort(s: string, kw: string, from: nat): Option<PortMatch>
    decreases |s| - from
  {
    if from >= |s| then None
    else if PortAt(s, kw, from).Some? then PortAt(s, kw, from)
    else FirstPort(s, kw, from + 1)
  }

  /** Every match of the port pattern holds a ':', so a line without one declares no port. */
  lemma {:induction false} PortNeedsColon(s: string, kw: string, from: nat)
    requires forall k :: 0 <= k < |s| ==> s[k] != ':'
    ensures FirstPort(s, kw, from) == None
    decreases |s| - from
  {
    if from < |s| {
      PortNeedsColon(s, kw, from + 1);
    }
  }

  /** The port a trimmed line declares with keyword kw ("input" or "output"), if any. */
  function PortOn(t: string, kw: string): Option<Port>
  {
    if !Includes(t, kw + " wire") then None
    else match FirstPort(t, kw, 0)
      case Some(m) => Some(PortOf(m))
      case None => None
  }

  /**
   * "input wire [m:l] name" (or "output ...") declares the port name with
   * width m - l + 1, when a non-word character or the end follows the name.
   */
  lemma {:induction false} PortDeclWidth(kw: string, msb: string, lsb: string, name: string, rest: string)
    requires kw == "input" || kw == "output"
    requires msb != [] && forall k :: 0 <= k < |msb| ==> IsDigit(msb[k])
    requires lsb != [] && forall k :: 0 <= k < |lsb| ==> IsDigit(lsb[k])
    requires name != [] && forall k :: 0 <= k < |name| ==> IsWordChar(name[k])
    requires rest != [] ==> !IsWordChar(rest[0])
    ensures PortOn(kw + " wire [" + msb + ":" + lsb + "] " + name + rest, kw) ==
            Some(Port(name, DigitsValue(msb, 10) - DigitsValue(lsb, 10) + 1))
  {
    var s := kw + " wire [" + msb + ":" + lsb + "] " + name + rest;
    PortDeclLayout(kw, msb, lsb, name, rest, s);
    assert s[|kw| + 7..|kw| + 7 + |msb|] == msb;
    assert s[|kw| + 8 + |msb|..|kw| + 8 + |msb| + |lsb|] == lsb;
    assert s[|kw| + 10 + |msb| + |lsb|..|kw| + 10 + |msb| + |lsb| + |name|] == name;
    PortAtLayout(s, kw, msb, lsb, name);
    IncludesAt(s, kw + " wire", 0);
    PortOnWidth(s, kw, msb, lsb, name);
  }

  /** A line laid out as a port declaration matches the port pattern at 0, capturing msb, lsb and name. */
  lemma {:induction false} PortAtLayout(s: string, kw: string, msb: string, lsb: string, name: string)
    requires msb != [] && forall k :: 0 <= k < |msb| ==> IsDigit(msb[k])
    requires lsb != [] && forall k :: 0 <= k < |lsb| ==> IsDigit(lsb[k])
    requires name != [] && forall k :: 0 <= k < |name| ==> IsWordChar(name[k])
    requires |s| >= |kw| + 10 + |msb| + |lsb| + |name|
    requires OccursAt(s, kw, 0) && OccursAt(s, "wire", |kw| + 1)
    requires s[|kw|] == ' ' && s[|kw| + 1] == 'w' && s[|kw| + 5] == ' ' && s[|kw| + 6] == '['
    requires forall k :: 0 <= k < |msb| ==> s[|kw| + 7 + k] == msb[k]
    requires s[|kw| + 7 + |msb|] == ':'
    requires forall k :: 0 <= k < |lsb| ==> s[|kw| + 8 + |msb| + k] == lsb[k]
    requires s[|kw| + 8 + |msb| + |lsb|] == ']' && s[|kw| + 9 + |msb| + |lsb|] == ' '
    requires forall k :: 0 <= k < |name| ==> s[|kw| + 10 + |msb| + |lsb| + k] == name[k]
    requires |kw| + 10 + |msb| + |lsb| + |name| < |s| ==> !IsWordChar(s[|kw| + 10 + |msb| + |lsb| + |name|])
    requires s[|kw| + 7..|kw| + 7 + |msb|] == msb
    requires s[|kw| + 8 + |msb|..|kw| + 8 + |msb| + |lsb|] == lsb
    requires s[|kw| + 10 + |msb| + |lsb|..|kw| + 10 + |msb| + |lsb| + |name|] == name
    ensures PortAt(s, kw, 0) == Some(PortMatch(msb, Some(lsb), name))
  {
    var q := |kw| + 8 + |msb|;
    assert forall k :: 0 <= k < |lsb| ==> s[q + k] == lsb[k];
    assert s[q + |lsb|] == ']' && s[q + |lsb| + 1] == ' ';
    assert forall k :: 0 <= k < |name| ==> s[q + |lsb| + 2 + k] == name[k];
    assert q + |lsb| + 2 + |name| < |s| ==> !IsWordChar(s[q + |lsb| + 2 + |name|]);
    assert s[q..q + |lsb|] == lsb && s[q + |lsb| + 2..q + |lsb| + 2 + |name|] == name;
    PortTailLayout(s, msb, q, lsb, name);
    PortHeadLayout(s, kw, msb);
  }

  /** A line holding "kw wire" whose first match of the pattern starts at 0 declares that match's port. */
  lemma PortOnIs(s: string, kw: string, m: PortMatch)
    requires Includes(s, kw + " wire") && |s| > 0 && PortAt(s, kw, 0) == Some(m)
    ensures PortOn(s, kw) == Some(PortOf(m))
  {
  }

  /** The port of a line whose first match captures msb, lsb and name. */
  lemma PortOnWidth(s: string, kw: string, msb: string, lsb: string, name: string)
    requires Includes(s, kw + " wire") && |s| > 0 && PortAt(s, kw, 0) == Some(PortMatch(msb, Some(lsb), name))
    ensures PortOn(s, kw) == Some(Port(name, DigitsValue(msb, 10) - DigitsValue(lsb, 10) + 1))
  {
    PortOnIs(s, kw, PortMatch(msb, Some(lsb), name));
  }

  /** Where the pieces of a port declaration sit. */
  lemma {:induction false} PortDeclLayout(kw: string, msb: string, lsb: string, name: string, rest: string, s: string)
    requires s == kw + " wire [" + msb + ":" + lsb + "] " + name + rest
    ensures |s| == |kw| + 10 + |msb| + |lsb| + |name| + |rest|
    ensures OccursAt(s, kw + " wire", 0) && OccursAt(s, kw, 0) && OccursAt(s, "wire", |kw| + 1)
    ensures s[|kw|] == ' ' && s[|kw| + 1] == 'w' && s[|kw| + 5] == ' ' && s[|kw| + 6] == '['
    ensures forall k :: 0 <= k < |msb| ==> s[|kw| + 7 + k] == msb[k]
    ensures s[|kw| + 7 + |msb|] == ':'
    ensures forall k :: 0 <= k < |lsb| ==> s[|kw| + 8 + |msb| + k] == lsb[k]
    ensures s[|kw| + 8 + |msb| + |lsb|] == ']' && s[|kw| + 9 + |msb| + |lsb|] == ' '
    ensures forall k :: 0 <= k < |name| ==> s[|kw| + 10 + |msb| + |lsb| + k] == name[k]
    ensures |kw| + 10 + |msb| + |lsb| + |name| < |s| ==> s[|kw| + 10 + |msb| + |lsb| + |name|] == rest[0]
    ensures s[|kw| + 7..|kw| + 7 + |msb|] == msb
    ensures s[|kw| + 8 + |msb|..|kw| + 8 + |msb| + |lsb|] == lsb
    ensures s[|kw| + 10 + |msb| + |lsb|..|kw| + 10 + |msb| + |lsb| + |name|] == name
  {
    assert s[..|kw| + 5] == kw + " wire";
    assert s[..|kw|] == kw;
    assert s[|kw| + 1..|kw| + 5] == "wire";
  }

  /** The head of a port declaration, up to the ':', leads to the tail. */
  lemma {:induction false} PortHeadLayout(s: string, kw: string, msb: string)
    requires msb != [] && forall k :: 0 <= k < |msb| ==> IsDigit(msb[k])
    requires |s| > |kw| + 7 + |msb|
    requires OccursAt(s, kw, 0) && OccursAt(s, "wire", |kw| + 1)
    requires s[|kw|] == ' ' && s[|kw| + 1] == 'w' && s[|kw| + 5] == ' ' && s[|kw| + 6] == '['
    requires forall k :: 0 <= k < |msb| ==> s[|kw| + 7 + k] == msb[k]
    requires s[|kw| + 7 + |msb|] == ':' && s[|kw| + 7..|kw| + 7 + |msb|] == msb
    ensures PortAt(s, kw, 0) == PortTailAt(s, msb, |kw| + 8 + |msb|)
  {
    var a := |kw|;
    assert SpaceRun(s, a) == 1 by {
      assert IsSpace(s[a]) && !IsSpace(s[a + 1]);
    }
    assert SpaceRun(s, a + 5) == 1 by {
      assert IsSpace(s[a + 5]) && !IsSpace(s[a + 6]);
    }
    DigitRunExact(s, a + 7, |msb|);
    PortAtIs(s, kw);
    PortRangeIs(s, a + 5);
    PortDigitsIs(s, a + 7, |msb|);
  }

  /** The tail "lsb] name" of a port declaration captures lsb and name. */
  lemma {:induction false} PortTailLayout(s: string, msb: string, q: nat, lsb: string, name: string)
    requires lsb != [] && forall k :: 0 <= k < |lsb| ==> IsDigit(lsb[k])
    requires name != [] && forall k :: 0 <= k < |name| ==> IsWordChar(name[k])
    requires |s| >= q + |lsb| + 2 + |name|
    requires forall k :: 0 <= k < |lsb| ==> s[q + k] == lsb[k]
    requires s[q + |lsb|] == ']' && s[q + |lsb| + 1] == ' '
    requires forall k :: 0 <= k < |name| ==> s[q + |lsb| + 2 + k] == name[k]
    requires q + |lsb| + 2 + |name| < |s| ==> !IsWordChar(s[q + |lsb| + 2 + |name|])
    requires s[q..q + |lsb|] == lsb && s[q + |lsb| + 2..q + |lsb| + 2 + |name|] == name
    ensures PortTailAt(s, msb, q) == Some(PortMatch(msb, Some(lsb), name))
  {
    var e := q + |lsb|;
    DigitRunExact(s, q, |lsb|);
    assert SpaceRun(s, e + 1) == 1 by {
      assert IsSpace(s[e + 1]) && IsWordChar(s[e + 2]);
    }
    WordRunExact(s, e + 2, |name|);
    PortTailIs(s, msb, q, |lsb|, |name|);
  }

  lemma {:induction false} PortAtIs(s: string, kw: string)
    requires OccursAt(s, kw, 0) && SpaceRun(s, |kw|) == 1 && OccursAt(s, "wire", |kw| + 1)
    ensures PortAt(s, kw, 0) == PortRangeAt(s, |kw| + 5)
  {
  }

  lemma {:induction false} PortRangeIs(s: string, c: nat)
    requires c + 1 < |s| && SpaceRun(s, c) == 1 && s[c + 1] == '['
    ensures PortRangeAt(s, c) == PortDigitsAt(s, c + 2)
  {
  }

  lemma {:induction false} PortDigitsIs(s: string, p: nat, n1: nat)
    requires p + n1 < |s| && n1 > 0 && DigitRun(s, p) == n1 && s[p + n1] == ':'
    ensures PortDigitsAt(s, p) == PortTailAt(s, s[p..p + n1], p + n1 + 1)
  {
  }

  lemma {:induction false} PortTailIs(s: string, msb: string, q: nat, n2: nat, w: nat)
    requires q + n2 + 2 <= |s|
    requires n2 > 0 && DigitRun(s, q) == n2 && s[q + n2] == ']'
    requires SpaceRun(s, q + n2 + 1) == 1 && w > 0 && WordRun(s, q + n2 + 2) == w
    ensures PortTailAt(s, msb, q) == Some(PortMatch(msb, Some(s[q..q + n2]), s[q + n2 + 2..q + n2 + 2 + w]))
  {
  }

  /** The module name each line announces, line by line. */
  function ModuleNamesOf(lines: seq<string>): (r: seq<Option<string>>)
    ensures |r| == |lines|
  {
    if lines == [] then []
    else ModuleNamesOf(lines[..|lines| - 1]) + [ModuleNameOn(lines[|lines| - 1])]
  }

  lemma {:induction false} ModuleNamesOfAt(lines: seq<string>, k: nat)
    requires k < |lines|
    ensures ModuleNamesOf(lines)[k] == ModuleNameOn(lines[k])
    decreases |lines|
  {
    if k < |lines| - 1 {
      ModuleNamesOfAt(lines[..|lines| - 1], k);
    }
  }

  /** The port each line declares with keyword kw, line by line. */
  function PortsOf(lines: seq<string>, kw: string): (r: seq<Option<Port>>)
    ensures |r| == |lines|
  {
    if lines == [] then []
    else PortsOf(lines[..|lines| - 1], kw) + [PortOn(lines[|lines| - 1], kw)]
  }

  lemma {:induction false} PortsOfAt(lines: seq<string>, kw: string, k: nat)
    requires k < |lines|
    ensures PortsOf(lines, kw)[k] == PortOn(lines[k], kw)
    decreases |lines|
  {
    if k < |lines| - 1 {
      PortsOfAt(lines[..|lines| - 1], kw, k);
    }
  }

  /** What parseModulePorts reads from one trimmed line. */
  method ScanPortLine(t: string) returns (m: Option<string>, inp: Option<Port>, out: Option<Port>)
    ensures m == ModuleNameOn(t) && inp == PortOn(t, "input") && out == PortOn(t, "output")
  {
    m, inp, out := None, None, None;
    if StartsWith(t, "module ") {
      m := FirstModule(t, 0);
    }
    assert "input" + " wire" == "input wire" && "output" + " wire" == "output wire";
    if Includes(t, "input wire") {
      var pm := FirstPort(t, "input", 0);
      if pm.Some? {
        inp := Some(PortOf(pm.value));
      }
    }
    if Includes(t, "output wire") {
      var pm := FirstPort(t, "output", 0);
      if pm.Some? {
        out := Some(PortOf(pm.value));
      }
    }
  }

  /** One more line of parseModulePorts. */
  lemma {:induction false} PortsStep(lines: seq<string>, i: nat)
    requires i < |lines|
    ensures var names := ModuleNamesOf(lines);
            LastSome(names[..i + 1], "") ==
            match ModuleNameOn(lines[i]) case Some(m) => m case None => LastSome(names[..i], "")
    ensures var ins := PortsOf(lines, "input");
            Somes(ins[..i + 1]) ==
            Somes(ins[..i]) + match PortOn(lines[i], "input") case Some(p) => [p] case None => []
    ensures var outs := PortsOf(lines, "output");
            Somes(outs[..i + 1]) ==
            Somes(outs[..i]) + match PortOn(lines[i], "output") case Some(p) => [p] case None => []
  {
    ModuleNamesOfAt(lines, i);
    PortsOfAt(lines, "input", i);
    PortsOfAt(lines, "output", i);
    LastSomeStep(ModuleNamesOf(lines), "", i);
    SomesStep(PortsOf(lines, "input"), i);
    SomesStep(PortsOf(lines, "output"), i);
  }

  /** parseModulePorts' result. */
  datatype ModulePorts = ModulePorts(moduleName: string, inputs: seq<Port>, outputs: seq<Port>, inouts: seq<Port>)

  /**
   * parseModulePorts: the name from the last line announcing a module ("" if
   * none), the input and output ports in line order, and no inout ports.
   */
  method ParseModulePorts(content: string) returns (r: ModulePorts)
    ensures var lines := Lines(content);
            r.moduleName == LastSome(ModuleNamesOf(lines), "") &&
            r.inputs == Somes(PortsOf(lines, "input")) &&
            r.outputs == Somes(PortsOf(lines, "output")) &&
            r.inouts == []
  {
    r := ScanModulePorts(Lines(content));
  }

  /** The line loop of parseModulePorts over the trimmed lines. */
  method ScanModulePorts(lines: seq<string>) returns (r: ModulePorts)
    ensures r.moduleName == LastSome(ModuleNamesOf(lines), "") &&
            r.inputs == Somes(PortsOf(lines, "input")) &&
            r.outputs == Somes(PortsOf(lines, "output")) &&
            r.inouts == []
  {
    ghost var names := ModuleNamesOf(lines);
    ghost var ins := PortsOf(lines, "input");
    ghost var outs := PortsOf(lines, "output");
    var moduleName := "";
    var inputs: seq<Port> := [];
    var outputs: seq<Port> := [];
    var i := 0;
    while i < |lines|
      invariant 0 <= i <= |lines|
      invariant moduleName == LastSome(names[..i], "")
      invariant inputs == Somes(ins[..i]) && outputs == Somes(outs[..i])
    {
      moduleName, inputs, outputs := ScanPortsStep(lines, i, moduleName, inputs, outputs);
      i := i + 1;
    }
    assert names[..i] == names && ins[..i] == ins && outs[..i] == outs;
    r := ModulePorts(moduleName, inputs, outputs, []);
  }

  /** One pass of the line loop of parseModulePorts: the results so far extended by line i. */
  method ScanPortsStep(lines: seq<string>, i: nat, moduleName: string, inputs: seq<Port>, outputs: seq<Port>)
    returns (moduleName': string, inputs': seq<Port>, outputs': seq<Port>)
    requires i < |lines|
    requires moduleName == LastSome(ModuleNamesOf(lines)[..i], "")
    requires inputs == Somes(PortsOf(lines, "input")[..i]) && outputs == Somes(PortsOf(lines, "output")[..i])
    ensures moduleName' == LastSome(ModuleNamesOf(lines)[..i + 1], "")
    ensures inputs' == Somes(PortsOf(lines, "input")[..i + 1]) && outputs' == Somes(PortsOf(lines, "output")[..i + 1])
  {
    PortsStep(lines, i);
    var m, inp, out := ScanPortLine(lines[i]);
    moduleName', inputs', outputs' := moduleName, inputs, outputs;
    if m.Some? {
      moduleName' := m.value;
    }
    if inp.Some? {
      inputs' := inputs + [inp.value];
    }
    if out.Some? {
      outputs' := outputs + [out.value];
    }
  }

  // ---------------------------------------------------------------------
  // parseVGAAssignments
  // ---------------------------------------------------------------------

  /** The signals whose continuous assignment is recorded, in the order they are tested. */
  const ASSIGN_TARGETS: seq<string> := ["uo_out", "uio_out", "uio_oe", "R", "G", "B", "hsync", "vsync", "video_active"]

  /**
   * What a trimmed line assigns to key: when the line starts with
   * "assign KEY", the text left after removing the first "assign KEY =",
   * trimming, and removing the first ';'.
   */
  function AssignValueOn(t: string, key: string): Option<string>
  {
    if StartsWith(t, "assign " + key) then
      Some(ReplaceFirst(Trim(ReplaceFirst(t, "assign " + key + " =", "")), ";", ""))
    else None
  }

  /** What each line assigns to key, line by line. */
  function AssignValuesOf(lines: seq<string>, key: string): (r: seq<Option<string>>)
    ensures |r| == |lines|
  {
    if lines == [] then []
    else AssignValuesOf(lines[..|lines| - 1], key) + [AssignValueOn(lines[|lines| - 1], key)]
  }

  lemma {:induction false} AssignValuesOfAt(lines: seq<string>, key: string, k: nat)
    requires k < |lines|
    ensures AssignValuesOf(lines, key)[k] == AssignValueOn(lines[k], key)
    decreases |lines|
  {
    if k < |lines| - 1 {
      AssignValuesOfAt(lines[..|lines| - 1], key, k);
    }
  }

  /** The assignments after the first i lines: per target, the value of the last line assigning it, or "". */
  function AssignmentsUpTo(lines: seq<string>, i: nat): (r: map<string, string>)
    requires i <= |lines|
  {
    map key | key in ASSIGN_TARGETS :: LastSome(AssignValuesOf(lines, key)[..i], "")
  }

  /** parseVGAAssignments' result on the trimmed lines. */
  function AssignmentsOf(lines: seq<string>): (r: map<string, string>)
  {
    AssignmentsUpTo(lines, |lines|)
  }

  /**
   * parseVGAAssignments: the nine targets, each set by the last line that
   * assigns it and "" when no line does.
   */
  method ParseVGAAssignments(content: string) returns (r: map<string, string>)
    ensures r == AssignmentsOf(Lines(content))
  {
    r := ScanVGAAssignments(Lines(content));
  }

  /** The line loop of parseVGAAssignments over the trimmed lines. */
  method ScanVGAAssignments(lines: seq<string>) returns (r: map<string, string>)
    ensures r == AssignmentsOf(lines)
  {
    r := map key | key in ASSIGN_TARGETS :: "";
    var i := 0;
    while i < |lines|
      invariant 0 <= i <= |lines|
      invariant r == AssignmentsUpTo(lines, i)
    {
      var r' := AssignLine(lines[i], r);
      AssignStep(lines, i, r, r');
      r := r';
      i := i + 1;
    }
  }

  /** The tests for keys, in order, on one trimmed line: each key the line assigns takes its value. */
  function ApplyAssigns(t: string, r: map<string, string>, keys: seq<string>): map<string, string>
    decreases |keys|
  {
    if keys == [] then r
    else
      var r0 := ApplyAssigns(t, r, keys[..|keys| - 1]);
      var key := keys[|keys| - 1];
      if AssignValueOn(t, key).Some? then r0[key := AssignValueOn(t, key).value] else r0
  }

  /** Applying the tests keeps the keys and gives each tested key the line's value, if any. */
  lemma {:induction false} ApplyAssignsAt(t: string, r: map<string, string>, keys: seq<string>, key: string)
    requires forall k :: k in keys ==> k in r
    ensures ApplyAssigns(t, r, keys).Keys == r.Keys
    ensures key in r ==>
              ApplyAssigns(t, r, keys)[key] ==
              if key in keys && AssignValueOn(t, key).Some? then AssignValueOn(t, key).value else r[key]
    decreases |keys|
  {
    if keys != [] {
      var init := keys[..|keys| - 1];
      assert forall k :: k in init ==> k in keys;
      ApplyAssignsAt(t, r, init, key);
      assert keys == init + [keys[|keys| - 1]];
    }
  }

  /** The nine tests of parseVGAAssignments on one trimmed line. */
  method AssignLine(t: string, r: map<string, string>) returns (r': map<string, string>)
    ensures r' == ApplyAssigns(t, r, ASSIGN_TARGETS)
  {
    r' := r;
    var j := 0;
    while j < |ASSIGN_TARGETS|
      invariant 0 <= j <= |ASSIGN_TARGETS|
      invariant r' == ApplyAssigns(t, r, ASSIGN_TARGETS[..j])
    {
      var key := ASSIGN_TARGETS[j];
      assert ASSIGN_TARGETS[..j + 1][..j] == ASSIGN_TARGETS[..j];
      r' := AssignKey(t, key, r');
      j := j + 1;
    }
    assert ASSIGN_TARGETS[..j] == ASSIGN_TARGETS;
  }

  /** One of the nine tests: the line's value for key, when it assigns key. */
  method AssignKey(t: string, key: string, r: map<string, string>) returns (r': map<string, string>)
    ensures r' == if AssignValueOn(t, key).Some? then r[key := AssignValueOn(t, key).value] else r
  {
    r' := r;
    if StartsWith(t, "assign " + key) {
      r' := r'[key := ReplaceFirst(Trim(ReplaceFirst(t, "assign " + key + " =", "")), ";", "")];
    }
  }

  /** The tests on line i take the assignments after i lines to those after i + 1 lines. */
  lemma AssignStep(lines: seq<string>, i: nat, r: map<string, string>, r': map<string, string>)
    requires i < |lines| && r == AssignmentsUpTo(lines, i)
    requires r' == ApplyAssigns(lines[i], r, ASSIGN_TARGETS)
    ensures r' == AssignmentsUpTo(lines, i + 1)
  {
    ApplyAssignsAt(lines[i], r, ASSIGN_TARGETS, "");
    forall key | key in ASSIGN_TARGETS
      ensures r'[key] == LastSome(AssignValuesOf(lines, key)[..i + 1], "")
    {
      ApplyAssignsAt(lines[i], r, ASSIGN_TARGETS, key);
      AssignValuesOfAt(lines, key, i);
      LastSomeStep(AssignValuesOf(lines, key), "", i);
    }
  }

  /**
   * A line "assign KEY = EXPR;" assigns EXPR to KEY, when EXPR starts with
   * a non-space character and holds no ';'.
   */
  lemma AssignValueOfDecl(key: string, expr: string)
    requires expr != [] && !IsSpace(expr[0]) && ';' !in expr
    ensures AssignValueOn("assign " + key + " = " + expr + ";", key) == Some(expr)
  {
    var u := expr + ";";
    var t := "assign " + key + " = " + expr + ";";
    assert t == "assign " + key + " =" + (" " + u);
    AssignHead(key, " " + u);
    TrimLeadingSpace(u);
    SemicolonLast(expr);
    assert ReplaceFirst(Trim(ReplaceFirst(t, "assign " + key + " =", "")), ";", "") == expr;
  }

  /** A line "assign KEY =REST" passes the test for KEY, and removing "assign KEY =" leaves REST. */
  lemma AssignHead(key: string, rest: string)
    ensures var t := "assign " + key + " =" + rest;
            StartsWith(t, "assign " + key) && ReplaceFirst(t, "assign " + key + " =", "") == rest
  {
    var p := "assign " + key + " =";
    var t := p + rest;
    assert t[..|"assign " + key|] == "assign " + key;
    assert t[..|p|] == p;
    assert OccursAt(t, p, 0);
    assert IndexOf(t, p) == 0;
    assert t[|p|..] == rest;
  }

  /** One leading space before a text that starts and ends with non-space characters is trimmed away. */
  lemma TrimLeadingSpace(u: string)
    requires u != [] && !IsSpace(u[0]) && !IsSpace(u[|u| - 1])
    ensures Trim(" " + u) == u
  {
    var s := " " + u;
    assert SpaceRun(s, 0) == 1 by {
      assert IsSpace(s[0]) && s[1] == u[0];
    }
    assert TrimStart(s) == u by {
      assert s[1..] == u;
    }
    TrimmedAlready(u);
  }

  /** In EXPR followed by ';', with no ';' in EXPR, the first ';' is the last character. */
  lemma SemicolonLast(expr: string)
    requires ';' !in expr
    ensures IndexOf(expr + ";", ";") == |expr| && ReplaceFirst(expr + ";", ";", "") == expr
  {
    var s := expr + ";";
    forall i | 0 <= i < |expr|
      ensures !OccursAt(s, ";", i)
    {
      assert s[i] == expr[i];
    }
    assert OccursAt(s, ";", |expr|);
    assert s[..|expr|] == expr && s[|expr| + 1..] == [];
  }

  /** The last line assigning a target decides its value; later lines that do not assign it change nothing. */
  lemma {:induction false} AssignLastWins(lines: seq<string>, key: string, k: nat)
    requires key in ASSIGN_TARGETS && k < |lines| && AssignValueOn(lines[k], key).Some?
    requires forall j :: k < j < |lines| ==> !StartsWith(lines[j], "assign " + key)
    ensures key in AssignmentsOf(lines) && AssignmentsOf(lines)[key] == AssignValueOn(lines[k], key).value
  {
    var vals := AssignValuesOf(lines, key);
    assert vals[..|lines|] == vals;
    forall j | k < j < |vals|
      ensures vals[j].None?
    {
      AssignValuesOfAt(lines, key, j);
    }
    AssignValuesOfAt(lines, key, k);
    LastSomeIs(vals, "", k);
  }

  /** A target no line assigns stays the empty string. */
  lemma {:induction false} AssignUntouched(lines: seq<string>, key: string)
    requires key in ASSIGN_TARGETS
    requires forall j :: 0 <= j < |lines| ==> !StartsWith(lines[j], "assign " + key)
    ensures key in AssignmentsOf(lines) && AssignmentsOf(lines)[key] == ""
  {
    var vals := AssignValuesOf(lines, key);
    assert vals[..|lines|] == vals;
    forall j | 0 <= j < |vals|
      ensures vals[j].None?
    {
      AssignValuesOfAt(lines, key, j);
    }
    LastSomeNone(vals, "");
  }

  /**
   * The test is a prefix test: "assign RGB = x;" also counts as an
   * assignment of R, and as "assign R =" does not occur in it, the whole
   * line without its ';' becomes R's value.
   */
  lemma AssignPrefixMatch()
    ensures AssignValueOn("assign RGB = x;", "R") == Some("assign RGB = x")
  {
    var t := "assign RGB = x;";
    assert StartsWith(t, "assign " + "R");
    assert "assign " + "R" + " =" == "assign R =";
    NoAssignR(t);
    assert TrimStart(t) == t by { assert SpaceRun(t, 0) == 0; assert t[0..] == t; }
    TrimmedAlready(t);
    assert t == "assign RGB = x" + ";";
    SemicolonLast("assign RGB = x");
  }

  lemma NoAssignR(t: string)
    requires t == "assign RGB = x;"
    ensures IndexOf(t, "assign R =") == -1
  {
    forall i: nat ensures !OccursAt(t, "assign R =", i) {
      if i + 10 <= |t| {
        assert t[i..i + 10] != "assign R =" by {
          if i == 0 {
            assert t[0..10][8] == t[8] == 'G';
          } else {
            assert t[i..i + 10][0] == t[i] != 'a';
          }
        }
      }
    }
  }

  // ---------------------------------------------------------------------
  // parseAlwaysBlocks
  // ---------------------------------------------------------------------

  /** Length of the run of characters `.` matches (anything but a line terminator) starting at from. */
  function NonTerminatorRun(s: string, from: nat): (n: nat)
    requires from <= |s|
    ensures from + n <= |s|
    decreases |s| - from
  {
    if from < |s| && !IsLineTerminator(s[from]) then 1 + NonTerminatorRun(s, from + 1) else 0
  }

  lemma {:induction false} NonTerminatorRunAll(s: string, from: nat)
    requires from <= |s|
    requires forall k :: from <= k < |s| ==> !IsLineTerminator(s[k])
    ensures NonTerminatorRun(s, from) == |s| - from
    decreases |s| - from
  {
    if from < |s| {
      NonTerminatorRunAll(s, from + 1);
    }
  }

  /** The last position q with lo <= q < hi holding ')', or -1. */
  function LastCloseParen(s: string, lo: nat, hi: nat): (q: int)
    requires hi <= |s|
    ensures q == -1 || (lo <= q < hi && s[q] == ')')
    decreases hi
  {
    if hi <= lo then -1
    else if s[hi - 1] == ')' then hi - 1
    else LastCloseParen(s, lo, hi - 1)
  }

  lemma {:induction false} LastCloseParenIs(s: string, lo: nat, hi: nat, q: nat)
    requires lo <= q < hi <= |s| && s[q] == ')'
    requires forall k :: q < k < hi ==> s[k] != ')'
    ensures LastCloseParen(s, lo, hi) == q
    decreases hi
  {
    if hi - 1 != q {
      LastCloseParenIs(s, lo, hi - 1, q);
    }
  }

  /**
   * `always\s+@\s*\((.+)\)` at position i: the greedy `.+` reaches the last
   * ')' before the end of the line that leaves at least one character.
   */
  function AlwaysAt(s: string, i: nat): Option<string>
  {
    if !OccursAt(s, "always", i) then None
    else
      var a := i + 6;
      var b := a + SpaceRun(s, a);
      if b == a || b >= |s| || s[b] != '@' then None
      else
        var d := b + 1 + SpaceRun(s, b + 1);
        if d >= |s| || s[d] != '(' then None
        else
          var p := d + 1;
          var q := LastCloseParen(s, p + 1, p + NonTerminatorRun(s, p));
          if q < 0 then None else Some(s[p..q])
  }

  function FirstAlways(s: string, from: nat): Option<string>
    decreases |s| - from
  {
    if from >= |s| then None
    else if AlwaysAt(s, from).Some? then AlwaysAt(s, from)
    else FirstAlways(s, from + 1)
  }

  /** One entry of the always-block list: the sensitivity text and an empty body. */
  datatype AlwaysBlock = AlwaysBlock(sensitivity: string, body: seq<string>)

  /** The always block a trimmed line opens, if any. */
  function AlwaysOn(t: string): Option<AlwaysBlock>
  {
    if !StartsWith(t, "always @") then None
    else
      match FirstAlways(t, 0)
      case Some(sens) => Some(AlwaysBlock(sens, []))
      case None => None
  }

  /** The always block each line opens, line by line. */
  function AlwaysOf(lines: seq<string>): (r: seq<Option<AlwaysBlock>>)
    ensures |r| == |lines|
  {
    if lines == [] then []
    else AlwaysOf(lines[..|lines| - 1]) + [AlwaysOn(lines[|lines| - 1])]
  }

  lemma {:induction false} AlwaysOfAt(lines: seq<string>, k: nat)
    requires k < |lines|
    ensures AlwaysOf(lines)[k] == AlwaysOn(lines[k])
    decreases |lines|
  {
    if k < |lines| - 1 {
      AlwaysOfAt(lines[..|lines| - 1], k);
    }
  }

  /** parseAlwaysBlocks: the blocks the lines open, in line order, each with an empty body. */
  method ParseAlwaysBlocks(content: string) returns (r: seq<AlwaysBlock>)
    ensures r == Somes(AlwaysOf(Lines(content)))
  {
    r := ScanAlwaysBlocks(Lines(content));
  }

  /** The line loop of parseAlwaysBlocks over the trimmed lines. */
  method ScanAlwaysBlocks(lines: seq<string>) returns (r: seq<AlwaysBlock>)
    ensures r == Somes(AlwaysOf(lines))
  {
    ghost var blocks := AlwaysOf(lines);
    r := [];
    var i := 0;
    while i < |lines|
      invariant 0 <= i <= |lines|
      invariant r == Somes(blocks[..i])
    {
      var t := lines[i];
      AlwaysOfAt(lines, i);
      SomesStep(blocks, i);
      if StartsWith(t, "always @") {
        var sens := FirstAlways(t, 0);
        if sens.Some? {
          r := r + [AlwaysBlock(sens.value, [])];
        }
      }
      i := i + 1;
    }
    assert blocks[..i] == blocks;
  }

  /**
   * "always @(SENS)REST" opens a block with sensitivity SENS, when the line
   * holds no line terminator, SENS is not empty and REST holds no ')'.
   */
  lemma AlwaysDecl(sens: string, rest: string)
    requires sens != [] && ')' !in rest
    requires forall k :: 0 <= k < |sens| ==> !IsLineTerminator(sens[k])
    requires forall k :: 0 <= k < |rest| ==> !IsLineTerminator(rest[k])
    ensures AlwaysOn("always @(" + sens + ")" + rest) == Some(AlwaysBlock(sens, []))
  {
    var t := "always @(" + sens + ")" + rest;
    var n := |sens|;
    assert t[..9] == "always @(";
    assert t[9..9 + n] == sens;
    assert t[9 + n] == ')';
    forall k | 9 <= k < |t|
      ensures !IsLineTerminator(t[k])
    {
      if k < 9 + n {
        assert t[k] == sens[k - 9];
      } else if k > 9 + n {
        assert t[k] == rest[k - 10 - n];
      }
    }
    forall k | 9 + n < k < |t|
      ensures t[k] != ')'
    {
      assert t[k] == rest[k - 10 - n];
    }
    AlwaysAtIs(t, n);
  }

  /** The layout "always @(" SENS ")" REST, with the last ')' closing SENS, matches at position 0. */
  lemma AlwaysAtIs(t: string, n: nat)
    requires 10 + n <= |t| && 1 <= n && t[..9] == "always @(" && t[9 + n] == ')'
    requires forall k :: 9 <= k < |t| ==> !IsLineTerminator(t[k])
    requires forall k :: 9 + n < k < |t| ==> t[k] != ')'
    ensures AlwaysOn(t) == Some(AlwaysBlock(t[9..9 + n], []))
  {
    assert t[..8] == "always @" && t[..6] == "always";
    assert OccursAt(t, "always", 0);
    assert SpaceRun(t, 6) == 1 by {
      assert t[6] == ' ' && t[7] == '@';
    }
    assert SpaceRun(t, 8) == 0 by {
      assert t[8] == '(';
    }
    NonTerminatorRunAll(t, 9);
    LastCloseParenIs(t, 10, |t|, 9 + n);
    assert AlwaysAt(t, 0) == Some(t[9..9 + n]);
  }

  // ---------------------------------------------------------------------
  // parseModuleInstantiations
  // ---------------------------------------------------------------------

  /** `(s.match(/c/g) || []).length`: the number of occurrences of c. */
  function CountChar(s: string, c: char): (n: nat)
    ensures n <= |s|
  {
    if s == [] then 0
    else CountChar(s[..|s| - 1], c) + (if s[|s| - 1] == c then 1 else 0)
  }

  lemma {:induction false} CountCharAppend(a: string, b: string, c: char)
    ensures CountChar(a + b, c) == CountChar(a, c) + CountChar(b, c)
    decreases |b|
  {
    if b == [] {
      assert a + b == a;
    } else {
      var b' := b[..|b| - 1];
      assert (a + b)[..|a + b| - 1] == a + b';
      CountCharAppend(a, b', c);
    }
  }

  /** Opening minus closing parentheses. */
  function Balance(s: string): int
  {
    CountChar(s, '(') - CountChar(s, ')')
  }

  /** The balance of pieces joined by a space is the sum of their balances. */
  lemma BalanceJoin(a: string, b: string)
    ensures Balance(a + " " + b) == Balance(a) + Balance(b)
  {
    CountCharAppend(a, " ", '(');
    CountCharAppend(a, " ", ')');
    CountCharAppend(a + " ", b, '(');
    CountCharAppend(a + " ", b, ')');
    assert CountChar(" ", '(') == 0 && CountChar(" ", ')') == 0 by {
      assert " "[..0] == [];
    }
  }

  /**
   * `(\w+)\s+(\w+)\s*\(` at position i: the two words. Each `\w+` must take
   * its whole run, as a shorter one leaves a word character where white
   * space or '(' is needed.
   */
  function InstAt(s: string, i: nat): Option<(string, string)>
    requires i <= |s|
  {
    var a := i + WordRun(s, i);
    var b := a + SpaceRun(s, a);
    var c := b + WordRun(s, b);
    var d := c + SpaceRun(s, c);
    if a == i || b == a || c == b || d >= |s| || s[d] != '(' then None
    else Some((s[i..a], s[b..c]))
  }

  function FirstInst(s: string, from: nat): Option<(string, string)>
    requires from <= |s|
    decreases |s| - from
  {
    if from >= |s| then None
    else if InstAt(s, from).Some? then InstAt(s, from)
    else FirstInst(s, from + 1)
  }

  /** One entry of the instantiation list. */
  datatype Instantiation = Instantiation(moduleName: string, instanceName: string, fullInstantiation: string)

  /**
   * The continuation loop: starting at raw line i with balance bal and text
   * acc, while lines remain and the balance is positive, append a space and
   * the next trimmed line. The text and the index where reading stopped.
   */
  function Gather(raw: seq<string>, i: nat, bal: int, acc: string): (r: (string, nat))
    requires i <= |raw|
    ensures i <= r.1 <= |raw|
    decreases |raw| - i
  {
    if i == |raw| || bal <= 0 then (acc, i)
    else
      var next := Trim(raw[i]);
      Gather(raw, i + 1, bal + Balance(next), acc + " " + next)
  }

  /** The trimmed lines, each preceded by a space, one after the other. */
  function Spaced(ls: seq<string>): string
  {
    if ls == [] then "" else " " + Trim(ls[0]) + Spaced(ls[1..])
  }

  /**
   * The continuation appends exactly the lines from i up to where it
   * stops; it stops at the end of the text or at the first point where the
   * parentheses balance, and not before.
   */
  lemma {:induction false} GatherStops(raw: seq<string>, i: nat, acc: string)
    requires i <= |raw|
    ensures var (text, stop) := Gather(raw, i, Balance(acc), acc);
            text == acc + Spaced(raw[i..stop]) &&
            (stop == |raw| || Balance(text) <= 0) &&
            forall m :: i <= m < stop ==> Balance(acc + Spaced(raw[i..m])) > 0
    decreases |raw| - i
  {
    var (text, stop) := Gather(raw, i, Balance(acc), acc);
    if i == |raw| || Balance(acc) <= 0 {
      assert raw[i..i] == [];
    } else {
      var next := Trim(raw[i]);
      var acc' := acc + " " + next;
      BalanceJoin(acc, next);
      GatherStops(raw, i + 1, acc');
      assert Gather(raw, i, Balance(acc), acc) == Gather(raw, i + 1, Balance(acc'), acc');
      SpacedShift(raw, i, stop, acc);
      forall m | i <= m < stop
        ensures Balance(acc + Spaced(raw[i..m])) > 0
      {
        if m > i {
          SpacedShift(raw, i, m, acc);
          assert acc + Spaced(raw[i..m]) == acc' + Spaced(raw[i + 1..m]);
        } else {
          assert raw[i..m] == [];
          assert acc + Spaced(raw[i..m]) == acc;
        }
      }
    }
  }

  /** Moving the first appended line into the accumulated text. */
  lemma SpacedShift(raw: seq<string>, i: nat, j: nat, acc: string)
    requires i < j <= |raw|
    ensures acc + Spaced(raw[i..j]) == acc + " " + Trim(raw[i]) + Spaced(raw[i + 1..j])
  {
    assert raw[i..j][0] == raw[i] && raw[i..j][1..] == raw[i + 1..j];
  }

  /** The instantiation a raw line opens, with its continuation read from raw line start on. */
  function InstanceFrom(raw: seq<string>, k: nat, start: nat): Option<Instantiation>
    requires k < |raw| && start <= |raw|
  {
    var t := Trim(raw[k]);
    match FirstInst(t, 0)
    case None => None
    case Some((m, n)) =>
      if Includes(t, "module") || Includes(t, "endmodule") then None
      else Some(Instantiation(m, n, Gather(raw, start, Balance(t), t).0))
  }

  /** The first raw line equal to x: `lines.indexOf(line)`. */
  function FirstIndex(raw: seq<string>, x: string): (r: int)
    ensures r == -1 <==> x !in raw
    ensures r == -1 || (0 <= r < |raw| && raw[r] == x)
    ensures r >= 0 ==> forall j :: 0 <= j < r ==> raw[j] != x
  {
    if raw == [] then -1
    else if raw[0] == x then 0
    else var r := FirstIndex(raw[1..], x); if r < 0 then -1 else r + 1
  }

  /** As written: the continuation starts after the first raw line equal to the current one. */
  function InstancesAsWritten(raw: seq<string>): (r: seq<Option<Instantiation>>)
    ensures |r| == |raw|
  {
    seq(|raw|, k requires 0 <= k < |raw| => InstanceFrom(raw, k, FirstIndex(raw, raw[k]) + 1))
  }

  lemma AsWrittenAt(raw: seq<string>, k: nat, start: nat)
    requires k < |raw| && start == FirstIndex(raw, raw[k]) + 1
    ensures InstancesAsWritten(raw)[k] == InstanceFrom(raw, k, start)
  {
  }

  /** As intended: the entries of the first n lines, each reading its continuation after its own line. */
  function InstancesUpTo(raw: seq<string>, n: nat): (r: seq<Option<Instantiation>>)
    requires n <= |raw|
    ensures |r| == n
  {
    if n == 0 then [] else InstancesUpTo(raw, n - 1) + [InstanceFrom(raw, n - 1, n)]
  }

  function InstancesOf(raw: seq<string>): (r: seq<Option<Instantiation>>)
    ensures |r| == |raw|
  {
    InstancesUpTo(raw, |raw|)
  }

  /** The entry for line k reads its continuation from line k + 1 on. */
  lemma {:induction false} InstancesUpToAt(raw: seq<string>, n: nat, k: nat)
    requires k < n <= |raw|
    ensures InstancesUpTo(raw, n)[k] == InstanceFrom(raw, k, k + 1)
  {
    if k < n - 1 {
      InstancesUpToAt(raw, n - 1, k);
    }
  }

  /** parseModuleInstantiations, with the continuation read from the lines after the instantiating line. */
  method ParseModuleInstantiations(content: string) returns (r: seq<Instantiation>)
    ensures r == Somes(InstancesOf(Split(content, '\n')))
  {
    r := ScanInstantiations(Split(content, '\n'));
  }

  /** The line loop of parseModuleInstantiations over the raw lines. */
  method ScanInstantiations(raw: seq<string>) returns (r: seq<Instantiation>)
    ensures r == Somes(InstancesOf(raw))
  {
    r := [];
    var k := 0;
    while k < |raw|
      invariant 0 <= k <= |raw|
      invariant r == Somes(InstancesUpTo(raw, k))
    {
      r := ScanInstancesStep(raw, k, r);
      k := k + 1;
    }
  }

  /** One pass of the line loop: the list so far extended by the entry of raw line k. */
  method ScanInstancesStep(raw: seq<string>, k: nat, r: seq<Instantiation>) returns (r': seq<Instantiation>)
    requires k < |raw| && r == Somes(InstancesUpTo(raw, k))
    ensures r' == Somes(InstancesUpTo(raw, k + 1))
  {
    var inst := ScanInstance(raw, k);
    ghost var xs := InstancesUpTo(raw, k + 1);
    assert xs[..k] == InstancesUpTo(raw, k);
    SomesStep(xs, k);
    assert xs[..k + 1] == xs;
    r' := r;
    if inst.Some? {
      r' := r + [inst.value];
    }
  }

  /** The body of the line loop for raw line k, with its continuation loop. */
  method ScanInstance(raw: seq<string>, k: nat) returns (inst: Option<Instantiation>)
    requires k < |raw|
    ensures inst == InstanceFrom(raw, k, k + 1)
  {
    var t := Trim(raw[k]);
    var m := FirstInst(t, 0);
    inst := None;
    if m.Some? && !Includes(t, "module") && !Includes(t, "endmodule") {
      var full := t;
      var bal := Balance(t);
      var i := k + 1;
      while i < |raw| && bal > 0
        invariant k + 1 <= i <= |raw|
        invariant Gather(raw, i, bal, full) == Gather(raw, k + 1, Balance(t), t)
        decreases |raw| - i
      {
        var next := Trim(raw[i]);
        full := full + " " + next;
        bal := bal + Balance(next);
        i := i + 1;
      }
      inst := Some(Instantiation(m.value.0, m.value.1, full));
    }
  }

  /** When no raw line repeats, reading after the first equal line is reading after the current one. */
  lemma InstancesAgreeWhenDistinct(raw: seq<string>)
    requires forall a, b :: 0 <= a < b < |raw| ==> raw[a] != raw[b]
    ensures InstancesAsWritten(raw) == InstancesOf(raw)
  {
    forall k | 0 <= k < |raw|
      ensures InstancesAsWritten(raw)[k] == InstancesOf(raw)[k]
    {
      InstancesUpToAt(raw, |raw|, k);
      var r := FirstIndex(raw, raw[k]);
      assert raw[k] in raw;
      assert r == k;
    }
  }

  /**
   * Two identical instantiating lines: as written, the second instance is
   * given the continuation of the first.
   */
  lemma RepeatedLineAsWritten(raw: seq<string>)
    requires raw == ["a b(", "x)", "a b(", "y)"]
    ensures InstancesAsWritten(raw)[2] == Some(Instantiation("a", "b", "a b( x)"))
    ensures InstancesOf(raw)[2] == Some(Instantiation("a", "b", "a b( y)"))
  {
    ExampleBalances();
    ExampleAsWritten(raw);
    ExampleCorrected(raw);
  }

  lemma ExampleBalances()
    ensures Balance("a b(") == 1 && Balance("x)") == -1 && Balance("y)") == -1
  {
    CountSmall("a b(");
    CountSmall("x)");
    CountSmall("y)");
  }

  lemma ExampleAsWritten(raw: seq<string>)
    requires |raw| == 4 && raw[0] == raw[2] == "a b(" && raw[1] == "x)"
    requires Balance("a b(") == 1 && Balance("x)") == -1 && Balance("y)") == -1
    ensures InstancesAsWritten(raw)[2] == Some(Instantiation("a", "b", "a b( x)"))
  {
    ExampleFirstIndex(raw);
    AsWrittenAt(raw, 2, 1);
    InstanceOfOpen(raw, 2, 1);
    ExampleTexts();
  }

  lemma ExampleCorrected(raw: seq<string>)
    requires |raw| == 4 && raw[2] == "a b(" && raw[3] == "y)"
    requires Balance("a b(") == 1 && Balance("x)") == -1 && Balance("y)") == -1
    ensures InstancesOf(raw)[2] == Some(Instantiation("a", "b", "a b( y)"))
  {
    InstanceOfOpen(raw, 2, 3);
    ExampleTexts();
    InstancesUpToAt(raw, 4, 2);
  }

  lemma ExampleFirstIndex(raw: seq<string>)
    requires |raw| == 4 && raw[0] == raw[2]
    ensures FirstIndex(raw, raw[2]) == 0
  {
  }

  lemma ExampleTexts()
    ensures "a b(" + " " + "x)" == "a b( x)" && "a b(" + " " + "y)" == "a b( y)"
  {
  }

  /** The line "a b(" closed by the single line at start. */
  lemma InstanceOfOpen(raw: seq<string>, k: nat, start: nat)
    requires k < |raw| && start < |raw| && raw[k] == "a b(" && raw[start] in {"x)", "y)"}
    requires Balance("a b(") == 1 && Balance("x)") == -1 && Balance("y)") == -1
    ensures InstanceFrom(raw, k, start) == Some(Instantiation("a", "b", "a b(" + " " + raw[start]))
  {
    var t := "a b(";
    TrimmedAlready(t);
    TrimmedAlready(raw[start]);
    InstAbOpen(t);
    NoModuleWord(t);
    GatherOneLine(raw, start, 1, t);
  }

  /** A continuation that balances after one line. */
  lemma GatherOneLine(raw: seq<string>, i: nat, bal: int, acc: string)
    requires i < |raw| && bal > 0 && bal + Balance(Trim(raw[i])) <= 0
    ensures Gather(raw, i, bal, acc).0 == acc + " " + Trim(raw[i])
  {
  }

  lemma InstAbOpen(t: string)
    requires t == "a b("
    ensures FirstInst(t, 0) == Some(("a", "b"))
  {
    assert WordRun(t, 0) == 1 by { assert IsWordChar(t[0]) && !IsWordChar(t[1]); }
    assert SpaceRun(t, 1) == 1 by { assert IsSpace(t[1]) && !IsSpace(t[2]); }
    assert WordRun(t, 2) == 1 by { assert IsWordChar(t[2]) && !IsWordChar(t[3]); }
    assert SpaceRun(t, 3) == 0 by { assert !IsSpace(t[3]); }
    assert t[0..1] == "a" && t[2..3] == "b";
  }

  lemma NoModuleWord(t: string)
    requires |t| < 6
    ensures !Includes(t, "module") && !Includes(t, "endmodule")
  {
  }

  /** The parenthesis counts of the three short lines of the example. */
  lemma CountSmall(t: string)
    requires t in {"a b(", "x)", "y)"}
    ensures t == "a b(" ==> Balance(t) == 1
    ensures t != "a b(" ==> Balance(t) == -1
  {
    if t == "a b(" {
      assert t[..3] == "a b" && t[..3][..2] == "a " && t[..3][..2][..1] == "a" && t[..3][..2][..1][..0] == [];
      assert CountChar("a", '(') == 0 && CountChar("a", ')') == 0;
      assert CountChar("a ", '(') == 0 && CountChar("a ", ')') == 0;
      assert CountChar("a b", '(') == 0 && CountChar("a b", ')') == 0;
    } else {
      assert t[..1][..0] == [];
      assert CountChar(t[..1], '(') == 0 && CountChar(t[..1], ')') == 0;
    }
  }
}
