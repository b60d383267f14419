/**
 * The string-level expression evaluator of the preview simulator: an
 * expression is trimmed, classified by its shape (concatenation, ternary,
 * a binary operator, a bit select, a signal name or a sized literal) and
 * evaluated over the simulator's signals and pixel state. The regular
 * expressions of the evaluator are written out as shape predicates.
 */
module VerilogEval {
  import opened JsValues
  import opened JsInt
  import opened JsString

  /**
   * What an expression can read: the declared signals (bit arrays, least
   * significant bit first) and the pixel state of the simulator.
   */
  datatype Env = Env(signals: map<string, seq<int>>, pixX: int, pixY: int, movingX: int, videoActive: bool)

  /** `\w+` */
  predicate IsWord(s: string)
  {
    |s| > 0 && forall i :: 0 <= i < |s| ==> IsWordChar(s[i])
  }

  /** `\d+` */
  predicate AllDigits(s: string)
  {
    |s| > 0 && forall i :: 0 <= i < |s| ==> IsDigit(s[i])
  }

  /** `[01]+` */
  predicate AllBinary(s: string)
  {
    |s| > 0 && forall i :: 0 <= i < |s| ==> s[i] == '0' || s[i] == '1'
  }

  /** `[0-9A-Fa-f]+` */
  predicate AllHex(s: string)
  {
    |s| > 0 && forall i :: 0 <= i < |s| ==> DigitValue(s[i]) < 16
  }

  /** `^\{([^}]+)\}$`: the text between the braces. */
  function ConcatBody(t: string): (r: Option<string>)
    ensures r.Some? ==> |r.value| + 2 == |t|
  {
    if |t| >= 3 && t[0] == '{' && t[|t| - 1] == '}' && LastIndexBelow(t, '}', |t| - 1) < 1 then
      Some(t[1..|t| - 1])
    else None
  }

  /** The body is what lies between the braces: non-empty, and without a closing brace. */
  lemma ConcatBodyShape(t: string)
    requires ConcatBody(t).Some?
    ensures t == "{" + ConcatBody(t).value + "}" && ConcatBody(t).value != [] && '}' !in ConcatBody(t).value
  {
    var body := t[1..|t| - 1];
    LastIndexFacts(t, '}', |t| - 1);
    assert forall j :: 0 <= j < |body| ==> body[j] == t[j + 1];
    assert t == "{" + body + "}";
  }

  /** The last position below hi holding c, or -1. */
  function LastIndexBelow(t: string, c: char, hi: int): (r: int)
    requires hi <= |t|
    ensures r == -1 || 0 <= r < hi
    ensures r >= 0 ==> t[r] == c
    decreases hi
  {
    if hi <= 0 then -1
    else if t[hi - 1] == c then hi - 1
    else LastIndexBelow(t, c, hi - 1)
  }

  /** No position between the result and hi holds c. */
  lemma {:induction false} LastIndexFacts(t: string, c: char, hi: int)
    requires hi <= |t|
    ensures forall i :: LastIndexBelow(t, c, hi) < i < hi ==> t[i] != c
    decreases hi
  {
    if hi > 0 && t[hi - 1] != c {
      LastIndexFacts(t, c, hi - 1);
    }
  }

  /** Whether some character from position i on is a line terminator. */
  predicate TerminatorFrom(t: string, i: nat)
    decreases |t| - i
  {
    i < |t| && (IsLineTerminator(t[i]) || TerminatorFrom(t, i + 1))
  }

  /**
   * `^(.+)\s*\?\s*(.+)\s*:\s*(.+)$` on a text without line terminators: the
   * last ':' that leaves a character after it, and the last '?' that leaves
   * a character before it and one before that ':'. The three parts are
   * returned untrimmed; evaluation trims them.
   */
  function TernaryParts(t: string): (r: Option<(string, string, string)>)
    ensures r.Some? ==> |r.value.0| < |t| && |r.value.1| < |t| && |r.value.2| < |t|
  {
    if TerminatorFrom(t, 0) then None
    else
      var l := LastIndexBelow(t, ':', |t| - 1);
      if l < 3 then None
      else
        var q := LastIndexBelow(t, '?', l - 1);
        if q < 1 then None
        else Some((t[..q], t[q + 1..l], t[l + 1..]))
  }

  /** The ternary's parts are cut at a '?' and a later ':', each part non-empty. */
  lemma TernaryShape(t: string)
    requires TernaryParts(t).Some?
    ensures (exists q, l :: 1 <= q && q + 2 <= l && l + 2 <= |t| && t[q] == '?' && t[l] == ':' &&
                           TernaryParts(t).value == (t[..q], t[q + 1..l], t[l + 1..]))
  {
    var l := LastIndexBelow(t, ':', |t| - 1);
    var q := LastIndexBelow(t, '?', l - 1);
    assert TernaryParts(t).value == (t[..q], t[q + 1..l], t[l + 1..]);
  }

  /** p[j..] occurs in t at position i + j, compared one character at a time. */
  predicate MatchFrom(t: string, p: string, i: nat, j: nat)
    decreases |p| - j
  {
    j >= |p| || (i + j < |t| && t[i + j] == p[j] && MatchFrom(t, p, i, j + 1))
  }

  lemma {:induction false} MatchFromIsSlice(t: string, p: string, i: nat, j: nat)
    requires j <= |p| && i + |p| <= |t|
    ensures MatchFrom(t, p, i, j) <==> t[i + j..i + |p|] == p[j..]
    decreases |p| - j
  {
    if j < |p| {
      MatchFromIsSlice(t, p, i, j + 1);
      assert t[i + j..i + |p|] == [t[i + j]] + t[i + j + 1..i + |p|];
      assert p[j..] == [p[j]] + p[j + 1..];
    }
  }

  /**
   * The first position at or after from where p occurs, or -1: the scan
   * behind `t.includes(p)` and `t.split(p)`.
   */
  function Find(t: string, p: string, from: nat): (r: int)
    ensures r == -1 || (from <= r && r + |p| <= |t|)
    decreases |t| - from
  {
    if from + |p| > |t| then -1
    else if MatchFrom(t, p, from, 0) then from
    else Find(t, p, from + 1)
  }

  /** The scan is `indexOf`. */
  lemma {:induction false} FindIsIndexOf(t: string, p: string, from: nat)
    ensures Find(t, p, from) == IndexOfFrom(t, p, from)
    decreases |t| - from
  {
    if from + |p| <= |t| {
      MatchFromIsSlice(t, p, from, 0);
      assert t[from + 0..from + |p|] == t[from..from + |p|];
      if !MatchFrom(t, p, from, 0) {
        FindIsIndexOf(t, p, from + 1);
      }
    }
  }

  /** A text without the character c does not include a pattern holding c. */
  lemma {:induction false} FindAbsent(t: string, p: string, from: nat, j: nat, c: char)
    requires j < |p| && p[j] == c
    requires forall i :: 0 <= i < |t| ==> t[i] != c
    ensures Find(t, p, from) == -1
    decreases |t| - from
  {
    if from + |p| <= |t| {
      MatchAbsent(t, p, from, 0, j, c);
      FindAbsent(t, p, from + 1, j, c);
    }
  }

  lemma {:induction false} MatchAbsent(t: string, p: string, i: nat, k: nat, j: nat, c: char)
    requires k <= j < |p| && p[j] == c
    requires forall n :: 0 <= n < |t| ==> t[n] != c
    ensures !MatchFrom(t, p, i, k)
    decreases j - k
  {
    if k < j && i + k < |t| && t[i + k] == p[k] {
      MatchAbsent(t, p, i, k + 1, j, c);
    }
  }

  /** The first two pieces of `t.split(sep)` when t includes sep. */
  function SplitTwo(t: string, sep: string): (r: (string, string))
    requires sep != [] && Find(t, sep, 0) >= 0
    ensures |r.0| < |t| && |r.1| < |t|
  {
    var i := Find(t, sep, 0);
    var rest := t[i + |sep|..];
    var j := Find(rest, sep, 0);
    (t[..i], if j < 0 then rest else rest[..j])
  }

  /** The left part is everything before the first occurrence of the separator. */
  lemma SplitTwoLeft(t: string, sep: string)
    requires sep != [] && Find(t, sep, 0) >= 0
    ensures var l := SplitTwo(t, sep).0;
            t[..|l|] == l && OccursAt(t, sep, |l|) && !Includes(l, sep)
  {
    FindIsIndexOf(t, sep, 0);
    var i := IndexOf(t, sep);
    forall k: nat
      ensures !OccursAt(t[..i], sep, k)
    {
      if k + |sep| <= i {
        assert t[..i][k..k + |sep|] == t[k..k + |sep|] by {
          assert forall j :: k <= j < k + |sep| ==> t[..i][j] == t[j];
        }
        assert !OccursAt(t, sep, k);
      }
    }
  }

  /** `^(\w+)\[(\d+)\]$`: the signal name and the index digits. */
  function BitSelect(t: string): (r: Option<(string, string)>)
  {
    var k := WordRun(t, 0);
    if 1 <= k && k + 2 < |t| && t[k] == '[' && t[|t| - 1] == ']' && DigitRun(t, k + 1) == |t| - k - 2 then
      Some((t[..k], t[k + 1..|t| - 1]))
    else None
  }

  /** A bit select is a name, then index digits between square brackets. */
  lemma BitSelectShape(t: string)
    requires BitSelect(t).Some?
    ensures var (name, index) := BitSelect(t).value;
            t == name + "[" + index + "]" && IsWord(name) && AllDigits(index)
  {
    var k := WordRun(t, 0);
    WordRunFacts(t, 0);
    DigitRunFacts(t, k + 1);
    var name := t[..k];
    var index := t[k + 1..|t| - 1];
    assert forall j :: 0 <= j < |name| ==> name[j] == t[j];
    assert forall j :: 0 <= j < |index| ==> index[j] == t[k + 1 + j];
    assert t == name + "[" + index + "]";
  }

  /**
   * `^(\d+)'L(D+)$` for the letter L and the digits D of the radix: the
   * payload after the size digits, the apostrophe and the letter.
   */
  function SizedPayload(t: string, letter: char, radix: nat): (r: Option<string>)
  {
    var k := DigitRun(t, 0);
    if 1 <= k && k + 2 < |t| && t[k] == '\'' && t[k + 1] == letter && RadixRun(t, k + 2, radix) == |t| - k - 2 then
      Some(t[k + 2..])
    else None
  }

  /** The payload follows a size of one or more digits, an apostrophe and the letter, and is all digits of the radix. */
  lemma SizedPayloadShape(t: string, letter: char, radix: nat)
    requires SizedPayload(t, letter, radix).Some?
    ensures var payload := SizedPayload(t, letter, radix).value;
            payload != [] && (forall i :: 0 <= i < |payload| ==> DigitValue(payload[i]) < radix) &&
            (exists k :: 1 <= k && k + 2 <= |t| && AllDigits(t[..k]) && t == t[..k] + ['\'', letter] + payload)
  {
    var k := DigitRun(t, 0);
    DigitRunFacts(t, 0);
    SizedPrefixDigits(t, k);
    SizedSplit(t, k, letter);
  }

  lemma SizedPrefixDigits(t: string, k: nat)
    requires 1 <= k <= |t| && forall i :: 0 <= i < k ==> IsDigit(t[i])
    ensures AllDigits(t[..k])
  {
    assert forall j :: 0 <= j < k ==> t[..k][j] == t[j];
  }

  lemma SizedSplit(t: string, k: nat, letter: char)
    requires k + 2 <= |t| && t[k] == '\'' && t[k + 1] == letter
    ensures t == t[..k] + ['\'', letter] + t[k + 2..]
  {
    assert t[k..k + 2] == ['\'', letter];
    assert t == t[..k] + t[k..k + 2] + t[k + 2..];
  }

  /** `^(\d+)'b([01]+)$`: the binary digits. */
  function BinaryLiteral(t: string): Option<string>
  {
    SizedPayload(t, 'b', 2)
  }

  /** `^(\d+)'h([0-9A-Fa-f]+)$`: the hexadecimal digits. */
  function HexLiteral(t: string): Option<string>
  {
    SizedPayload(t, 'h', 16)
  }

  /** `^(\d+)'[bh]?([0-9A-Fa-f]+)$`: the size digits of a sized constant. */
  function ConstSize(t: string): (r: Option<string>)
    ensures r.Some? ==> AllDigits(r.value)
  {
    var k := DigitRun(t, 0);
    DigitRunFacts(t, 0);
    if 1 <= k && k + 1 < |t| && t[k] == '\'' then
      if RadixRun(t, k + 1, 16) == |t| - k - 1 ||
         (k + 2 < |t| && (t[k + 1] == 'b' || t[k + 1] == 'h') && RadixRun(t, k + 2, 16) == |t| - k - 2) then
        assert forall j :: 0 <= j < k ==> t[..k][j] == t[j];
        Some(t[..k])
      else None
    else None
  }

  datatype BinOp = Lt | Gt | Eq | Add | Sub | BitAndOp | BitOrOp

  /** The shape of a trimmed expression, in the order the evaluator tries them. */
  datatype Form =
    | FConcat(inner: string)
    | FTernary(cond: string, yes: string, no: string)
    | FBin(op: BinOp, left: string, right: string)
    | FBitSel(name: string, index: string)
    | FSignal(name: string)
    | FBinary(bits: string)
    | FDecimal(digits: string)
    | FHex(hex: string)
    | FNone

  /** Every expression the form refers to is shorter than the classified text. */
  predicate Smaller(f: Form, n: nat)
  {
    match f
    case FConcat(inner) => |inner| < n
    case FTernary(c, a, b) => |c| < n && |a| < n && |b| < n
    case FBin(_, l, r) => |l| < n && |r| < n
    case _ => true
  }

  /** The first operator the text includes, in the order the evaluator tests them. */
  function OperatorOf(t: string): (r: Option<(BinOp, string)>)
    ensures r.Some? ==> r.value.1 != [] && Find(t, r.value.1, 0) >= 0
  {
    if Find(t, "<", 0) >= 0 then Some((Lt, "<"))
    else if Find(t, ">", 0) >= 0 then Some((Gt, ">"))
    else if Find(t, "==", 0) >= 0 then Some((Eq, "=="))
    else if Find(t, "+", 0) >= 0 then Some((Add, "+"))
    else if Find(t, "-", 0) >= 0 then Some((Sub, "-"))
    else if Find(t, "&", 0) >= 0 then Some((BitAndOp, "&"))
    else if Find(t, "|", 0) >= 0 then Some((BitOrOp, "|"))
    else None
  }

  /**
   * The classification. With decimalFirst false it follows the source,
   * where a plain decimal is taken by the signal-name form first; with
   * decimalFirst true a plain decimal is a decimal constant.
   */
  function Classify(t: string, decimalFirst: bool): (f: Form)
    ensures Smaller(f, |t|)
  {
    if ConcatBody(t).Some? then FConcat(ConcatBody(t).value)
    else if TernaryParts(t).Some? then
      var (c, a, b) := TernaryParts(t).value;
      FTernary(c, a, b)
    else if OperatorOf(t).Some? then
      var (op, sym) := OperatorOf(t).value;
      var (l, r) := SplitTwo(t, sym);
      FBin(op, l, r)
    else ClassifyLeaf(t, decimalFirst)
  }

  /** The forms without sub-expressions: bit select, names and literals. */
  function ClassifyLeaf(t: string, decimalFirst: bool): (f: Form)
    ensures f.FBitSel? || f.FSignal? || f.FBinary? || f.FDecimal? || f.FHex? || f.FNone?
  {
    if BitSelect(t).Some? then FBitSel(BitSelect(t).value.0, BitSelect(t).value.1)
    else if decimalFirst && AllDigits(t) then FDecimal(t)
    else if IsWord(t) then FSignal(t)
    else if BinaryLiteral(t).Some? then FBinary(BinaryLiteral(t).value)
    else if AllDigits(t) then FDecimal(t)
    else if HexLiteral(t).Some? then FHex(HexLiteral(t).value)
    else FNone
  }

  /** The value of a form without sub-expressions. */
  function LeafValue(f: Form, env: Env): int
  {
    match f
    case FBitSel(name, index) => SignalBit(env, name, DigitsValue(index, 10))
    case FSignal(name) => SignalValue(env, name)
    case FBinary(bits) => DigitsValue(bits, 2)
    case FDecimal(digits) => DigitsValue(digits, 10)
    case FHex(hex) => DigitsValue(hex, 16)
    case _ => 0
  }

  /**
   * A binary operator on two evaluated operands: comparisons give 1 or 0,
   * `+` and `-` are exact, `&` and `|` are the 32-bit bitwise operators.
   */
  function Apply(op: BinOp, x: int, y: int): (r: int)
    ensures op == Lt ==> (r == 1 <==> x < y) && (r == 0 <==> x >= y)
    ensures op == Gt ==> (r == 1 <==> x > y) && (r == 0 <==> x <= y)
    ensures op == Eq ==> (r == 1 <==> x == y) && (r == 0 <==> x != y)
    ensures op == Add ==> r == x + y
    ensures op == Sub ==> r == x - y
    ensures op == BitAndOp ==> r == And(x, y)
    ensures op == BitOrOp ==> r == Or(x, y)
  {
    match op
    case Lt => if x < y then 1 else 0
    case Gt => if x > y then 1 else 0
    case Eq => if x == y then 1 else 0
    case Add => x + y
    case Sub => x - y
    case BitAndOp => And(x, y)
    case BitOrOp => Or(x, y)
  }

  /** `&` and `|` act bit by bit on the 32-bit patterns of their operands. */
  lemma ApplyBitwise(x: int, y: int, k: nat)
    ensures Bit(Apply(BitAndOp, x, y), k) == Bit(x, k) * Bit(y, k)
    ensures Bit(Apply(BitOrOp, x, y), k) == if Bit(x, k) == 1 || Bit(y, k) == 1 then 1 else 0
  {
    AndBit(x, y, k);
    OrBit(x, y, k);
  }

  /** getSignalBit: a bit of a pixel coordinate, of a declared signal, or 0. */
  function SignalBit(env: Env, name: string, i: nat): (b: int)
    ensures name == "pix_x" ==> b == Bit(env.pixX, i % 32)
    ensures name == "pix_y" ==> b == Bit(env.pixY, i % 32)
    ensures name == "moving_x" ==> b == Bit(env.movingX, i % 32)
    ensures name !in {"pix_x", "pix_y", "moving_x"} ==>
              b == if name in env.signals && i < |env.signals[name]| then env.signals[name][i] else 0
  {
    if name == "pix_x" then ShiftedBit(env.pixX, i); And(Sar(env.pixX, i), 1)
    else if name == "pix_y" then ShiftedBit(env.pixY, i); And(Sar(env.pixY, i), 1)
    else if name == "moving_x" then ShiftedBit(env.movingX, i); And(Sar(env.movingX, i), 1)
    else if name in env.signals && i < |env.signals[name]| then env.signals[name][i]
    else 0
  }

  /** `(v >> i) & 1` with the shift count taken modulo 32. */
  lemma ShiftedBit(v: int, i: nat)
    ensures And(Sar(v, i), 1) == Bit(v, i % 32)
  {
    Pow2Known();
    ModOfUint32(i, 5);
    var k := i % 32;
    assert ToUint32(i) % 32 == k;
    assert ToUint32(k) % 32 == k;
    assert Sar(v, i) == ToInt32(v) / Pow2(k);
    SarBit(v, k);
  }

  /**
   * The fold `result |= value << position; position += width` over
   * (value, width) pairs, with JavaScript's 32-bit operators.
   */
  function OrShiftFold(vs: seq<(int, nat)>, result: int, pos: nat): int
  {
    if vs == [] then result
    else OrShiftFold(vs[1..], Or(result, Shl(vs[0].0, pos)), pos + vs[0].1)
  }

  /** The arithmetic meaning of packing: each value times 2 to the power of its offset. */
  function PackSum(vs: seq<(int, nat)>, pos: nat): int
  {
    if vs == [] then 0 else vs[0].0 * Pow2(pos) + PackSum(vs[1..], pos + vs[0].1)
  }

  function TotalWidth(vs: seq<(int, nat)>): nat
  {
    if vs == [] then 0 else vs[0].1 + TotalWidth(vs[1..])
  }

  predicate FitsWidths(vs: seq<(int, nat)>)
  {
    forall i :: 0 <= i < |vs| ==> 0 <= vs[i].0 < Pow2(vs[i].1)
  }

  /**
   * When every value fits its width and the total stays within 31 bits,
   * the fold places each value at the sum of the widths before it, without
   * overlap: OR-ing is adding.
   */
  lemma {:induction false} OrShiftFoldPacks(vs: seq<(int, nat)>, result: int, pos: nat)
    requires 0 <= result < Pow2(pos) && FitsWidths(vs) && pos + TotalWidth(vs) <= 31
    ensures OrShiftFold(vs, result, pos) == result + PackSum(vs, pos)
    decreases |vs|
  {
    if vs != [] {
      var placed := OrShiftFoldHead(vs, result, pos);
      OrShiftFoldPacks(vs[1..], result + placed, pos + vs[0].1);
    }
  }

  /** The first step of the fold: the first value placed at pos, by OR or by adding. */
  lemma OrShiftFoldHead(vs: seq<(int, nat)>, result: int, pos: nat) returns (placed: int)
    requires vs != [] && 0 <= result < Pow2(pos) && FitsWidths(vs) && pos + TotalWidth(vs) <= 31
    ensures placed == vs[0].0 * Pow2(pos)
    ensures OrShiftFold(vs, result, pos) == OrShiftFold(vs[1..], result + placed, pos + vs[0].1)
    ensures PackSum(vs, pos) == placed + PackSum(vs[1..], pos + vs[0].1)
    ensures 0 <= result + placed < Pow2(pos + vs[0].1)
    ensures FitsWidths(vs[1..]) && pos + vs[0].1 + TotalWidth(vs[1..]) == pos + TotalWidth(vs)
  {
    var v, w := vs[0].0, vs[0].1;
    placed := v * Pow2(pos);
    assert 0 <= v < Pow2(w);
    OrShiftStep(result, v, pos, w);
    FitsTail(vs);
  }

  lemma FitsTail(vs: seq<(int, nat)>)
    requires vs != [] && FitsWidths(vs)
    ensures FitsWidths(vs[1..])
  {
    forall i | 0 <= i < |vs[1..]| ensures 0 <= vs[1..][i].0 < Pow2(vs[1..][i].1) {
      assert vs[1..][i] == vs[i + 1];
    }
  }

  /** One packing step: `result | (v << pos)` is `result + v 2^pos` below 2^(pos + w). */
  lemma OrShiftStep(result: int, v: int, pos: nat, w: nat)
    requires 0 <= result < Pow2(pos) && 0 <= v < Pow2(w) && pos + w <= 31
    ensures Or(result, Shl(v, pos)) == result + v * Pow2(pos)
    ensures 0 <= result + v * Pow2(pos) < Pow2(pos + w)
  {
    var x := v * Pow2(pos);
    PackedBelow(result, v, pos, w);
    Pow2Known();
    Pow2Monotone(pos + w, 31);
    Pow2Monotone(w, 31);
    assert 0 <= x < TWO31;
    ShlExact(v, pos);
    assert Shl(v, pos) == x;
    BitOrDisjoint(result, v, pos);
    assert Or(result, x) == ToInt32(BitOr(result, x));
  }

  lemma PackedBelow(result: int, v: int, pos: nat, w: nat)
    requires 0 <= result < Pow2(pos) && 0 <= v < Pow2(w)
    ensures 0 <= v * Pow2(pos) && result + v * Pow2(pos) < Pow2(pos + w)
  {
    var p := Pow2(pos);
    MulLeMono(v, Pow2(w) - 1, p);
    MulDistSub(p, Pow2(w), 1);
    assert (Pow2(w) - 1) * p == Pow2(w) * p - p;
    Pow2Add(pos, w);
  }

  /** The value of a bit array, least significant bit first. */
  function LsbValue(bits: seq<int>): int
  {
    if bits == [] then 0 else bits[0] + 2 * LsbValue(bits[1..])
  }

  /** Each element of a bit array as a one-bit part. */
  function BitPairs(bits: seq<int>): (vs: seq<(int, nat)>)
    ensures |vs| == |bits|
    ensures forall i :: 0 <= i < |bits| ==> vs[i] == (bits[i], 1)
  {
    seq(|bits|, i requires 0 <= i < |bits| => (bits[i], 1))
  }

  /** getSignalValue: a pixel coordinate, video_active as 0 or 1, a declared signal's bits packed, or 0. */
  function SignalValue(env: Env, name: string): int
  {
    if name == "pix_x" then env.pixX
    else if name == "pix_y" then env.pixY
    else if name == "moving_x" then env.movingX
    else if name == "video_active" then (if env.videoActive then 1 else 0)
    else if name in env.signals then OrShiftFold(BitPairs(env.signals[name]), 0, 0)
    else 0
  }

  /** A signal of at most 31 bits reads as the number its bits spell, least significant first. */
  lemma SignalValueOfBits(env: Env, name: string)
    requires name !in {"pix_x", "pix_y", "moving_x", "video_active"} && name in env.signals
    requires |env.signals[name]| <= 31
    requires forall i :: 0 <= i < |env.signals[name]| ==> env.signals[name][i] == 0 || env.signals[name][i] == 1
    ensures SignalValue(env, name) == LsbValue(env.signals[name])
  {
    var bits := env.signals[name];
    assert FitsWidths(BitPairs(bits)) by {
      assert Pow2(1) == 2;
    }
    TotalWidthOfBits(bits);
    OrShiftFoldPacks(BitPairs(bits), 0, 0);
    PackSumOfBits(bits, 0);
  }

  lemma {:induction false} TotalWidthOfBits(bits: seq<int>)
    ensures TotalWidth(BitPairs(bits)) == |bits|
  {
    if bits != [] {
      assert BitPairs(bits)[1..] == BitPairs(bits[1..]);
      TotalWidthOfBits(bits[1..]);
    }
  }

  lemma {:induction false} PackSumOfBits(bits: seq<int>, pos: nat)
    ensures PackSum(BitPairs(bits), pos) == Pow2(pos) * LsbValue(bits)
  {
    if bits != [] {
      assert BitPairs(bits)[1..] == BitPairs(bits[1..]);
      PackSumOfBits(bits[1..], pos + 1);
      assert Pow2(pos + 1) == 2 * Pow2(pos);
      assert Pow2(pos) * LsbValue(bits) == Pow2(pos) * bits[0] + Pow2(pos) * (2 * LsbValue(bits[1..]));
    }
  }

  /** getBitWidth: a declared signal's length, 1 for a bit select, the size of a sized constant, else 1. */
  function BitWidth(t: string, signals: map<string, seq<int>>): (w: nat)
    ensures IsWord(t) && t in signals ==> w == |signals[t]|
    ensures !(IsWord(t) && t in signals) && BitSelect(t).Some? ==> w == 1
    ensures !(IsWord(t) && t in signals) && BitSelect(t).None? && ConstSize(t).Some? ==>
              w == DigitsValue(ConstSize(t).value, 10)
    ensures !(IsWord(t) && t in signals) && BitSelect(t).None? && ConstSize(t).None? ==> w == 1
  {
    if IsWord(t) && t in signals then |signals[t]|
    else if BitSelect(t).Some? then 1
    else if ConstSize(t).Some? then DigitsValue(ConstSize(t).value, 10)
    else 1
  }

  /** A sized binary or hexadecimal literal is as wide as its size digits say, whatever signals are declared. */
  lemma SizedLiteralWidth(size: string, letter: char, payload: string, signals: map<string, seq<int>>)
    requires AllDigits(size) && (letter == 'b' || letter == 'h') && AllHex(payload)
    ensures BitWidth(size + ['\'', letter] + payload, signals) == DigitsValue(size, 10)
  {
    var t := size + ['\'', letter] + payload;
    var k := |size|;
    SizedTextOf(size, letter, payload);
    SizedTextRuns(t, k, letter);
    SizedTextPayload(t, k, letter, 16);
    assert t[..k] == size;
    assert ConstSize(t) == Some(size);
  }

  /** The parts of a concatenation body: split at commas and trimmed. */
  function ConcatParts(inner: string): (parts: seq<string>)
    ensures forall i :: 0 <= i < |parts| ==> |parts[i]| <= |inner|
  {
    var pieces := Split(inner, ',');
    SplitPiecesShort(inner, ',');
    seq(|pieces|, i requires 0 <= i < |pieces| => Trim(pieces[i]))
  }

  /** evaluateExpression, with the placement of plain decimals chosen by decimalFirst. */
  function EvaluateWith(e: string, env: Env, decimalFirst: bool): int
    decreases |e|, 1
  {
    var t := Trim(e);
    EvaluateForm(Classify(t, decimalFirst), |t|, env, decimalFirst)
  }

  /** The value of a classified expression; bound is the length of the classified text. */
  function EvaluateForm(f: Form, bound: nat, env: Env, decimalFirst: bool): int
    requires Smaller(f, bound)
    decreases bound, 0
  {
    match f
    case FConcat(inner) => OrShiftFold(ConcatPairsWith(inner, env, decimalFirst), 0, 0)
    case FTernary(c, a, b) =>
      var cond := EvaluateWith(c, env, decimalFirst);
      var yes := EvaluateWith(a, env, decimalFirst);
      var no := EvaluateWith(b, env, decimalFirst);
      if cond != 0 then yes else no
    case FBin(op, l, r) =>
      var x := EvaluateWith(l, env, decimalFirst);
      var y := EvaluateWith(r, env, decimalFirst);
      Apply(op, x, y)
    case _ => LeafValue(f, env)
  }

  /** The (value, width) pairs a concatenation body packs, part by part. */
  function ConcatPairsWith(inner: string, env: Env, decimalFirst: bool): (vs: seq<(int, nat)>)
    ensures |vs| == |ConcatParts(inner)|
    ensures forall i :: 0 <= i < |vs| ==> vs[i].1 == BitWidth(ConcatParts(inner)[i], env.signals)
    decreases |inner|, 2
  {
    var parts := ConcatParts(inner);
    seq(|parts|, i requires 0 <= i < |parts| =>
          (EvaluateWith(parts[i], env, decimalFirst), BitWidth(parts[i], env.signals)))
  }

  /** The evaluator as written: a plain decimal is read as a signal name. */
  function EvaluateAsWritten(e: string, env: Env): int
  {
    EvaluateWith(e, env, false)
  }

  /** The evaluator with plain decimals evaluated as constants; the simulator uses this one. */
  function Evaluate(e: string, env: Env): int
  {
    EvaluateWith(e, env, true)
  }

  /** The (value, width) pairs of a concatenation body under the simulator's evaluator. */
  function ConcatPairs(inner: string, env: Env): (vs: seq<(int, nat)>)
    ensures |vs| == |ConcatParts(inner)|
  {
    ConcatPairsWith(inner, env, true)
  }

  /** Pair i of a concatenation is the value and the width of part i. */
  lemma ConcatPairsAt(inner: string, env: Env, i: nat)
    requires i < |ConcatParts(inner)|
    ensures ConcatPairs(inner, env)[i] ==
            (Evaluate(ConcatParts(inner)[i], env), BitWidth(ConcatParts(inner)[i], env.signals))
  {
  }

  /** One unfolding of the evaluator: classify the trimmed text, then evaluate the form. */
  lemma EvaluateUnfold(e: string, env: Env, decimalFirst: bool)
    ensures EvaluateWith(e, env, decimalFirst) ==
            EvaluateForm(Classify(Trim(e), decimalFirst), |Trim(e)|, env, decimalFirst)
  {
  }

  /** A concatenation evaluates to the fold of its parts. */
  lemma ConcatEvaluates(e: string, env: Env)
    requires ConcatBody(Trim(e)).Some?
    ensures Evaluate(e, env) == OrShiftFold(ConcatPairs(ConcatBody(Trim(e)).value, env), 0, 0)
  {
    EvaluateUnfold(e, env, true);
    var inner := ConcatBody(Trim(e)).value;
    assert Classify(Trim(e), true) == FConcat(inner);
    assert EvaluateForm(FConcat(inner), |Trim(e)|, env, true) == OrShiftFold(ConcatPairsWith(inner, env, true), 0, 0);
  }

  /** Comparisons give only 0 or 1. */
  lemma ComparisonIsBoolean(e: string, env: Env, decimalFirst: bool)
    requires Classify(Trim(e), decimalFirst).FBin?
    requires Classify(Trim(e), decimalFirst).op in {Lt, Gt, Eq}
    ensures EvaluateWith(e, env, decimalFirst) == 0 || EvaluateWith(e, env, decimalFirst) == 1
  {
    EvaluateUnfold(e, env, decimalFirst);
    var f := Classify(Trim(e), decimalFirst);
    assert EvaluateForm(f, |Trim(e)|, env, decimalFirst) ==
           Apply(f.op, EvaluateWith(f.left, env, decimalFirst), EvaluateWith(f.right, env, decimalFirst));
  }

  /** Text of no recognised shape evaluates to 0. */
  lemma UnrecognisedIsZero(e: string, env: Env, decimalFirst: bool)
    requires Classify(Trim(e), decimalFirst).FNone?
    ensures EvaluateWith(e, env, decimalFirst) == 0
  {
    EvaluateUnfold(e, env, decimalFirst);
    LeafForm(Classify(Trim(e), decimalFirst), |Trim(e)|, env, decimalFirst);
  }

  /** A form without sub-expressions evaluates to its leaf value. */
  lemma LeafForm(f: Form, bound: nat, env: Env, decimalFirst: bool)
    requires f.FBitSel? || f.FSignal? || f.FBinary? || f.FDecimal? || f.FHex? || f.FNone?
    ensures EvaluateForm(f, bound, env, decimalFirst) == LeafValue(f, env)
  {
  }

  /** The characters that make a concatenation, a ternary or an operator. */
  predicate IsSpecial(c: char)
  {
    c == '{' || c == ':' || c == '<' || c == '>' || c == '=' || c == '+' || c == '-' || c == '&' || c == '|'
  }

  /** Text with none of those characters. */
  predicate Plain(t: string)
  {
    forall i :: 0 <= i < |t| ==> !IsSpecial(t[i])
  }

  /** Text with no brace, no colon and no operator character is evaluated as a leaf. */
  lemma LeafEvaluates(e: string, env: Env, decimalFirst: bool)
    requires Plain(Trim(e))
    ensures EvaluateWith(e, env, decimalFirst) == LeafValue(ClassifyLeaf(Trim(e), decimalFirst), env)
  {
    LeafClassified(Trim(e), decimalFirst);
    EvaluateUnfold(e, env, decimalFirst);
    LeafForm(ClassifyLeaf(Trim(e), decimalFirst), |Trim(e)|, env, decimalFirst);
  }

  /** A trimmed plain text of a known leaf form evaluates to that leaf's value. */
  lemma PlainLeafValue(t: string, env: Env, decimalFirst: bool, f: Form)
    requires Plain(t) && Trim(t) == t && ClassifyLeaf(t, decimalFirst) == f
    ensures EvaluateWith(t, env, decimalFirst) == LeafValue(f, env)
  {
    LeafEvaluates(t, env, decimalFirst);
  }

  /** Text with none of the special characters is classified as a leaf. */
  lemma LeafClassified(t: string, decimalFirst: bool)
    requires Plain(t)
    ensures Classify(t, decimalFirst) == ClassifyLeaf(t, decimalFirst)
  {
    assert ConcatBody(t).None? by {
      if |t| >= 3 {
        assert !IsSpecial(t[0]);
      }
    }
    assert TernaryParts(t).None? by {
      assert LastIndexBelow(t, ':', |t| - 1) == -1;
    }
    FindAbsent(t, "<", 0, 0, '<');
    FindAbsent(t, ">", 0, 0, '>');
    FindAbsent(t, "==", 0, 0, '=');
    FindAbsent(t, "+", 0, 0, '+');
    FindAbsent(t, "-", 0, 0, '-');
    FindAbsent(t, "&", 0, 0, '&');
    FindAbsent(t, "|", 0, 0, '|');
  }

  /**
   * A sized literal: k size digits, an apostrophe, the letter and a payload
   * of letters and digits.
   */
  predicate SizedText(t: string, k: nat, letter: char)
  {
    1 <= k && k + 2 < |t| && t[k] == '\'' && t[k + 1] == letter && DigitValue(letter) < 36 && !IsDigit(letter) &&
    (forall i :: 0 <= i < k ==> IsDigit(t[i])) &&
    (forall i :: k + 2 <= i < |t| ==> DigitValue(t[i]) < 36)
  }

  lemma SizedTextOf(size: string, letter: char, payload: string)
    requires AllDigits(size) && DigitValue(letter) < 36 && !IsDigit(letter) && payload != []
    requires forall i :: 0 <= i < |payload| ==> DigitValue(payload[i]) < 36
    ensures SizedText(size + ['\'', letter] + payload, |size|, letter)
    ensures (size + ['\'', letter] + payload)[|size| + 2..] == payload
  {
    var t := size + ['\'', letter] + payload;
    var k := |size|;
    assert forall i :: 0 <= i < k ==> t[i] == size[i];
    assert forall i :: k + 2 <= i < |t| ==> t[i] == payload[i - k - 2];
  }

  /** A sized literal has none of the special characters and is trimmed to itself. */
  lemma SizedTextPlain(t: string, k: nat, letter: char)
    requires SizedText(t, k, letter)
    ensures Plain(t) && Trim(t) == t
  {
    assert IsDigit(t[0]) && DigitValue(t[|t| - 1]) < 36;
  }

  /** A sized literal's size is its leading run of digits, which is also its leading run of word characters. */
  lemma SizedTextRuns(t: string, k: nat, letter: char)
    requires SizedText(t, k, letter)
    ensures WordRun(t, 0) == k && DigitRun(t, 0) == k
    ensures BitSelect(t).None? && !IsWord(t) && !AllDigits(t)
  {
    WordRunExact(t, 0, k);
    DigitRunExact(t, 0, k);
  }

  /** A sized literal yields its payload when the payload is all digits of the radix. */
  lemma SizedTextPayload(t: string, k: nat, letter: char, radix: nat)
    requires SizedText(t, k, letter)
    requires forall i :: k + 2 <= i < |t| ==> DigitValue(t[i]) < radix
    ensures SizedPayload(t, letter, radix) == Some(t[k + 2..])
    ensures forall other :: other != letter ==> SizedPayload(t, other, radix).None?
  {
    SizedTextRuns(t, k, letter);
    assert RadixRun(t, k + 2, radix) == |t| - k - 2;
  }

  /** The sized binary literal N'b... evaluates to its digits in base 2; the size is ignored. */
  lemma BinaryLiteralValue(size: string, bits: string, env: Env)
    requires AllDigits(size) && AllBinary(bits)
    ensures Evaluate(size + "'b" + bits, env) == DigitsValue(bits, 2)
    ensures EvaluateAsWritten(size + "'b" + bits, env) == DigitsValue(bits, 2)
  {
    var t := size + "'b" + bits;
    var k := |size|;
    assert t == size + ['\'', 'b'] + bits;
    SizedTextOf(size, 'b', bits);
    forall i | k + 2 <= i < |t|
      ensures DigitValue(t[i]) < 2
    {
      assert t[i] == bits[i - k - 2];
    }
    SizedLeaf(t, k, 'b', 2, env);
  }

  /** The sized hexadecimal literal N'h... evaluates to its digits in base 16; the size is ignored. */
  lemma HexLiteralValue(size: string, hex: string, env: Env)
    requires AllDigits(size) && AllHex(hex)
    ensures Evaluate(size + "'h" + hex, env) == DigitsValue(hex, 16)
    ensures EvaluateAsWritten(size + "'h" + hex, env) == DigitsValue(hex, 16)
  {
    var t := size + "'h" + hex;
    var k := |size|;
    assert t == size + ['\'', 'h'] + hex;
    SizedTextOf(size, 'h', hex);
    forall i | k + 2 <= i < |t|
      ensures DigitValue(t[i]) < 16
    {
      assert t[i] == hex[i - k - 2];
    }
    SizedLeaf(t, k, 'h', 16, env);
  }

  /** Both evaluators give a sized binary or hexadecimal literal the value of its payload. */
  lemma SizedLeaf(t: string, k: nat, letter: char, radix: nat, env: Env)
    requires SizedText(t, k, letter) && (letter, radix) in {('b', 2), ('h', 16)}
    requires forall i :: k + 2 <= i < |t| ==> DigitValue(t[i]) < radix
    ensures EvaluateWith(t, env, true) == DigitsValue(t[k + 2..], radix)
    ensures EvaluateWith(t, env, false) == DigitsValue(t[k + 2..], radix)
  {
    SizedTextPlain(t, k, letter);
    var f := if letter == 'b' then FBinary(t[k + 2..]) else FHex(t[k + 2..]);
    assert LeafValue(f, env) == DigitsValue(t[k + 2..], radix);
    SizedLeafClass(t, k, letter, radix, true);
    SizedLeafClass(t, k, letter, radix, false);
    PlainLeafValue(t, env, true, f);
    PlainLeafValue(t, env, false, f);
  }

  lemma SizedLeafClass(t: string, k: nat, letter: char, radix: nat, decimalFirst: bool)
    requires SizedText(t, k, letter) && (letter, radix) in {('b', 2), ('h', 16)}
    requires forall i :: k + 2 <= i < |t| ==> DigitValue(t[i]) < radix
    ensures k + 2 <= |t| && ClassifyLeaf(t, decimalFirst) == if letter == 'b' then FBinary(t[k + 2..]) else FHex(t[k + 2..])
  {
    SizedTextRuns(t, k, letter);
    SizedTextPayload(t, k, letter, radix);
    if letter == 'h' {
      assert SizedPayload(t, 'b', 2).None?;
    }
    SizedLeafForm(t, k, letter, radix, decimalFirst);
  }

  lemma SizedLeafForm(t: string, k: nat, letter: char, radix: nat, decimalFirst: bool)
    requires (letter, radix) in {('b', 2), ('h', 16)}
    requires BitSelect(t).None? && !IsWord(t) && !AllDigits(t)
    requires k + 2 <= |t| && SizedPayload(t, letter, radix) == Some(t[k + 2..])
    requires letter == 'h' ==> SizedPayload(t, 'b', 2).None?
    ensures ClassifyLeaf(t, decimalFirst) == if letter == 'b' then FBinary(t[k + 2..]) else FHex(t[k + 2..])
  {
  }

  /** A plain decimal is trimmed to itself and is a leaf: a decimal constant or, as written, a name. */
  lemma DecimalShape(digits: string)
    requires AllDigits(digits)
    ensures Trim(digits) == digits && Plain(digits) && IsWord(digits)
    ensures ClassifyLeaf(digits, true) == FDecimal(digits)
    ensures ClassifyLeaf(digits, false) == FSignal(digits)
  {
    DecimalTrimmed(digits);
    DecimalNoOperator(digits);
    DecimalLeaf(digits, true);
    DecimalLeaf(digits, false);
  }

  lemma DecimalLeaf(digits: string, decimalFirst: bool)
    requires AllDigits(digits)
    ensures IsWord(digits)
    ensures ClassifyLeaf(digits, decimalFirst) == if decimalFirst then FDecimal(digits) else FSignal(digits)
  {
    DecimalNotSelect(digits);
  }

  lemma DecimalTrimmed(digits: string)
    requires AllDigits(digits)
    ensures Trim(digits) == digits
  {
    assert IsDigit(digits[0]) && IsDigit(digits[|digits| - 1]);
  }

  lemma DecimalNotSelect(digits: string)
    requires AllDigits(digits)
    ensures IsWord(digits) && BitSelect(digits).None?
  {
    assert forall i :: 0 <= i < |digits| ==> IsWordChar(digits[i]);
    WordRunExact(digits, 0, |digits|);
  }

  lemma DecimalNoOperator(digits: string)
    requires AllDigits(digits)
    ensures Plain(digits)
  {
  }

  /** A plain decimal evaluates to its value. */
  lemma DecimalValue(digits: string, env: Env)
    requires AllDigits(digits)
    ensures Evaluate(digits, env) == DigitsValue(digits, 10)
  {
    DecimalTrimmed(digits);
    DecimalNoOperator(digits);
    DecimalLeaf(digits, true);
    assert LeafValue(FDecimal(digits), env) == DigitsValue(digits, 10);
    PlainLeafValue(digits, env, true, FDecimal(digits));
    assert Evaluate(digits, env) == EvaluateWith(digits, env, true);
  }

  /** As written, a plain decimal is looked up as a signal name. */
  lemma DecimalAsWrittenIsName(digits: string, env: Env)
    requires AllDigits(digits)
    ensures EvaluateAsWritten(digits, env) == SignalValue(env, digits)
  {
    DecimalShape(digits);
    LeafEvaluates(digits, env, false);
  }

  /** The constant 5 reads as 0 as written, but as 5 once decimals come first. */
  lemma DecimalFiveAsWritten(env: Env)
    requires "5" !in env.signals
    ensures EvaluateAsWritten("5", env) == 0
    ensures Evaluate("5", env) == 5
  {
    DecimalAsWrittenIsName("5", env);
    DecimalValue("5", env);
    assert DigitsValue("5", 10) == 5 by {
      assert "5"[..0] == "";
    }
  }

  /**
   * evaluateConcatenation: splits the body at commas, trims each part and
   * ORs each value in at the running bit position, which advances by the
   * part's width.
   */
  method EvaluateConcatenation(inner: string, env: Env) returns (result: int)
    ensures result == OrShiftFold(ConcatPairs(inner, env), 0, 0)
  {
    var pairs := ConcatPairs(inner, env);
    result := PackParts(pairs);
  }

  /**
   * The packing loop: each value is ORed in at the running bit position,
   * which then advances by the value's width.
   */
  method PackParts(pairs: seq<(int, nat)>) returns (result: int)
    ensures result == OrShiftFold(pairs, 0, 0)
  {
    result := 0;
    var bitPosition: nat := 0;
    var i := 0;
    while i < |pairs|
      invariant 0 <= i <= |pairs|
      invariant OrShiftFold(pairs[i..], result, bitPosition) == OrShiftFold(pairs, 0, 0)
    {
      var (value, width) := pairs[i];
      FoldStep(pairs, i, result, bitPosition, value, width);
      result := Or(result, Shl(value, bitPosition));
      bitPosition := bitPosition + width;
      i := i + 1;
    }
  }

  /** One step of the fold: the pair at i is ORed in at the running position. */
  lemma FoldStep(vs: seq<(int, nat)>, i: nat, result: int, pos: nat, value: int, width: nat)
    requires i < |vs| && vs[i] == (value, width)
    ensures OrShiftFold(vs[i..], result, pos) ==
            OrShiftFold(vs[i + 1..], Or(result, Shl(value, pos)), pos + width)
  {
    assert vs[i..][1..] == vs[i + 1..];
  }

  /** getSignalValue, with the bit-packing loop of the source. */
  method GetSignalValue(env: Env, name: string) returns (value: int)
    ensures value == SignalValue(env, name)
  {
    if name == "pix_x" {
      return env.pixX;
    }
    if name == "pix_y" {
      return env.pixY;
    }
    if name == "moving_x" {
      return env.movingX;
    }
    if name == "video_active" {
      return if env.videoActive then 1 else 0;
    }
    if name in env.signals {
      var signal := env.signals[name];
      var pairs := BitPairs(signal);
      value := 0;
      var i := 0;
      while i < |signal|
        invariant 0 <= i <= |signal|
        invariant OrShiftFold(pairs[i..], value, i) == OrShiftFold(pairs, 0, 0)
      {
        assert pairs[i..][1..] == pairs[i + 1..];
        value := Or(value, Shl(signal[i], i));
        i := i + 1;
      }
      return value;
    }
    return 0;
  }
}
