/**
 * The RTL simulation kernel: a module instance holding the signal table
 * (`state`), the variable definitions (`globals`), the compiled blocks, and
 * the halt latches. Power cycling and evaluation drive the table through a
 * settle loop of at most 100 rounds; `tick2`/`tick` toggle the clock;
 * `$readmem` loads a memory from a file whose name arrives as 32-bit words;
 * the table can be saved and loaded. What the compiled blocks do to the
 * table is given as functions (`Behaviour`); the generated code is not
 * interpreted.
 */
module HdlRuntime {
  import opened JsValues
  import JsInt
  import opened JsString
  import opened HdlAst
  import opened HdlLower
  import SimUtil

  type Table = map<string, Value>

  // ---------------------------------------------------------------------
  // Default values

  /**
   * What a default value looks like, without the heap: a scalar, a typed
   * array with its elements, or a plain array of such shapes.
   */
  datatype Shape = Scalar(v: Value) | TypedArray(kind: ElemKind, elems: seq<int>) | PlainArray(items: seq<Shape>)

  function Zeros(n: nat): (r: seq<int>)
    ensures |r| == n && forall i :: 0 <= i < n ==> r[i] == 0
  {
    seq(n, _ => 0)
  }

  /** The number of elements of an array declared with bounds high and low, in either order. */
  function ArrayLength(high: int, low: int): (n: nat)
    ensures n >= 1
    ensures high >= low ==> n == high - low + 1
    ensures high < low ==> n == low - high + 1
  {
    (if high >= low then high - low else low - high) + 1
  }

  /** The length as written: high - low + 1, negated when negative. */
  function ArrayLengthAsWritten(high: int, low: int): nat
  {
    var n := high - low + 1;
    if n < 0 then -n else n
  }

  /** As written, an array declared [0:3] gets 2 elements instead of 4, and [0:1] none. */
  lemma ArrayLengthAsWrittenShort()
    ensures ArrayLengthAsWritten(0, 3) == 2 && ArrayLength(0, 3) == 4
    ensures ArrayLengthAsWritten(0, 1) == 0 && ArrayLength(0, 1) == 2
  {
  }

  /** The two agree whenever the upper bound is not below the lower one. */
  lemma ArrayLengthAgrees(high: int, low: int)
    requires high >= low
    ensures ArrayLengthAsWritten(high, low) == ArrayLength(high, low)
  {
  }

  /** One initialiser entry written into an array shape. */
  function StoreAt(a: Shape, index: int, c: int): (r: Shape)
    ensures a.TypedArray? ==> r.TypedArray? && r.kind == a.kind && |r.elems| == |a.elems|
    ensures a.TypedArray? && 0 <= index < |a.elems| ==> r.elems[index] == StoreElem(a.kind, Int(c))
    ensures a.TypedArray? ==> forall i :: 0 <= i < |a.elems| && i != index ==> r.elems[i] == a.elems[i]
    ensures a.PlainArray? && index >= 0 ==> r.PlainArray? && |r.items| == if index < |a.items| then |a.items| else index + 1
    ensures a.PlainArray? && index >= 0 ==> r.items[index] == Scalar(Num(Int(c)))
    ensures a.PlainArray? && index >= 0 ==> forall i :: 0 <= i < |a.items| && i != index ==> r.items[i] == a.items[i]
    ensures a.PlainArray? && index >= 0 ==> forall i :: |a.items| <= i < index ==> r.items[i] == Scalar(Undefined)
    ensures a.Scalar? || (a.PlainArray? && index < 0) ==> r == a
  {
    match a
    case Scalar(_) => a
    case TypedArray(k, es) => if 0 <= index < |es| then TypedArray(k, es[index := StoreElem(k, Int(c))]) else a
    case PlainArray(items) =>
      if 0 <= index < |items| then PlainArray(items[index := Scalar(Num(Int(c)))])
      else if index >= |items| then PlainArray(items + seq(index - |items|, _ => Scalar(Undefined)) + [Scalar(Num(Int(c)))])
      else a
  }

  /** The initialiser applied in order; an entry that is not a constant array item is an error. */
  function ApplyInit(a: Shape, items: seq<InitItem>): (r: Result<Shape, HdlError>)
    ensures r.Err? ==> r.error == NonConstInit && exists i :: 0 <= i < |items| && !(items[i].ArrayItem? && items[i].expr.Const?)
    ensures r.Ok? ==> (a.TypedArray? <==> r.value.TypedArray?) && (a.PlainArray? <==> r.value.PlainArray?)
    ensures (forall i :: 0 <= i < |items| ==> items[i].ArrayItem? && items[i].expr.Const?) ==> r.Ok?
    decreases |items|
  {
    if items == [] then Ok(a)
    else if items[0].ArrayItem? && items[0].expr.Const? then
      ApplyInit(StoreAt(a, items[0].index, items[0].expr.cvalue), items[1..])
    else Err(NonConstInit)
  }

  /**
   * defaultValue(dt, vardef): 0 for a vector of at most 32 bits, a big 0
   * above; for an array with numeric bounds, a typed array of 8, 16 or 32
   * bit elements chosen by the element width, an empty plain array for wider
   * elements, or a plain array of default elements; then the initialiser.
   * Every other type is an error. An element type without a default fails
   * while the message is built, since the inner call has no definition to
   * name: a TypeError.
   */
  function DefaultShape(dt: DataType, init: Option<seq<InitItem>>): Result<Shape, HdlError>
    decreases dt
  {
    match dt
    case Logic(left) => Ok(Scalar(if left <= 31 then Num(Int(0)) else Big(0)))
    case ArrayOf(sub, high, low) =>
      if high.None? || low.None? then Err(NoDefault)
      else
        var n := ArrayLength(high.value, low.value);
        var base :=
          if sub.Logic? then
            Ok(if sub.left <= 7 then TypedArray(U8, Zeros(n))
               else if sub.left <= 15 then TypedArray(U16, Zeros(n))
               else if sub.left <= 31 then TypedArray(U32, Zeros(n))
               else PlainArray([]))
          else
            match DefaultShape(sub, None)
            case Err(_) => Err(TypeError)
            case Ok(x) => Ok(PlainArray(seq(n, _ => x)));
        (match base
         case Err(err) => Err(err)
         case Ok(a) => if init.Some? then ApplyInit(a, init.value) else Ok(a))
    case OtherType => Err(NoDefault)
  }

  /** The heap objects the elements of a plain array refer to. */
  function ItemRefs(v: Value): set<object>
    reads Refs(v)
  {
    if v.List? then set i, o | 0 <= i < |v.list.items| && o in Refs(v.list.items[i]) :: o else {}
  }

  /** A value matches a shape at its own level: a plain array only in its length. */
  predicate Flat(v: Value, s: Shape)
    reads Refs(v)
  {
    match s
    case Scalar(x) => v == x
    case TypedArray(k, es) => v.Typed? && v.kind == k && v.buf[..] == es
    case PlainArray(items) => v.List? && |v.list.items| == |items|
  }

  predicate Flats(vs: seq<Value>, ss: seq<Shape>)
    reads set i, o | 0 <= i < |vs| && o in Refs(vs[i]) :: o
  {
    |vs| == |ss| && forall i :: 0 <= i < |vs| ==> Flat(vs[i], ss[i])
  }

  /** A value realizes a shape down to the elements of a plain array. */
  predicate Realizes(v: Value, s: Shape)
    reads Refs(v), ItemRefs(v)
  {
    Flat(v, s) && (s.PlainArray? ==> Flats(v.list.items, s.items))
  }

  /** Writes a constant initialiser into a typed array, in order, ignoring indices outside it. */
  method InitTyped(kind: ElemKind, buf: array<int>, items: seq<InitItem>) returns (ok: bool)
    modifies buf
    ensures ok <==> ApplyInit(TypedArray(kind, old(buf[..])), items).Ok?
    ensures ok ==> ApplyInit(TypedArray(kind, old(buf[..])), items).value == TypedArray(kind, buf[..])
  {
    ghost var start := TypedArray(kind, buf[..]);
    var i := 0;
    while i < |items|
      invariant 0 <= i <= |items|
      invariant ApplyInit(start, items) == ApplyInit(TypedArray(kind, buf[..]), items[i..])
    {
      var e := items[i];
      assert items[i..][1..] == items[i + 1..];
      if !(e.ArrayItem? && e.expr.Const?) {
        return false;
      }
      ghost var before := TypedArray(kind, buf[..]);
      if 0 <= e.index < buf.Length {
        buf[e.index] := StoreElem(kind, Int(e.expr.cvalue));
      }
      assert TypedArray(kind, buf[..]) == StoreAt(before, e.index, e.expr.cvalue);
      i := i + 1;
    }
    return true;
  }

  /**
   * Writes a constant initialiser into a plain array, in order: an index
   * inside replaces the element, one past the end extends the array with
   * holes. A negative index is a property, not an element, and leaves the
   * elements as they are.
   */
  method InitList(l: JsList, ghost s: Shape, items: seq<InitItem>) returns (ok: bool)
    requires s.PlainArray? && Flats(l.items, s.items)
    requires l !in set i, o | 0 <= i < |l.items| && o in Refs(l.items[i]) :: o
    modifies l
    ensures ok <==> ApplyInit(s, items).Ok?
    ensures ok ==> ApplyInit(s, items).value.PlainArray? && Flats(l.items, ApplyInit(s, items).value.items)
    ensures l !in set i, o | 0 <= i < |l.items| && o in Refs(l.items[i]) :: o
    ensures (set i, o | 0 <= i < |l.items| && o in Refs(l.items[i]) :: o) <= old(set i, o | 0 <= i < |l.items| && o in Refs(l.items[i]) :: o)
  {
    ghost var cur := s;
    var i := 0;
    while i < |items|
      invariant 0 <= i <= |items|
      invariant cur.PlainArray? && Flats(l.items, cur.items)
      invariant ApplyInit(s, items) == ApplyInit(cur, items[i..])
      invariant l !in set i, o | 0 <= i < |l.items| && o in Refs(l.items[i]) :: o
      invariant (set i, o | 0 <= i < |l.items| && o in Refs(l.items[i]) :: o) <= old(set i, o | 0 <= i < |l.items| && o in Refs(l.items[i]) :: o)
    {
      var e := items[i];
      assert items[i..][1..] == items[i + 1..];
      if !(e.ArrayItem? && e.expr.Const?) {
        return false;
      }
      StoreList(l, cur, e.index, e.expr.cvalue);
      cur := StoreAt(cur, e.index, e.expr.cvalue);
      i := i + 1;
    }
    return true;
  }

  /** `arr[index] = c` on a plain array. */
  method StoreList(l: JsList, ghost cur: Shape, index: int, c: int)
    requires cur.PlainArray? && Flats(l.items, cur.items)
    requires l !in set i, o | 0 <= i < |l.items| && o in Refs(l.items[i]) :: o
    modifies l
    ensures Flats(l.items, StoreAt(cur, index, c).items)
    ensures l !in set i, o | 0 <= i < |l.items| && o in Refs(l.items[i]) :: o
    ensures (set i, o | 0 <= i < |l.items| && o in Refs(l.items[i]) :: o) <= old(set i, o | 0 <= i < |l.items| && o in Refs(l.items[i]) :: o)
  {
    var x := Num(Int(c));
    if 0 <= index < |l.items| {
      l.items := l.items[index := x];
    } else if index >= |l.items| {
      l.items := l.items + seq(index - |l.items|, _ => Undefined) + [x];
    }
    assert forall i :: 0 <= i < |l.items| ==> Refs(l.items[i]) == {} || l.items[i] == old(l.items)[i];
  }

  /**
   * defaultValue: allocates the default value of a type, each element of a
   * plain array its own fresh object, and writes the initialiser into it.
   */
  method DefaultValue(dt: DataType, init: Option<seq<InitItem>>) returns (r: Result<Value, HdlError>)
    ensures r.Ok? <==> DefaultShape(dt, init).Ok?
    ensures r.Err? ==> r.error == DefaultShape(dt, init).error
    ensures r.Ok? ==> fresh(Refs(r.value)) && fresh(ItemRefs(r.value))
    ensures r.Ok? ==> Realizes(r.value, DefaultShape(dt, init).value)
    decreases dt
  {
    match dt {
      case Logic(left) =>
        r := Ok(if left <= 31 then Num(Int(0)) else Big(0));
      case OtherType =>
        r := Err(NoDefault);
      case ArrayOf(sub, high, low) =>
        if high.None? || low.None? {
          return Err(NoDefault);
        }
        var n := ArrayLength(high.value, low.value);
        if sub.Logic? && sub.left <= 31 {
          var kind := if sub.left <= 7 then U8 else if sub.left <= 15 then U16 else U32;
          var buf := new int[n](_ => 0);
          assert buf[..] == Zeros(n);
          var ok := true;
          if init.Some? {
            ok := InitTyped(kind, buf, init.value);
          }
          r := if ok then Ok(Typed(kind, buf)) else Err(NonConstInit);
        } else {
          var items: seq<Value> := [];
          ghost var x: Shape := PlainArray([]);
          if !sub.Logic? {
            var i := 0;
            while i < n
              invariant 0 <= i <= n && |items| == i
              invariant i > 0 ==> DefaultShape(sub, None).Ok? && x == DefaultShape(sub, None).value
              invariant forall j :: 0 <= j < i ==> fresh(Refs(items[j])) && Flat(items[j], x)
            {
              var e := DefaultValue(sub, None);
              if e.Err? {
                return Err(TypeError);
              }
              x := DefaultShape(sub, None).value;
              items := items + [e.value];
              i := i + 1;
            }
          }
          ghost var shape := if sub.Logic? then PlainArray([]) else PlainArray(seq(n, _ => x));
          var l := new JsList(items);
          assert Flats(l.items, shape.items);
          var ok := true;
          if init.Some? {
            ok := InitList(l, shape, init.value);
          }
          r := if ok then Ok(List(l)) else Err(NonConstInit);
        }
    }
  }

  // ---------------------------------------------------------------------
  // Settling

  /**
   * What the compiled blocks do to the signal table: the variable reset,
   * the initial block, the settle block, the evaluation block, and the
   * change detector, which also reports whether any watched signal changed.
   */
  datatype Behaviour = Behaviour(
    ctorVarReset: Table -> Table,
    evalInitial: Table -> Table,
    evalSettle: Table -> Table,
    eval: Table -> Table,
    changeRequest: Table -> (Table, bool))

  /** One round of a settle loop: on reset the settle block first, then evaluation and change detection. */
  function Round(b: Behaviour, reset: bool, t: Table): (Table, bool)
  {
    b.changeRequest(b.eval(if reset then b.evalSettle(t) else t))
  }

  /** The table after n rounds. */
  function Rounds(b: Behaviour, reset: bool, t: Table, n: nat): Table
  {
    if n == 0 then t else Round(b, reset, Rounds(b, reset, t, n - 1)).0
  }

  /** Whether round n (counting from 0) reported a change. */
  predicate ChangedAt(b: Behaviour, reset: bool, t: Table, n: nat)
  {
    Round(b, reset, Rounds(b, reset, t, n)).1
  }

  /** The outcome of a settle loop: the final table and the round that reported no change, if any. */
  datatype Settled = Settled(table: Table, quietAt: Option<nat>)

  /** The settle loop from round i on: at most 100 rounds in all, stopping at the first quiet one. */
  function Settle(b: Behaviour, reset: bool, t: Table, i: nat): (s: Settled)
    requires i <= 100
    ensures s.quietAt.Some? ==> i <= s.quietAt.value < 100
    decreases 100 - i
  {
    if i == 100 then Settled(t, None)
    else
      var (t', changed) := Round(b, reset, t);
      if !changed then Settled(t', Some(i)) else Settle(b, reset, t', i + 1)
  }

  /**
   * A settle loop stops at the first round that reports no change, with
   * the table that round left; when all 100 rounds report a change it
   * gives up with the table after 100 rounds.
   */
  lemma SettleFirstQuiet(b: Behaviour, reset: bool, t: Table)
    ensures var s := Settle(b, reset, t, 0);
      s.quietAt.Some? ==>
        !ChangedAt(b, reset, t, s.quietAt.value) &&
        (forall j :: 0 <= j < s.quietAt.value ==> ChangedAt(b, reset, t, j)) &&
        s.table == Rounds(b, reset, t, s.quietAt.value + 1)
    ensures var s := Settle(b, reset, t, 0);
      s.quietAt.None? ==>
        (forall j :: 0 <= j < 100 ==> ChangedAt(b, reset, t, j)) && s.table == Rounds(b, reset, t, 100)
  {
    SettleFrom(b, reset, t, 0);
  }

  lemma {:induction false} SettleFrom(b: Behaviour, reset: bool, t: Table, i: nat)
    requires i <= 100
    requires forall j :: 0 <= j < i ==> ChangedAt(b, reset, t, j)
    ensures var s := Settle(b, reset, Rounds(b, reset, t, i), i);
      s.quietAt.Some? ==>
        !ChangedAt(b, reset, t, s.quietAt.value) &&
        (forall j :: 0 <= j < s.quietAt.value ==> ChangedAt(b, reset, t, j)) &&
        s.table == Rounds(b, reset, t, s.quietAt.value + 1)
    ensures var s := Settle(b, reset, Rounds(b, reset, t, i), i);
      s.quietAt.None? ==>
        (forall j :: 0 <= j < 100 ==> ChangedAt(b, reset, t, j)) && s.table == Rounds(b, reset, t, 100)
    decreases 100 - i
  {
    if i < 100 {
      assert Round(b, reset, Rounds(b, reset, t, i)).0 == Rounds(b, reset, t, i + 1);
      if ChangedAt(b, reset, t, i) {
        SettleFrom(b, reset, t, i + 1);
      }
    }
  }

  /** The table, settle time and success of one `eval()`. */
  datatype Outcome = Outcome(table: Table, settleTime: int, ok: bool)

  function EvalOutcome(b: Behaviour, t: Table, settleTime: int): Outcome
  {
    var s := Settle(b, false, t, 0);
    Outcome(s.table, if s.quietAt.Some? then s.quietAt.value else settleTime, s.quietAt.Some?)
  }

  /** `tick2(n)`: n pairs of clk = 0, eval, clk = 1, eval, stopping at the first failure. */
  function Tick2Spec(b: Behaviour, t: Table, settleTime: int, n: int): Outcome
    decreases n
  {
    if n <= 0 then Outcome(t, settleTime, true)
    else
      var lo := EvalOutcome(b, t["clk" := Num(Int(0))], settleTime);
      if !lo.ok then lo
      else
        var hi := EvalOutcome(b, lo.table["clk" := Num(Int(1))], lo.settleTime);
        if !hi.ok then hi else Tick2Spec(b, hi.table, hi.settleTime, n - 1)
  }

  /** m pairs followed by n pairs are m + n pairs. */
  lemma {:induction false} Tick2Compose(b: Behaviour, t: Table, settleTime: int, m: nat, n: nat)
    requires Tick2Spec(b, t, settleTime, m).ok
    ensures var x := Tick2Spec(b, t, settleTime, m);
      Tick2Spec(b, t, settleTime, m + n) == Tick2Spec(b, x.table, x.settleTime, n)
    decreases m
  {
    if m > 0 {
      var lo := EvalOutcome(b, t["clk" := Num(Int(0))], settleTime);
      var hi := EvalOutcome(b, lo.table["clk" := Num(Int(1))], lo.settleTime);
      Tick2Compose(b, hi.table, hi.settleTime, m - 1, n);
      assert m + n - 1 == (m - 1) + n;
    }
  }

  lemma {:induction false} SettleKeepsClock(b: Behaviour, reset: bool, t: Table, i: nat)
    requires forall u: Table, r: bool {:trigger Round(b, r, u)} :: "clk" in u ==>
      "clk" in Round(b, r, u).0 && Round(b, r, u).0["clk"] == u["clk"]
    requires i <= 100 && "clk" in t
    ensures var s := Settle(b, reset, t, i); "clk" in s.table && s.table["clk"] == t["clk"]
    decreases 100 - i
  {
    if i < 100 {
      var t' := Round(b, reset, t).0;
      assert "clk" in t' && t'["clk"] == t["clk"];
      SettleKeepsClock(b, reset, t', i + 1);
    }
  }

  /** When no round writes the clock, a successful `tick2(n)` with n > 0 leaves clk at 1. */
  lemma {:induction false} Tick2EndsHigh(b: Behaviour, t: Table, settleTime: int, n: int)
    requires forall u: Table, r: bool {:trigger Round(b, r, u)} :: "clk" in u ==>
      "clk" in Round(b, r, u).0 && Round(b, r, u).0["clk"] == u["clk"]
    requires n > 0 && Tick2Spec(b, t, settleTime, n).ok
    ensures var x := Tick2Spec(b, t, settleTime, n); "clk" in x.table && x.table["clk"] == Num(Int(1))
    decreases n
  {
    var lo := EvalOutcome(b, t["clk" := Num(Int(0))], settleTime);
    var hi := EvalOutcome(b, lo.table["clk" := Num(Int(1))], lo.settleTime);
    if n == 1 || !hi.ok || !lo.ok {
      SettleKeepsClock(b, false, lo.table["clk" := Num(Int(1))], 0);
    } else {
      Tick2EndsHigh(b, hi.table, hi.settleTime, n - 1);
    }
  }

  /** `clk ^= 1` on the value found in the table (undefined when absent). */
  function ClockFlip(v: Value): (r: Result<Value, HdlError>)
    ensures v.Big? <==> r.Err?
    ensures r.Ok? ==> r.value.Num? && r.value.n.Int? && -JsInt.TWO31 <= r.value.n.i < JsInt.TWO31
    ensures v.Num? && v.n.Int? ==> r.Ok?
    ensures v.Undefined? || v.Null? || v == Num(NaN) ==> r == Ok(Num(Int(1)))
  {
    match v
    case Num(Int(i)) => Ok(Num(Int(JsInt.Xor(i, 1))))
    case Bool(x) => Ok(Num(Int(if x then 0 else 1)))
    case Big(_) => Err(TypeError)
    case Null => Ok(Num(Int(1)))
    case _ => Ok(Num(Int(1)))
  }

  /** Flipping an integer clock inverts its lowest bit: 0 becomes 1 and 1 becomes 0. */
  lemma ClockFlipInverts(i: int)
    ensures ClockFlip(Num(Int(i))).Ok?
    ensures var j := ClockFlip(Num(Int(i))).value.n.i; JsInt.Bit(j, 0) == 1 - JsInt.Bit(i, 0)
    ensures i == 0 ==> ClockFlip(Num(Int(i))) == Ok(Num(Int(1)))
    ensures i == 1 ==> ClockFlip(Num(Int(i))) == Ok(Num(Int(0)))
  {
    var j := JsInt.Xor(i, 1);
    JsInt.XorLowBit(i, 1);
    assert JsInt.Bit(1, 0) == 1 by { JsInt.Pow2Known(); }
    JsInt.AndLowMask(j, 1);
    JsInt.ModOfUint32(j, 1);
  }

  // ---------------------------------------------------------------------
  // The module instance

  /** The system tasks the runtime provides itself. */
  datatype SystemTask = Finish | Stop | Rand | Display | ReadMemTask | Time

  function TaskName(t: SystemTask): string
  {
    match t
    case Finish => "$finish"
    case Stop => "$stop"
    case Rand => "$rand"
    case Display => "$display"
    case ReadMemTask => "$readmem"
    case Time => "$time"
  }

  /** The built-in system tasks every function table starts from, each under its own name. */
  function Builtins(): (m: map<string, Func>)
    ensures forall t :: TaskName(t) in m
    ensures forall k :: k in m ==> m[k] == Builtin(k)
  {
    map t: SystemTask | t in {Finish, Stop, Rand, Display, ReadMemTask, Time} :: TaskName(t) := Builtin(TaskName(t))
  }

  /** Every variable of a definition table has a default value. */
  predicate DefaultsOk(defs: map<string, VarDef>)
  {
    forall k :: k in defs ==> DefaultShape(defs[k].dtype, defs[k].initValue).Ok?
  }

  /** The variables the constant pool contributes. */
  function PoolGlobals(constpool: Option<ModuleDef>): map<string, VarDef>
  {
    if constpool.Some? then constpool.value.vardefs else map[]
  }

  /** When building a module succeeds: every variable has a default, and every block compiles against all the variables. */
  predicate BuildOk(mod: ModuleDef, globals: set<string>, funcs: map<string, Func>)
  {
    DefaultsOk(mod.vardefs) && GenSpec(mod.blocks, map[], globals + mod.vardefs.Keys, funcs).Ok?
  }

  /** When construction succeeds: the constant pool, built as a module of its own, and then the module itself. */
  predicate InitOk(mod: ModuleDef, constpool: Option<ModuleDef>, globals: set<string>, funcs: map<string, Func>)
  {
    (constpool.None? || BuildOk(constpool.value, {}, Builtins())) &&
    BuildOk(mod, globals + PoolGlobals(constpool).Keys, funcs)
  }

  /** The form of a shape a value takes: the scalar itself, a typed array of that kind and length, or a plain array. */
  predicate HasForm(v: Value, s: Shape)
  {
    match s
    case Scalar(x) => v == x
    case TypedArray(k, es) => v.Typed? && v.kind == k && v.buf.Length == |es|
    case PlainArray(_) => v.List?
  }

  /** A variable's value has the form of the default its definition calls for. */
  predicate HoldsDefault(v: Value, def: VarDef)
  {
    var d := DefaultShape(def.dtype, def.initValue);
    d.Ok? && HasForm(v, d.value)
  }

  /** A table built for some definitions, merged over another table. */
  lemma MergeBuilt(t: map<string, Value>, built: map<string, Value>, defs: map<string, VarDef>)
    requires built.Keys == defs.Keys
    requires forall k :: k in defs ==> HoldsDefault(built[k], defs[k])
    ensures (t + built).Keys == t.Keys + defs.Keys
    ensures forall k :: k in defs ==> HoldsDefault((t + built)[k], defs[k])
    ensures forall k :: k in t && k !in defs ==> (t + built)[k] == t[k]
  {
  }

  class HdlModule {
    /** The signal table the compiled code reads and writes. */
    const state: JsObject
    /** Every variable definition by name, the constant pool's included. */
    var globals: map<string, VarDef>
    var finished: bool
    var stopped: bool
    /** The round at which the last settle loop went quiet. */
    var settleTime: int
    /** The function table: the built-ins, overlaid by the compiled blocks. */
    var funcs: map<string, Func>
    /** What the compiled blocks do to the signal table. */
    const behaviour: Behaviour
    /** The provider of file contents for `$readmem`, once one is installed. */
    var fileData: Option<string -> Option<string>>

    /** The fields the constructor sets before it looks at the design. */
    constructor (b: Behaviour)
      ensures fresh(state) && state.props == map[]
      ensures globals == map[] && funcs == Builtins()
      ensures !finished && !stopped && settleTime == 0 && fileData.None? && behaviour == b
    {
      state := new JsObject();
      globals := map[];
      finished := false;
      stopped := false;
      settleTime := 0;
      funcs := Builtins();
      behaviour := b;
      fileData := None;
    }

    /**
     * The rest of the constructor: the constant pool built as a module of
     * its own and copied in, then the module itself.
     */
    method Init(mod: ModuleDef, constpool: Option<ModuleDef>) returns (r: Result<(), HdlError>)
      modifies this`globals, this`funcs, state
      ensures r.Ok? <==> InitOk(mod, constpool, old(globals).Keys, old(funcs))
      ensures r.Ok? ==> globals == old(globals) + PoolGlobals(constpool) + mod.vardefs
      ensures r.Ok? ==> state.props.Keys == old(state.props).Keys + PoolGlobals(constpool).Keys + mod.vardefs.Keys
      ensures r.Ok? ==> forall k :: k in mod.vardefs ==> HoldsDefault(state.props[k], mod.vardefs[k])
      ensures r.Ok? ==> forall k :: k in PoolGlobals(constpool) && k !in mod.vardefs ==>
                HoldsDefault(state.props[k], PoolGlobals(constpool)[k])
      ensures r.Ok? ==> forall k :: k in old(state.props) && k !in PoolGlobals(constpool) && k !in mod.vardefs ==>
                state.props[k] == old(state.props)[k]
      ensures r.Ok? ==> funcs == GenSpec(mod.blocks, map[], globals.Keys, old(funcs)).value
    {
      ghost var pool := PoolGlobals(constpool);
      if constpool.Some? {
        r := AddPool(constpool.value);
        if r.Err? {
          return;
        }
      }
      assert globals == old(globals) + pool && globals.Keys == old(globals).Keys + pool.Keys;
      assert state.props.Keys == old(state.props).Keys + pool.Keys;
      ghost var props1 := state.props;
      r := Build(mod);
      if r.Ok? {
        forall k | k in pool && k !in mod.vardefs
          ensures HoldsDefault(state.props[k], pool[k])
        {
          assert state.props[k] == props1[k];
        }
      }
    }

    /** The module's own part of the constructor: variables and defaults, then the compiled function table. */
    method Build(mod: ModuleDef) returns (r: Result<(), HdlError>)
      modifies this`globals, this`funcs, state
      ensures r.Ok? <==> BuildOk(mod, old(globals).Keys, old(funcs))
      ensures r.Ok? ==> globals == old(globals) + mod.vardefs
      ensures r.Ok? ==> state.props.Keys == old(state.props).Keys + mod.vardefs.Keys
      ensures r.Ok? ==> forall k :: k in mod.vardefs ==> HoldsDefault(state.props[k], mod.vardefs[k])
      ensures r.Ok? ==> forall k :: k in old(state.props) && k !in mod.vardefs ==> state.props[k] == old(state.props)[k]
      ensures r.Ok? ==> funcs == GenSpec(mod.blocks, map[], globals.Keys, old(funcs)).value
    {
      r := AddDefaults(mod.vardefs);
      if r.Err? {
        return;
      }
      var f := GenFuncs(mod.blocks, map[], globals.Keys, funcs);
      if f.Err? {
        return Err(f.error);
      }
      funcs := f.value;
    }

    /** The constant pool built as a module of its own, its table and definitions copied in. */
    method AddPool(pool: ModuleDef) returns (r: Result<(), HdlError>)
      modifies this`globals, state
      ensures r.Ok? <==> BuildOk(pool, {}, Builtins())
      ensures r.Ok? ==> globals == old(globals) + pool.vardefs
      ensures r.Ok? ==> state.props.Keys == old(state.props).Keys + pool.vardefs.Keys
      ensures r.Ok? ==> forall k :: k in pool.vardefs ==> HoldsDefault(state.props[k], pool.vardefs[k])
      ensures r.Ok? ==> forall k :: k in old(state.props) && k !in pool.vardefs ==> state.props[k] == old(state.props)[k]
    {
      var cp := new HdlModule(behaviour);
      r := cp.Build(pool);
      if r.Ok? {
        assert cp.globals == pool.vardefs;
        MergeBuilt(state.props, cp.state.props, pool.vardefs);
        state.props := state.props + cp.state.props;
        globals := globals + cp.globals;
      }
    }

    /**
     * Every variable's definition, then a freshly allocated default value
     * for each variable in turn. The definitions are recorded together
     * ahead of the values; recording each one just before its value, as
     * the constructor does, differs only on a path that fails.
     */
    method AddDefaults(defs: map<string, VarDef>) returns (r: Result<(), HdlError>)
      modifies this`globals, state
      ensures r.Ok? <==> DefaultsOk(defs)
      ensures globals == old(globals) + defs
      ensures r.Ok? ==> state.props.Keys == old(state.props).Keys + defs.Keys
      ensures r.Ok? ==> forall k :: k in defs ==> HoldsDefault(state.props[k], defs[k])
      ensures r.Ok? ==> forall k :: k in old(state.props) && k !in defs ==> state.props[k] == old(state.props)[k]
    {
      globals := globals + defs;
      var todo := defs.Keys;
      while todo != {}
        invariant todo <= defs.Keys
        invariant state.props.Keys == old(state.props).Keys + (defs.Keys - todo)
        invariant forall k :: k in old(state.props) && (k !in defs || k in todo) ==> state.props[k] == old(state.props)[k]
        invariant globals == old(globals) + defs
        invariant forall k :: k in defs && k !in todo ==> HoldsDefault(state.props[k], defs[k])
        decreases todo
      {
        var name :| name in todo;
        r := AddDefault(name, defs[name]);
        if r.Err? {
          return;
        }
        todo := todo - {name};
      }
      r := Ok(());
    }

    /** One variable: its default value allocated and stored. */
    method AddDefault(name: string, def: VarDef) returns (r: Result<(), HdlError>)
      modifies state
      ensures r.Ok? <==> DefaultShape(def.dtype, def.initValue).Ok?
      ensures r.Err? ==> r.error == DefaultShape(def.dtype, def.initValue).error
      ensures r.Ok? ==> name in state.props && state.props == old(state.props)[name := state.props[name]]
      ensures r.Ok? ==> HoldsDefault(state.props[name], def)
      ensures r.Err? ==> state.props == old(state.props)
    {
      var v := DefaultValue(def.dtype, def.initValue);
      if v.Err? {
        return Err(v.error);
      }
      state.props := state.props[name := v.value];
      r := Ok(());
    }

    /**
     * powercycle(): clears the halt latches, runs the variable reset and the
     * initial block, then settles with the settle block in every round.
     */
    method Powercycle() returns (r: Result<(), HdlError>)
      modifies this`finished, this`stopped, this`settleTime, state
      ensures !finished && !stopped
      ensures var s := Settle(behaviour, true, behaviour.evalInitial(behaviour.ctorVarReset(old(state.props))), 0);
        state.props == s.table && (r.Ok? <==> s.quietAt.Some?) &&
        (r.Ok? ==> settleTime == s.quietAt.value) &&
        (r.Err? ==> r.error == NotConverged(true) && settleTime == old(settleTime))
    {
      finished := false;
      stopped := false;
      state.props := behaviour.ctorVarReset(state.props);
      state.props := behaviour.evalInitial(state.props);
      ghost var start := state.props;
      var i := 0;
      while i < 100
        invariant 0 <= i <= 100
        invariant Settle(behaviour, true, start, 0) == Settle(behaviour, true, state.props, i)
        invariant settleTime == old(settleTime) && !finished && !stopped
      {
        ghost var before := state.props;
        state.props := behaviour.evalSettle(state.props);
        state.props := behaviour.eval(state.props);
        var (t, changed) := behaviour.changeRequest(state.props);
        assert (t, changed) == Round(behaviour, true, before);
        state.props := t;
        if !changed {
          settleTime := i;
          return Ok(());
        }
        i := i + 1;
      }
      assert Settle(behaviour, true, state.props, i) == Settled(state.props, None);
      return Err(NotConverged(true));
    }

    /** eval(): settles without the settle block, at most 100 rounds. */
    method Eval() returns (r: Result<(), HdlError>)
      modifies this`settleTime, state
      ensures Outcome(state.props, settleTime, r.Ok?) == EvalOutcome(behaviour, old(state.props), old(settleTime))
      ensures r.Err? ==> r.error == NotConverged(false)
    {
      var i := 0;
      while i < 100
        invariant 0 <= i <= 100
        invariant Settle(behaviour, false, old(state.props), 0) == Settle(behaviour, false, state.props, i)
        invariant settleTime == old(settleTime)
      {
        state.props := behaviour.eval(state.props);
        var (t, changed) := behaviour.changeRequest(state.props);
        state.props := t;
        if !changed {
          settleTime := i;
          return Ok(());
        }
        i := i + 1;
      }
      return Err(NotConverged(false));
    }

    /** tick2(iters): iters full clock cycles, low then high, each followed by eval(). */
    method Tick2(iters: int) returns (r: Result<(), HdlError>)
      modifies this`settleTime, state
      ensures Outcome(state.props, settleTime, r.Ok?) == Tick2Spec(behaviour, old(state.props), old(settleTime), iters)
      ensures r.Err? ==> r.error == NotConverged(false)
    {
      var n := iters;
      while n > 0
        invariant Tick2Spec(behaviour, old(state.props), old(settleTime), iters) == Tick2Spec(behaviour, state.props, settleTime, n)
        decreases n
      {
        state.props := state.props["clk" := Num(Int(0))];
        r := Eval();
        if r.Err? {
          return;
        }
        state.props := state.props["clk" := Num(Int(1))];
        r := Eval();
        if r.Err? {
          return;
        }
        n := n - 1;
      }
      r := Ok(());
    }

    /** tick(): `clk ^= 1`, then eval(). */
    method Tick() returns (r: Result<(), HdlError>)
      modifies this`settleTime, state
      ensures var f := ClockFlip(Get(old(state.props), "clk"));
        f.Err? ==> r == Err(TypeError) && state.props == old(state.props) && settleTime == old(settleTime)
      ensures var f := ClockFlip(Get(old(state.props), "clk"));
        f.Ok? ==> Outcome(state.props, settleTime, r.Ok?) == EvalOutcome(behaviour, old(state.props)["clk" := f.value], old(settleTime))
    {
      var f := ClockFlip(Get(state.props, "clk"));
      if f.Err? {
        return Err(f.error);
      }
      state.props := state.props["clk" := f.value];
      r := Eval();
    }

    /** get(name): the value in the table, undefined when there is none. */
    function Lookup(name: string): (v: Value)
      reads state
      ensures name in state.props ==> v == state.props[name]
      ensures name !in state.props ==> v == Undefined
    {
      Get(state.props, name)
    }

    /** set(name, value): replaces an existing entry; a name not in the table is ignored. */
    method Set(name: string, value: Value)
      modifies state
      ensures name in old(state.props) ==> state.props == old(state.props)[name := value] && Lookup(name) == value
      ensures name !in old(state.props) ==> state.props == old(state.props)
      ensures forall k :: k != name ==> Lookup(k) == old(Lookup(k))
    {
      if name in state.props {
        state.props := state.props[name := value];
      }
    }

    /** $finish: latches the finished flag. */
    method Finish(loc: Option<string>)
      modifies this`finished
      ensures finished
    {
      if !finished {
        finished := true;
      }
    }

    /** $stop: latches the stopped flag. */
    method Stop(loc: Option<string>)
      modifies this`stopped
      ensures stopped
    {
      if !stopped {
        stopped := true;
      }
    }

    /** saveState(): a fresh table with every primitive and array of the state, arrays copied. */
    method SaveState() returns (saved: JsObject)
      ensures fresh(saved)
      ensures forall k :: k in saved.props <==> k in state.props && !(state.props[k].Func? || state.props[k].Obj?)
      ensures forall k :: k in state.props && IsPrimitive(state.props[k]) ==> saved.props[k] == state.props[k]
      ensures forall k :: k in state.props && IsArrayLike(state.props[k]) ==>
                fresh(Refs(saved.props[k])) && SnapOf(saved.props[k]) == SnapOf(state.props[k])
    {
      saved := new JsObject();
      saved := SimUtil.SafeExtend(saved, state);
    }

    /** loadState(s): every primitive and array of s copied into the state, arrays copied. */
    method LoadState(s: JsObject)
      modifies state
      ensures forall k :: k in state.props <==>
                k in old(state.props) || (k in old(s.props) && !(old(s.props)[k].Func? || old(s.props)[k].Obj?))
      ensures forall k :: k in old(state.props) && (k !in old(s.props) || old(s.props)[k].Func? || old(s.props)[k].Obj?) ==>
                state.props[k] == old(state.props)[k]
      ensures forall k :: k in old(s.props) && IsPrimitive(old(s.props)[k]) ==> state.props[k] == old(s.props)[k]
      ensures forall k :: k in old(s.props) && IsArrayLike(old(s.props)[k]) ==>
                fresh(Refs(state.props[k])) && SnapOf(state.props[k]) == SnapOf(old(s.props)[k])
    {
      var _ := SimUtil.SafeExtend(state, s);
    }

    /**
     * $readmem(o, filename, memp, lsbp, msbp, ishex): the file name decoded
     * from its words, the file's lines read as hex or binary numbers, and
     * the numbers written into the destination from index 0. The address
     * bounds are ignored, as in the source.
     */
    method ReadMem(filename: seq<int>, memp: Value, ishex: bool) returns (r: Result<(), HdlError>)
      modifies Refs(memp)
      ensures var name := FileName(filename);
        fileData.None? ==> r == Err(TypeError)
      ensures var name := FileName(filename);
        fileData.Some? && fileData.value(name).None? ==> r == Err(CannotReadMem(name))
      ensures var name := FileName(filename);
        fileData.Some? && fileData.value(name).Some? ==>
          var data := MemData(fileData.value(name).value, ishex);
          (memp.Null? ==> r == Err(NoDestination(name))) &&
          (memp.Typed? && memp.buf.Length < |data| ==> r == Err(DestinationTooSmall(name))) &&
          (memp.Typed? && |data| <= memp.buf.Length ==>
             r.Ok? && (forall j :: 0 <= j < |data| ==> memp.buf[j] == StoreElem(memp.kind, data[j])) &&
             forall j :: |data| <= j < memp.buf.Length ==> memp.buf[j] == old(memp.buf[j])) &&
          (memp.List? && |old(memp.list.items)| < |data| ==> r == Err(DestinationTooSmall(name))) &&
          (memp.List? && |data| <= |old(memp.list.items)| ==>
             r.Ok? && |memp.list.items| == |old(memp.list.items)| &&
             (forall j :: 0 <= j < |data| ==> memp.list.items[j] == Num(data[j])) &&
             forall j :: |data| <= j < |memp.list.items| ==> memp.list.items[j] == old(memp.list.items)[j]) &&
          (!memp.Null? && !memp.Typed? && !memp.List? ==> r == Err(TypeError))
      ensures r.Err? ==> unchanged(Refs(memp))
    {
      var name := FileNameOf(filename);
      if fileData.None? {
        return Err(TypeError);
      }
      var text := fileData.value(name);
      if text.None? {
        return Err(CannotReadMem(name));
      }
      var data := MemData(text.value, ishex);
      match memp {
        case Null =>
          r := Err(NoDestination(name));
        case Typed(kind, buf) =>
          if buf.Length < |data| {
            return Err(DestinationTooSmall(name));
          }
          CopyTyped(kind, buf, data);
          r := Ok(());
        case List(l) =>
          if |l.items| < |data| {
            return Err(DestinationTooSmall(name));
          }
          CopyList(l, data);
          r := Ok(());
        case _ =>
          r := Err(TypeError);
      }
    }

    /** `memp[i] = data[i]` for every i, on a typed array. */
    static method CopyTyped(kind: ElemKind, buf: array<int>, data: seq<Number>)
      requires |data| <= buf.Length
      modifies buf
      ensures forall j :: 0 <= j < |data| ==> buf[j] == StoreElem(kind, data[j])
      ensures forall j :: |data| <= j < buf.Length ==> buf[j] == old(buf[j])
    {
      var i := 0;
      while i < |data|
        invariant 0 <= i <= |data|
        invariant forall j :: 0 <= j < i ==> buf[j] == StoreElem(kind, data[j])
        invariant forall j :: i <= j < buf.Length ==> buf[j] == old(buf[j])
      {
        buf[i] := StoreElem(kind, data[i]);
        i := i + 1;
      }
    }

    /** `memp[i] = data[i]` for every i, on a plain array. */
    static method CopyList(l: JsList, data: seq<Number>)
      requires |data| <= |l.items|
      modifies l
      ensures |l.items| == |old(l.items)|
      ensures forall j :: 0 <= j < |data| ==> l.items[j] == Num(data[j])
      ensures forall j :: |data| <= j < |l.items| ==> l.items[j] == old(l.items)[j]
    {
      var i := 0;
      while i < |data|
        invariant 0 <= i <= |data| && |l.items| == |old(l.items)|
        invariant forall j :: 0 <= j < i ==> l.items[j] == Num(data[j])
        invariant forall j :: i <= j < |l.items| ==> l.items[j] == old(l.items)[j]
      {
        l.items := l.items[i := Num(data[i])];
        i := i + 1;
      }
    }

    /** The name bytes of the words, zeros dropped, reversed, and made a string; a loop as in the source. */
    method FileNameOf(filename: seq<int>) returns (name: string)
      ensures name == FileName(filename)
    {
      var barr: seq<int> := [];
      var i := 0;
      while i < |filename|
        invariant 0 <= i <= |filename|
        invariant NameBytes(filename) == barr + NameBytes(filename[i..])
      {
        assert filename[i..][1..] == filename[i + 1..];
        barr := barr + WordBytes(filename[i]);
        i := i + 1;
      }
      assert filename[i..] == [];
      assert barr == NameBytes(filename);
      var bytes := Reverse(NonZero(barr));
      assert FileName(filename) == SimUtil.CharsOf(bytes);
      name := SimUtil.ByteArrayToString(Some(bytes));
    }
  }

  /** get(name) on a table. */
  function Get(t: Table, name: string): (v: Value)
    ensures name in t ==> v == t[name]
    ensures name !in t ==> v == Undefined
  {
    if name in t then t[name] else Undefined
  }

  // ---------------------------------------------------------------------
  // $readmem

  /** `(w >> 8k) & 0xff` for k = 0, 1, 2, 3: the bytes of a word, least significant first. */
  function WordBytes(w: int): (r: seq<int>)
    ensures |r| == 4
  {
    [JsInt.And(JsInt.Sar(w, 0), 0xff), JsInt.And(JsInt.Sar(w, 8), 0xff),
     JsInt.And(JsInt.Sar(w, 16), 0xff), JsInt.And(JsInt.Sar(w, 24), 0xff)]
  }

  /** The bytes of all the words, word by word. */
  function NameBytes(ws: seq<int>): (r: seq<int>)
    ensures |r| == 4 * |ws|
  {
    if ws == [] then [] else WordBytes(ws[0]) + NameBytes(ws[1..])
  }

  /** The non-zero elements, in order. */
  function NonZero(bs: seq<int>): (r: seq<int>)
    ensures forall x :: x in r <==> x in bs && x != 0
    ensures multiset(r) == multiset(bs)[0 := 0]
  {
    if bs == [] then []
    else
      assert bs == [bs[0]] + bs[1..];
      (if bs[0] != 0 then [bs[0]] else []) + NonZero(bs[1..])
  }

  function Reverse(bs: seq<int>): (r: seq<int>)
    ensures |r| == |bs| && forall i :: 0 <= i < |bs| ==> r[i] == bs[|bs| - 1 - i]
  {
    if bs == [] then [] else [bs[|bs| - 1]] + Reverse(bs[..|bs| - 1])
  }

  /** The file name `$readmem` reads: the name bytes without zeros, reversed, as characters. */
  function FileName(ws: seq<int>): string
  {
    SimUtil.CharsOf(Reverse(NonZero(NameBytes(ws))))
  }

  /** The non-empty lines, in order. */
  function NonEmptyLines(lines: seq<string>): (r: seq<string>)
    ensures forall l :: l in r <==> l in lines && l != []
  {
    if lines == [] then [] else (if lines[0] != [] then [lines[0]] else []) + NonEmptyLines(lines[1..])
  }

  /** The numbers a memory file holds: every non-empty line read in base 16 or 2. */
  function MemData(text: string, ishex: bool): (r: seq<Number>)
    ensures var lines := NonEmptyLines(Split(text, '\n'));
      |r| == |lines| && forall i :: 0 <= i < |r| ==> r[i] == ParseInt(lines[i], if ishex then 16 else 2)
  {
    var lines := NonEmptyLines(Split(text, '\n'));
    seq(|lines|, i requires 0 <= i < |lines| => ParseInt(lines[i], if ishex then 16 else 2))
  }

  /** A memory line made only of digits of the radix is read as exactly the number those digits denote. */
  lemma MemDataDigits(text: string, ishex: bool, i: nat)
    requires var lines := NonEmptyLines(Split(text, '\n'));
      i < |lines| && forall j :: 0 <= j < |lines[i]| ==> DigitValue(lines[i][j]) < (if ishex then 16 else 2)
    ensures MemData(text, ishex)[i] == Int(DigitsValue(NonEmptyLines(Split(text, '\n'))[i], if ishex then 16 else 2))
  {
    var lines := NonEmptyLines(Split(text, '\n'));
    assert lines[i] in lines;
    ParseIntRadixDigits(lines[i], if ishex then 16 else 2);
  }

  /** The bytes of a word are the successive 8-bit fields of its 32-bit pattern. */
  lemma WordBytesAre(w: int)
    ensures WordBytes(w)[0] == JsInt.ToUint32(w) % 0x100
    ensures WordBytes(w)[1] == (JsInt.ToUint32(w) / 0x100) % 0x100
    ensures WordBytes(w)[2] == (JsInt.ToUint32(w) / 0x1_0000) % 0x100
    ensures WordBytes(w)[3] == (JsInt.ToUint32(w) / 0x100_0000) % 0x100
  {
    JsInt.Pow2Known();
    assert JsInt.Pow2(0) == 1;
    assert JsInt.ToUint32(w) / 1 == JsInt.ToUint32(w);
    assert JsInt.Pow2(16) == 0x1_0000 by { JsInt.Pow2Add(8, 8); }
    assert JsInt.Pow2(24) == 0x100_0000 by { JsInt.Pow2Add(16, 8); }
    JsInt.SarMask(w, 0, 8);
    JsInt.SarMask(w, 8, 8);
    JsInt.SarMask(w, 16, 8);
    JsInt.SarMask(w, 24, 8);
  }

  predicate IsByte(b: int)
  {
    0 <= b < 256
  }

  /** Four bytes packed into a word, the first one least significant. */
  function Pack(b: seq<int>): (w: int)
    requires |b| == 4 && forall i :: 0 <= i < 4 ==> IsByte(b[i])
    ensures 0 <= w < JsInt.TWO32
  {
    assert IsByte(b[0]) && IsByte(b[1]) && IsByte(b[2]) && IsByte(b[3]);
    b[0] + 0x100 * (b[1] + 0x100 * (b[2] + 0x100 * b[3]))
  }

  /** Unpacking a packed word gives back its four bytes. */
  lemma UnpackPack(b: seq<int>)
    requires |b| == 4 && forall i :: 0 <= i < 4 ==> IsByte(b[i])
    ensures WordBytes(Pack(b)) == b
  {
    assert IsByte(b[0]) && IsByte(b[1]) && IsByte(b[2]) && IsByte(b[3]);
    var w := Pack(b);
    var x2 := b[2] + 0x100 * b[3];
    var x1 := b[1] + 0x100 * x2;
    assert w == b[0] + 0x100 * x1;
    WordBytesAre(w);
    assert JsInt.ToUint32(w) == w;
    JsInt.DivModUnique(w, 0x100, x1, b[0]);
    JsInt.DivModUnique(x1, 0x100, x2, b[1]);
    JsInt.DivModUnique(x2, 0x100, b[3], b[2]);
    JsInt.DivModUnique(w, 0x1_0000, x2, b[0] + 0x100 * b[1]);
    JsInt.DivModUnique(w, 0x100_0000, b[3], b[0] + 0x100 * b[1] + 0x1_0000 * b[2]);
    JsInt.DivModUnique(b[3], 0x100, 0, b[3]);
    var r := WordBytes(w);
    assert r[0] == b[0];
    assert r[1] == b[1];
    assert r[2] == b[2];
    assert r[3] == b[3];
  }

  /** Bytes, a multiple of four of them, packed into words four at a time. */
  function PackAll(bs: seq<int>): (ws: seq<int>)
    requires |bs| % 4 == 0 && forall i :: 0 <= i < |bs| ==> IsByte(bs[i])
    ensures |ws| == |bs| / 4
  {
    if bs == [] then [] else [Pack(bs[..4])] + PackAll(bs[4..])
  }

  lemma {:induction false} NameBytesPackAll(bs: seq<int>)
    requires |bs| % 4 == 0 && forall i :: 0 <= i < |bs| ==> IsByte(bs[i])
    ensures NameBytes(PackAll(bs)) == bs
  {
    if bs != [] {
      var ws := PackAll(bs);
      NameBytesPackAll(bs[4..]);
      UnpackPack(bs[..4]);
      assert ws[1..] == PackAll(bs[4..]);
      assert bs == bs[..4] + bs[4..];
    }
  }

  lemma {:induction false} NonZeroAppend(a: seq<int>, b: seq<int>)
    ensures NonZero(a + b) == NonZero(a) + NonZero(b)
  {
    if a != [] {
      var head := if a[0] != 0 then [a[0]] else [];
      var rest := a[1..];
      assert a == [a[0]] + rest;
      assert a + b == [a[0]] + (rest + b);
      calc {
        NonZero(a + b);
      == { NonZeroCons(a[0], rest + b); }
        head + NonZero(rest + b);
      == { NonZeroAppend(rest, b); }
        head + (NonZero(rest) + NonZero(b));
      == { ConcatAssoc(head, NonZero(rest), NonZero(b)); }
        (head + NonZero(rest)) + NonZero(b);
      == { NonZeroCons(a[0], rest); }
        NonZero(a) + NonZero(b);
      }
    } else {
      assert a + b == b;
    }
  }

  lemma ConcatAssoc(x: seq<int>, y: seq<int>, z: seq<int>)
    ensures x + (y + z) == (x + y) + z
  {
  }

  lemma NonZeroCons(h: int, t: seq<int>)
    ensures NonZero([h] + t) == (if h != 0 then [h] else []) + NonZero(t)
  {
    assert ([h] + t)[1..] == t;
  }

  lemma {:induction false} NonZeroOfZeros(n: nat)
    ensures NonZero(Zeros(n)) == []
  {
    if n > 0 {
      assert Zeros(n)[1..] == Zeros(n - 1);
      NonZeroOfZeros(n - 1);
    }
  }

  lemma {:induction false} NonZeroOfNonZero(bs: seq<int>)
    requires forall i :: 0 <= i < |bs| ==> bs[i] != 0
    ensures NonZero(bs) == bs
  {
    if bs != [] {
      NonZeroOfNonZero(bs[1..]);
    }
  }

  /** The character codes of a string. */
  function Codes(s: string): (r: seq<int>)
    ensures |r| == |s| && forall i :: 0 <= i < |s| ==> r[i] == s[i] as int
  {
    seq(|s|, i requires 0 <= i < |s| => s[i] as int)
  }

  /** The bytes of a name, last character first, padded with zeros to whole words. */
  function PaddedBytes(s: string): (r: seq<int>)
    requires forall i :: 0 <= i < |s| ==> IsByte(s[i] as int)
    ensures |r| % 4 == 0 && forall i :: 0 <= i < |r| ==> IsByte(r[i])
  {
    var codes := Reverse(Codes(s));
    codes + Zeros((4 - |codes| % 4) % 4)
  }

  /**
   * A string as a packed wide value presents it: the last character in the
   * lowest byte of the first word, the bytes past the first character zero.
   */
  function EncodeName(s: string): seq<int>
    requires forall i :: 0 <= i < |s| ==> IsByte(s[i] as int)
  {
    PackAll(PaddedBytes(s))
  }

  /** Without its zeros, the packed name unpacks to the reversed character codes. */
  lemma NameBytesOfEncoded(s: string)
    requires forall i :: 0 <= i < |s| ==> 0 < s[i] as int < 256
    ensures NonZero(NameBytes(EncodeName(s))) == Reverse(Codes(s))
  {
    var codes := Reverse(Codes(s));
    var pad := Zeros((4 - |codes| % 4) % 4);
    assert PaddedBytes(s) == codes + pad;
    assert forall i :: 0 <= i < |codes| ==> codes[i] != 0 by {
      forall i | 0 <= i < |codes|
        ensures codes[i] != 0
      {
        assert codes[i] == s[|s| - 1 - i] as int;
      }
    }
    calc {
      NonZero(NameBytes(EncodeName(s)));
    == { NameBytesPackAll(PaddedBytes(s)); }
      NonZero(codes + pad);
    == { NonZeroAppend(codes, pad); }
      NonZero(codes) + NonZero(pad);
    == { NonZeroOfZeros(|pad|); NonZeroOfNonZero(codes); }
      codes;
    }
  }

  /** The characters of a string's byte codes are the string itself. */
  lemma CharsOfCodes(s: string)
    requires forall i :: 0 <= i < |s| ==> 0 < s[i] as int < 256
    ensures SimUtil.CharsOf(Codes(s)) == s
  {
    var codes := Codes(s);
    SimUtil.CharsOfBytes(codes);
    var name := SimUtil.CharsOf(codes);
    forall i | 0 <= i < |s|
      ensures name[i] == s[i]
    {
      assert name[i] as int == s[i] as int;
    }
  }

  /**
   * `$readmem` decodes such a name back to the string itself, for every
   * name without NUL characters.
   */
  lemma FileNameRoundTrip(s: string)
    requires forall i :: 0 <= i < |s| ==> 0 < s[i] as int < 256
    ensures FileName(EncodeName(s)) == s
  {
    NameBytesOfEncoded(s);
    assert Reverse(Reverse(Codes(s))) == Codes(s);
    CharsOfCodes(s);
  }
}
