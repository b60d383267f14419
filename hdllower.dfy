/**
 * The lowering of the design tree into target code (expr2js / expr2reset)
 * and the compilation of a module's blocks (genFuncs). The target code is a
 * tree (`Code`) rather than program text: each constructor stands for one
 * template of the generated JavaScript. The translator's scratch state (the
 * constants map, the locals declared so far, the names of the module's
 * variables and the count of constants used) is threaded explicitly.
 */
module HdlLower {
  import opened JsValues
  import JsInt
  import opened JsString
  import opened HdlAst

  /** Where an expression is lowered: as a store target, as a condition, or plainly. */
  datatype Opts = Opts(store: bool, cond: bool)

  const Plain := Opts(false, false)
  const StorePos := Opts(true, false)
  const CondPos := Opts(false, true)

  /** The initialiser of a generated `var`. */
  datatype VarInit = NoInit | InitNum(n: int) | InitEmptyList

  /** Generated code, one constructor per template. */
  datatype Code =
    | CComment                                          // /*null*/
    | CDec(n: int)                                      // a decimal literal
    | CHex(n: int)                                      // 0x... literal
    | CBigLit(n: int)                                   // BigInt(n)
    | CLocal(name: string)                              // name
    | CGlobal(name: string)                             // o.name
    | CName(name: string)                               // a bare name (reset of a constant)
    | CUndefined                                        // the text "undefined"
    | CVar(name: string, init: VarInit)                 // var name [= ...]
    | CIf(cond: Code, thenCode: Code, elseCode: Option<Code>)
    | CCond(cond: Code, yes: Code, no: Code)            // (c ? a : b)
    | CAssign(target: Code, value: Code)                // target = value
    | CIndex(arr: Code, index: Code)                    // arr[index]
    | CChangeDet(left: Code, right: Code, target: Code, source: Code)
                                                        // $$req |= (left ^ right); target = source
    | CBinary(op: JsOperator, left: Code, right: Code)  // (left op right)
    | CTruth(op: JsOperator, left: Code, right: Code)   // ((left op right)?1:0)
    | CReturn(arg: Code)
    | CNot(arg: Code)                                   // (~arg)
    | CNeg(arg: Code)                                   // (-arg)
    | CExtend(arg: Code, shift: int)                    // ((arg << shift) >> shift)
    | CReduce(fname: string, arg: Code)                 // this.fname(arg)
    | CFill(target: Code)                               // target.fill(0)
    | CFillRows(target: Code)                           // target.forEach((a) => a.fill(0))
    | CSeq(items: seq<Code>)                            // items joined by ';'
    | CChangeRequest(body: seq<Code>)                   // var $$req = 0; body; return $$req;
    | CFormat(name: string, args: seq<Code>)            // "name", args...
    | CFor(setup: Code, test: Code, step: Code, loopBody: Code)
    | CCall(fname: string, loc: Option<string>, args: seq<Code>)  // this.fname(o, ...)

  /** The translator's state: constants, declared locals, module variables, constants used. */
  datatype LState = LState(consts: map<string, int>, locals: set<string>, globals: set<string>, constused: int)

  datatype Lowered = Lowered(code: Code, st: LState)

  datatype LoweredList = LoweredList(codes: seq<Code>, st: LState)

  /**
   * The JavaScript operators the generated code uses: ===, !==, >, <, >=,
   * <=, &, |, ^, +, -, >>>, <<, *, % and /.
   */
  datatype JsOperator =
    | StrictEq | StrictNeq | Greater | Less | GreaterEq | LessEq
    | BitAnd | BitOr | BitXor | Plus | Minus | UShr | LShift | Times | Modulo | Divide

  /** The comparisons, which yield a boolean (the operators marked '?' in the table). */
  predicate IsComparison(j: JsOperator)
  {
    j.StrictEq? || j.StrictNeq? || j.Greater? || j.Less? || j.GreaterEq? || j.LessEq?
  }

  /** The operator table: the JavaScript operator of each plain binary operator. */
  function Op2Js(op: BinOp): Option<JsOperator>
  {
    match op
    case Eq => Some(StrictEq)
    case Neq => Some(StrictNeq)
    case Gt => Some(Greater)
    case Lt => Some(Less)
    case Gte => Some(GreaterEq)
    case Lte => Some(LessEq)
    case And => Some(BitAnd)
    case Or => Some(BitOr)
    case Xor => Some(BitXor)
    case Add => Some(Plus)
    case Sub => Some(Minus)
    case ShiftR => Some(UShr)
    case ShiftL => Some(LShift)
    case Mul => Some(Times)
    case ModDiv => Some(Modulo)
    case Div => Some(Divide)
    case MulS => Some(Times)
    case ModDivS => Some(Modulo)
    case DivS => Some(Divide)
    case GtS => Some(Greater)
    case GteS => Some(GreaterEq)
    case LtS => Some(Less)
    case LteS => Some(LessEq)
    case _ => None
  }

  /** The binary operators that store their left operand into their right one. */
  predicate IsAssignOp(op: BinOp)
  {
    op.ContAssign? || op.Assign? || op.AssignPre? || op.AssignDly? || op.AssignPost?
  }

  predicate IsKnownBinop(op: BinOp)
  {
    IsAssignOp(op) || op.ArraySel? || op.WordSel? || op.ChangeDet? || Op2Js(op).Some?
  }

  predicate IsKnownTriop(op: TriOp)
  {
    !op.OtherTriop?
  }

  predicate IsKnownUnop(op: UnOp)
  {
    !op.OtherUnop?
  }

  /** An `if` whose else part is absent or an empty block has no else branch. */
  predicate SingleBranch(right: Expr)
  {
    right.Null? || (right.Block? && right.exprs == [])
  }

  /** constValue: the value of a constant expression; anything else is an error. */
  function ConstValue(e: Expr): (r: Result<int, HdlError>)
    ensures r.Ok? <==> e.Const?
    ensures r.Ok? ==> r.value == e.cvalue
  {
    if e.Const? then Ok(e.cvalue) else Err(NoConstValue)
  }

  // ---------------------------------------------------------------------
  // expr2js

  /**
   * A variable reference: a known constant (only when not stored to, and
   * counted as used), else a declared local, else a module variable, else
   * an error.
   */
  function LowerRef(n: string, o: Opts, st: LState): Result<Lowered, HdlError>
  {
    if n in st.consts && !o.store then Ok(Lowered(CDec(st.consts[n]), st.(constused := st.constused + 1)))
    else if n in st.locals then Ok(Lowered(CLocal(n), st))
    else if n in st.globals then Ok(Lowered(CGlobal(n), st))
    else Err(UnknownVariable(n))
  }

  /**
   * A declaration inside a block: the name becomes a local; a constant
   * initial value becomes the initialiser, an array initialiser is an error,
   * and a vector wider than 32 bits starts as an empty list.
   */
  function LowerDecl(def: VarDef, st: LState): Result<Lowered, HdlError>
  {
    var st' := st.(locals := st.locals + {def.name});
    if def.constValue.Some? then
      match ConstValue(def.constValue.value)
      case Ok(v) => Ok(Lowered(CVar(def.name, InitNum(v)), st'))
      case Err(err) => Err(err)
    else if def.initValue.Some? then Err(CantInitArray(def.name))
    else if def.dtype.Logic? && def.dtype.left > 31 then Ok(Lowered(CVar(def.name, InitEmptyList), st'))
    else Ok(Lowered(CVar(def.name, NoInit), st'))
  }

  /**
   * The declaration as written: the constant is asked of the declaration
   * itself rather than of its constant value.
   */
  function LowerDeclAsWritten(def: VarDef, st: LState): Result<Lowered, HdlError>
  {
    var st' := st.(locals := st.locals + {def.name});
    if def.constValue.Some? then
      match ConstValue(VarDecl(def))
      case Ok(v) => Ok(Lowered(CVar(def.name, InitNum(v)), st'))
      case Err(err) => Err(err)
    else if def.initValue.Some? then Err(CantInitArray(def.name))
    else if def.dtype.Logic? && def.dtype.left > 31 then Ok(Lowered(CVar(def.name, InitEmptyList), st'))
    else Ok(Lowered(CVar(def.name, NoInit), st'))
  }

  /** expr2js(e, options). */
  function Lower(e: Expr, o: Opts, st: LState): Result<Lowered, HdlError>
    decreases Size(e), 1
  {
    match e
    case Null => Ok(Lowered(CComment, st))
    case VarRef(n, _) => LowerRef(n, o, st)
    case VarDecl(def) => LowerDecl(def, st)
    case Const(v) => Ok(Lowered(CHex(v), st))
    case BigConst(v) => Ok(Lowered(CDec(v), st))
    case Triop(_, _, _, _) => LowerTriop(e, st)
    case Binop(_, _, _) => LowerBinop(e, o, st)
    case Unop(_, _, _) => LowerUnop(e, st)
    case Block(_, _, _) => LowerBlock(e, st)
    case Whileop(_, _, _, _) => LowerWhile(e, st)
    case FuncCall(_, _, _) => LowerCall(e, st)
    case Other => Err(Unrecognized)
  }

  function LowerTriop(e: Expr, st: LState): Result<Lowered, HdlError>
    requires e.Triop?
    decreases Size(e), 0
  {
    if !IsKnownTriop(e.top) then Err(UnknownTriop(e.top))
    else
      match Lower(e.cond, CondPos, st)
      case Err(err) => Err(err)
      case Ok(c) =>
        match Lower(e.left, Plain, c.st)
        case Err(err) => Err(err)
        case Ok(l) =>
          if e.top.If? && SingleBranch(e.right) then Ok(Lowered(CIf(c.code, l.code, None), l.st))
          else
            match Lower(e.right, Plain, l.st)
            case Err(err) => Err(err)
            case Ok(r) =>
              if e.top.If? then Ok(Lowered(CIf(c.code, l.code, Some(r.code)), r.st))
              else Ok(Lowered(CCond(c.code, l.code, r.code), r.st))
  }

  function LowerBinop(e: Expr, o: Opts, st: LState): Result<Lowered, HdlError>
    requires e.Binop?
    decreases Size(e), 0
  {
    if IsAssignOp(e.bop) then
      match Lower(e.right, StorePos, st)
      case Err(err) => Err(err)
      case Ok(t) =>
        match Lower(e.left, Plain, t.st)
        case Err(err) => Err(err)
        case Ok(v) => Ok(Lowered(CAssign(t.code, v.code), v.st))
    else if e.bop.ChangeDet? then
      match Lower(e.left, Plain, st)
      case Err(err) => Err(err)
      case Ok(l1) =>
        match Lower(e.right, Plain, l1.st)
        case Err(err) => Err(err)
        case Ok(r1) =>
          match Lower(e.right, Plain, r1.st)
          case Err(err) => Err(err)
          case Ok(r2) =>
            match Lower(e.left, Plain, r2.st)
            case Err(err) => Err(err)
            case Ok(l2) => Ok(Lowered(CChangeDet(l1.code, r1.code, r2.code, l2.code), l2.st))
    else if !e.bop.ArraySel? && !e.bop.WordSel? && Op2Js(e.bop).None? then Err(UnknownBinop(e.bop))
    else
      match Lower(e.left, Plain, st)
      case Err(err) => Err(err)
      case Ok(l) =>
        match Lower(e.right, Plain, l.st)
        case Err(err) => Err(err)
        case Ok(r) =>
          if e.bop.ArraySel? || e.bop.WordSel? then Ok(Lowered(CIndex(l.code, r.code), r.st))
          else
            var j := Op2Js(e.bop).value;
            if IsComparison(j) && !o.cond then Ok(Lowered(CTruth(j, l.code, r.code), r.st))
            else Ok(Lowered(CBinary(j, l.code, r.code), r.st))
  }

  function LowerUnop(e: Expr, st: LState): Result<Lowered, HdlError>
    requires e.Unop?
    decreases Size(e), 0
  {
    if !IsKnownUnop(e.uop) then Err(UnknownUnop(e.uop))
    else if e.uop.Creset? then LowerReset(e.left, st)
    else
      match Lower(e.left, Plain, st)
      case Err(err) => Err(err)
      case Ok(a) =>
        var code :=
          match e.uop
          case Ccast => a.code
          case Creturn => CReturn(a.code)
          case Not => CNot(a.code)
          case Negate => CNeg(a.code)
          case Extends => CExtend(a.code, 32 - e.widthminv)
          case _ => CReduce("$$redxor", a.code);
        Ok(Lowered(code, a.st))
  }

  function LowerBlock(e: Expr, st: LState): Result<Lowered, HdlError>
    requires e.Block?
    decreases Size(e), 0
  {
    match LowerList(e.exprs, st)
    case Err(err) => Err(err)
    case Ok(body) =>
      if e.name != "" && StartsWith(e.name, "_change_request") then Ok(Lowered(CChangeRequest(body.codes), body.st))
      else if e.name != "" && e.blocktype == "sformatf" then
        match LowerList(e.exprs, body.st)
        case Err(err) => Err(err)
        case Ok(args) => Ok(Lowered(CFormat(e.name, args.codes), args.st))
      else Ok(Lowered(CSeq(body.codes), body.st))
  }

  function LowerWhile(e: Expr, st: LState): Result<Lowered, HdlError>
    requires e.Whileop?
    decreases Size(e), 0
  {
    match Lower(e.precond, Plain, st)
    case Err(err) => Err(err)
    case Ok(p) =>
      match Lower(e.loopcond, Plain, p.st)
      case Err(err) => Err(err)
      case Ok(c) =>
        match Lower(e.inc, Plain, c.st)
        case Err(err) => Err(err)
        case Ok(i) =>
          match Lower(e.body, Plain, i.st)
          case Err(err) => Err(err)
          case Ok(b) => Ok(Lowered(CFor(p.code, c.code, i.code, b.code), b.st))
  }

  function LowerCall(e: Expr, st: LState): Result<Lowered, HdlError>
    requires e.FuncCall?
    decreases Size(e), 0
  {
    if (e.funcname == "$stop" || e.funcname == "$finish") && e.loc.Some? then
      Ok(Lowered(CCall(e.funcname, e.loc, []), st))
    else
      match LowerList(e.args, st)
      case Err(err) => Err(err)
      case Ok(args) => Ok(Lowered(CCall(e.funcname, None, args.codes), args.st))
  }

  /** The expressions of a list lowered left to right, the state threaded through. */
  function LowerList(es: seq<Expr>, st: LState): Result<LoweredList, HdlError>
    decreases SizeList(es), 3
  {
    if es == [] then Ok(LoweredList([], st))
    else
      match Lower(es[0], Plain, st)
      case Err(err) => Err(err)
      case Ok(x) =>
        match LowerList(es[1..], x.st)
        case Err(err) => Err(err)
        case Ok(rest) => Ok(LoweredList([x.code] + rest.codes, rest.st))
  }

  /**
   * expr2reset: a constant resets to its bare name; a vector is set to 0 (a
   * big integer 0 above 32 bits); an array of vectors, or of arrays of
   * vectors, is filled with 0; other arrays are an error; a reference of any
   * other type yields the text "undefined"; anything but a reference is an
   * error.
   */
  function LowerReset(e: Expr, st: LState): Result<Lowered, HdlError>
    decreases Size(e), 2
  {
    if !e.VarRef? then Err(ResetNotVarRef)
    else if e.refname in st.consts then Ok(Lowered(CName(e.refname), st))
    else if e.dtype.Logic? then
      match Lower(e, Plain, st)
      case Err(err) => Err(err)
      case Ok(x) => Ok(Lowered(CAssign(x.code, if e.dtype.left <= 31 then CDec(0) else CBigLit(0)), x.st))
    else if e.dtype.ArrayOf? then
      if e.dtype.subtype.Logic? then
        match Lower(e, Plain, st)
        case Err(err) => Err(err)
        case Ok(x) => Ok(Lowered(CFill(x.code), x.st))
      else if e.dtype.subtype.ArrayOf? && e.dtype.subtype.subtype.Logic? then
        match Lower(e, Plain, st)
        case Err(err) => Err(err)
        case Ok(x) => Ok(Lowered(CFillRows(x.code), x.st))
      else Err(ResetUnsupported(e.refname))
    else Ok(Lowered(CUndefined, st))
  }

  // ---------------------------------------------------------------------
  // Constants used

  /**
   * The number of constant substitutions lowering makes: references to a
   * known constant read outside a store position, counting the expressions
   * the lowering visits twice (a change detection, a format block) twice.
   */
  function ConstReads(e: Expr, o: Opts, consts: map<string, int>): nat
    decreases Size(e)
  {
    match e
    case VarRef(n, _) => if n in consts && !o.store then 1 else 0
    case Triop(op, c, l, r) =>
      ConstReads(c, CondPos, consts) + ConstReads(l, Plain, consts) +
      (if op.If? && SingleBranch(r) then 0 else ConstReads(r, Plain, consts))
    case Binop(op, l, r) =>
      if IsAssignOp(op) then ConstReads(r, StorePos, consts) + ConstReads(l, Plain, consts)
      else if op.ChangeDet? then 2 * (ConstReads(l, Plain, consts) + ConstReads(r, Plain, consts))
      else ConstReads(l, Plain, consts) + ConstReads(r, Plain, consts)
    case Unop(op, l, _) => if op.Creset? then 0 else ConstReads(l, Plain, consts)
    case Block(name, bt, es) =>
      (if name != "" && !StartsWith(name, "_change_request") && bt == "sformatf" then 2 else 1) * ConstReadsList(es, consts)
    case Whileop(p, c, i, b) =>
      ConstReads(p, Plain, consts) + ConstReads(c, Plain, consts) + ConstReads(i, Plain, consts) + ConstReads(b, Plain, consts)
    case FuncCall(f, loc, args) => if (f == "$stop" || f == "$finish") && loc.Some? then 0 else ConstReadsList(args, consts)
    case _ => 0
  }

  function ConstReadsList(es: seq<Expr>, consts: map<string, int>): nat
    decreases SizeList(es)
  {
    if es == [] then 0 else ConstReads(es[0], Plain, consts) + ConstReadsList(es[1..], consts)
  }

  /** Lowering keeps the constants and the module variables it was given. */
  predicate Keeps(st: LState, st': LState)
  {
    st'.consts == st.consts && st'.globals == st.globals
  }

  /**
   * The count of constants used grows by exactly the number of constant
   * reads in the tree, and the constants and module variables stay as they
   * were.
   */
  lemma {:induction false} LowerCountsConstReads(e: Expr, o: Opts, st: LState)
    ensures Lower(e, o, st).Ok? ==>
              Keeps(st, Lower(e, o, st).value.st) &&
              Lower(e, o, st).value.st.constused == st.constused + ConstReads(e, o, st.consts)
    decreases Size(e), 1
  {
    match e
    case Triop(_, _, _, _) => TriopCountsConstReads(e, st);
    case Binop(_, _, _) => BinopCountsConstReads(e, o, st);
    case Unop(_, l, _) =>
      LowerResetKeepsCount(l, st);
      LowerCountsConstReads(l, Plain, st);
    case Block(_, _, es) =>
      LowerListCountsConstReads(es, st);
      var rb := LowerList(es, st);
      if rb.Ok? {
        LowerListCountsConstReads(es, rb.value.st);
      }
    case Whileop(_, _, _, _) => WhileCountsConstReads(e, st);
    case FuncCall(_, _, args) => LowerListCountsConstReads(args, st);
    case _ => LeafCountsConstReads(e, o, st);
  }

  lemma LeafCountsConstReads(e: Expr, o: Opts, st: LState)
    requires e.Null? || e.VarRef? || e.VarDecl? || e.Const? || e.BigConst? || e.Other?
    ensures Lower(e, o, st).Ok? ==>
              Keeps(st, Lower(e, o, st).value.st) &&
              Lower(e, o, st).value.st.constused == st.constused + ConstReads(e, o, st.consts)
  {
  }

  lemma {:induction false} TriopCountsConstReads(e: Expr, st: LState)
    requires e.Triop?
    ensures Lower(e, Plain, st).Ok? ==>
              Keeps(st, Lower(e, Plain, st).value.st) &&
              Lower(e, Plain, st).value.st.constused == st.constused + ConstReads(e, Plain, st.consts)
    decreases Size(e), 0
  {
    LowerCountsConstReads(e.cond, CondPos, st);
    var rc := Lower(e.cond, CondPos, st);
    if rc.Ok? {
      LowerCountsConstReads(e.left, Plain, rc.value.st);
      var rl := Lower(e.left, Plain, rc.value.st);
      if rl.Ok? {
        LowerCountsConstReads(e.right, Plain, rl.value.st);
      }
    }
  }

  lemma {:induction false} WhileCountsConstReads(e: Expr, st: LState)
    requires e.Whileop?
    ensures Lower(e, Plain, st).Ok? ==>
              Keeps(st, Lower(e, Plain, st).value.st) &&
              Lower(e, Plain, st).value.st.constused == st.constused + ConstReads(e, Plain, st.consts)
    decreases Size(e), 0
  {
    LowerCountsConstReads(e.precond, Plain, st);
    var rp := Lower(e.precond, Plain, st);
    if rp.Ok? {
      LowerCountsConstReads(e.loopcond, Plain, rp.value.st);
      var rc := Lower(e.loopcond, Plain, rp.value.st);
      if rc.Ok? {
        LowerCountsConstReads(e.inc, Plain, rc.value.st);
        var ri := Lower(e.inc, Plain, rc.value.st);
        if ri.Ok? {
          LowerCountsConstReads(e.body, Plain, ri.value.st);
        }
      }
    }
  }

  lemma {:induction false} BinopCountsConstReads(e: Expr, o: Opts, st: LState)
    requires e.Binop?
    ensures Lower(e, o, st).Ok? ==>
              Keeps(st, Lower(e, o, st).value.st) &&
              Lower(e, o, st).value.st.constused == st.constused + ConstReads(e, o, st.consts)
    decreases Size(e), 0
  {
    var l, r := e.left, e.right;
    if IsAssignOp(e.bop) {
      LowerCountsConstReads(r, StorePos, st);
      var rt := Lower(r, StorePos, st);
      if rt.Ok? {
        LowerCountsConstReads(l, Plain, rt.value.st);
      }
    } else if e.bop.ChangeDet? {
      LowerCountsConstReads(l, Plain, st);
      var r1 := Lower(l, Plain, st);
      if r1.Ok? {
        LowerCountsConstReads(r, Plain, r1.value.st);
        var r2 := Lower(r, Plain, r1.value.st);
        if r2.Ok? {
          LowerCountsConstReads(r, Plain, r2.value.st);
          var r3 := Lower(r, Plain, r2.value.st);
          if r3.Ok? {
            LowerCountsConstReads(l, Plain, r3.value.st);
          }
        }
      }
    } else {
      LowerCountsConstReads(l, Plain, st);
      var r1 := Lower(l, Plain, st);
      if r1.Ok? {
        LowerCountsConstReads(r, Plain, r1.value.st);
      }
    }
  }

  lemma {:induction false} LowerListCountsConstReads(es: seq<Expr>, st: LState)
    ensures LowerList(es, st).Ok? ==>
              Keeps(st, LowerList(es, st).value.st) &&
              LowerList(es, st).value.st.constused == st.constused + ConstReadsList(es, st.consts)
    decreases SizeList(es), 3
  {
    if es != [] {
      LowerCountsConstReads(es[0], Plain, st);
      var r0 := Lower(es[0], Plain, st);
      if r0.Ok? {
        LowerListCountsConstReads(es[1..], r0.value.st);
      }
    }
  }

  /** A reset never substitutes a constant. */
  lemma {:induction false} LowerResetKeepsCount(e: Expr, st: LState)
    ensures LowerReset(e, st).Ok? ==> Keeps(st, LowerReset(e, st).value.st) && LowerReset(e, st).value.st.constused == st.constused
    decreases Size(e), 2
  {
  }

  // ---------------------------------------------------------------------
  // Lowering rules

  /**
   * A variable reference resolves to a constant only when read, then to a
   * local, then to a module variable; when none applies it is an error.
   * Only the constant case counts as a use.
   */
  lemma VarRefResolution(n: string, dt: DataType, o: Opts, st: LState)
    ensures Lower(VarRef(n, dt), o, st).Ok? <==> (n in st.consts && !o.store) || n in st.locals || n in st.globals
    ensures Lower(VarRef(n, dt), o, st).Err? ==> Lower(VarRef(n, dt), o, st).error == UnknownVariable(n)
    ensures n in st.consts && !o.store ==>
              Lower(VarRef(n, dt), o, st) == Ok(Lowered(CDec(st.consts[n]), st.(constused := st.constused + 1)))
    ensures !(n in st.consts && !o.store) && n in st.locals ==> Lower(VarRef(n, dt), o, st) == Ok(Lowered(CLocal(n), st))
    ensures !(n in st.consts && !o.store) && n !in st.locals && n in st.globals ==>
              Lower(VarRef(n, dt), o, st) == Ok(Lowered(CGlobal(n), st))
  {
  }

  /**
   * An assignment lowers its right operand as the store target and its left
   * operand as the value; a variable that is stored to is never replaced by
   * a constant.
   */
  lemma AssignStoresIntoRight(op: BinOp, l: Expr, r: Expr, o: Opts, st: LState)
    requires IsAssignOp(op) && Lower(Binop(op, l, r), o, st).Ok?
    ensures Lower(r, StorePos, st).Ok?
    ensures Lower(Binop(op, l, r), o, st).value.code.CAssign?
    ensures Lower(Binop(op, l, r), o, st).value.code.target == Lower(r, StorePos, st).value.code
    ensures r.VarRef? ==> Lower(Binop(op, l, r), o, st).value.code.target in {CLocal(r.refname), CGlobal(r.refname)}
  {
  }

  /** Triops, binops and unops with an operator the lowering does not know are errors. */
  lemma UnknownOperatorsFail(t: TriOp, b: BinOp, u: UnOp, x: Expr, y: Expr, z: Expr, w: int, o: Opts, st: LState)
    ensures !IsKnownTriop(t) ==> Lower(Triop(t, x, y, z), o, st) == Err(UnknownTriop(t))
    ensures !IsKnownBinop(b) ==> Lower(Binop(b, x, y), o, st) == Err(UnknownBinop(b))
    ensures !IsKnownUnop(u) ==> Lower(Unop(u, x, w), o, st) == Err(UnknownUnop(u))
    ensures Lower(Other, o, st) == Err(Unrecognized)
  {
  }

  /**
   * A relational operator yields the 0/1 form outside a condition and the
   * plain comparison inside one.
   */
  lemma RelationalForm(op: BinOp, l: Expr, r: Expr, o: Opts, st: LState)
    requires Op2Js(op).Some? && IsComparison(Op2Js(op).value) && Lower(Binop(op, l, r), o, st).Ok?
    ensures !o.cond <==> Lower(Binop(op, l, r), o, st).value.code.CTruth?
    ensures o.cond <==> Lower(Binop(op, l, r), o, st).value.code.CBinary?
  {
  }

  /** A declaration with a constant value declares a local initialised to that value. */
  lemma DeclWithConstant(def: VarDef, v: int, o: Opts, st: LState)
    requires def.constValue == Some(Const(v))
    ensures Lower(VarDecl(def), o, st) == Ok(Lowered(CVar(def.name, InitNum(v)), st.(locals := st.locals + {def.name})))
  {
  }

  /** As written, every declaration that carries a constant value is an error. */
  lemma DeclWithConstantAsWritten(def: VarDef, st: LState)
    requires def.constValue.Some?
    ensures LowerDeclAsWritten(def, st) == Err(NoConstValue)
  {
  }

  // ---------------------------------------------------------------------
  // genFuncs

  /** An entry of the function table: a built-in, or a compiled block. */
  datatype Func = Builtin(name: string) | Compiled(code: Code)

  /** The key a block is stored under: its name, or "undefined" when it has none. */
  function BlockKey(b: Expr): string
  {
    if b.Block? && b.name != "" then b.name else "undefined"
  }

  /** The translator state each block starts from. */
  function StartState(consts: map<string, int>, globals: set<string>): LState
  {
    LState(consts, {}, globals, if |consts| == 0 then 99999 else 0)
  }

  /** One block: its code when the count of constants used ends non-zero, none otherwise. */
  function CompileBlock(b: Expr, consts: map<string, int>, globals: set<string>): Result<Option<Code>, HdlError>
  {
    match Lower(b, Plain, StartState(consts, globals))
    case Err(err) => Err(err)
    case Ok(x) => Ok(if x.st.constused != 0 then Some(x.code) else None)
  }

  /** The function table after compiling the blocks in order over `funcs`. */
  function GenSpec(blocks: seq<Expr>, consts: map<string, int>, globals: set<string>, funcs: map<string, Func>): Result<map<string, Func>, HdlError>
    decreases |blocks|
  {
    if blocks == [] then Ok(funcs)
    else
      match CompileBlock(blocks[0], consts, globals)
      case Err(err) => Err(err)
      case Ok(None) => GenSpec(blocks[1..], consts, globals, funcs)
      case Ok(Some(c)) => GenSpec(blocks[1..], consts, globals, funcs[BlockKey(blocks[0]) := Compiled(c)])
  }

  /**
   * genFuncs(constants): every block is lowered from a fresh set of locals;
   * with no constants every block is kept, otherwise only the blocks that
   * used at least one constant.
   */
  method GenFuncs(blocks: seq<Expr>, consts: map<string, int>, globals: set<string>, base: map<string, Func>)
    returns (r: Result<map<string, Func>, HdlError>)
    ensures r == GenSpec(blocks, consts, globals, base)
  {
    var funcs := base;
    var i := 0;
    while i < |blocks|
      invariant 0 <= i <= |blocks|
      invariant GenSpec(blocks, consts, globals, base) == GenSpec(blocks[i..], consts, globals, funcs)
    {
      assert blocks[i..][1..] == blocks[i + 1..];
      var st := LState(consts, {}, globals, if |consts| == 0 then 99999 else 0);
      var x := Lower(blocks[i], Plain, st);
      if x.Err? {
        return Err(x.error);
      }
      if x.value.st.constused != 0 {
        funcs := funcs[BlockKey(blocks[i]) := Compiled(x.value.code)];
      }
      i := i + 1;
    }
    return Ok(funcs);
  }

  /** A block is kept exactly when there are no constants or it read one. */
  lemma CompiledWhenConstantUsed(b: Expr, consts: map<string, int>, globals: set<string>)
    requires CompileBlock(b, consts, globals).Ok?
    ensures CompileBlock(b, consts, globals).value.Some? <==> |consts| == 0 || ConstReads(b, Plain, consts) > 0
  {
    LowerCountsConstReads(b, Plain, StartState(consts, globals));
  }

  /**
   * What the compiled table holds: the entries it started with, and the key
   * of every block that is kept; with no constants, the key of every block.
   */
  lemma {:induction false} GenSpecKeys(blocks: seq<Expr>, consts: map<string, int>, globals: set<string>, funcs: map<string, Func>)
    requires GenSpec(blocks, consts, globals, funcs).Ok?
    ensures funcs.Keys <= GenSpec(blocks, consts, globals, funcs).value.Keys
    ensures forall i :: 0 <= i < |blocks| && (|consts| == 0 || ConstReads(blocks[i], Plain, consts) > 0) ==>
              BlockKey(blocks[i]) in GenSpec(blocks, consts, globals, funcs).value
    ensures forall k :: k in GenSpec(blocks, consts, globals, funcs).value && k !in funcs ==>
              exists i :: 0 <= i < |blocks| && BlockKey(blocks[i]) == k
  {
    if blocks != [] {
      var b := blocks[0];
      CompiledWhenConstantUsed(b, consts, globals);
      var f' := if CompileBlock(b, consts, globals).value.Some? then funcs[BlockKey(b) := Compiled(CompileBlock(b, consts, globals).value.value)] else funcs;
      assert GenSpec(blocks, consts, globals, funcs) == GenSpec(blocks[1..], consts, globals, f');
      GenSpecKeys(blocks[1..], consts, globals, f');
      var res := GenSpec(blocks, consts, globals, funcs).value;
      forall i | 0 <= i < |blocks| && (|consts| == 0 || ConstReads(blocks[i], Plain, consts) > 0)
        ensures BlockKey(blocks[i]) in res
      {
        if i > 0 {
          assert blocks[i] == blocks[1..][i - 1];
        }
      }
      forall k | k in res && k !in funcs
        ensures exists i :: 0 <= i < |blocks| && BlockKey(blocks[i]) == k
      {
        if k in f' {
          assert BlockKey(blocks[0]) == k;
        } else {
          var j :| 0 <= j < |blocks[1..]| && BlockKey(blocks[1..][j]) == k;
          assert BlockKey(blocks[j + 1]) == k;
        }
      }
    }
  }

  // ---------------------------------------------------------------------
  // What the generated arithmetic computes

  /** The value of a comparison. */
  predicate Holds(j: JsOperator, a: int, b: int)
    requires IsComparison(j)
  {
    match j
    case StrictEq => a == b
    case StrictNeq => a != b
    case Greater => a > b
    case Less => a < b
    case GreaterEq => a >= b
    case LessEq => a <= b
  }

  /**
   * A binary operator on integer operands, with JavaScript's 32-bit
   * semantics for the bitwise and shift operators and its sign-of-dividend
   * remainder; a comparison yields 1 or 0. Division, which yields fractions,
   * is not covered.
   */
  function BinaryValue(j: JsOperator, a: int, b: int): Option<int>
  {
    match j
    case BitAnd => Some(JsInt.And(a, b))
    case BitOr => Some(JsInt.Or(a, b))
    case BitXor => Some(JsInt.Xor(a, b))
    case Plus => Some(a + b)
    case Minus => Some(a - b)
    case Times => Some(a * b)
    case LShift => Some(JsInt.Shl(a, b))
    case UShr => Some(JsInt.Shr(a, b))
    case Modulo => if b == 0 then None else Some(JsInt.Rem(a, if b > 0 then b else -b))
    case Divide => None
    case _ => Some(if Holds(j, a, b) then 1 else 0)
  }

  /**
   * The value generated integer code computes, with the locals and module
   * variables it reads given by `env`; None for code outside this fragment.
   */
  function EvalCode(c: Code, env: map<string, int>): Option<int>
  {
    match c
    case CDec(n) => Some(n)
    case CHex(n) => Some(n)
    case CLocal(x) => if x in env then Some(env[x]) else None
    case CGlobal(x) => if x in env then Some(env[x]) else None
    case CNot(a) => (match EvalCode(a, env) case Some(v) => Some(JsInt.Not(v)) case None => None)
    case CNeg(a) => (match EvalCode(a, env) case Some(v) => Some(-v) case None => None)
    case CExtend(a, s) => (match EvalCode(a, env) case Some(v) => Some(JsInt.Sar(JsInt.Shl(v, s), s)) case None => None)
    case CBinary(op, a, b) =>
      (match (EvalCode(a, env), EvalCode(b, env))
       case (Some(x), Some(y)) => BinaryValue(op, x, y)
       case _ => None)
    case CTruth(op, a, b) =>
      (match (EvalCode(a, env), EvalCode(b, env))
       case (Some(x), Some(y)) => if IsComparison(op) then Some(if Holds(op, x, y) then 1 else 0) else None
       case _ => None)
    case CCond(k, a, b) =>
      (match EvalCode(k, env) case Some(v) => if v != 0 then EvalCode(a, env) else EvalCode(b, env) case None => None)
    case _ => None
  }

  /**
   * `extends` sign-extends: a value of `w` bits comes out as the two's
   * complement number those bits stand for.
   */
  lemma ExtendsSignExtends(x: Expr, w: int, o: Opts, st: LState, env: map<string, int>, v: int)
    requires 1 <= w <= 32 && 0 <= v < JsInt.Pow2(w)
    requires Lower(x, Plain, st).Ok? && EvalCode(Lower(x, Plain, st).value.code, env) == Some(v)
    ensures Lower(Unop(Extends, x, w), o, st).Ok?
    ensures EvalCode(Lower(Unop(Extends, x, w), o, st).value.code, env) ==
              Some(if v < JsInt.Pow2(w - 1) then v else v - JsInt.Pow2(w))
  {
    JsInt.SignExtend(v, w);
  }

  /** `not` complements every one of the 32 bits of its operand. */
  lemma NotComplements(x: Expr, o: Opts, st: LState, env: map<string, int>, v: int)
    requires Lower(x, Plain, st).Ok? && EvalCode(Lower(x, Plain, st).value.code, env) == Some(v)
    ensures Lower(Unop(Not, x, 0), o, st).Ok?
    ensures EvalCode(Lower(Unop(Not, x, 0), o, st).value.code, env).Some?
    ensures JsInt.ToUint32(EvalCode(Lower(Unop(Not, x, 0), o, st).value.code, env).value) == JsInt.TWO32 - 1 - JsInt.ToUint32(v)
  {
    var t := JsInt.ToInt32(v);
    assert JsInt.ToUint32(t) == JsInt.ToUint32(v);
    assert JsInt.ToUint32(-t - 1) == JsInt.TWO32 - 1 - JsInt.ToUint32(t);
  }

  /** Outside a condition a comparison evaluates to exactly 1 or 0. */
  lemma ComparisonIsZeroOne(op: BinOp, l: Expr, r: Expr, o: Opts, st: LState, env: map<string, int>)
    requires Op2Js(op).Some? && IsComparison(Op2Js(op).value) && !o.cond
    requires Lower(Binop(op, l, r), o, st).Ok?
    requires EvalCode(Lower(Binop(op, l, r), o, st).value.code, env).Some?
    ensures EvalCode(Lower(Binop(op, l, r), o, st).value.code, env).value == 1 ||
            EvalCode(Lower(Binop(op, l, r), o, st).value.code, env).value == 0
  {
    RelationalForm(op, l, r, o, st);
  }
}
