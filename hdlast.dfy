/**
 * The elaborated design the RTL simulation kernel consumes: data types,
 * variable definitions, expressions and statements (all one `Expr` type, as
 * in the design tree), and the module with its variables and blocks. The
 * shapes follow the fields the kernel reads; the file that declares them
 * (hdltypes.js) is not part of this model.
 */
module HdlAst {
  import opened JsValues

  /**
   * A data type: a logic vector whose most significant bit index is `left`,
   * an unpacked array whose bounds may or may not be numeric constants, or
   * anything else.
   */
  datatype DataType =
    | Logic(left: int)
    | ArrayOf(subtype: DataType, high: Option<int>, low: Option<int>)
    | OtherType

  /** One entry of an array initialiser: an index and an expression, or something else. */
  datatype InitItem = ArrayItem(index: int, expr: Expr) | OtherItem

  /** A variable definition, as found in the module's table and as a declaration statement. */
  datatype VarDef = VarDef(name: string, dtype: DataType, constValue: Option<Expr>, initValue: Option<seq<InitItem>>)

  /**
   * An expression or statement of the design tree. `Null` stands for an
   * absent node; a block name "" stands for a block without a name; a call's
   * `loc` is its source location, when it has one.
   */
  datatype Expr =
    | Null
    | VarRef(refname: string, dtype: DataType)
    | VarDecl(def: VarDef)
    | Const(cvalue: int)
    | BigConst(bigvalue: int)
    | Triop(top: TriOp, cond: Expr, left: Expr, right: Expr)
    | Binop(bop: BinOp, left: Expr, right: Expr)
    | Unop(uop: UnOp, left: Expr, widthminv: int)
    | Block(name: string, blocktype: string, exprs: seq<Expr>)
    | Whileop(precond: Expr, loopcond: Expr, inc: Expr, body: Expr)
    | FuncCall(funcname: string, loc: Option<string>, args: seq<Expr>)
    | Other

  /** The ternary operators; a name the kernel does not know is kept as it is. */
  datatype TriOp = If | Cond | CondBound | OtherTriop(name: string)

  /** The binary operators; a name the kernel does not know is kept as it is. */
  datatype BinOp =
    | ContAssign | Assign | AssignPre | AssignDly | AssignPost
    | ArraySel | WordSel | ChangeDet
    | Eq | Neq | Gt | Lt | Gte | Lte
    | And | Or | Xor | Add | Sub | ShiftR | ShiftL
    | Mul | ModDiv | Div | MulS | ModDivS | DivS
    | GtS | GteS | LtS | LteS
    | OtherBinop(name: string)

  /** The unary operators; a name the kernel does not know is kept as it is. */
  datatype UnOp = Ccast | Creturn | Creset | Not | Negate | Extends | Redxor | OtherUnop(name: string)

  /** A module: its variables by name, and its blocks in order. */
  datatype ModuleDef = ModuleDef(vardefs: map<string, VarDef>, blocks: seq<Expr>)

  /** The errors the kernel raises. */
  datatype HdlError =
    | UnknownVariable(name: string)
    | CantInitArray(name: string)
    | NoConstValue
    | UnknownTriop(triop: TriOp)
    | UnknownBinop(binop: BinOp)
    | UnknownUnop(unop: UnOp)
    | ResetUnsupported(name: string)
    | ResetNotVarRef
    | Unrecognized
    | NonConstInit
    | NoDefault
    | NotConverged(onReset: bool)
    | CannotReadMem(file: string)
    | NoDestination(file: string)
    | DestinationTooSmall(file: string)
    | TypeError

  /** The number of nodes the lowering visits, used to show that it terminates. */
  function Size(e: Expr): (n: nat)
    ensures n >= 1
  {
    match e
    case Triop(_, c, l, r) => 1 + Size(c) + Size(l) + Size(r)
    case Binop(_, l, r) => 1 + Size(l) + Size(r)
    case Unop(_, l, _) => 1 + Size(l)
    case Block(_, _, es) => 1 + SizeList(es)
    case Whileop(p, c, i, b) => 1 + Size(p) + Size(c) + Size(i) + Size(b)
    case FuncCall(_, _, args) => 1 + SizeList(args)
    case _ => 1
  }

  function SizeList(es: seq<Expr>): (n: nat)
    ensures es != [] ==> n > Size(es[0]) && n > SizeList(es[1..])
  {
    if es == [] then 0 else 1 + Size(es[0]) + SizeList(es[1..])
  }
}
