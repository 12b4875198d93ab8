/**
 The fragment of C the analysis is proved sound for (shapes of src/ast.rs), and its runs.

 A string variable is a buffer of bytes (`Buffers`). Names are canonical, so one name is one variable. A run stops
 where the fragment does not say what C does: undefined or unspecified behaviour, and every construct the analysis
 treats unsoundly by design. Some such constructs are run as in C all the same: a routine outside its guard (`Buffers`)
 makes the run `loose`. The stores a run reaches are kept in its trail up to that point, and apart after it.
 */
module Syntax {
  import opened Buffers
  import opened Terms

  datatype VarType = IntType | CharPointer | CharArray(size: Option<int>) | OtherType

  datatype BinOp =
    Add | Sub | Mul | Div | Mod | Lt | Le | Gt | Ge | Eq | Ne | And | Or | BitAnd | BitOr | BitXor | Shl | Shr

  datatype UnOp = Neg | Not | BitNot | PreInc | PreDec | PostInc | PostDec

  datatype Expr =
    | Var(name: string)
    | IntConst(n: int)
    | CharConst
    | StrConst(s: string)
    | OtherConst
    | Conditional(cond: Expr, thn: Expr, els: Expr)
    | Call(callee: string, args: seq<Expr>)
    | Unary(uop: UnOp, arg: Expr)
    | Binary(op: BinOp, left: Expr, right: Expr)
    | Assign(lhs: Expr, aop: Option<BinOp>, rhs: Expr)
    | Comma(first: Expr, second: Expr)

  datatype Stmt =
    | Simple(e: Expr)
    | If(c: Expr, t: Stmt, f: Option<Stmt>)
    | While(c: Expr, body: Stmt)
    | DoWhile(body: Stmt, c: Expr)
    | For(ini: Option<Expr>, test: Option<Expr>, step: Option<Expr>, body: Stmt)
    | Block(items: seq<Stmt>)
    | Decl(x: string, ty: VarType, ini: Option<Expr>)
    | Break
    | Continue

  // The routines the analysis recognises by name.
  datatype Routine =
    Strcpy | Strncpy | Strlen | Strspn | Strdup | Strcat | Strncat | Strchr | Fgets | Gets | Getenv | Malloc | Printf
    | Sprintf | Snprintf | Gethostname | Syserror | Syssignal | Unmodelled

  function RoutineOf(f: string): Routine {
    if f == "strcpy" then Strcpy
    else if f == "strncpy" then Strncpy
    else if f == "strlen" then Strlen
    else if f == "strspn" || f == "strcspn" then Strspn
    else if f == "strdup" then Strdup
    else if f == "strcat" then Strcat
    else if f == "strncat" then Strncat
    else if f in {"strchr", "strrchr", "strstr", "strpbrk", "index", "rindex"} then Strchr
    else if f == "fgets" then Fgets
    else if f == "gets" then Gets
    else if f == "getenv" then Getenv
    else if f in {"malloc", "valloc", "xmalloc", "alloca", "__builtin_alloca"} then Malloc
    else if f == "printf" || f == "fprintf" then Printf
    else if f == "gethostname" then Gethostname
    else if f == "syserror" then Syserror
    else if f == "syssignal" then Syssignal
    else if f == "sprintf" then Sprintf
    else if f == "snprintf" then Snprintf
    else Unmodelled
  }

  // ----- values and stores -----

  // Where a string value lives: in no variable yet, at an offset inside a variable, or somewhere it may only be read.
  datatype Home = Own | At(x: string, off: int) | Shared

  // A value nothing is known of; `OtherV` is of a kind the analysis does not follow, `NoneV` may be of any.
  datatype Value = IntV(n: int) | StrV(siz: int, len: Option<int>, home: Home) | OtherV | NoneV

  datatype Store = Store(ints: map<string, int>, strs: map<string, Buf>)

  // `input` supplies the outcomes of reading. `trail` collects the stores reached before the first routine outside its
  // guard, `beyond` those reached from there on.
  datatype State = State(store: Store, input: seq<int>, trail: seq<Store>, loose: bool, beyond: seq<Store>)
  {
    function Put(s: Store): State {
      if loose then State(s, input, trail, loose, beyond + [s]) else State(s, input, trail + [s], loose, beyond)
    }
    function SetInt(x: string, n: int): State { Put(store.(ints := store.ints[x := n])) }
    function SetStr(x: string, b: Buf): State { Put(store.(strs := store.strs[x := b])) }
    function Forget(x: string): State { Put(Store(store.ints - {x}, store.strs - {x})) }
  }

  type Env = map<string, VarType>

  function TypeOf(env: Env, x: string): VarType { if x in env then env[x] else OtherType }

  // ----- kinds -----

  datatype Kind = KInt | KStr | KNone

  function KindOfType(ty: VarType): Kind {
    match ty
    case IntType => KInt
    case CharPointer => KStr
    case CharArray(_) => KStr
    case OtherType => KNone
  }

  // The kind of context the analysis is known to give an expression; `KNone` where nothing is claimed.
  function KindOf(env: Env, e: Expr): Kind {
    match e
    case Var(x) => KindOfType(TypeOf(env, x))
    case IntConst(_) => KInt
    case StrConst(_) => KStr
    case Conditional(_, a, b) => if KindOf(env, a) == KindOf(env, b) then KindOf(env, a) else KNone
    case Call(f, args) =>
      if |args| != 1 then KNone
      else if RoutineOf(f) == Strlen && KindOf(env, args[0]) == KStr then KInt
      else if RoutineOf(f) == Strdup && KindOf(env, args[0]) == KStr then KStr
      else if RoutineOf(f) == Malloc && KindOf(env, args[0]) == KInt then KStr
      else KNone
    case Unary(op, a) =>
      (match op
       case Neg => if KindOf(env, a) == KInt then KInt else KNone
       case Not => KInt
       case _ => KNone)
    case Binary(op, a, b) =>
      if KindOf(env, a) == KInt && KindOf(env, b) == KInt then KInt
      else if op == Add && KindOf(env, a) == KStr && KindOf(env, b) == KInt then KStr
      else KNone
    case Assign(_, op, r) => if op.None? then KindOf(env, r) else KNone
    case Comma(_, b) => KindOf(env, b)
    case _ => KNone
  }
}
