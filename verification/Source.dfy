/** The source language after name and type resolution, and its reference meaning.
    Variables are already resolved to stack slots. */
module Source {
  import opened Words

  datatype Ty = IntT | BoolT

  datatype ArithOp = Plus | Minus | Times | Divide | Modulo | ShiftLeft | ShiftRight | BitwiseAnd | BitwiseOr | BitwiseXor

  datatype RelOp = EqOp | NeOp | LtOp | GtOp | LeOp | GeOp

  datatype Expr =
    | IntLit(n: nat)
    | BoolLit(b: bool)
    | Var(x: nat, ty: Ty)
    | Negate(e: Expr)
    | Complement(e: Expr)
    | Not(e: Expr)
    | Arith(op: ArithOp, l: Expr, r: Expr)
    | Rel(rel: RelOp, l: Expr, r: Expr)
    | Logical(isAnd: bool, l: Expr, r: Expr)
    | Ternary(c: Expr, t: Expr, f: Expr)
    | OrElse(l: Expr, r: Expr)
    | Index(arr: nat, len: nat, i: Expr)
    | Member(e: Expr, arr: nat, len: nat, negated: bool)  // `e in arr`, `e not_in arr`

  datatype Value = I(n: int) | B(b: bool) | A(cells: seq<int>)

  type Store = map<nat, Value>

  datatype Outcome =
    | Val(v: Value)
    | OutOfBounds
    | Undefined  // division by zero, MIN / -1, an oversized shift, an unchecked bad index

  datatype SlotTy = Scalar(ty: Ty) | Array(len: nat)

  type Env = map<nat, SlotTy>

  // ---- meaning of expressions ----

  function ArithInt(op: ArithOp, a: int, b: int): Outcome {
    match op
    case Plus => Val(I(Wrap(a + b)))
    case Minus => Val(I(Wrap(a - b)))
    case Times => Val(I(Wrap(a * b)))
    case Divide => if b == 0 || (a == -HALF && b == -1) then Undefined else Val(I(TruncDiv(a, b)))
    case Modulo => if b == 0 || (a == -HALF && b == -1) then Undefined else Val(I(TruncMod(a, b)))
    case ShiftLeft => if 0 <= b < 64 then Val(I(Wrap(a * Pow2(b)))) else Undefined
    case ShiftRight => if 0 <= b < 64 then Val(I(a / Pow2(b))) else Undefined
    case BitwiseAnd => Val(I(ToInt(BitAnd(ToWord(a), ToWord(b)))))
    case BitwiseOr => Val(I(ToInt(BitOr(ToWord(a), ToWord(b)))))
    case BitwiseXor => Val(I(ToInt(BitXor(ToWord(a), ToWord(b)))))
  }

  predicate RelInt(op: RelOp, a: int, b: int) {
    match op
    case EqOp => a == b
    case NeOp => a != b
    case LtOp => a < b
    case GtOp => a > b
    case LeOp => a <= b
    case GeOp => a >= b
  }

  predicate IsZero(v: Value) { v == I(0) || v == B(false) }

  function Eval(e: Expr, s: Store, checks: bool): Outcome {
    match e
    case IntLit(n) => Val(I(n))
    case BoolLit(b) => Val(B(b))
    case Var(x, _) => if x in s then Val(s[x]) else Undefined
    case Negate(e1) =>
      var o := Eval(e1, s, checks);
      if o.Val? then (if o.v.I? then Val(I(Wrap(-o.v.n))) else Undefined) else o
    case Complement(e1) =>
      var o := Eval(e1, s, checks);
      if o.Val? then (if o.v.I? then Val(I(-o.v.n - 1)) else Undefined) else o
    case Not(e1) =>
      var o := Eval(e1, s, checks);
      if o.Val? then (if o.v.B? then Val(B(!o.v.b)) else Undefined) else o
    case Arith(op, l, r) =>
      var a := Eval(l, s, checks);
      if !a.Val? then a else
      var b := Eval(r, s, checks);
      if !b.Val? then b else
      if a.v.I? && b.v.I? then ArithInt(op, a.v.n, b.v.n) else Undefined
    case Rel(op, l, r) =>
      var a := Eval(l, s, checks);
      if !a.Val? then a else
      var b := Eval(r, s, checks);
      if !b.Val? then b else
      if a.v.I? && b.v.I? then Val(B(RelInt(op, a.v.n, b.v.n)))
      else if a.v.B? && b.v.B? && op == EqOp then Val(B(a.v.b == b.v.b))
      else if a.v.B? && b.v.B? && op == NeOp then Val(B(a.v.b != b.v.b))
      else Undefined
    case Logical(isAnd, l, r) =>
      var a := Eval(l, s, checks);
      if !a.Val? then a else
      if !a.v.B? then Undefined else
      if a.v.b != isAnd then a else Eval(r, s, checks)
    case Ternary(c, t, f) =>
      var a := Eval(c, s, checks);
      if !a.Val? then a else
      if !a.v.B? then Undefined else
      if a.v.b then Eval(t, s, checks) else Eval(f, s, checks)
    case OrElse(l, r) =>
      var a := Eval(l, s, checks);
      if !a.Val? then a else
      if IsZero(a.v) then Eval(r, s, checks) else a
    case Index(arr, len, i) =>
      var a := Eval(i, s, checks);
      if !a.Val? then a else
      if !a.v.I? || arr !in s || !s[arr].A? || |s[arr].cells| != len then Undefined else
      if 0 <= a.v.n < len then Val(I(s[arr].cells[a.v.n]))
      else if checks then OutOfBounds else Undefined
    case Member(e1, arr, len, negated) =>
      var a := Eval(e1, s, checks);
      if !a.Val? then a else
      if !a.v.I? || arr !in s || !s[arr].A? || |s[arr].cells| != len then Undefined
      else Val(B((a.v.n in s[arr].cells) != negated))
  }

  // ---- types ----

  function WidthOf(ty: Ty): nat { if ty == IntT then 64 else 1 }

  /** Width of the LLVM value an expression is lowered to. `in` yields an i64 although its type is bool. */
  function Rep(e: Expr): nat {
    match e
    case IntLit(_) => 64
    case BoolLit(_) => 1
    case Var(_, ty) => WidthOf(ty)
    case Negate(e1) => Rep(e1)
    case Complement(e1) => Rep(e1)
    case Not(e1) => Rep(e1)
    case Arith(_, l, _) => Rep(l)
    case Rel(_, _, _) => 1
    case Logical(_, l, _) => Rep(l)
    case Ternary(_, t, _) => Rep(t)
    case OrElse(l, _) => Rep(l)
    case Index(_, _, _) => 64
    case Member(_, _, _, _) => 64
  }

  /** `b64 == b1` on booleans: the narrow right operand would be sign-extended (see MixedWidths.MixedComparison). */
  predicate MixedEquality(l: Expr, r: Expr) { Rep(l) > Rep(r) }

  predicate HasType(e: Expr, env: Env, ty: Ty) {
    match e
    case IntLit(n) => ty == IntT && n < HALF
    case BoolLit(_) => ty == BoolT
    case Var(x, t) => t == ty && x in env && env[x] == Scalar(ty)
    case Negate(e1) => ty == IntT && HasType(e1, env, IntT)
    case Complement(e1) => ty == IntT && HasType(e1, env, IntT)
    case Not(e1) => ty == BoolT && HasType(e1, env, BoolT)
    case Arith(_, l, r) => ty == IntT && HasType(l, env, IntT) && HasType(r, env, IntT)
    case Rel(op, l, r) =>
      ty == BoolT && (
        || (HasType(l, env, IntT) && HasType(r, env, IntT))
        || ((op == EqOp || op == NeOp) && HasType(l, env, BoolT) && HasType(r, env, BoolT) && !MixedEquality(l, r)))
    case Logical(_, l, r) => ty == BoolT && HasType(l, env, BoolT) && HasType(r, env, BoolT)
    case Ternary(c, t, f) =>
      HasType(c, env, BoolT) && HasType(t, env, ty) && HasType(f, env, ty) && Rep(t) == Rep(f)
    case OrElse(l, r) => HasType(l, env, ty) && HasType(r, env, ty) && Rep(l) == Rep(r)
    case Index(arr, len, i) => ty == IntT && arr in env && env[arr] == Array(len) && len < HALF && HasType(i, env, IntT)
    case Member(e1, arr, len, _) => ty == BoolT && arr in env && env[arr] == Array(len) && len < HALF && HasType(e1, env, IntT)
  }

  predicate ValueFits(v: Value, t: SlotTy) {
    match t
    case Scalar(IntT) => v.I? && IsInt64(v.n)
    case Scalar(BoolT) => v.B?
    case Array(len) => v.A? && |v.cells| == len && forall k | 0 <= k < len :: IsInt64(v.cells[k])
  }

  predicate Fits(s: Store, env: Env) {
    forall x | x in env :: x in s && ValueFits(s[x], env[x])
  }

  // ---- statements ----

  datatype MaybeExpr = NoExpr | TheExpr(e: Expr)

  datatype AssignOp = Plain | Compound(op: ArithOp)  // `=`, or `op=`

  datatype Stmt =
    | ExprStmt(e: Expr)
    | Declare(x: nat, ty: Ty, e: Expr)
    | Assign(x: nat, ty: Ty, how: AssignOp, e: Expr)
    | AssignElem(arr: nat, len: nat, i: Expr, how: AssignOp, e: Expr)
    | Block(body: Stmts)
    | If(c: Expr, thn: Stmt)
    | IfElse(c: Expr, thn: Stmt, els: Stmt)
    | For(cond: MaybeExpr, body: Stmts)
    | ForRange(x: nat, lo: Expr, hi: Expr, inclusive: bool, body: Stmts)
    | Switch(e: Expr, cases: Cases)
    | Break
    | Continue
    | Fallthrough
    | Return(e: Expr, ty: Ty)
    | ReturnVoid

  datatype Stmts = Nil | Cons(head: Stmt, tail: Stmts)

  /** The clauses of a switch in the order they are tried; the default clause, if any, comes last. */
  datatype Cases = NoCase | Default(body: Stmts) | Case(value: Expr, body: Stmts, rest: Cases)

  /** How a statement hands on control. */
  datatype Flow =
    | Normal(s: Store)
    | Broke(s: Store)
    | Continued(s: Store)
    | Fell(s: Store)
    | Returned(v: Value, s: Store)
    | ReturnedVoid(s: Store)
    | Trap
    | Undef
    | OutOfFuel

  /** The flow of an evaluation that produced no value. */
  function Failure(o: Outcome): Flow
    requires !o.Val?
  {
    if o.OutOfBounds? then Trap else Undef
  }

  /** One past the last value of a range. */
  function RangeEnd(hi: int, inclusive: bool): int {
    if inclusive then Wrap(hi + 1) else hi
  }

  /** The value an assignment stores. */
  function Updated(how: AssignOp, was: Value, v: Value): Outcome {
    if how.Plain? then Val(v)
    else if was.I? && v.I? then ArithInt(how.op, was.n, v.n)
    else Undefined
  }

  /** Run a statement; every loop iteration uses up fuel. */
  function Exec(st: Stmt, s: Store, checks: bool, fuel: nat): Flow
    decreases fuel, st, 0
  {
    match st
    case ExprStmt(e) =>
      var o := Eval(e, s, checks);
      if o.Val? then Normal(s) else Failure(o)
    case Declare(x, _, e) =>
      var o := Eval(e, s, checks);
      if o.Val? then Normal(s[x := o.v]) else Failure(o)
    case Assign(x, _, how, e) =>
      var o := Eval(e, s, checks);
      if !o.Val? then Failure(o) else
      if x !in s then Undef else
      var u := Updated(how, s[x], o.v);
      if u.Val? then Normal(s[x := u.v]) else Failure(u)
    case AssignElem(arr, len, i, how, e) =>
      var o := Eval(e, s, checks);
      if !o.Val? then Failure(o) else
      var ix := Eval(i, s, checks);
      if !ix.Val? then Failure(ix) else
      if !ix.v.I? || arr !in s || !s[arr].A? || |s[arr].cells| != len then Undef else
      if !(0 <= ix.v.n < len) then (if checks then Trap else Undef) else
      var u := Updated(how, I(s[arr].cells[ix.v.n]), o.v);
      if !u.Val? then Failure(u) else
      if !u.v.I? then Undef else
      Normal(s[arr := A(s[arr].cells[ix.v.n := u.v.n])])
    case Block(body) => ExecAll(body, s, checks, fuel)
    case If(c, thn) =>
      var o := Eval(c, s, checks);
      if !o.Val? then Failure(o) else
      if o.v == B(true) then Exec(thn, s, checks, fuel) else Normal(s)
    case IfElse(c, thn, els) =>
      var o := Eval(c, s, checks);
      if !o.Val? then Failure(o) else
      if o.v == B(true) then Exec(thn, s, checks, fuel) else Exec(els, s, checks, fuel)
    case For(cond, body) => Iterate(cond, body, s, checks, fuel)
    case ForRange(x, lo, hi, inclusive, body) =>
      var a := Eval(lo, s, checks);
      if !a.Val? then Failure(a) else
      var b := Eval(hi, s, checks);
      if !b.Val? then Failure(b) else
      if !a.v.I? || !b.v.I? then Undef else
      Count(x, RangeEnd(b.v.n, inclusive), body, s[x := a.v], checks, fuel)
    case Switch(e, cases) =>
      var o := Eval(e, s, checks);
      if !o.Val? then Failure(o) else AfterSwitch(Select(o.v, cases, s, checks, fuel))
    case Break => Broke(s)
    case Continue => Continued(s)
    case Fallthrough => Fell(s)
    case Return(e, _) =>
      var o := Eval(e, s, checks);
      if o.Val? then Returned(o.v, s) else Failure(o)
    case ReturnVoid => ReturnedVoid(s)
  }

  function ExecAll(ss: Stmts, s: Store, checks: bool, fuel: nat): Flow
    decreases fuel, ss, 0
  {
    match ss
    case Nil => Normal(s)
    case Cons(st, rest) =>
      var f := Exec(st, s, checks, fuel);
      if f.Normal? then ExecAll(rest, f.s, checks, fuel) else f
  }

  /** `for cond { body }` */
  function Iterate(cond: MaybeExpr, body: Stmts, s: Store, checks: bool, fuel: nat): Flow
    decreases fuel, body, 1
  {
    if fuel == 0 then OutOfFuel else
    var o := if cond.TheExpr? then Eval(cond.e, s, checks) else Val(B(true));
    if !o.Val? then Failure(o) else
    if o.v != B(true) then Normal(s) else
    var f := ExecAll(body, s, checks, fuel - 1);
    if f.Normal? || f.Continued? then Iterate(cond, body, f.s, checks, fuel - 1)
    else if f.Broke? then Normal(f.s)
    else f
  }

  /** `for x in low..<end { body }`, once x holds its first value. The body may assign to x. */
  function Count(x: nat, end: int, body: Stmts, s: Store, checks: bool, fuel: nat): Flow
    decreases fuel, body, 1
  {
    if fuel == 0 then OutOfFuel else
    if x !in s || !s[x].I? then Undef else
    if s[x].n >= end then Normal(s) else
    var f := ExecAll(body, s, checks, fuel - 1);
    if f.Normal? || f.Continued? then
      if x !in f.s || !f.s[x].I? then Undef
      else Count(x, end, body, f.s[x := I(Wrap(f.s[x].n + 1))], checks, fuel - 1)
    else if f.Broke? then Normal(f.s)
    else f
  }

  /** Compare with one case value after the other, and run from the first that is equal. */
  function Select(v: Value, cases: Cases, s: Store, checks: bool, fuel: nat): Flow
    decreases fuel, cases, 1
  {
    match cases
    case NoCase => Normal(s)
    case Default(body) => ExecAll(body, s, checks, fuel)
    case Case(value, _, rest) =>
      var o := Eval(value, s, checks);
      if !o.Val? then Failure(o)
      else if o.v == v then RunFrom(cases, s, checks, fuel)
      else Select(v, rest, s, checks, fuel)
  }

  /** Run a clause's body; `fallthrough` goes on with the next clause's body. */
  function RunFrom(cases: Cases, s: Store, checks: bool, fuel: nat): Flow
    decreases fuel, cases, 0
  {
    match cases
    case NoCase => Normal(s)
    case Default(body) => ExecAll(body, s, checks, fuel)
    case Case(_, body, rest) =>
      var f := ExecAll(body, s, checks, fuel);
      if f.Fell? then RunFrom(rest, f.s, checks, fuel) else f
  }

  function AfterSwitch(f: Flow): Flow {
    if f.Broke? then Normal(f.s) else f
  }

  // ---- well-formed statements ----

  const MAX_NESTING := 64  // loops and switches
  const MAX_CASES := 64

  /** What may be jumped to from here. A switch offers no place to continue at. */
  datatype Ctx = Ctx(canBreak: bool, canContinue: bool, canFall: bool, depth: nat)

  /** Whether a statement ends by jumping away. */
  predicate Exits(st: Stmt) {
    match st
    case Break => true
    case Continue => true
    case Fallthrough => true
    case Return(_, _) => true
    case ReturnVoid => true
    case Block(body) => ExitsAll(body)
    case _ => false
  }

  predicate ExitsAll(ss: Stmts) {
    match ss
    case Nil => false
    case Cons(st, rest) => if rest == Nil then Exits(st) else ExitsAll(rest)
  }

  /** A switch anywhere inside: lowering it forgets the enclosing clause's fallthrough target. */
  predicate HasSwitch(st: Stmt) {
    match st
    case Switch(_, _) => true
    case Block(body) => HasSwitchAll(body)
    case If(_, thn) => HasSwitch(thn)
    case IfElse(_, thn, els) => HasSwitch(thn) || HasSwitch(els)
    case For(_, body) => HasSwitchAll(body)
    case ForRange(_, _, _, _, body) => HasSwitchAll(body)
    case _ => false
  }

  predicate HasSwitchAll(ss: Stmts) {
    match ss
    case Nil => false
    case Cons(st, rest) => HasSwitch(st) || HasSwitchAll(rest)
  }

  function EnvAfter(st: Stmt, env: Env): Env {
    if st.Declare? then env[st.x := Scalar(st.ty)] else env
  }

  function NumCases(cases: Cases): nat {
    if cases.Case? then 1 + NumCases(cases.rest) else 0
  }

  predicate Updatable(how: AssignOp, e: Expr, env: Env, ty: Ty) {
    HasType(e, env, ty) && Rep(e) == WidthOf(ty) && (how.Compound? ==> ty == IntT)
  }

  predicate Legal(st: Stmt, env: Env, ctx: Ctx) {
    match st
    case ExprStmt(e) => HasType(e, env, IntT) || HasType(e, env, BoolT)
    case Declare(x, ty, e) => x !in env && HasType(e, env, ty)
    case Assign(x, ty, how, e) => x in env && env[x] == Scalar(ty) && Updatable(how, e, env, ty)
    case AssignElem(arr, len, i, how, e) =>
      arr in env && env[arr] == Array(len) && len < HALF && HasType(i, env, IntT) && Updatable(how, e, env, IntT)
    case Block(body) => LegalAll(body, env, ctx)
    case If(c, thn) => HasType(c, env, BoolT) && Legal(thn, env, ctx)
    case IfElse(c, thn, els) =>
      HasType(c, env, BoolT) && Legal(thn, env, ctx) && Legal(els, env, ctx.(canFall := ctx.canFall && !HasSwitch(thn)))
    case For(cond, body) =>
      ctx.depth < MAX_NESTING && (cond.TheExpr? ==> HasType(cond.e, env, BoolT))
      && LegalAll(body, env, Ctx(true, true, ctx.canFall, ctx.depth + 1))
    case ForRange(x, lo, hi, _, body) =>
      ctx.depth < MAX_NESTING && x !in env && HasType(lo, env, IntT) && HasType(hi, env, IntT)
      && LegalAll(body, env[x := Scalar(IntT)], Ctx(true, true, ctx.canFall, ctx.depth + 1))
    case Switch(e, cases) =>
      ctx.depth < MAX_NESTING && cases.Case? && NumCases(cases) <= MAX_CASES
      && (exists ty :: HasType(e, env, ty) && LegalCases(cases, env, ctx.depth + 1, ty, Rep(e)))
    case Break => ctx.canBreak
    case Continue => ctx.canContinue
    case Fallthrough => ctx.canFall
    case Return(e, ty) => HasType(e, env, ty)
    case ReturnVoid => true
  }

  predicate LegalAll(ss: Stmts, env: Env, ctx: Ctx) {
    match ss
    case Nil => true
    case Cons(st, rest) =>
      Legal(st, env, ctx)
      && (rest != Nil ==> !Exits(st))  // nothing after a jump
      && LegalAll(rest, EnvAfter(st, env), ctx.(canFall := ctx.canFall && !HasSwitch(st)))
  }

  /** Case values are compared at the switch value's width. A clause may fall through, the default may not. */
  predicate LegalCases(cases: Cases, env: Env, depth: nat, ty: Ty, rep: nat) {
    match cases
    case NoCase => true
    case Default(body) => LegalAll(body, env, Ctx(true, false, false, depth))
    case Case(value, body, rest) =>
      HasType(value, env, ty) && Rep(value) == rep
      && LegalAll(body, env, Ctx(true, false, true, depth))
      && LegalCases(rest, env, depth, ty, rep)
  }
}
