module ConstEval {
  // The two compile-time evaluators, one of code generation and one of where-clauses, against one meaning of constant
  // expressions; and the choice a when-chain makes with them.

  import opened Words

  datatype UnOp = Neg | Pos | Complement | Not

  datatype BinOp =
    | Plus | Minus | Times | Divide | Modulo | ShiftLeft | ShiftRight | And | Or | Xor
    | Equal | Unequal | Less | Greater | AtMost | AtLeast | Both | Either

  datatype Expr =
    | Literal(n: int)
    | Name(id: string)
    | Unary(uop: UnOp, arg: Expr)
    | Binary(op: BinOp, left: Expr, right: Expr)
    | Other  // anything that neither evaluator looks into

  type Env = map<string, int>

  datatype Value = Known(v: int) | Unknown

  function Truth(b: bool): int { if b then 1 else 0 }

  // ---- the meaning ----

  function UnaryMeaning(op: UnOp, x: int): int {
    match op
    case Neg => -x
    case Pos => x
    case Complement => -x - 1
    case Not => Truth(x == 0)
  }

  /** Exact arithmetic; nothing for a division by zero or a shift outside the word. */
  function BinaryMeaning(op: BinOp, x: int, y: int): Value {
    match op
    case Plus => Known(x + y)
    case Minus => Known(x - y)
    case Times => Known(x * y)
    case Divide => if y == 0 then Unknown else Known(TruncDiv(x, y))
    case Modulo => if y == 0 then Unknown else Known(TruncMod(x, y))
    case ShiftLeft => if 0 <= y < 64 then Known(x * Pow2(y)) else Unknown
    case ShiftRight => if 0 <= y < 64 then Known(x / Pow2(y)) else Unknown
    case And => Known(ToInt(BitAnd(ToWord(x), ToWord(y))))
    case Or => Known(ToInt(BitOr(ToWord(x), ToWord(y))))
    case Xor => Known(ToInt(BitXor(ToWord(x), ToWord(y))))
    case Equal => Known(Truth(x == y))
    case Unequal => Known(Truth(x != y))
    case Less => Known(Truth(x < y))
    case Greater => Known(Truth(x > y))
    case AtMost => Known(Truth(x <= y))
    case AtLeast => Known(Truth(x >= y))
    case Both => Known(Truth(x != 0 && y != 0))
    case Either => Known(Truth(x != 0 || y != 0))
  }

  /** The value of an expression all of whose parts have one and stay in 64 bits. */
  function Meaning(e: Expr, env: Env): Value {
    match e
    case Literal(n) => InRange(Known(n))
    case Name(id) => if id in env then InRange(Known(env[id])) else Unknown
    case Unary(op, a) =>
      var x := Meaning(a, env);
      if x.Unknown? then Unknown else InRange(Known(UnaryMeaning(op, x.v)))
    case Binary(op, l, r) =>
      var x, y := Meaning(l, env), Meaning(r, env);
      if x.Unknown? || y.Unknown? then Unknown else InRange(BinaryMeaning(op, x.v, y.v))
    case Other => Unknown
  }

  function InRange(v: Value): Value { if v.Known? && IsInt64(v.v) then v else Unknown }

  // ---- the machine operations both evaluators use ----

  function UnaryWord(op: UnOp, x: int): int {
    match op
    case Neg => Wrap(-x)
    case Pos => x
    case Complement => Wrap(-x - 1)
    case Not => if x != 0 then 0 else 1
  }

  /** Signed 64-bit arithmetic; a shift count outside the word gives something unspecified, here zero. */
  function BinaryWord(op: BinOp, x: int, y: int): int
    requires op.Divide? || op.Modulo? ==> y != 0
  {
    match op
    case Plus => Wrap(x + y)
    case Minus => Wrap(x - y)
    case Times => Wrap(x * y)
    case Divide => Wrap(TruncDiv(x, y))
    case Modulo => Wrap(TruncMod(x, y))
    case ShiftLeft => if 0 <= y < 64 then Wrap(x * Pow2(y)) else 0
    case ShiftRight => if 0 <= y < 64 then Wrap(x / Pow2(y)) else 0
    case And => ToInt(BitAnd(ToWord(x), ToWord(y)))
    case Or => ToInt(BitOr(ToWord(x), ToWord(y)))
    case Xor => ToInt(BitXor(ToWord(x), ToWord(y)))
    case Equal => Truth(x == y)
    case Unequal => Truth(x != y)
    case Less => Truth(x < y)
    case Greater => Truth(x > y)
    case AtMost => Truth(x <= y)
    case AtLeast => Truth(x >= y)
    case Both => Truth(x != 0 && y != 0)
    case Either => Truth(x != 0 || y != 0)
  }

  lemma WordIsMeaning(op: BinOp, x: int, y: int)
    requires InRange(BinaryMeaning(op, x, y)).Known?
    ensures op.Divide? || op.Modulo? ==> y != 0
    ensures Known(BinaryWord(op, x, y)) == BinaryMeaning(op, x, y)
  {
    hide BitAnd, BitOr, BitXor;
    ToIntToWord(BinaryMeaning(op, x, y).v);
  }

  lemma UnaryIsMeaning(op: UnOp, x: int)
    requires IsInt64(UnaryMeaning(op, x))
    ensures UnaryWord(op, x) == UnaryMeaning(op, x)
  {
    ToIntToWord(UnaryMeaning(op, x));
  }

  // ---- the evaluator of code generation: a value and whether there is one ----

  function CodegenEval(e: Expr, env: Env): Value {
    match e
    case Literal(n) => Known(n)
    case Name(id) => if id in env then Known(env[id]) else Unknown
    case Unary(op, a) =>
      var x := CodegenEval(a, env);
      if x.Unknown? then Unknown else Known(UnaryWord(op, x.v))
    case Binary(op, l, r) =>
      var x, y := CodegenEval(l, env), CodegenEval(r, env);
      if x.Unknown? || y.Unknown? then Unknown
      else if (op.Divide? || op.Modulo?) && y.v == 0 then Unknown
      else if op.Both? || op.Either? then Unknown
      else Known(BinaryWord(op, x.v, y.v))
    case Other => Unknown
  }

  predicate HasLogical(e: Expr) {
    match e
    case Unary(_, a) => HasLogical(a)
    case Binary(op, l, r) => op.Both? || op.Either? || HasLogical(l) || HasLogical(r)
    case _ => false
  }

  predicate NamesIn(e: Expr, env: Env) {
    match e
    case Name(id) => id in env
    case Unary(_, a) => NamesIn(a, env)
    case Binary(_, l, r) => NamesIn(l, env) && NamesIn(r, env)
    case _ => true
  }

  /** There is a part that neither evaluator looks into. */
  predicate HasOther(e: Expr) {
    match e
    case Unary(_, a) => HasOther(a)
    case Binary(_, l, r) => HasOther(l) || HasOther(r)
    case Other => true
    case _ => false
  }

  /** The expression and all its parts. */
  function Parts(e: Expr): set<Expr> {
    match e
    case Unary(_, a) => {e} + Parts(a)
    case Binary(_, l, r) => {e} + Parts(l) + Parts(r)
    case _ => {e}
  }

  /** Some divisor in it is evaluated to zero. */
  ghost predicate ZeroDivisor(e: Expr, env: Env) {
    exists q | q in Parts(e) :: q.Binary? && (q.op.Divide? || q.op.Modulo?) && CodegenEval(q.right, env) == Known(0)
  }

  /** Whether or not an expression has a meaning: it is decided exactly when all names are known, no part is of another
      kind or a logical operation, and no divisor is zero. */
  lemma {:induction false} CodegenDecides(e: Expr, env: Env)
    ensures CodegenEval(e, env).Known? <==> NamesIn(e, env) && !HasOther(e) && !HasLogical(e) && !ZeroDivisor(e, env)
  {
    hide BinaryWord, UnaryWord;
    match e
    case Literal(_) =>
    case Name(_) =>
    case Unary(_, a) =>
      CodegenDecides(a, env);
      ZeroBelow(e, a, env);
      assert ZeroDivisor(e, env) ==> ZeroDivisor(a, env);
    case Binary(op, l, r) =>
      CodegenDecides(l, env);
      CodegenDecides(r, env);
      ZeroBelow(e, l, env);
      ZeroBelow(e, r, env);
      assert e in Parts(e);
    case Other =>
  }

  lemma ZeroBelow(e: Expr, part: Expr, env: Env)
    requires Parts(part) <= Parts(e)
    ensures ZeroDivisor(part, env) ==> ZeroDivisor(e, env)
  {
  }

  ghost predicate Agrees(env: Env, full: Env) { forall id | id in env :: id in full && full[id] == env[id] }

  /** For an expression with a meaning, the evaluator decides exactly when it knows the names and meets no logical
      operator, and what it decides is the meaning. */
  lemma {:induction false} CodegenSound(e: Expr, env: Env, full: Env)
    requires Agrees(env, full) && Meaning(e, full).Known?
    ensures CodegenEval(e, env).Known? <==> NamesIn(e, env) && !HasLogical(e)
    ensures CodegenEval(e, env).Known? ==> CodegenEval(e, env) == Meaning(e, full)
  {
    hide BinaryWord, BinaryMeaning, UnaryWord, UnaryMeaning;
    match e
    case Literal(_) =>
    case Name(_) =>
    case Unary(op, a) =>
      CodegenSound(a, env, full);
      UnaryIsMeaning(op, Meaning(a, full).v);
    case Binary(op, l, r) =>
      CodegenSound(l, env, full);
      CodegenSound(r, env, full);
      WordIsMeaning(op, Meaning(l, full).v, Meaning(r, full).v);
    case Other =>
  }

  // ---- the evaluator of where-clauses: -1 stands for "unknown" ----

  function WhereEval(e: Expr, env: Env): int {
    match e
    case Literal(n) => n
    case Name(id) => if id in env then env[id] else -1
    case Unary(op, a) =>
      var x := WhereEval(a, env);
      if x == -1 then -1 else UnaryWord(op, x)
    case Binary(op, l, r) =>
      var x, y := WhereEval(l, env), WhereEval(r, env);
      if x == -1 || y == -1 then -1
      else if (op.Divide? || op.Modulo?) && y == 0 then -1
      else if op.ShiftRight? && !(0 <= y < 64) then -1
      else BinaryWord(op, x, y)
    case Other => -1
  }

  /** Some part of the expression has the value -1. */
  predicate TouchesMinusOne(e: Expr, env: Env) {
    Meaning(e, env) == Known(-1) ||
    match e
    case Unary(_, a) => TouchesMinusOne(a, env)
    case Binary(_, l, r) => TouchesMinusOne(l, env) || TouchesMinusOne(r, env)
    case _ => false
  }

  /** For an expression with a meaning, a decision is the meaning; and there is one exactly when the names are known
      and no part of the expression has the value -1. */
  lemma {:induction false} WhereSound(e: Expr, env: Env, full: Env)
    requires Agrees(env, full) && Meaning(e, full).Known?
    ensures WhereEval(e, env) != -1 <==> NamesIn(e, env) && !TouchesMinusOne(e, full)
    ensures WhereEval(e, env) != -1 ==> Known(WhereEval(e, env)) == Meaning(e, full)
  {
    hide BinaryWord, UnaryWord, UnaryMeaning;
    match e
    case Literal(_) =>
    case Name(_) =>
    case Unary(op, a) =>
      WhereSound(a, env, full);
      UnaryIsMeaning(op, Meaning(a, full).v);
    case Binary(op, l, r) =>
      WhereSound(l, env, full);
      WhereSound(r, env, full);
      WordIsMeaning(op, Meaning(l, full).v, Meaning(r, full).v);
    case Other =>
  }

  /** The value an evaluator with a separate mark for "unknown" would compute: every name is known, every part is looked
      into, no divisor is zero and nothing is shifted right out of the word. */
  function Computed(e: Expr, env: Env): Value {
    match e
    case Literal(n) => Known(n)
    case Name(id) => if id in env then Known(env[id]) else Unknown
    case Unary(op, a) => if Computed(a, env).Known? then Known(UnaryWord(op, Computed(a, env).v)) else Unknown
    case Binary(op, l, r) =>
      var x, y := Computed(l, env), Computed(r, env);
      if x.Unknown? || y.Unknown? || Refused(op, y.v) then Unknown else Known(BinaryWord(op, x.v, y.v))
    case Other => Unknown
  }

  predicate Refused(op: BinOp, y: int) { ((op.Divide? || op.Modulo?) && y == 0) || (op.ShiftRight? && !(0 <= y < 64)) }

  /** Some part is computed to -1. */
  ghost predicate ComputesMinusOne(e: Expr, env: Env) { exists q | q in Parts(e) :: Computed(q, env) == Known(-1) }

  /** Whether or not an expression has a meaning: the where-evaluator decides it exactly when it can be computed and no part
      is computed to -1, and decides what is computed. */
  lemma {:induction false} WhereDecides(e: Expr, env: Env)
    ensures WhereEval(e, env) != -1 <==> Computed(e, env).Known? && !ComputesMinusOne(e, env)
    ensures WhereEval(e, env) != -1 ==> Known(WhereEval(e, env)) == Computed(e, env)
  {
    hide BinaryWord, UnaryWord;
    assert e in Parts(e);
    match e
    case Literal(_) =>
    case Name(_) =>
    case Unary(_, a) =>
      WhereDecides(a, env);
      assert ComputesMinusOne(e, env) <==> ComputesMinusOne(a, env) || Computed(e, env) == Known(-1);
    case Binary(_, l, r) =>
      WhereDecides(l, env);
      WhereDecides(r, env);
      assert ComputesMinusOne(e, env) <==> ComputesMinusOne(l, env) || ComputesMinusOne(r, env) || Computed(e, env) == Known(-1);
    case Other =>
  }

  /** What can be computed has known names and no parts of another kind. */
  lemma {:induction false} ComputedNames(e: Expr, env: Env)
    requires Computed(e, env).Known?
    ensures NamesIn(e, env) && !HasOther(e)
  {
    hide BinaryWord, UnaryWord;
    match e
    case Unary(_, a) => ComputedNames(a, env);
    case Binary(_, l, r) => ComputedNames(l, env); ComputedNames(r, env);
    case _ =>
  }

  /** Whenever both evaluators decide an expression, meaning or not, they decide the same, if they know the same of the
      names they share. */
  lemma {:induction false} EvaluatorsAgree(e: Expr, env: Env, poly: Env)
    requires forall id | id in env && id in poly :: env[id] == poly[id]
    requires CodegenEval(e, env).Known? && WhereEval(e, poly) != -1
    ensures CodegenEval(e, env).v == WhereEval(e, poly)
  {
    hide BinaryWord, UnaryWord;
    match e
    case Literal(_) =>
    case Name(_) =>
    case Unary(_, a) => EvaluatorsAgree(a, env, poly);
    case Binary(_, l, r) => EvaluatorsAgree(l, env, poly); EvaluatorsAgree(r, env, poly);
  }

  /** Zero minus one is a constant that only one of them sees. */
  lemma MinusOneUnseen()
    ensures var e := Binary(Minus, Literal(0), Literal(1)); CodegenEval(e, map[]) == Known(-1) && WhereEval(e, map[]) == -1
    ensures var e := Binary(Equal, Binary(Minus, Literal(0), Literal(1)), Literal(5));
      CodegenEval(e, map[]) == Known(0) && WhereEval(e, map[]) == -1
  {
    ToIntToWord(-1);
  }

  // ---- when-chains ----

  datatype Choice = Branch(i: nat) | Trailing | Analysed

  /** The first condition from i on that holds, if any. */
  function FirstTrue(conds: seq<Expr>, i: nat, env: Env): Choice
    requires i <= |conds|
    decreases |conds| - i
  {
    if i == |conds| then Trailing
    else if Meaning(conds[i], env).Known? && Meaning(conds[i], env).v != 0 then Branch(i)
    else FirstTrue(conds, i + 1, env)
  }

  /** The chain is walked once; a condition that is not decided is passed over, and remembered. */
  method Choose(conds: seq<Expr>, env: Env) returns (c: Choice)
    ensures c == Chosen(conds, 0, env, false)
    ensures c.Branch? ==> c.i < |conds| && DecidedTrue(conds[c.i], env) && forall k | 0 <= k < c.i :: !DecidedTrue(conds[k], env)
    ensures c.Branch? ==> NamesIn(conds[c.i], env) && !HasOther(conds[c.i]) && !HasLogical(conds[c.i])
    ensures !c.Branch? <==> forall k | 0 <= k < |conds| :: !DecidedTrue(conds[k], env)
    ensures c == Trailing <==> forall k | 0 <= k < |conds| :: CodegenEval(conds[k], env) == Known(0)
  {
    var i, indeterminate := 0, false;
    while i < |conds|
      invariant 0 <= i <= |conds| && Chosen(conds, 0, env, false) == Chosen(conds, i, env, indeterminate)
      invariant forall k | 0 <= k < i :: !DecidedTrue(conds[k], env)
      invariant indeterminate <==> exists k | 0 <= k < i :: CodegenEval(conds[k], env).Unknown?
    {
      var val := CodegenEval(conds[i], env);
      if val.Unknown? {
        indeterminate := true;
      } else if val.v != 0 {
        CodegenDecides(conds[i], env);
        return Branch(i);
      }
      i := i + 1;
    }
    return if indeterminate then Analysed else Trailing;
  }

  function Chosen(conds: seq<Expr>, i: nat, env: Env, indeterminate: bool): Choice
    requires i <= |conds|
    decreases |conds| - i
  {
    if i == |conds| then if indeterminate then Analysed else Trailing
    else if CodegenEval(conds[i], env).Unknown? then Chosen(conds, i + 1, env, true)
    else if CodegenEval(conds[i], env).v != 0 then Branch(i)
    else Chosen(conds, i + 1, env, indeterminate)
  }

  ghost predicate AllMean(conds: seq<Expr>, full: Env) { forall k | 0 <= k < |conds| :: Meaning(conds[k], full).Known? }

  predicate DecidedTrue(e: Expr, env: Env) { CodegenEval(e, env).Known? && CodegenEval(e, env).v != 0 }

  /** What the chain does when undecided conditions leave the choice to the earlier analysis, which made the right one. */
  function Outcome(conds: seq<Expr>, env: Env, full: Env): Choice {
    var c := Chosen(conds, 0, env, false);
    if c == Analysed then FirstTrue(conds, 0, full) else c
  }

  lemma {:induction false} ChosenFrom(conds: seq<Expr>, i: nat, env: Env, full: Env, indeterminate: bool)
    requires i <= |conds| && Agrees(env, full) && AllMean(conds, full)
    ensures var c := Chosen(conds, i, env, indeterminate); var r := FirstTrue(conds, i, full);
      && (c.Branch? ==> i <= c.i < |conds| && DecidedTrue(conds[c.i], env) && r.Branch? && r.i <= c.i)
      && (c.Branch? && r.Branch? ==> (r.i == c.i <==> DecidedTrue(conds[r.i], env)))
      && (!c.Branch? ==> forall k | i <= k < |conds| :: !DecidedTrue(conds[k], env))
      && (indeterminate ==> c != Trailing) && (c == Trailing ==> r == Trailing)
      && (r.Branch? ==> i <= r.i < |conds|)
    decreases |conds| - i
  {
    hide Meaning, CodegenEval;
    if i < |conds| {
      CodegenSound(conds[i], env, full);
      ChosenFrom(conds, i + 1, env, full, true);
      ChosenFrom(conds, i + 1, env, full, indeterminate);
    }
  }

  /** A when-chain takes the first true body, or the trailing one, exactly when the first true condition is decided
      here or no true condition is. */
  lemma ChainSelects(conds: seq<Expr>, env: Env, full: Env)
    requires Agrees(env, full) && AllMean(conds, full)
    ensures var r := FirstTrue(conds, 0, full);
      Outcome(conds, env, full) == r <==>
        (r.Branch? && r.i < |conds| && DecidedTrue(conds[r.i], env)) || (forall k | 0 <= k < |conds| :: !DecidedTrue(conds[k], env))
  {
    hide Meaning, CodegenEval;
    ChosenFrom(conds, 0, env, full, false);
  }

  /** In particular when every condition is decided. */
  lemma DecidedChainSelects(conds: seq<Expr>, env: Env, full: Env)
    requires Agrees(env, full) && AllMean(conds, full) && forall k | 0 <= k < |conds| :: CodegenEval(conds[k], env).Known?
    ensures Chosen(conds, 0, env, false) == FirstTrue(conds, 0, full)
  {
    DecidedFrom(conds, 0, env, full);
  }

  lemma {:induction false} DecidedFrom(conds: seq<Expr>, i: nat, env: Env, full: Env)
    requires i <= |conds| && Agrees(env, full) && AllMean(conds, full) && forall k | 0 <= k < |conds| :: CodegenEval(conds[k], env).Known?
    ensures Chosen(conds, i, env, false) == FirstTrue(conds, i, full)
    decreases |conds| - i
  {
    hide Meaning, CodegenEval;
    if i < |conds| {
      CodegenSound(conds[i], env, full);
      DecidedFrom(conds, i + 1, env, full);
    }
  }

  /** A logical condition is never decided here, so a later plain one wins over it. */
  lemma LogicalConditionPassedOver()
    ensures var conds := [Binary(Both, Literal(1), Literal(1)), Literal(1)];
      FirstTrue(conds, 0, map[]) == Branch(0) && Outcome(conds, map[], map[]) == Branch(1)
  {
    var conds := [Binary(Both, Literal(1), Literal(1)), Literal(1)];
    assert Meaning(conds[0], map[]) == Known(1);
    assert CodegenEval(conds[0], map[]) == Unknown && CodegenEval(conds[1], map[]) == Known(1);
    assert Chosen(conds, 1, map[], true) == Branch(1);
  }
}
