/** Evaluating compiled code as the evaluator does, with values made at once where that is free:
  * constants, lambdas and variables are never wrapped in a thunk.
  */
module NixLazy {
  import opened Wrappers
  import opened NixLang
  import opened NamedEval

  datatype LEnv = LRoot | LFrame(slots: seq<LSlot>, parent: LEnv)

  /** A slot holds a value. Thunks and closures over the frame itself refer back to it. */
  datatype LSlot =
    | Held(value: LValue)
    | OwnThunk(code: Code)
    | OwnClosure(param: CParam, body: Code)

  datatype LValue =
    | LInt(n: int)
    | LConstant(c: Constant)
    | LAttrs(entries: map<Sym, LValue>)
    | LClosure(param: CParam, body: Code, env: LEnv)
    | LThunk(code: Code, env: LEnv)

  // ----- reading the chain ----------------------------------------------------------------------

  function LUp(env: LEnv, depth: nat): Option<LEnv> {
    if depth == 0 then Some(env)
    else match env
      case LRoot => None
      case LFrame(_, parent) => LUp(parent, depth - 1)
  }

  function Content(slot: LSlot, frame: LEnv): LValue {
    match slot
    case Held(v) => v
    case OwnThunk(c) => LThunk(c, frame)
    case OwnClosure(param, body) => LClosure(param, body, frame)
  }

  function Read(env: LEnv, slot: nat): Option<LValue> {
    if env.LRoot? || slot >= |env.slots| then None else Some(Content(env.slots[slot], env))
  }

  function LVariable(env: LEnv, depth: nat, slot: nat): Option<LValue> {
    match LUp(env, depth)
    case None => None
    case Some(frame) => Read(frame, slot)
  }

  // ----- making values --------------------------------------------------------------------------

  /** A value for `c` without evaluating it, or `None` for a variable beyond the chain. */
  function Lazy(c: Code, env: LEnv): Option<LValue> {
    match c
    case CInt(n) => Some(LInt(n))
    case CBool(b) => Some(LConstant(BoolConstant(b)))
    case CNull => Some(LConstant(NullConstant))
    case Global(name) => Some(LConstant(BuiltinConstant(name)))
    case Var(depth, slot) => LVariable(env, depth, slot)
    case CLambda(param, body) => Some(LClosure(param, body, env))
    case _ => Some(LThunk(c, env))
  }

  predicate OfThisFrame(c: Code) {
    c.Var? && c.depth == 0
  }

  /** The same to fill a slot of `frame` with, while others may not be filled in yet. */
  function LazySlot(c: Code, frame: LEnv): Option<LSlot> {
    if OfThisFrame(c) then Some(OwnThunk(c))
    else match Lazy(c, frame)
      case None => None
      case Some(v) =>
        if c.CLambda? then Some(OwnClosure(v.param, v.body))
        else if v.LThunk? && !c.Var? then Some(OwnThunk(v.code))
        else Some(Held(v))
  }

  /** No slot of the frame itself is read to fill another. */
  lemma SlotReadsOutside(c: Code, slots: seq<LSlot>, slots': seq<LSlot>, parent: LEnv)
    ensures LazySlot(c, LFrame(slots, parent)) == LazySlot(c, LFrame(slots', parent))
  {
    if c.Var? && c.depth > 0 {
      assert LUp(LFrame(slots, parent), c.depth) == LUp(parent, c.depth - 1) == LUp(LFrame(slots', parent), c.depth);
    }
  }

  /** The first `n` slots of the frame that `inits` fill. */
  function Filled(inits: seq<Code>, n: nat, parent: LEnv): (r: Option<seq<LSlot>>)
    requires n <= |inits|
    ensures r.Some? ==> |r.value| == n
    ensures r.Some? <==> forall i :: 0 <= i < n ==> LazySlot(inits[i], LFrame([], parent)).Some?
    ensures r.Some? ==> forall i :: 0 <= i < n ==> LazySlot(inits[i], LFrame([], parent)) == Some(r.value[i])
  {
    if n == 0 then Some([])
    else match Filled(inits, n - 1, parent)
      case None => None
      case Some(slots) =>
        match LazySlot(inits[n - 1], LFrame([], parent))
        case None => None
        case Some(s) => Some(slots + [s])
  }

  function FrameOf(inits: seq<Code>, parent: LEnv): Option<LEnv> {
    match Filled(inits, |inits|, parent)
    case None => None
    case Some(slots) => Some(LFrame(slots, parent))
  }

  /** Fill a frame of cells one after another, all null at first. */
  method NewFrame(inits: seq<Code>, parent: LEnv) returns (frame: Option<LEnv>)
    ensures frame == FrameOf(inits, parent)
  {
    var cells := new LSlot[|inits|](_ => Held(LConstant(NullConstant)));
    for i := 0 to |inits|
      invariant Filled(inits, i, parent) == Some(cells[..i])
    {
      SlotReadsOutside(inits[i], cells[..], [], parent);
      ghost var filled := cells[..i];
      match LazySlot(inits[i], LFrame(cells[..], parent)) {
        case Some(s) => cells[i] := s;
        case None => return None;
      }
      assert cells[..i] == filled && cells[..i + 1] == cells[..i] + [cells[i]];
    }
    assert cells[..] == cells[..|inits|];
    return Some(LFrame(cells[..], parent));
  }

  /** The entries of a set whose values live in `env`. */
  function LEntries(statics: seq<CStatic>, n: nat, env: LEnv): Option<map<Sym, LValue>>
    requires n <= |statics|
  {
    if n == 0 then Some(map[])
    else
      var s := statics[n - 1];
      var v := match s.value
        case ExprValue(c) => Lazy(c, env)
        case SlotValue(i) => Read(env, i);
      match LEntries(statics, n - 1, env)
      case None => None
      case Some(entries) => if v.None? then None else Some(entries[s.name := v.value])
  }

  function LFillFormals(formals: seq<CFormal>, entries: map<Sym, LValue>, parent: LEnv):
      (r: Result<seq<LSlot>, EvalError>)
    ensures r.Ok? ==> |r.value| == |formals|
  {
    if formals == [] then Ok([])
    else
      var n := |formals| - 1;
      var f := formals[n];
      var slots :- LFillFormals(formals[..n], entries, parent);
      if f.name in entries then Ok(slots + [Held(entries[f.name])])
      else match f.default
        case None => Err(MissingArgument(f.name))
        case Some(d) =>
          match LazySlot(d, LFrame(slots, parent))
          case None => Err(OutOfRange)
          case Some(s) => Ok(slots + [s])
  }

  function LFillPattern(param: CParam, arg: LValue, entries: map<Sym, LValue>, parent: LEnv):
      Result<seq<LSlot>, EvalError>
    requires param.CPattern?
  {
    var slots :- LFillFormals(param.formals, entries, parent);
    if !param.ellipsis && GivesExtra(CFormalNames(param.formals), entries.Keys) then Err(UnexpectedArgument)
    else Ok(if param.at.Some? then slots + [Held(arg)] else slots)
  }

  // ----- evaluating -----------------------------------------------------------------------------

  function LForce(fuel: nat, v: LValue): Result<LValue, EvalError>
    decreases fuel, 0
  {
    if !v.LThunk? then Ok(v) else if fuel == 0 then Err(OutOfFuel) else LEval(fuel - 1, v.code, v.env)
  }

  function LForceVariable(fuel: nat, env: LEnv, depth: nat, slot: nat): Result<LValue, EvalError>
    decreases fuel, 1, 0
  {
    match LVariable(env, depth, slot)
    case None => Err(OutOfRange)
    case Some(v) => LForce(fuel, v)
  }

  function LLookupWiths(fuel: nat, name: Sym, withs: seq<nat>, env: LEnv): Result<LValue, EvalError>
    decreases fuel, 1, |withs| + 1
  {
    if withs == [] then Err(UndefinedVariable(name))
    else
      var v :- LForceVariable(fuel, env, withs[0], 0);
      if !v.LAttrs? then Err(NotASet)
      else if name in v.entries then LForce(fuel, v.entries[name])
      else LLookupWiths(fuel, name, withs[1..], env)
  }

  function LSelectAttr(fuel: nat, v: LValue, name: Sym): Result<LValue, EvalError>
    decreases fuel, 1, 0
  {
    if !v.LAttrs? then Err(NotASet)
    else if name !in v.entries then Err(MissingAttribute(name))
    else LForce(fuel, v.entries[name])
  }

  function LEval(fuel: nat, c: Code, env: LEnv): Result<LValue, EvalError>
    decreases fuel, 2, c
  {
    match c
    case CInt(n) => Ok(LInt(n))
    case CBool(b) => Ok(LConstant(BoolConstant(b)))
    case CNull => Ok(LConstant(NullConstant))
    case Global(name) => Ok(LConstant(BuiltinConstant(name)))
    case Var(depth, slot) => LForceVariable(fuel, env, depth, slot)
    case WithVar(name, withs) => LLookupWiths(fuel, name, withs, env)
    case CLambda(param, body) => Ok(LClosure(param, body, env))
    case CApply(func, arg) =>
      var f :- LEval(fuel, func, env);
      (match Lazy(arg, env)
       case None => Err(OutOfRange)
       case Some(v) => LCall(fuel, f, v))
    case CSelect(expr, attr) =>
      var v :- LEval(fuel, expr, env);
      LSelectAttr(fuel, v, attr)
    case CIf(cond, then_, else_) =>
      var v :- LEval(fuel, cond, env);
      if !(v.LConstant? && v.c.BoolConstant?) then Err(NotABool)
      else if v.c.b then LEval(fuel, then_, env) else LEval(fuel, else_, env)
    case CLet(slots, body) =>
      (match FrameOf(slots, env)
       case None => Err(OutOfRange)
       case Some(frame) => LEval(fuel, body, frame))
    case CAttrs(frame, statics) =>
      (match if frame.InFrame? then FrameOf(frame.slots, env) else Some(env)
       case None => Err(OutOfRange)
       case Some(inner) =>
         match LEntries(statics, |statics|, inner)
         case None => Err(OutOfRange)
         case Some(entries) => Ok(LAttrs(entries)))
    case CWith(namespace, body) =>
      (match Lazy(namespace, env)
       case None => Err(OutOfRange)
       case Some(v) => LEval(fuel, body, LFrame([Held(v)], env)))
  }

  function LCall(fuel: nat, f: LValue, arg: LValue): Result<LValue, EvalError>
    decreases fuel, 1, 0
  {
    if !f.LClosure? then Err(NotAFunction)
    else match f.param
      case CIdentParam(_) =>
        if fuel == 0 then Err(OutOfFuel) else LEval(fuel - 1, f.body, LFrame([Held(arg)], f.env))
      case CPattern(formals, ellipsis, at) =>
        var v :- LForce(fuel, arg);
        if !v.LAttrs? then Err(NotASet)
        else
          var slots :- LFillPattern(f.param, arg, v.entries, f.env);
          if fuel == 0 then Err(OutOfFuel) else LEval(fuel - 1, f.body, LFrame(slots, f.env))
  }
}
