/** Evaluating compiled code over the environment chain: a name is a depth and a slot. */
module NixEval {
  import opened Wrappers
  import opened NixLang
  import opened NamedEval

  datatype Env = Root | Frame(slots: seq<Slot>, parent: Env)

  datatype Slot =
    | Given(thunk: Thunk)
      /** Filled with code evaluated in the frame itself. */
    | Own(code: Code)

  datatype Thunk = Thunk(code: Code, env: Env)

  datatype Value =
    | VInt(n: int)
    | VConstant(c: Constant)
    | VAttrs(entries: map<Sym, Thunk>)
    | VClosure(param: CParam, body: Code, env: Env)

  /** The frame `depth` levels up the chain. */
  function Up(env: Env, depth: nat): Option<Env> {
    if depth == 0 then Some(env)
    else match env
      case Root => None
      case Frame(_, parent) => Up(parent, depth - 1)
  }

  /** The same, one parent at a time. */
  method ClimbUp(env: Env, depth: nat) returns (frame: Option<Env>)
    ensures frame == Up(env, depth)
  {
    var at := env;
    for climbed := 0 to depth
      invariant Up(env, depth) == Up(at, depth - climbed)
    {
      if at.Root? {
        return None;
      }
      at := at.parent;
    }
    return Some(at);
  }

  function Fetch(env: Env, slot: nat): Option<Thunk> {
    if env.Root? || slot >= |env.slots| then None
    else match env.slots[slot]
      case Given(t) => Some(t)
      case Own(c) => Some(Thunk(c, env))
  }

  function Variable(env: Env, depth: nat, slot: nat): Option<Thunk> {
    match Up(env, depth)
    case None => None
    case Some(frame) => Fetch(frame, slot)
  }

  function OwnSlots(codes: seq<Code>): (slots: seq<Slot>)
    ensures |slots| == |codes| && forall i :: 0 <= i < |codes| ==> slots[i] == Own(codes[i])
  {
    seq(|codes|, i requires 0 <= i < |codes| => Own(codes[i]))
  }

  /** The entries of a set whose values live in `env`, or `None` if one names no slot of it. */
  function Entries(statics: seq<CStatic>, n: nat, env: Env): Option<map<Sym, Thunk>>
    requires n <= |statics|
  {
    if n == 0 then Some(map[])
    else
      var s := statics[n - 1];
      var thunk := match s.value
        case ExprValue(c) => Some(Thunk(c, env))
        case SlotValue(i) => Fetch(env, i);
      match Entries(statics, n - 1, env)
      case None => None
      case Some(entries) => if thunk.None? then None else Some(entries[s.name := thunk.value])
  }

  function FillFormals(formals: seq<CFormal>, entries: map<Sym, Thunk>): (r: Result<seq<Slot>, EvalError>)
    ensures r.Ok? ==> |r.value| == |formals|
  {
    if formals == [] then Ok([])
    else
      var n := |formals| - 1;
      var f := formals[n];
      var slots :- FillFormals(formals[..n], entries);
      if f.name in entries then Ok(slots + [Given(entries[f.name])])
      else match f.default
        case Some(d) => Ok(slots + [Own(d)])
        case None => Err(MissingArgument(f.name))
  }

  /** The slots of the frame a pattern makes when it takes `arg`, whose entries are given. */
  function FillPattern(param: CParam, arg: Thunk, entries: map<Sym, Thunk>): Result<seq<Slot>, EvalError>
    requires param.CPattern?
  {
    var slots :- FillFormals(param.formals, entries);
    if !param.ellipsis && GivesExtra(CFormalNames(param.formals), entries.Keys) then Err(UnexpectedArgument)
    else Ok(if param.at.Some? then slots + [Given(arg)] else slots)
  }

  function Force(fuel: nat, t: Thunk): Result<Value, EvalError>
    decreases fuel, 0
  {
    if fuel == 0 then Err(OutOfFuel) else Eval(fuel - 1, t.code, t.env)
  }

  function ForceVariable(fuel: nat, env: Env, depth: nat, slot: nat): Result<Value, EvalError>
    decreases fuel, 1, 0
  {
    match Variable(env, depth, slot)
    case None => Err(OutOfRange)
    case Some(t) => Force(fuel, t)
  }

  function LookupWiths(fuel: nat, name: Sym, withs: seq<nat>, env: Env): Result<Value, EvalError>
    decreases fuel, 1, |withs| + 1
  {
    if withs == [] then Err(UndefinedVariable(name))
    else
      var v :- ForceVariable(fuel, env, withs[0], 0);
      if !v.VAttrs? then Err(NotASet)
      else if name in v.entries then Force(fuel, v.entries[name])
      else LookupWiths(fuel, name, withs[1..], env)
  }

  function SelectAttr(fuel: nat, v: Value, name: Sym): Result<Value, EvalError>
    decreases fuel, 1, 0
  {
    if !v.VAttrs? then Err(NotASet)
    else if name !in v.entries then Err(MissingAttribute(name))
    else Force(fuel, v.entries[name])
  }

  function Eval(fuel: nat, c: Code, env: Env): Result<Value, EvalError>
    decreases fuel, 2, c
  {
    match c
    case CInt(n) => Ok(VInt(n))
    case CBool(b) => Ok(VConstant(BoolConstant(b)))
    case CNull => Ok(VConstant(NullConstant))
    case Global(name) => Ok(VConstant(BuiltinConstant(name)))
    case Var(depth, slot) => ForceVariable(fuel, env, depth, slot)
    case WithVar(name, withs) => LookupWiths(fuel, name, withs, env)
    case CLambda(param, body) => Ok(VClosure(param, body, env))
    case CApply(func, arg) =>
      var f :- Eval(fuel, func, env);
      Call(fuel, f, Thunk(arg, env))
    case CSelect(expr, attr) =>
      var v :- Eval(fuel, expr, env);
      SelectAttr(fuel, v, attr)
    case CIf(cond, then_, else_) =>
      var v :- Eval(fuel, cond, env);
      if !(v.VConstant? && v.c.BoolConstant?) then Err(NotABool)
      else if v.c.b then Eval(fuel, then_, env) else Eval(fuel, else_, env)
    case CLet(slots, body) => Eval(fuel, body, Frame(OwnSlots(slots), env))
    case CAttrs(frame, statics) =>
      var inner := if frame.InFrame? then Frame(OwnSlots(frame.slots), env) else env;
      (match Entries(statics, |statics|, inner)
       case None => Err(OutOfRange)
       case Some(entries) => Ok(VAttrs(entries)))
    case CWith(namespace, body) => Eval(fuel, body, Frame([Given(Thunk(namespace, env))], env))
  }

  function Call(fuel: nat, f: Value, arg: Thunk): Result<Value, EvalError>
    decreases fuel, 1, 0
  {
    if !f.VClosure? then Err(NotAFunction)
    else match f.param
      case CIdentParam(_) =>
        if fuel == 0 then Err(OutOfFuel) else Eval(fuel - 1, f.body, Frame([Given(arg)], f.env))
      case CPattern(formals, ellipsis, at) =>
        var v :- Force(fuel, arg);
        if !v.VAttrs? then Err(NotASet)
        else
          var slots :- FillPattern(f.param, arg, v.entries);
          if fuel == 0 then Err(OutOfFuel) else Eval(fuel - 1, f.body, Frame(slots, f.env))
  }
}
