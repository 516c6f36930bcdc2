/** The meaning names have in the source: every frame binds names, and looking one up walks
  * outwards. A reference to compare compiled code with. Evaluation is by name; `fuel` bounds
  * how deep thunks may be forced and calls entered.
  */
module NamedEval {
  import opened Wrappers
  import opened NixLang

  datatype EvalError =
    | UndefinedVariable(name: Sym)
    | MissingAttribute(name: Sym)
    | MissingArgument(name: Sym)
    | UnexpectedArgument
    | NotASet
    | NotABool
    | NotAFunction
    | MalformedSet
      /** A depth or slot beyond the environment chain; names never lead there. */
    | OutOfRange
    | OutOfFuel

  datatype NEnv =
    | NRoot
    | NFrame(binds: map<Sym, NSlot>, parent: NEnv)
    | NWith(namespace: NThunk, parent: NEnv)

  /** What a frame binds a name to. */
  datatype NSlot =
    | NGiven(thunk: NThunk)
      /** Evaluated in the frame itself. */
    | NOwn(e: Expr)
      /** `inherit name;`: the name's meaning around the frame. */
    | NOuter(name: Sym)
      /** `inherit (e) name;` */
    | NFrom(source: Expr, name: Sym)

  datatype NThunk =
    | NDelayed(e: Expr, env: NEnv)
      /** The attribute `name` of the set `base` evaluates to. */
    | NAttribute(base: NThunk, name: Sym)

  datatype NValue =
    | NInt(n: int)
    | NConstant(c: Constant)
    | NAttrs(entries: map<Sym, NThunk>)
    | NClosure(param: Param, body: Expr, env: NEnv)

  function SlotThunk(env: NEnv, name: Sym): NThunk
    requires env.NFrame? && name in env.binds
  {
    match env.binds[name]
    case NGiven(t) => t
    case NOwn(e) => NDelayed(e, env)
    case NOuter(x) => NDelayed(Ident(x), env.parent)
    case NFrom(source, x) => NAttribute(NDelayed(source, env), x)
  }

  /** The innermost lexical binding; `with` frames bind nothing lexically. */
  function Lexical(env: NEnv, name: Sym): Option<NThunk> {
    match env
    case NRoot => None
    case NFrame(binds, parent) => if name in binds then Some(SlotThunk(env, name)) else Lexical(parent, name)
    case NWith(_, parent) => Lexical(parent, name)
  }

  function BindStatics(set_: PreSet, n: nat): (binds: map<Sym, NSlot>)
    requires SourcesListed(set_) && n <= |set_.statics|
  {
    if n == 0 then map[]
    else
      var s := set_.statics[n - 1];
      var slot := match s.binding
        case Value(e) => NOwn(e)
        case Inherit(x) => NOuter(x)
        case InheritFrom(from, x) => NFrom(set_.froms[from], x);
      BindStatics(set_, n - 1)[s.name := slot]
  }

  /** The frame of a recursive set or `let`. */
  function SetFrame(set_: PreSet, env: NEnv): NEnv
    requires SourcesListed(set_)
  {
    NFrame(BindStatics(set_, |set_.statics|), env)
  }

  /** The entries of a set: of the frame it makes, if recursive, or evaluated around it. */
  function SetEntries(set_: PreSet, recursive: bool, env: NEnv): map<Sym, NThunk>
    requires SourcesListed(set_)
  {
    if recursive then
      var frame := SetFrame(set_, env);
      map x | x in frame.binds :: SlotThunk(frame, x)
    else PlainEntries(set_, |set_.statics|, env)
  }

  function PlainEntries(set_: PreSet, n: nat, env: NEnv): map<Sym, NThunk>
    requires SourcesListed(set_) && n <= |set_.statics|
  {
    if n == 0 then map[]
    else
      var s := set_.statics[n - 1];
      var thunk := match s.binding
        case Value(e) => NDelayed(e, env)
        case Inherit(x) => NDelayed(Ident(x), env)
        case InheritFrom(from, x) => NAttribute(NDelayed(set_.froms[from], env), x);
      PlainEntries(set_, n - 1, env)[s.name := thunk]
  }

  /** The arguments a pattern takes from `entries`, or its defaults; the last wins. */
  function BindFormals(formals: seq<Formal>, entries: map<Sym, NThunk>): (r: Result<map<Sym, NSlot>, EvalError>)
    ensures r != Err(OutOfRange)
  {
    if formals == [] then Ok(map[])
    else
      var n := |formals| - 1;
      var f := formals[n];
      var binds :- BindFormals(formals[..n], entries);
      if f.name in entries then Ok(binds[f.name := NGiven(entries[f.name])])
      else match f.default
        case Some(d) => Ok(binds[f.name := NOwn(d)])
        case None => Err(MissingArgument(f.name))
  }

  /** What the names of a pattern are bound to when it takes `arg`, whose entries are given. */
  function BindPattern(param: Param, arg: NThunk, entries: map<Sym, NThunk>): (r: Result<map<Sym, NSlot>, EvalError>)
    requires param.Pattern?
    ensures r != Err(OutOfRange)
  {
    var binds :- BindFormals(param.formals, entries);
    if !param.ellipsis && GivesExtra(FormalNames(param.formals), entries.Keys) then Err(UnexpectedArgument)
    else Ok(if param.at.Some? then binds[param.at.value := NGiven(arg)] else binds)
  }

  function NForce(builtins: set<Sym>, fuel: nat, t: NThunk): (r: Result<NValue, EvalError>)
    ensures r != Err(OutOfRange)
    decreases fuel, 0
  {
    if fuel == 0 then Err(OutOfFuel)
    else match t
      case NDelayed(e, env) => NEval(builtins, fuel - 1, e, env)
      case NAttribute(base, name) =>
        var v :- NForce(builtins, fuel - 1, base);
        NSelect(builtins, fuel - 1, v, name)
  }

  function NSelect(builtins: set<Sym>, fuel: nat, v: NValue, name: Sym): (r: Result<NValue, EvalError>)
    ensures r != Err(OutOfRange)
    decreases fuel, 1
  {
    if !v.NAttrs? then Err(NotASet)
    else if name !in v.entries then Err(MissingAttribute(name))
    else NForce(builtins, fuel, v.entries[name])
  }

  /** Look `name` up in the namespaces of the `with` frames, innermost first. */
  function NLookupWiths(builtins: set<Sym>, fuel: nat, name: Sym, env: NEnv): (r: Result<NValue, EvalError>)
    ensures r != Err(OutOfRange)
    decreases fuel, 1, env
  {
    match env
    case NRoot => Err(UndefinedVariable(name))
    case NFrame(_, parent) => NLookupWiths(builtins, fuel, name, parent)
    case NWith(namespace, parent) =>
      var v :- NForce(builtins, fuel, namespace);
      if !v.NAttrs? then Err(NotASet)
      else if name in v.entries then NForce(builtins, fuel, v.entries[name])
      else NLookupWiths(builtins, fuel, name, parent)
  }

  /** Lexical bindings come before the global constants, and those before any `with`. */
  function NEval(builtins: set<Sym>, fuel: nat, e: Expr, env: NEnv): (r: Result<NValue, EvalError>)
    ensures r != Err(OutOfRange)
    decreases fuel, 2, e
  {
    match e
    case IntLit(n) => Ok(NInt(n))
    case Ident(name) =>
      (match Lexical(env, name)
       case Some(t) => NForce(builtins, fuel, t)
       case None =>
         match GlobalConstant(builtins, name)
         case Some(c) => Ok(NConstant(c))
         case None => NLookupWiths(builtins, fuel, name, env))
    case Lambda(param, body) => Ok(NClosure(param, body, env))
    case Apply(func, arg) =>
      var f :- NEval(builtins, fuel, func, env);
      NCall(builtins, fuel, f, NDelayed(arg, env))
    case Select(expr, attr) =>
      var v :- NEval(builtins, fuel, expr, env);
      NSelect(builtins, fuel, v, attr)
    case If(cond, then_, else_) =>
      var c :- NEval(builtins, fuel, cond, env);
      if !(c.NConstant? && c.c.BoolConstant?) then Err(NotABool)
      else if c.c.b then NEval(builtins, fuel, then_, env) else NEval(builtins, fuel, else_, env)
    case Let(set_, body) =>
      if SourcesListed(set_) then NEval(builtins, fuel, body, SetFrame(set_, env)) else Err(MalformedSet)
    case AttrSet(recursive, set_) =>
      if SourcesListed(set_) then Ok(NAttrs(SetEntries(set_, recursive, env))) else Err(MalformedSet)
    case With(namespace, body) =>
      NEval(builtins, fuel, body, NWith(NDelayed(namespace, env), env))
  }

  function NCall(builtins: set<Sym>, fuel: nat, f: NValue, arg: NThunk): (r: Result<NValue, EvalError>)
    ensures r != Err(OutOfRange)
    decreases fuel, 1
  {
    if !f.NClosure? then Err(NotAFunction)
    else match f.param
      case IdentParam(name) =>
        if fuel == 0 then Err(OutOfFuel)
        else NEval(builtins, fuel - 1, f.body, NFrame(map[name := NGiven(arg)], f.env))
      case Pattern(formals, ellipsis, at) =>
        var v :- NForce(builtins, fuel, arg);
        if !v.NAttrs? then Err(NotASet)
        else
          var binds :- BindPattern(f.param, arg, v.entries);
          if fuel == 0 then Err(OutOfFuel) else NEval(builtins, fuel - 1, f.body, NFrame(binds, f.env))
  }
}
