/** Compiling names away: a lexically bound name becomes a (depth, slot) pair. */
module NixCompile {
  import opened Wrappers
  import opened NixLang

  datatype Scope = Names(slots: map<Sym, nat>) | WithScope

  /** `Malformed` is a set no source text merges to: one inheriting from a source it lacks. */
  datatype CompileError = Undefined(name: Sym) | DuplicateFormal(name: Sym) | Malformed

  type Compiled<T> = Result<T, CompileError>

  /** Each name's slot; the last wins. */
  function ScopeOf(names: seq<Sym>): (slots: map<Sym, nat>)
    ensures forall x :: x in slots <==> x in names
    ensures forall x :: x in slots ==> slots[x] < |names| && names[slots[x]] == x
  {
    if names == [] then map[]
    else
      var n := |names| - 1;
      assert names == names[..n] + [names[n]];
      ScopeOf(names[..n])[names[n] := n]
  }

  /** What a name no scope binds is compiled to, `withs` being the enclosing `with` frames. */
  function ResolveFree(builtins: set<Sym>, name: Sym, withs: seq<nat>): Compiled<Code> {
    match GlobalConstant(builtins, name)
    case Some(BoolConstant(b)) => Ok(CBool(b))
    case Some(NullConstant) => Ok(CNull)
    case Some(BuiltinConstant(b)) => Ok(Global(b))
    case None => if withs == [] then Err(Undefined(name)) else Ok(WithVar(name, withs))
  }

  /** Search `scopes` from the innermost, which is `depth` frames up. */
  function Search(builtins: set<Sym>, scopes: seq<Scope>, depth: nat, withs: seq<nat>, name: Sym): Compiled<Code>
    decreases |scopes|
  {
    if scopes == [] then ResolveFree(builtins, name, withs)
    else
      var outer := scopes[..|scopes| - 1];
      match scopes[|scopes| - 1]
      case Names(slots) =>
        if name in slots then Ok(Var(depth, slots[name])) else Search(builtins, outer, depth + 1, withs, name)
      case WithScope => Search(builtins, outer, depth + 1, withs + [depth], name)
  }

  /** Resolve `name` past the `skip` innermost scopes. */
  function Resolve(builtins: set<Sym>, scopes: seq<Scope>, skip: nat, name: Sym): Compiled<Code> {
    var n := |scopes|;
    Search(builtins, scopes[..n - (if skip < n then skip else n)], skip, [], name)
  }

  /** The name at `j` is listed before, and no name before it is. */
  predicate IsFirstDuplicate(names: seq<Sym>, j: nat) {
    j < |names| && names[j] in names[..j] && forall i, k :: 0 <= i < k < j ==> names[i] != names[k]
  }

  /** The first name listed again after itself. */
  function Duplicate(names: seq<Sym>): (d: Option<Sym>)
    ensures d.None? <==> forall i, j :: 0 <= i < j < |names| ==> names[i] != names[j]
    ensures d.Some? ==> exists j: nat :: IsFirstDuplicate(names, j) && names[j] == d.value
  {
    if names == [] then None
    else
      var n := |names| - 1;
      assert names == names[..n] + [names[n]];
      assert forall j :: 0 <= j < n ==> names[..n][..j] == names[..j];
      match Duplicate(names[..n])
      case Some(d) => Some(d)
      case None => if names[n] in names[..n] then Some(names[n]) else None
  }

  function Compile(builtins: set<Sym>, scopes: seq<Scope>, e: Expr): Compiled<Code>
    decreases e, 0
  {
    match e
    case IntLit(n) => Ok(CInt(n))
    case Ident(name) => Resolve(builtins, scopes, 0, name)
    case Lambda(param, body) =>
      var p :- CompileParam(builtins, scopes, param);
      var b :- Compile(builtins, scopes + [Names(ScopeOf(param.Names()))], body);
      Ok(CLambda(p, b))
    case Apply(func, arg) =>
      var f :- Compile(builtins, scopes, func);
      var a :- Compile(builtins, scopes, arg);
      Ok(CApply(f, a))
    case Select(expr, attr) =>
      var c :- Compile(builtins, scopes, expr);
      Ok(CSelect(c, attr))
    case If(cond, then_, else_) =>
      var c :- Compile(builtins, scopes, cond);
      var t :- Compile(builtins, scopes, then_);
      var f :- Compile(builtins, scopes, else_);
      Ok(CIf(c, t, f))
    case Let(set_, body) =>
      if !SourcesListed(set_) then Err(Malformed) else
      var inner := InnerScopes(scopes, set_, true);
      var values :- CompileStatics(builtins, inner, true, |set_.statics|, set_.statics);
      var sources :- CompileAll(builtins, inner, set_.froms);
      var b :- Compile(builtins, inner, body);
      Ok(CLet(values + sources, b))
    case AttrSet(recursive, set_) =>
      if !SourcesListed(set_) then Err(Malformed) else
      var inner := InnerScopes(scopes, set_, recursive);
      var base := if recursive then |set_.statics| else 0;
      var values :- CompileStatics(builtins, inner, HasFrame(set_, recursive), base, set_.statics);
      var sources :- CompileAll(builtins, inner, set_.froms);
      Ok(CompiledSet(set_, recursive, values, sources))
    case With(namespace, body) =>
      var ns :- Compile(builtins, scopes, namespace);
      var b :- Compile(builtins, scopes + [WithScope], body);
      Ok(CWith(ns, b))
  }

  /** A set that is not recursive has a frame only for its `inherit (from)` sources. */
  predicate HasFrame(set_: PreSet, recursive: bool) {
    recursive || set_.froms != []
  }

  function InnerScopes(scopes: seq<Scope>, set_: PreSet, recursive: bool): seq<Scope> {
    if !HasFrame(set_, recursive) then scopes
    else scopes + [Names(ScopeOf(if recursive then StaticNames(set_.statics) else []))]
  }

  function CompiledSet(set_: PreSet, recursive: bool, values: seq<Code>, sources: seq<Code>): Code
    requires |values| == |set_.statics|
  {
    CAttrs(
      if recursive then InFrame(values + sources) else if set_.froms != [] then InFrame(sources) else InPlace,
      seq(|values|, i requires 0 <= i < |values| =>
        CStatic(set_.statics[i].name, if recursive then SlotValue(i) else ExprValue(values[i]))))
  }

  function CompileParam(builtins: set<Sym>, scopes: seq<Scope>, param: Param): Compiled<CParam>
    decreases param, 0
  {
    match param
    case IdentParam(name) => Ok(CIdentParam(name))
    case Pattern(formals, ellipsis, at) =>
      match Duplicate(param.Names())
      case Some(d) => Err(DuplicateFormal(d))
      case None =>
        // Defaults see every formal and the `@` binding.
        var fs :- CompileFormals(builtins, scopes + [Names(ScopeOf(param.Names()))], formals);
        Ok(CPattern(fs, ellipsis, at))
  }

  function CompileFormals(builtins: set<Sym>, scopes: seq<Scope>, formals: seq<Formal>): (r: Compiled<seq<CFormal>>)
    ensures r.Ok? ==> |r.value| == |formals|
    decreases formals, 0
  {
    if formals == [] then Ok([])
    else
      var first :- CompileFormal(builtins, scopes, formals[0]);
      var rest :- CompileFormals(builtins, scopes, formals[1..]);
      Ok([first] + rest)
  }

  function CompileFormal(builtins: set<Sym>, scopes: seq<Scope>, formal: Formal): Compiled<CFormal>
    decreases formal, 0
  {
    match formal.default
    case None => Ok(CFormal(formal.name, None))
    case Some(d) =>
      var c :- Compile(builtins, scopes, d);
      Ok(CFormal(formal.name, Some(c)))
  }

  function CompileStatics(builtins: set<Sym>, scopes: seq<Scope>, hasFrame: bool, base: nat, statics: seq<Static>):
      (r: Compiled<seq<Code>>)
    ensures r.Ok? ==> |r.value| == |statics|
    decreases statics, 0
  {
    if statics == [] then Ok([])
    else
      var first :- CompileBinding(builtins, scopes, hasFrame, base, statics[0].binding);
      var rest :- CompileStatics(builtins, scopes, hasFrame, base, statics[1..]);
      Ok([first] + rest)
  }

  /** `inherit name;` refers to the scope around the bindings; `base` is the first source's slot. */
  function CompileBinding(builtins: set<Sym>, scopes: seq<Scope>, hasFrame: bool, base: nat, b: Binding): Compiled<Code>
    decreases b, 0
  {
    match b
    case Value(e) => Compile(builtins, scopes, e)
    case Inherit(name) => Resolve(builtins, scopes, if hasFrame then 1 else 0, name)
    case InheritFrom(from, name) => Ok(CSelect(Var(0, base + from), name))
  }

  function CompileAll(builtins: set<Sym>, scopes: seq<Scope>, es: seq<Expr>): (r: Compiled<seq<Code>>)
    ensures r.Ok? ==> |r.value| == |es|
    decreases es, 0
  {
    if es == [] then Ok([])
    else
      var first :- Compile(builtins, scopes, es[0]);
      var rest :- CompileAll(builtins, scopes, es[1..]);
      Ok([first] + rest)
  }
}
