/** A reduced Nix language with every construct that binds names, and its compiled form. */
module NixLang {
  import opened Wrappers

  type Sym = string

  // ----- source -------------------------------------------------------------------------------

  datatype Expr =
    | IntLit(n: int)
    | Ident(name: Sym)
    | Lambda(param: Param, body: Expr)
    | Apply(func: Expr, arg: Expr)
    | Select(expr: Expr, attr: Sym)
    | If(cond: Expr, then_: Expr, else_: Expr)
    | Let(set_: PreSet, body: Expr)
    | AttrSet(recursive: bool, set_: PreSet)
    | With(namespace: Expr, body: Expr)

  datatype Param =
    | IdentParam(name: Sym)
    | Pattern(formals: seq<Formal>, ellipsis: bool, at: Option<Sym>)
  {
    /** The names the parameter binds, in slot order. */
    function Names(): seq<Sym> {
      match this
      case IdentParam(name) => [name]
      case Pattern(formals, _, at) => FormalNames(formals) + (match at case None => [] case Some(n) => [n])
    }
  }

  datatype Formal = Formal(name: Sym, default: Option<Expr>)

  function FormalNames(formals: seq<Formal>): (names: seq<Sym>)
    ensures |names| == |formals| && forall i :: 0 <= i < |formals| ==> names[i] == formals[i].name
  {
    seq(|formals|, i requires 0 <= i < |formals| => formals[i].name)
  }

  datatype Binding =
    | Value(e: Expr)
      /** `inherit name;` */
    | Inherit(name: Sym)
      /** `inherit (e) name;`, `e` being the `from`-th such source of the set. */
    | InheritFrom(from: nat, name: Sym)

  /** The parts of a set or `let`, with nested attribute paths merged. */
  datatype PreSet = PreSet(statics: seq<Static>, froms: seq<Expr>)

  datatype Static = Static(name: Sym, binding: Binding)

  /** A source is added to the set before anything is inherited from it. */
  predicate SourcesListed(s: PreSet) {
    forall i :: 0 <= i < |s.statics| && s.statics[i].binding.InheritFrom? ==> s.statics[i].binding.from < |s.froms|
  }

  function StaticNames(statics: seq<Static>): (names: seq<Sym>)
    ensures |names| == |statics| && forall i :: 0 <= i < |statics| ==> names[i] == statics[i].name
  {
    seq(|statics|, i requires 0 <= i < |statics| => statics[i].name)
  }

  // ----- compiled form ---------------------------------------------------------------------------

  datatype Code =
    | CInt(n: int)
    | CBool(b: bool)
    | CNull
    | Global(name: Sym)
      /** The slot of the frame `depth` levels up the environment chain. */
    | Var(depth: nat, slot: nat)
      /** Looked up at run time in the enclosing `with` frames, innermost first. */
    | WithVar(name: Sym, withs: seq<nat>)
    | CLambda(param: CParam, body: Code)
    | CApply(func: Code, arg: Code)
    | CSelect(expr: Code, attr: Sym)
    | CIf(cond: Code, then_: Code, else_: Code)
    | CLet(slots: seq<Code>, body: Code)
    | CAttrs(frame: SetSlots, statics: seq<CStatic>)
    | CWith(namespace: Code, body: Code)

  /** The frame a set introduces, if its values are not evaluated in the enclosing one. */
  datatype SetSlots = InPlace | InFrame(slots: seq<Code>)

  datatype CStatic = CStatic(name: Sym, value: AttrValue)

  datatype AttrValue = ExprValue(code: Code) | SlotValue(slot: nat)

  datatype CParam =
    | CIdentParam(name: Sym)
    | CPattern(formals: seq<CFormal>, ellipsis: bool, at: Option<Sym>)

  datatype CFormal = CFormal(name: Sym, default: Option<Code>)

  function CFormalNames(formals: seq<CFormal>): (names: seq<Sym>)
    ensures |names| == |formals| && forall i :: 0 <= i < |formals| ==> names[i] == formals[i].name
  {
    seq(|formals|, i requires 0 <= i < |formals| => formals[i].name)
  }

  /** Something is given that `names` do not take. */
  predicate GivesExtra(names: seq<Sym>, given: set<Sym>) {
    exists x | x in given :: x !in names
  }

  /** What a name means wherever nothing lexical binds it. */
  datatype Constant = BoolConstant(b: bool) | NullConstant | BuiltinConstant(name: Sym)

  function GlobalConstant(builtins: set<Sym>, name: Sym): Option<Constant> {
    if name == "true" then Some(BoolConstant(true))
    else if name == "false" then Some(BoolConstant(false))
    else if name == "null" then Some(NullConstant)
    else if name in builtins then Some(BuiltinConstant(name))
    else None
  }
}
