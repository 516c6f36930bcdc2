/** Every depth and slot in compiled code names a slot of the frames around it. */
module NixScoping {
  import opened Wrappers
  import opened NixLang
  import opened NixCompile

  /** Variables, and the `with` frames that names are looked up in, exist in frames of `widths` slots,
    * the innermost first.
    */
  predicate WellScoped(c: Code, widths: seq<nat>)
    decreases c
  {
    match c
    case Var(depth, slot) => depth < |widths| && slot < widths[depth]
    case WithVar(_, withs) => forall k :: 0 <= k < |withs| ==> withs[k] < |widths| && 0 < widths[withs[k]]
    case CLambda(param, body) => ParamScoped(param, widths) && WellScoped(body, [Width(param)] + widths)
    case CApply(func, arg) => WellScoped(func, widths) && WellScoped(arg, widths)
    case CSelect(expr, _) => WellScoped(expr, widths)
    case CIf(cond, then_, else_) => WellScoped(cond, widths) && WellScoped(then_, widths) && WellScoped(else_, widths)
    case CLet(slots, body) => AllScoped(slots, [|slots|] + widths) && WellScoped(body, [|slots|] + widths)
    case CAttrs(frame, statics) =>
      && (frame.InFrame? ==> AllScoped(frame.slots, [|frame.slots|] + widths))
      && StaticsScoped(statics, if frame.InFrame? then [|frame.slots|] + widths else widths)
    case CWith(namespace, body) => WellScoped(namespace, widths) && WellScoped(body, [1] + widths)
    case _ => true
  }

  predicate AllScoped(cs: seq<Code>, widths: seq<nat>)
    decreases cs
  {
    forall i :: 0 <= i < |cs| ==> WellScoped(cs[i], widths)
  }

  predicate StaticsScoped(statics: seq<CStatic>, widths: seq<nat>)
    decreases statics
  {
    forall i :: 0 <= i < |statics| ==> StaticScoped(statics[i], widths)
  }

  predicate StaticScoped(s: CStatic, widths: seq<nat>)
    decreases s
  {
    match s.value
    case ExprValue(c) => WellScoped(c, widths)
    case SlotValue(i) => widths != [] && i < widths[0]
  }

  /** How many slots the frame of a call has. */
  function Width(param: CParam): nat {
    match param
    case CIdentParam(_) => 1
    case CPattern(formals, _, at) => |formals| + if at.Some? then 1 else 0
  }

  predicate ParamScoped(param: CParam, widths: seq<nat>)
    decreases param
  {
    param.CPattern? ==> FormalsScoped(param.formals, [Width(param)] + widths)
  }

  predicate FormalsScoped(formals: seq<CFormal>, widths: seq<nat>)
    decreases formals
  {
    forall i :: 0 <= i < |formals| ==> FormalScoped(formals[i], widths)
  }

  predicate FormalScoped(f: CFormal, widths: seq<nat>)
    decreases f
  {
    f.default.Some? ==> WellScoped(f.default.value, widths)
  }

  // ----- compiled code ------------------------------------------------------------------------

  /** Frames of these widths have the slots that `scopes` speak of. */
  predicate Fits(scopes: seq<Scope>, widths: seq<nat>) {
    && |scopes| == |widths|
    && forall k :: 0 <= k < |scopes| ==> ScopeFits(scopes[|scopes| - 1 - k], widths[k])
  }

  predicate ScopeFits(scope: Scope, width: nat) {
    match scope
    case Names(slots) => forall x :: x in slots ==> slots[x] < width
    case WithScope => 0 < width
  }

  lemma FitsInner(scopes: seq<Scope>, widths: seq<nat>, scope: Scope, width: nat)
    requires Fits(scopes, widths) && ScopeFits(scope, width)
    ensures Fits(scopes + [scope], [width] + widths)
  {
  }

  lemma FitsOuter(scopes: seq<Scope>, widths: seq<nat>)
    requires Fits(scopes, widths) && scopes != []
    ensures ScopeFits(scopes[|scopes| - 1], widths[0]) && Fits(scopes[..|scopes| - 1], widths[1..])
  {
    var outer := scopes[..|scopes| - 1];
    forall k | 0 <= k < |outer|
      ensures ScopeFits(outer[|outer| - 1 - k], widths[1..][k])
    {
      assert ScopeFits(scopes[|scopes| - 1 - (k + 1)], widths[k + 1]);
    }
  }

  lemma {:induction false} SearchScoped(bs: set<Sym>, scopes: seq<Scope>, depth: nat, withs: seq<nat>, name: Sym,
      widths: seq<nat>)
    requires depth <= |widths| && Fits(scopes, widths[depth..])
    requires forall k :: 0 <= k < |withs| ==> withs[k] < |widths| && 0 < widths[withs[k]]
    requires Search(bs, scopes, depth, withs, name).Ok?
    ensures WellScoped(Search(bs, scopes, depth, withs, name).value, widths)
    decreases |scopes|
  {
    if scopes != [] {
      var outer := scopes[..|scopes| - 1];
      assert widths[depth + 1..] == widths[depth..][1..];
      FitsOuter(scopes, widths[depth..]);
      match scopes[|scopes| - 1] {
        case Names(slots) =>
          if name !in slots {
            SearchScoped(bs, outer, depth + 1, withs, name, widths);
          }
        case WithScope =>
          SearchScoped(bs, outer, depth + 1, withs + [depth], name, widths);
      }
    }
  }

  lemma ResolveScoped(bs: set<Sym>, scopes: seq<Scope>, skip: nat, name: Sym, widths: seq<nat>)
    requires Fits(scopes, widths) && skip <= |scopes| && Resolve(bs, scopes, skip, name).Ok?
    ensures WellScoped(Resolve(bs, scopes, skip, name).value, widths)
  {
    SearchScoped(bs, scopes[..|scopes| - skip], skip, [], name, widths);
  }

  /** The scope a set's values are compiled in fits the frame the set makes. */
  lemma SetFits(scopes: seq<Scope>, widths: seq<nat>, set_: PreSet, recursive: bool, width: nat)
    requires Fits(scopes, widths) && HasFrame(set_, recursive)
    requires recursive ==> |set_.statics| <= width
    ensures Fits(InnerScopes(scopes, set_, recursive), [width] + widths)
  {
    FitsInner(scopes, widths, Names(ScopeOf(if recursive then StaticNames(set_.statics) else [])), width);
  }

  lemma ParamFits(bs: set<Sym>, scopes: seq<Scope>, param: Param, compiled: CParam, widths: seq<nat>)
    requires Fits(scopes, widths) && CompileParam(bs, scopes, param) == Ok(compiled)
    ensures Width(compiled) == |param.Names()|
    ensures Fits(scopes + [Names(ScopeOf(param.Names()))], [Width(compiled)] + widths)
  {
    FitsInner(scopes, widths, Names(ScopeOf(param.Names())), |param.Names()|);
  }

  /** Code compiled in scopes that fit the frames around it stays within them. */
  lemma {:induction false} CompiledIsScoped(bs: set<Sym>, scopes: seq<Scope>, e: Expr, widths: seq<nat>)
    requires Fits(scopes, widths) && Compile(bs, scopes, e).Ok?
    ensures WellScoped(Compile(bs, scopes, e).value, widths)
    decreases e, 1
  {
    match e {
      case IntLit(_) =>
      case Ident(name) => ResolveScoped(bs, scopes, 0, name, widths);
      case Lambda(param, body) => LambdaIsScoped(bs, scopes, e, widths);
      case Apply(func, arg) =>
        CompiledIsScoped(bs, scopes, func, widths);
        CompiledIsScoped(bs, scopes, arg, widths);
      case Select(expr, _) => CompiledIsScoped(bs, scopes, expr, widths);
      case If(cond, then_, else_) =>
        CompiledIsScoped(bs, scopes, cond, widths);
        CompiledIsScoped(bs, scopes, then_, widths);
        CompiledIsScoped(bs, scopes, else_, widths);
      case Let(set_, body) =>
        LetIsScoped(bs, scopes, e, widths);
      case AttrSet(recursive, set_) =>
        if recursive {
          RecursiveIsScoped(bs, scopes, e, widths);
        } else {
          PlainIsScoped(bs, scopes, e, widths);
        }
      case With(namespace, body) =>
        CompiledIsScoped(bs, scopes, namespace, widths);
        FitsInner(scopes, widths, WithScope, 1);
        CompiledIsScoped(bs, scopes + [WithScope], body, [1] + widths);
    }
  }

  lemma {:induction false} LambdaIsScoped(bs: set<Sym>, scopes: seq<Scope>, e: Expr, widths: seq<nat>)
    requires e.Lambda? && Fits(scopes, widths) && Compile(bs, scopes, e).Ok?
    ensures WellScoped(Compile(bs, scopes, e).value, widths)
    decreases e, 0
  {
    var compiled := CompileParam(bs, scopes, e.param).value;
    var inner := scopes + [Names(ScopeOf(e.param.Names()))];
    ParamFits(bs, scopes, e.param, compiled, widths);
    CompiledIsScoped(bs, inner, e.body, [Width(compiled)] + widths);
    if e.param.Pattern? {
      FormalsAreScoped(bs, inner, e.param.formals, [Width(compiled)] + widths);
    }
  }

  lemma {:induction false} FormalsAreScoped(bs: set<Sym>, scopes: seq<Scope>, formals: seq<Formal>, widths: seq<nat>)
    requires Fits(scopes, widths) && CompileFormals(bs, scopes, formals).Ok?
    ensures FormalsScoped(CompileFormals(bs, scopes, formals).value, widths)
    decreases formals, 0
  {
    if formals != [] {
      var f := formals[0];
      if f.default.Some? {
        CompiledIsScoped(bs, scopes, f.default.value, widths);
      }
      FormalsAreScoped(bs, scopes, formals[1..], widths);
    }
  }

  lemma {:induction false} SourcesAreScoped(bs: set<Sym>, scopes: seq<Scope>, es: seq<Expr>, widths: seq<nat>)
    requires Fits(scopes, widths) && CompileAll(bs, scopes, es).Ok?
    ensures AllScoped(CompileAll(bs, scopes, es).value, widths)
    decreases es, 0
  {
    if es != [] {
      CompiledIsScoped(bs, scopes, es[0], widths);
      SourcesAreScoped(bs, scopes, es[1..], widths);
    }
  }

  /** The values of a set, when its sources are in the slots from `base` on. */
  lemma {:induction false} ValuesAreScoped(bs: set<Sym>, scopes: seq<Scope>, hasFrame: bool, base: nat,
      statics: seq<Static>, sources: nat, widths: seq<nat>)
    requires Fits(scopes, widths) && CompileStatics(bs, scopes, hasFrame, base, statics).Ok?
    requires hasFrame ==> scopes != [] && base + sources <= widths[0]
    requires forall i :: 0 <= i < |statics| && statics[i].binding.InheritFrom? ==>
      hasFrame && statics[i].binding.from < sources
    ensures AllScoped(CompileStatics(bs, scopes, hasFrame, base, statics).value, widths)
    decreases statics, 0
  {
    if statics != [] {
      match statics[0].binding {
        case Value(e) => CompiledIsScoped(bs, scopes, e, widths);
        case Inherit(name) => ResolveScoped(bs, scopes, if hasFrame then 1 else 0, name, widths);
        case InheritFrom(from, name) =>
      }
      ValuesAreScoped(bs, scopes, hasFrame, base, statics[1..], sources, widths);
    }
  }

  lemma BothScoped(a: seq<Code>, b: seq<Code>, widths: seq<nat>)
    requires AllScoped(a, widths) && AllScoped(b, widths)
    ensures AllScoped(a + b, widths)
  {
  }

  /** The slots of a recursive set or `let`. */
  lemma {:induction false} SlotsAreScoped(bs: set<Sym>, scopes: seq<Scope>, set_: PreSet, values: seq<Code>,
      sources: seq<Code>, widths: seq<nat>)
    requires Fits(scopes, widths) && SourcesListed(set_)
    requires var inner := InnerScopes(scopes, set_, true);
      && CompileStatics(bs, inner, true, |set_.statics|, set_.statics) == Ok(values)
      && CompileAll(bs, inner, set_.froms) == Ok(sources)
    ensures Fits(InnerScopes(scopes, set_, true), [|values + sources|] + widths)
    ensures AllScoped(values + sources, [|values + sources|] + widths)
    decreases set_, 0
  {
    var inner, n, m := InnerScopes(scopes, set_, true), |set_.statics|, |set_.froms|;
    SetFits(scopes, widths, set_, true, n + m);
    ValuesAreScoped(bs, inner, true, n, set_.statics, m, [n + m] + widths);
    SourcesAreScoped(bs, inner, set_.froms, [n + m] + widths);
    BothScoped(values, sources, [n + m] + widths);
  }

  lemma {:induction false} LetIsScoped(bs: set<Sym>, scopes: seq<Scope>, e: Expr, widths: seq<nat>)
    requires e.Let? && Fits(scopes, widths) && Compile(bs, scopes, e).Ok?
    ensures WellScoped(Compile(bs, scopes, e).value, widths)
    decreases e, 0
  {
    var set_, inner := e.set_, InnerScopes(scopes, e.set_, true);
    var values := CompileStatics(bs, inner, true, |set_.statics|, set_.statics).value;
    var sources := CompileAll(bs, inner, set_.froms).value;
    SlotsAreScoped(bs, scopes, set_, values, sources, widths);
    CompiledIsScoped(bs, inner, e.body, [|values + sources|] + widths);
  }

  lemma {:induction false} RecursiveIsScoped(bs: set<Sym>, scopes: seq<Scope>, e: Expr, widths: seq<nat>)
    requires e.AttrSet? && e.recursive && Fits(scopes, widths) && Compile(bs, scopes, e).Ok?
    ensures WellScoped(Compile(bs, scopes, e).value, widths)
    decreases e, 0
  {
    var set_, inner := e.set_, InnerScopes(scopes, e.set_, true);
    var values := CompileStatics(bs, inner, true, |set_.statics|, set_.statics).value;
    var sources := CompileAll(bs, inner, set_.froms).value;
    SlotsAreScoped(bs, scopes, set_, values, sources, widths);
  }

  lemma {:induction false} PlainIsScoped(bs: set<Sym>, scopes: seq<Scope>, e: Expr, widths: seq<nat>)
    requires e.AttrSet? && !e.recursive && Fits(scopes, widths) && Compile(bs, scopes, e).Ok?
    ensures WellScoped(Compile(bs, scopes, e).value, widths)
    decreases e, 0
  {
    var set_, inner := e.set_, InnerScopes(scopes, e.set_, false);
    var m := |set_.froms|;
    var all := if m > 0 then [m] + widths else widths;
    if m > 0 {
      SetFits(scopes, widths, set_, false, m);
    }
    ValuesAreScoped(bs, inner, m > 0, 0, set_.statics, m, all);
    SourcesAreScoped(bs, inner, set_.froms, all);
  }
}
