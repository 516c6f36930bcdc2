/** Making values at once is safe: what the evaluator computes with such values is what evaluating
  * by name gives, for all code whose depths and slots exist.
  */
module NixLaziness {
  import opened Wrappers
  import opened NixLang
  import opened NamedEval
  import opened NixEval
  import opened NixLazy
  import opened NixScoping

  ghost function Widths(e: Env): seq<nat> {
    match e
    case Root => []
    case Frame(slots, parent) => [|slots|] + Widths(parent)
  }

  // ----- what a value made at once stands for -----------------------------------------------------

  ghost predicate EnvDenotes(l: LEnv, e: Env)
    decreases e
  {
    match e
    case Root => l.LRoot?
    case Frame(slots, parent) =>
      && l.LFrame? && EnvDenotes(l.parent, parent) && |l.slots| == |slots|
      && forall i | 0 <= i < |slots| :: SlotDenotes(l.slots[i], slots[i], l.parent, Widths(e))
  }

  /** What a slot holds in a frame with `parent`, in a chain of `widths` slots. */
  ghost predicate SlotDenotes(held: LSlot, slot: Slot, parent: LEnv, widths: seq<nat>)
    decreases slot
  {
    match slot
    case Given(t) => held.Held? && Denotes(held.value, t)
    case Own(c) => WellScoped(c, widths) && LazySlot(c, LFrame([], parent)) == Some(held)
  }

  ghost predicate Denotes(v: LValue, t: Thunk)
    decreases t
  {
    exists l :: DenotesIn(v, t, l)
  }

  /** A thunk, or what making its code a value at once gives. */
  ghost predicate DenotesIn(v: LValue, t: Thunk, l: LEnv)
    decreases t, 0
  {
    && EnvDenotes(l, t.env) && WellScoped(t.code, Widths(t.env))
    && (v == LThunk(t.code, l) || Lazy(t.code, l) == Some(v))
  }

  ghost predicate ValueDenotes(v: LValue, w: Value) {
    match w
    case VInt(n) => v == LInt(n)
    case VConstant(c) => v == LConstant(c)
    case VAttrs(entries) => v.LAttrs? && EntriesDenote(v.entries, entries)
    case VClosure(param, body, env) =>
      && v.LClosure? && v.param == param && v.body == body && EnvDenotes(v.env, env)
      && WellScoped(CLambda(param, body), Widths(env))
  }

  ghost predicate EntriesDenote(entries: map<Sym, LValue>, thunks: map<Sym, Thunk>) {
    entries.Keys == thunks.Keys && forall x | x in entries :: Denotes(entries[x], thunks[x])
  }

  /** The same error, or values that stand for each other. */
  ghost predicate Same(s: Result<LValue, EvalError>, r: Result<Value, EvalError>) {
    if r.Err? then s == Err(r.error) else s.Ok? && ValueDenotes(s.value, r.value)
  }

  // ----- variables ----------------------------------------------------------------------------------

  lemma {:induction false} UpDenotes(l: LEnv, e: Env, depth: nat)
    requires EnvDenotes(l, e) && depth < |Widths(e)|
    ensures LUp(l, depth).Some? && Up(e, depth).Some? && EnvDenotes(LUp(l, depth).value, Up(e, depth).value)
    ensures Up(e, depth).value.Frame? && |Up(e, depth).value.slots| == Widths(e)[depth]
    decreases depth
  {
    if depth > 0 {
      UpDenotes(l.parent, e.parent, depth - 1);
    }
  }

  /** What a slot holds is what the slot means. */
  lemma ReadDenotes(l: LEnv, e: Env, slot: nat)
    requires EnvDenotes(l, e) && e.Frame? && slot < |e.slots|
    ensures Read(l, slot).Some? && Fetch(e, slot).Some?
    ensures Denotes(Read(l, slot).value, Fetch(e, slot).value)
  {
    var v, t := Read(l, slot).value, Fetch(e, slot).value;
    assert SlotDenotes(l.slots[slot], e.slots[slot], l.parent, Widths(e));
    if e.slots[slot].Own? {
      SlotReadsOutside(t.code, [], l.slots, l.parent);
      assert DenotesIn(v, t, l);
    }
  }

  lemma VariableDenotes(l: LEnv, e: Env, depth: nat, slot: nat)
    requires EnvDenotes(l, e) && WellScoped(Var(depth, slot), Widths(e))
    ensures LVariable(l, depth, slot).Some? && Variable(e, depth, slot).Some?
    ensures Denotes(LVariable(l, depth, slot).value, Variable(e, depth, slot).value)
  {
    UpDenotes(l, e, depth);
    ReadDenotes(LUp(l, depth).value, Up(e, depth).value, slot);
  }

  lemma LazyDenotes(c: Code, l: LEnv, e: Env)
    requires EnvDenotes(l, e) && WellScoped(c, Widths(e))
    ensures Lazy(c, l).Some? && Denotes(Lazy(c, l).value, Thunk(c, e))
  {
    if c.Var? {
      VariableDenotes(l, e, c.depth, c.slot);
    }
    assert DenotesIn(Lazy(c, l).value, Thunk(c, e), l);
  }

  // ----- frames ---------------------------------------------------------------------------------------

  /** Code filling a slot of a new frame. */
  lemma SlotFilled(c: Code, l: LEnv, e: Env, width: nat)
    requires EnvDenotes(l, e) && WellScoped(c, [width] + Widths(e))
    ensures LazySlot(c, LFrame([], l)).Some?
    ensures SlotDenotes(LazySlot(c, LFrame([], l)).value, Own(c), l, [width] + Widths(e))
  {
    if c.Var? && c.depth > 0 {
      assert ([width] + Widths(e))[c.depth] == Widths(e)[c.depth - 1];
      VariableDenotes(l, e, c.depth - 1, c.slot);
    }
  }

  lemma FrameDenotes(inits: seq<Code>, l: LEnv, e: Env)
    requires EnvDenotes(l, e) && AllScoped(inits, [|inits|] + Widths(e))
    ensures FrameOf(inits, l).Some? && EnvDenotes(FrameOf(inits, l).value, Frame(OwnSlots(inits), e))
  {
    forall i | 0 <= i < |inits|
      ensures LazySlot(inits[i], LFrame([], l)).Some?
      ensures SlotDenotes(LazySlot(inits[i], LFrame([], l)).value, Own(inits[i]), l, [|inits|] + Widths(e))
    {
      SlotFilled(inits[i], l, e, |inits|);
    }
  }

  lemma GivenFrameDenotes(v: LValue, t: Thunk, l: LEnv, e: Env)
    requires EnvDenotes(l, e) && Denotes(v, t)
    ensures EnvDenotes(LFrame([Held(v)], l), Frame([Given(t)], e))
    ensures Widths(Frame([Given(t)], e)) == [1] + Widths(e)
  {
    assert SlotDenotes(Held(v), Given(t), l, [1] + Widths(e));
  }

  lemma {:induction false} EntriesMade(statics: seq<CStatic>, n: nat, l: LEnv, e: Env)
    requires EnvDenotes(l, e) && StaticsScoped(statics, Widths(e)) && n <= |statics|
    ensures LEntries(statics, n, l).Some? && Entries(statics, n, e).Some?
    ensures EntriesDenote(LEntries(statics, n, l).value, Entries(statics, n, e).value)
  {
    if n > 0 {
      EntriesMade(statics, n - 1, l, e);
      assert StaticScoped(statics[n - 1], Widths(e));
      match statics[n - 1].value {
        case ExprValue(c) => LazyDenotes(c, l, e);
        case SlotValue(i) => ReadDenotes(l, e, i);
      }
    }
  }

  // ----- patterns ---------------------------------------------------------------------------------------

  ghost predicate SlotsDenote(held: seq<LSlot>, slots: seq<Slot>, parent: LEnv, widths: seq<nat>) {
    |held| == |slots| && forall i :: 0 <= i < |slots| ==> SlotDenotes(held[i], slots[i], parent, widths)
  }

  ghost predicate FilledSame(s: Result<seq<LSlot>, EvalError>, r: Result<seq<Slot>, EvalError>, parent: LEnv,
      widths: seq<nat>)
  {
    if r.Err? then s == Err(r.error) else s.Ok? && SlotsDenote(s.value, r.value, parent, widths)
  }

  lemma {:induction false} FormalsFilledSame(formals: seq<CFormal>, entries: map<Sym, LValue>, thunks: map<Sym, Thunk>,
      l: LEnv, e: Env, width: nat)
    requires EnvDenotes(l, e) && FormalsScoped(formals, [width] + Widths(e)) && EntriesDenote(entries, thunks)
    ensures FilledSame(LFillFormals(formals, entries, l), FillFormals(formals, thunks), l, [width] + Widths(e))
    decreases |formals|
  {
    if formals != [] {
      var n := |formals| - 1;
      var f := formals[n];
      FormalsFilledSame(formals[..n], entries, thunks, l, e, width);
      var held := LFillFormals(formals[..n], entries, l);
      if held.Ok? && f.name !in entries && f.default.Some? {
        assert FormalScoped(f, [width] + Widths(e));
        SlotFilled(f.default.value, l, e, width);
        SlotReadsOutside(f.default.value, [], held.value, l);
      }
    }
  }

  lemma PatternFilledSame(param: CParam, v: LValue, t: Thunk, entries: map<Sym, LValue>, thunks: map<Sym, Thunk>,
      l: LEnv, e: Env)
    requires param.CPattern? && ParamScoped(param, Widths(e))
    requires EnvDenotes(l, e) && EntriesDenote(entries, thunks) && Denotes(v, t)
    ensures var s, r := LFillPattern(param, v, entries, l), FillPattern(param, t, thunks);
      && FilledSame(s, r, l, [Width(param)] + Widths(e))
      && (r.Ok? ==> |r.value| == Width(param) && EnvDenotes(LFrame(s.value, l), Frame(r.value, e)))
  {
    FormalsFilledSame(param.formals, entries, thunks, l, e, Width(param));
    assert SlotDenotes(Held(v), Given(t), l, [Width(param)] + Widths(e));
  }

  // ----- what is evaluated by name is what the evaluator computes ----------------------------------------

  /** The same outcome, unless the fuel was too little by name. */
  ghost predicate Agrees(s: Result<LValue, EvalError>, r: Result<Value, EvalError>) {
    r == Err(OutOfFuel) || Same(s, r)
  }

  lemma {:induction false} Refines(f: nat, g: nat, c: Code, l: LEnv, e: Env)
    requires f <= g && EnvDenotes(l, e) && WellScoped(c, Widths(e))
    ensures Agrees(LEval(g, c, l), Eval(f, c, e))
    decreases f, 2, c, 1
  {
    match c {
      case Var(depth, slot) => RefinesVariable(f, g, depth, slot, l, e);
      case WithVar(name, withs) => RefinesWiths(f, g, name, withs, l, e);
      case CApply(func, arg) => RefinesApply(f, g, c, l, e);
      case CSelect(expr, attr) =>
        Refines(f, g, expr, l, e);
        if Eval(f, expr, e).Ok? {
          RefinesSelect(f, g, LEval(g, expr, l).value, Eval(f, expr, e).value, attr);
        }
      case CIf(cond, then_, else_) =>
        RefinesIf(f, g, c, l, e);
      case CLet(slots, body) =>
        FrameDenotes(slots, l, e);
        Refines(f, g, body, FrameOf(slots, l).value, Frame(OwnSlots(slots), e));
      case CAttrs(frame, statics) => SetMade(f, g, c, l, e);
      case CWith(namespace, body) =>
        NamespaceDenotes(namespace, l, e);
        Refines(f, g, body, LFrame([Held(Lazy(namespace, l).value)], l), Frame([Given(Thunk(namespace, e))], e));
      case _ =>
    }
  }

  lemma NamespaceDenotes(namespace: Code, l: LEnv, e: Env)
    requires EnvDenotes(l, e) && WellScoped(namespace, Widths(e))
    ensures Lazy(namespace, l).Some?
    ensures var frame := Frame([Given(Thunk(namespace, e))], e);
      EnvDenotes(LFrame([Held(Lazy(namespace, l).value)], l), frame) && Widths(frame) == [1] + Widths(e)
  {
    LazyDenotes(namespace, l, e);
    GivenFrameDenotes(Lazy(namespace, l).value, Thunk(namespace, e), l, e);
  }

  lemma {:induction false} RefinesIf(f: nat, g: nat, c: Code, l: LEnv, e: Env)
    requires c.CIf? && f <= g && EnvDenotes(l, e) && WellScoped(c, Widths(e))
    ensures Agrees(LEval(g, c, l), Eval(f, c, e))
    decreases f, 2, c, 0
  {
    Refines(f, g, c.cond, l, e);
    Refines(f, g, c.then_, l, e);
    Refines(f, g, c.else_, l, e);
  }

  lemma {:induction false} RefinesApply(f: nat, g: nat, c: Code, l: LEnv, e: Env)
    requires c.CApply? && f <= g && EnvDenotes(l, e) && WellScoped(c, Widths(e))
    ensures Agrees(LEval(g, c, l), Eval(f, c, e))
    decreases f, 2, c, 0
  {
    Refines(f, g, c.func, l, e);
    LazyDenotes(c.arg, l, e);
    if Eval(f, c.func, e).Ok? {
      RefinesCall(f, g, LEval(g, c.func, l).value, Eval(f, c.func, e).value, Lazy(c.arg, l).value, Thunk(c.arg, e));
    }
  }

  lemma SetMade(f: nat, g: nat, c: Code, l: LEnv, e: Env)
    requires c.CAttrs? && EnvDenotes(l, e) && WellScoped(c, Widths(e))
    ensures Same(LEval(g, c, l), Eval(f, c, e))
  {
    if c.frame.InFrame? {
      FrameDenotes(c.frame.slots, l, e);
      EntriesMade(c.statics, |c.statics|, FrameOf(c.frame.slots, l).value, Frame(OwnSlots(c.frame.slots), e));
    } else {
      EntriesMade(c.statics, |c.statics|, l, e);
    }
  }

  /** A constant or lambda needs no evaluating. */
  lemma MadeAtOnce(f: nat, v: LValue, t: Thunk, l: LEnv)
    requires DenotesIn(v, t, l) && v != LThunk(t.code, l) && !t.code.Var?
    ensures !v.LThunk? && Same(Ok(v), Eval(f, t.code, t.env))
  {
    match t.code {
      case CLambda(param, body) =>
      case _ =>
    }
  }

  lemma {:induction false} RefinesForce(f: nat, g: nat, v: LValue, t: Thunk)
    requires f <= g && Denotes(v, t)
    ensures Agrees(LForce(g, v), Force(f, t))
    decreases f, 0
  {
    if f > 0 {
      var l :| DenotesIn(v, t, l);
      if v == LThunk(t.code, l) {
        Refines(f - 1, g - 1, t.code, l, t.env);
      } else if t.code.Var? {
        VariableDenotes(l, t.env, t.code.depth, t.code.slot);
        RefinesForce(f - 1, g, v, Variable(t.env, t.code.depth, t.code.slot).value);
        assert Force(f, t) == ForceVariable(f - 1, t.env, t.code.depth, t.code.slot);
      } else {
        MadeAtOnce(f - 1, v, t, l);
      }
    }
  }

  lemma {:induction false} RefinesVariable(f: nat, g: nat, depth: nat, slot: nat, l: LEnv, e: Env)
    requires f <= g && EnvDenotes(l, e) && WellScoped(Var(depth, slot), Widths(e))
    ensures Agrees(LForceVariable(g, l, depth, slot), ForceVariable(f, e, depth, slot))
    decreases f, 1, 0
  {
    VariableDenotes(l, e, depth, slot);
    RefinesForce(f, g, LVariable(l, depth, slot).value, Variable(e, depth, slot).value);
  }

  lemma {:induction false} RefinesWiths(f: nat, g: nat, name: Sym, withs: seq<nat>, l: LEnv, e: Env)
    requires f <= g && EnvDenotes(l, e) && WellScoped(WithVar(name, withs), Widths(e))
    ensures Agrees(LLookupWiths(g, name, withs, l), LookupWiths(f, name, withs, e))
    decreases f, 1, |withs| + 1
  {
    if withs != [] {
      RefinesVariable(f, g, withs[0], 0, l, e);
      RefinesWiths(f, g, name, withs[1..], l, e);
      var r := ForceVariable(f, e, withs[0], 0);
      if r.Ok? && r.value.VAttrs? && name in r.value.entries {
        RefinesForce(f, g, LForceVariable(g, l, withs[0], 0).value.entries[name], r.value.entries[name]);
      }
    }
  }

  lemma {:induction false} RefinesSelect(f: nat, g: nat, v: LValue, w: Value, name: Sym)
    requires f <= g && ValueDenotes(v, w)
    ensures Agrees(LSelectAttr(g, v, name), SelectAttr(f, w, name))
    decreases f, 1, 0
  {
    if w.VAttrs? && name in w.entries {
      RefinesForce(f, g, v.entries[name], w.entries[name]);
    }
  }

  lemma {:induction false} RefinesCall(f: nat, g: nat, func: LValue, closure: Value, v: LValue, t: Thunk)
    requires f <= g && ValueDenotes(func, closure) && Denotes(v, t)
    ensures Agrees(LCall(g, func, v), Call(f, closure, t))
    decreases f, 1, 0
  {
    if closure.VClosure? && f > 0 {
      match closure.param {
        case CIdentParam(_) =>
          GivenFrameDenotes(v, t, func.env, closure.env);
          Refines(f - 1, g - 1, closure.body, LFrame([Held(v)], func.env), Frame([Given(t)], closure.env));
        case CPattern(_, _, _) =>
          RefinesForce(f, g, v, t);
          if Force(f, t).Ok? && Force(f, t).value.VAttrs? {
            RefinesPattern(f, g, func, closure, v, t);
          }
      }
    }
  }

  lemma {:induction false} RefinesPattern(f: nat, g: nat, func: LValue, closure: Value, v: LValue, t: Thunk)
    requires 0 < f <= g && ValueDenotes(func, closure) && Denotes(v, t)
    requires closure.VClosure? && closure.param.CPattern?
    requires Force(f, t).Ok? && Force(f, t).value.VAttrs? && Same(LForce(g, v), Force(f, t))
    ensures Agrees(LCall(g, func, v), Call(f, closure, t))
    decreases f, 0, 0
  {
    var entries, thunks := LForce(g, v).value.entries, Force(f, t).value.entries;
    PatternFilledSame(closure.param, v, t, entries, thunks, func.env, closure.env);
    var held, slots := LFillPattern(closure.param, v, entries, func.env), FillPattern(closure.param, t, thunks);
    if slots.Ok? {
      Refines(f - 1, g - 1, closure.body, LFrame(held.value, func.env), Frame(slots.value, closure.env));
    }
  }

  // ----- enough fuel is enough --------------------------------------------------------------------------

  lemma {:induction false} EnoughFuel(f: nat, g: nat, c: Code, e: Env)
    requires f <= g && Eval(f, c, e) != Err(OutOfFuel)
    ensures Eval(g, c, e) == Eval(f, c, e)
    decreases f, 2, c
  {
    match c {
      case Var(depth, slot) =>
        if Variable(e, depth, slot).Some? {
          EnoughToForce(f, g, Variable(e, depth, slot).value);
        }
      case WithVar(name, withs) => EnoughToLookup(f, g, name, withs, e);
      case CApply(func, arg) =>
        EnoughFuel(f, g, func, e);
        if Eval(f, func, e).Ok? {
          EnoughToCall(f, g, Eval(f, func, e).value, Thunk(arg, e));
        }
      case CSelect(expr, attr) =>
        EnoughFuel(f, g, expr, e);
        if Eval(f, expr, e).Ok? {
          EnoughToSelect(f, g, Eval(f, expr, e).value, attr);
        }
      case CIf(cond, then_, else_) =>
        EnoughFuel(f, g, cond, e);
        var v := Eval(f, cond, e);
        if v.Ok? && v.value.VConstant? && v.value.c.BoolConstant? {
          EnoughFuel(f, g, if v.value.c.b then then_ else else_, e);
        }
      case CLet(slots, body) => EnoughFuel(f, g, body, Frame(OwnSlots(slots), e));
      case CWith(namespace, body) => EnoughFuel(f, g, body, Frame([Given(Thunk(namespace, e))], e));
      case _ =>
    }
  }

  lemma {:induction false} EnoughToForce(f: nat, g: nat, t: Thunk)
    requires f <= g && Force(f, t) != Err(OutOfFuel)
    ensures Force(g, t) == Force(f, t)
    decreases f, 0
  {
    EnoughFuel(f - 1, g - 1, t.code, t.env);
  }

  lemma {:induction false} EnoughToLookup(f: nat, g: nat, name: Sym, withs: seq<nat>, e: Env)
    requires f <= g && LookupWiths(f, name, withs, e) != Err(OutOfFuel)
    ensures LookupWiths(g, name, withs, e) == LookupWiths(f, name, withs, e)
    decreases f, 1, |withs|
  {
    if withs != [] && Variable(e, withs[0], 0).Some? {
      EnoughToForce(f, g, Variable(e, withs[0], 0).value);
      var r := ForceVariable(f, e, withs[0], 0);
      if r.Ok? && r.value.VAttrs? {
        if name in r.value.entries {
          EnoughToForce(f, g, r.value.entries[name]);
        } else {
          EnoughToLookup(f, g, name, withs[1..], e);
        }
      }
    }
  }

  lemma {:induction false} EnoughToSelect(f: nat, g: nat, v: Value, name: Sym)
    requires f <= g && SelectAttr(f, v, name) != Err(OutOfFuel)
    ensures SelectAttr(g, v, name) == SelectAttr(f, v, name)
    decreases f, 1, 0
  {
    if v.VAttrs? && name in v.entries {
      EnoughToForce(f, g, v.entries[name]);
    }
  }

  lemma {:induction false} EnoughToCall(f: nat, g: nat, func: Value, t: Thunk)
    requires f <= g && Call(f, func, t) != Err(OutOfFuel)
    ensures Call(g, func, t) == Call(f, func, t)
    decreases f, 1, 0
  {
    if func.VClosure? {
      match func.param {
        case CIdentParam(_) => EnoughFuel(f - 1, g - 1, func.body, Frame([Given(t)], func.env));
        case CPattern(_, _, _) =>
          EnoughToForce(f, g, t);
          var v := Force(f, t);
          if v.Ok? && v.value.VAttrs? && FillPattern(func.param, t, v.value.entries).Ok? {
            EnoughFuel(f - 1, g - 1, func.body, Frame(FillPattern(func.param, t, v.value.entries).value, func.env));
          }
      }
    }
  }

  // ----- what the evaluator computes is what is evaluated by name ------------------------------------------

  function Max(a: nat, b: nat): nat {
    if a < b then b else a
  }

  lemma {:induction false} Answers(f: nat, c: Code, l: LEnv, e: Env) returns (g: nat)
    requires EnvDenotes(l, e) && WellScoped(c, Widths(e)) && LEval(f, c, l) != Err(OutOfFuel)
    ensures Same(LEval(f, c, l), Eval(g, c, e))
    decreases f, 3, c, 1
  {
    g := 0;
    match c {
      case Var(depth, slot) =>
        VariableDenotes(l, e, depth, slot);
        g := AnswersVariable(f, LVariable(l, depth, slot).value, depth, slot, l, e);
      case WithVar(name, withs) => g := AnswersWiths(f, name, withs, l, e);
      case CApply(func, arg) => g := AnswersApply(f, c, l, e);
      case CSelect(expr, attr) =>
        g := Answers(f, expr, l, e);
        if Eval(g, expr, e).Ok? {
          var h := AnswersSelect(f, LEval(f, expr, l).value, Eval(g, expr, e).value, attr);
          EnoughFuel(g, Max(g, h), expr, e);
          EnoughToSelect(h, Max(g, h), Eval(g, expr, e).value, attr);
          g := Max(g, h);
        }
      case CIf(cond, then_, else_) => g := AnswersIf(f, c, l, e);
      case CLet(slots, body) =>
        FrameDenotes(slots, l, e);
        g := Answers(f, body, FrameOf(slots, l).value, Frame(OwnSlots(slots), e));
      case CAttrs(frame, statics) => SetMade(0, f, c, l, e);
      case CWith(namespace, body) =>
        NamespaceDenotes(namespace, l, e);
        g := Answers(f, body, LFrame([Held(Lazy(namespace, l).value)], l), Frame([Given(Thunk(namespace, e))], e));
      case _ =>
    }
  }

  lemma {:induction false} AnswersApply(f: nat, c: Code, l: LEnv, e: Env) returns (g: nat)
    requires c.CApply? && EnvDenotes(l, e) && WellScoped(c, Widths(e)) && LEval(f, c, l) != Err(OutOfFuel)
    ensures Same(LEval(f, c, l), Eval(g, c, e))
    decreases f, 3, c, 0
  {
    g := Answers(f, c.func, l, e);
    LazyDenotes(c.arg, l, e);
    if Eval(g, c.func, e).Ok? {
      var closure, t := Eval(g, c.func, e).value, Thunk(c.arg, e);
      var h := AnswersCall(f, LEval(f, c.func, l).value, closure, Lazy(c.arg, l).value, t);
      EnoughFuel(g, Max(g, h), c.func, e);
      EnoughToCall(h, Max(g, h), closure, t);
      g := Max(g, h);
    }
  }

  lemma {:induction false} AnswersIf(f: nat, c: Code, l: LEnv, e: Env) returns (g: nat)
    requires c.CIf? && EnvDenotes(l, e) && WellScoped(c, Widths(e)) && LEval(f, c, l) != Err(OutOfFuel)
    ensures Same(LEval(f, c, l), Eval(g, c, e))
    decreases f, 3, c, 0
  {
    g := Answers(f, c.cond, l, e);
    var v := Eval(g, c.cond, e);
    if v.Ok? && v.value.VConstant? && v.value.c.BoolConstant? {
      var branch := if v.value.c.b then c.then_ else c.else_;
      var h := Answers(f, branch, l, e);
      EnoughFuel(g, Max(g, h), c.cond, e);
      EnoughFuel(h, Max(g, h), branch, e);
      g := Max(g, h);
    }
  }

  lemma {:induction false} AnswersForce(f: nat, v: LValue, t: Thunk) returns (g: nat)
    requires Denotes(v, t) && LForce(f, v) != Err(OutOfFuel)
    ensures Same(LForce(f, v), Force(g, t))
    decreases f, 1, t
  {
    var l :| DenotesIn(v, t, l);
    var h := 0;
    if v == LThunk(t.code, l) {
      h := Answers(f - 1, t.code, l, t.env);
    } else if t.code.Var? {
      h := AnswersVariable(f, v, t.code.depth, t.code.slot, l, t.env);
      assert Force(h + 1, t) == ForceVariable(h, t.env, t.code.depth, t.code.slot);
    } else {
      MadeAtOnce(h, v, t, l);
    }
    g := h + 1;
  }

  /** However many variables a value was copied through, by name they are forced one by one. */
  lemma {:induction false} AnswersVariable(f: nat, v: LValue, depth: nat, slot: nat, l: LEnv, e: Env) returns (g: nat)
    requires EnvDenotes(l, e) && WellScoped(Var(depth, slot), Widths(e))
    requires LVariable(l, depth, slot) == Some(v) && LForce(f, v) != Err(OutOfFuel)
    ensures Same(LForce(f, v), ForceVariable(g, e, depth, slot))
    decreases f, 1, e
  {
    if depth > 0 {
      g := AnswersVariable(f, v, depth - 1, slot, l.parent, e.parent);
    } else {
      match e.slots[slot] {
        case Given(t) => g := AnswersForce(f, v, t);
        case Own(c) => g := AnswersOwn(f, v, c, slot, l, e);
      }
    }
  }

  lemma {:induction false} AnswersOwn(f: nat, v: LValue, c: Code, slot: nat, l: LEnv, e: Env) returns (g: nat)
    requires EnvDenotes(l, e) && e.Frame? && slot < |e.slots| && e.slots[slot] == Own(c)
    requires Read(l, slot) == Some(v) && LForce(f, v) != Err(OutOfFuel)
    ensures Same(LForce(f, v), Force(g, Thunk(c, e)))
    decreases f, 1, e, 0
  {
    assert SlotDenotes(l.slots[slot], e.slots[slot], l.parent, Widths(e));
    SlotReadsOutside(c, [], l.slots, l.parent);
    var h := 0;
    if v == LThunk(c, l) {
      h := Answers(f - 1, c, l, e);
    } else if c.Var? {
      h := AnswersVariable(f, v, c.depth - 1, c.slot, l.parent, e.parent);
      assert Force(h + 1, Thunk(c, e)) == ForceVariable(h, e, c.depth, c.slot);
    } else {
      MadeAtOnce(h, v, Thunk(c, e), l);
    }
    g := h + 1;
  }

  lemma {:induction false} AnswersWiths(f: nat, name: Sym, withs: seq<nat>, l: LEnv, e: Env) returns (g: nat)
    requires EnvDenotes(l, e) && WellScoped(WithVar(name, withs), Widths(e)) &&
      LLookupWiths(f, name, withs, l) != Err(OutOfFuel)
    ensures Same(LLookupWiths(f, name, withs, l), LookupWiths(g, name, withs, e))
    decreases f, 2, |withs|, 1
  {
    g := 0;
    if withs != [] {
      VariableDenotes(l, e, withs[0], 0);
      g := AnswersVariable(f, LVariable(l, withs[0], 0).value, withs[0], 0, l, e);
      var r := ForceVariable(g, e, withs[0], 0);
      if r.Ok? && r.value.VAttrs? {
        g := AnswersNamespace(f, g, name, withs, l, e);
      }
    }
  }

  /** The innermost namespace was forced: the name is in it, or looked up in the others. */
  lemma {:induction false} AnswersNamespace(f: nat, g: nat, name: Sym, withs: seq<nat>, l: LEnv, e: Env)
      returns (h: nat)
    requires EnvDenotes(l, e) && WellScoped(WithVar(name, withs), Widths(e)) &&
      LLookupWiths(f, name, withs, l) != Err(OutOfFuel)
    requires withs != [] && Same(LForceVariable(f, l, withs[0], 0), ForceVariable(g, e, withs[0], 0))
    requires ForceVariable(g, e, withs[0], 0).Ok? && ForceVariable(g, e, withs[0], 0).value.VAttrs?
    ensures Same(LLookupWiths(f, name, withs, l), LookupWiths(h, name, withs, e))
    decreases f, 2, |withs|, 0
  {
    var entries, thunks := LForceVariable(f, l, withs[0], 0).value.entries,
      ForceVariable(g, e, withs[0], 0).value.entries;
    var n;
    if name in thunks {
      n := AnswersForce(f, entries[name], thunks[name]);
      EnoughToForce(n, Max(g, n), thunks[name]);
    } else {
      n := AnswersWiths(f, name, withs[1..], l, e);
      EnoughToLookup(n, Max(g, n), name, withs[1..], e);
    }
    h := Max(g, n);
    EnoughFuel(g, h, Var(withs[0], 0), e);
    assert ForceVariable(h, e, withs[0], 0) == ForceVariable(g, e, withs[0], 0);
  }

  lemma {:induction false} AnswersSelect(f: nat, v: LValue, w: Value, name: Sym) returns (g: nat)
    requires ValueDenotes(v, w) && LSelectAttr(f, v, name) != Err(OutOfFuel)
    ensures Same(LSelectAttr(f, v, name), SelectAttr(g, w, name))
    decreases f, 2, 0
  {
    g := 0;
    if w.VAttrs? && name in w.entries {
      g := AnswersForce(f, v.entries[name], w.entries[name]);
    }
  }

  lemma {:induction false} AnswersCall(f: nat, func: LValue, closure: Value, v: LValue, t: Thunk) returns (g: nat)
    requires ValueDenotes(func, closure) && Denotes(v, t) && LCall(f, func, v) != Err(OutOfFuel)
    ensures Same(LCall(f, func, v), Call(g, closure, t))
    decreases f, 2, 0
  {
    g := 0;
    if closure.VClosure? {
      match closure.param {
        case CIdentParam(_) =>
          GivenFrameDenotes(v, t, func.env, closure.env);
          g := Answers(f - 1, closure.body, LFrame([Held(v)], func.env), Frame([Given(t)], closure.env));
          g := g + 1;
        case CPattern(_, _, _) =>
          g := AnswersForce(f, v, t);
          if Force(g, t).Ok? && Force(g, t).value.VAttrs? {
            g := AnswersPattern(f, g, func, closure, v, t);
          }
      }
    }
  }

  lemma {:induction false} AnswersPattern(f: nat, g: nat, func: LValue, closure: Value, v: LValue, t: Thunk)
      returns (h: nat)
    requires ValueDenotes(func, closure) && Denotes(v, t) && LCall(f, func, v) != Err(OutOfFuel)
    requires closure.VClosure? && closure.param.CPattern?
    requires Force(g, t).Ok? && Force(g, t).value.VAttrs? && Same(LForce(f, v), Force(g, t))
    ensures Same(LCall(f, func, v), Call(h, closure, t))
    decreases f, 0, 0
  {
    var entries, thunks := LForce(f, v).value.entries, Force(g, t).value.entries;
    PatternFilledSame(closure.param, v, t, entries, thunks, func.env, closure.env);
    var held, slots := LFillPattern(closure.param, v, entries, func.env), FillPattern(closure.param, t, thunks);
    h := g;
    if slots.Ok? {
      var n := Answers(f - 1, closure.body, LFrame(held.value, func.env), Frame(slots.value, closure.env));
      h := Max(g, n + 1);
      EnoughToForce(g, h, t);
      EnoughFuel(n, h - 1, closure.body, Frame(slots.value, closure.env));
    }
  }
}
