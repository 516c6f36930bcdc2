/** Compiled code means what the names meant: evaluating it over any environment chain that
  * matches a named environment gives the matching value or the same error, step for step.
  */
module NixSimulation {
  import opened Wrappers
  import opened NixLang
  import opened NixCompile
  import opened NamedEval
  import opened NixEval

  // ----- when environments match ---------------------------------------------------------------

  /** `env` holds, frame by frame, what `named` binds, laid out as `scopes` say. A frame whose
    * scope has no names (the sources of a plain set) matches no frame of `named`.
    */
  ghost predicate EnvMatches(bs: set<Sym>, named: NEnv, scopes: seq<Scope>, env: Env)
    decreases env
  {
    if scopes == [] then named.NRoot? && env.Root?
    else
      && env.Frame?
      && var outer := scopes[..|scopes| - 1];
        match scopes[|scopes| - 1]
        case WithScope =>
          && named.NWith? && EnvMatches(bs, named.parent, outer, env.parent)
          && |env.slots| > 0 && env.slots[0].Given?
          && ThunkMatches(bs, named.namespace, env.slots[0].thunk)
        case Names(names) =>
          || (names == map[] && EnvMatches(bs, named, outer, env.parent))
          || (&& named.NFrame? && EnvMatches(bs, named.parent, outer, env.parent)
              && names.Keys == named.binds.Keys
              && forall x | x in names :: names[x] < |env.slots|
                   && SlotMatches(bs, named.binds[x], scopes, env, env.slots[names[x]]))
  }

  ghost predicate SlotMatches(bs: set<Sym>, bound: NSlot, scopes: seq<Scope>, env: Env, slot: Slot)
    requires env.Frame? && slot in env.slots
    decreases env, 0
  {
    match bound
    case NGiven(t) => slot.Given? && ThunkMatches(bs, t, slot.thunk)
    case NOwn(e) => slot.Own? && Compile(bs, scopes, e) == Ok(slot.code)
    case NOuter(x) => slot.Own? && Resolve(bs, scopes, 1, x) == Ok(slot.code)
    case NFrom(source, x) => slot.Own? && SelectsSource(bs, source, x, scopes, env, slot.code)
  }

  /** `code` selects `x` from the slot of the innermost frame that `source` was compiled into. */
  ghost predicate SelectsSource(bs: set<Sym>, source: Expr, x: Sym, scopes: seq<Scope>, env: Env, code: Code) {
    && code.CSelect? && code.attr == x && code.expr.Var? && code.expr.depth == 0
    && env.Frame? && code.expr.slot < |env.slots| && env.slots[code.expr.slot].Own?
    && Compile(bs, scopes, source) == Ok(env.slots[code.expr.slot].code)
  }

  ghost predicate ThunkMatches(bs: set<Sym>, t: NThunk, u: Thunk)
    decreases u
  {
    exists scopes :: ThunkMatchesIn(bs, t, u, scopes)
  }

  ghost predicate ThunkMatchesIn(bs: set<Sym>, t: NThunk, u: Thunk, scopes: seq<Scope>)
    decreases u, 0
  {
    match t
    case NDelayed(e, named) =>
      || (Compile(bs, scopes, e) == Ok(u.code) && EnvMatches(bs, named, scopes, u.env))
      || (&& e.Ident? && |scopes| > 0 && u.env.Frame? && Resolve(bs, scopes, 1, e.name) == Ok(u.code)
          && EnvMatches(bs, named, scopes[..|scopes| - 1], u.env.parent))
    case NAttribute(base, x) =>
      base.NDelayed? && SelectsSource(bs, base.e, x, scopes, u.env, u.code) && EnvMatches(bs, base.env, scopes, u.env)
  }

  ghost predicate ValueMatches(bs: set<Sym>, v: NValue, w: Value) {
    match v
    case NInt(n) => w == VInt(n)
    case NConstant(c) => w == VConstant(c)
    case NAttrs(entries) => w.VAttrs? && EntriesMatch(bs, entries, w.entries)
    case NClosure(param, body, named) => w.VClosure? && exists scopes :: ClosureMatches(bs, v, w, scopes)
  }

  ghost predicate EntriesMatch(bs: set<Sym>, entries: map<Sym, NThunk>, compiled: map<Sym, Thunk>) {
    entries.Keys == compiled.Keys && forall x | x in entries :: ThunkMatches(bs, entries[x], compiled[x])
  }

  ghost predicate ClosureMatches(bs: set<Sym>, v: NValue, w: Value, scopes: seq<Scope>)
    requires v.NClosure? && w.VClosure?
  {
    && EnvMatches(bs, v.env, scopes, w.env)
    && CompileParam(bs, scopes, v.param) == Ok(w.param)
    && Compile(bs, scopes + [Names(ScopeOf(v.param.Names()))], v.body) == Ok(w.body)
  }

  /** The same error, or matching values. */
  ghost predicate ResultMatches(bs: set<Sym>, r: Result<NValue, EvalError>, s: Result<Value, EvalError>) {
    match r
    case Err(e) => s == Err(e)
    case Ok(v) => s.Ok? && ValueMatches(bs, v, s.value)
  }

  // ----- names ------------------------------------------------------------------------------------

  lemma {:induction false} UpOne(env: Env, depth: nat)
    requires Up(env, depth).Some? && Up(env, depth).value.Frame?
    ensures Up(env, depth + 1) == Some(Up(env, depth).value.parent)
    decreases depth
  {
    if depth > 0 {
      UpOne(env.parent, depth - 1);
    }
  }

  /** A bound name's slot holds what the name is bound to. */
  lemma SlotHoldsBinding(bs: set<Sym>, named: NEnv, scopes: seq<Scope>, env: Env, names: map<Sym, nat>, x: Sym)
    requires EnvMatches(bs, named, scopes, env) && |scopes| > 0 && scopes[|scopes| - 1] == Names(names) && x in names
    ensures named.NFrame? && x in named.binds
    ensures Fetch(env, names[x]).Some? && ThunkMatches(bs, SlotThunk(named, x), Fetch(env, names[x]).value)
  {
    var slot := env.slots[names[x]];
    var t, u := SlotThunk(named, x), Fetch(env, names[x]).value;
    assert SlotMatches(bs, named.binds[x], scopes, env, slot);
    if !named.binds[x].NGiven? {
      assert ThunkMatchesIn(bs, t, u, scopes);
    }
  }

  /** The depths of the `with` scopes, innermost first. */
  function WithDepths(scopes: seq<Scope>, depth: nat): seq<nat>
    decreases |scopes|
  {
    if scopes == [] then []
    else
      var outer := WithDepths(scopes[..|scopes| - 1], depth + 1);
      if scopes[|scopes| - 1].WithScope? then [depth] + outer else outer
  }

  /** Resolving finds the slot of the innermost lexical binding, if there is one. */
  lemma {:induction false} SearchFindsBinding(bs: set<Sym>, x: Sym, scopes: seq<Scope>, depth: nat, withs: seq<nat>,
      named: NEnv, env: Env, from: Env)
    requires EnvMatches(bs, named, scopes, env) && Up(from, depth) == Some(env)
    ensures var r := Search(bs, scopes, depth, withs, x);
      match Lexical(named, x)
      case None => r == ResolveFree(bs, x, withs + WithDepths(scopes, depth))
      case Some(t) =>
        && r.Ok? && r.value.Var?
        && Variable(from, r.value.depth, r.value.slot).Some?
        && ThunkMatches(bs, t, Variable(from, r.value.depth, r.value.slot).value)
    decreases |scopes|
  {
    if scopes == [] {
      assert withs + WithDepths(scopes, depth) == withs;
    } else {
      var outer := scopes[..|scopes| - 1];
      UpOne(from, depth);
      match scopes[|scopes| - 1] {
        case WithScope =>
          SearchFindsBinding(bs, x, outer, depth + 1, withs + [depth], named.parent, env.parent, from);
          assert withs + [depth] + WithDepths(outer, depth + 1) == withs + WithDepths(scopes, depth);
        case Names(names) =>
          if x in names {
            SlotHoldsBinding(bs, named, scopes, env, names, x);
          } else if names == map[] && EnvMatches(bs, named, outer, env.parent) {
            SearchFindsBinding(bs, x, outer, depth + 1, withs, named, env.parent, from);
          } else {
            SearchFindsBinding(bs, x, outer, depth + 1, withs, named.parent, env.parent, from);
          }
      }
    }
  }

  // ----- frames --------------------------------------------------------------------------------------

  lemma {:induction false} StaticsCompiled(bs: set<Sym>, scopes: seq<Scope>, hasFrame: bool, base: nat,
      statics: seq<Static>, i: nat)
    requires CompileStatics(bs, scopes, hasFrame, base, statics).Ok? && i < |statics|
    ensures CompileBinding(bs, scopes, hasFrame, base, statics[i].binding)
      == Ok(CompileStatics(bs, scopes, hasFrame, base, statics).value[i])
    decreases i
  {
    if i > 0 {
      StaticsCompiled(bs, scopes, hasFrame, base, statics[1..], i - 1);
    }
  }

  lemma {:induction false} AllCompiled(bs: set<Sym>, scopes: seq<Scope>, es: seq<Expr>, i: nat)
    requires CompileAll(bs, scopes, es).Ok? && i < |es|
    ensures Compile(bs, scopes, es[i]) == Ok(CompileAll(bs, scopes, es).value[i])
    decreases i
  {
    if i > 0 {
      AllCompiled(bs, scopes, es[1..], i - 1);
    }
  }

  lemma {:induction false} FormalsCompiled(bs: set<Sym>, scopes: seq<Scope>, formals: seq<Formal>, i: nat)
    requires CompileFormals(bs, scopes, formals).Ok? && i < |formals|
    ensures CompileFormal(bs, scopes, formals[i]) == Ok(CompileFormals(bs, scopes, formals).value[i])
    decreases i
  {
    if i > 0 {
      FormalsCompiled(bs, scopes, formals[1..], i - 1);
    }
  }

  lemma ScopeOfSnoc(names: seq<Sym>, n: nat)
    requires 0 < n <= |names|
    ensures ScopeOf(names[..n]) == ScopeOf(names[..n - 1])[names[n - 1] := n - 1]
  {
    assert names[..n][..n - 1] == names[..n - 1];
  }

  function BoundBy(set_: PreSet, b: Binding): NSlot
    requires b.InheritFrom? ==> b.from < |set_.froms|
  {
    match b
    case Value(e) => NOwn(e)
    case Inherit(x) => NOuter(x)
    case InheritFrom(from, x) => NFrom(set_.froms[from], x)
  }

  /** A name of a recursive set is bound by the static its scope points to. */
  lemma {:induction false} BindsLast(set_: PreSet, n: nat)
    requires SourcesListed(set_) && n <= |set_.statics|
    ensures var slots := ScopeOf(StaticNames(set_.statics)[..n]);
      && BindStatics(set_, n).Keys == slots.Keys
      && forall x | x in slots ::
        slots[x] < n && BindStatics(set_, n)[x] == BoundBy(set_, set_.statics[slots[x]].binding)
  {
    if n > 0 {
      BindsLast(set_, n - 1);
      ScopeOfSnoc(StaticNames(set_.statics), n);
    }
  }

  /** The slots of a recursive set or `let`: its values and then its sources. */
  ghost predicate SetCompiles(bs: set<Sym>, scopes: seq<Scope>, set_: PreSet, recursive: bool, values: seq<Code>,
      sources: seq<Code>)
  {
    var inner := InnerScopes(scopes, set_, recursive);
    && SourcesListed(set_)
    && CompileStatics(bs, inner, HasFrame(set_, recursive), if recursive then |set_.statics| else 0, set_.statics) ==
      Ok(values)
    && CompileAll(bs, inner, set_.froms) == Ok(sources)
  }

  lemma RecursiveSlot(bs: set<Sym>, scopes: seq<Scope>, set_: PreSet, values: seq<Code>, sources: seq<Code>, env: Env,
      i: nat)
    requires SetCompiles(bs, scopes, set_, true, values, sources) && i < |set_.statics|
    requires env.Frame? && env.slots == OwnSlots(values + sources)
    ensures env.slots[i] in env.slots
    ensures SlotMatches(bs, BoundBy(set_, set_.statics[i].binding), InnerScopes(scopes, set_, true), env, env.slots[i])
  {
    var inner := InnerScopes(scopes, set_, true);
    StaticsCompiled(bs, inner, true, |set_.statics|, set_.statics, i);
    var b := set_.statics[i].binding;
    if b.InheritFrom? {
      AllCompiled(bs, inner, set_.froms, b.from);
      assert env.slots[|values| + b.from] == Own(sources[b.from]);
    }
  }

  lemma RecursiveFrameMatches(bs: set<Sym>, scopes: seq<Scope>, set_: PreSet, values: seq<Code>, sources: seq<Code>,
      named: NEnv, env: Env)
    requires SetCompiles(bs, scopes, set_, true, values, sources) && EnvMatches(bs, named, scopes, env)
    ensures EnvMatches(bs, SetFrame(set_, named), InnerScopes(scopes, set_, true),
      Frame(OwnSlots(values + sources), env))
  {
    var inner, frame := InnerScopes(scopes, set_, true), Frame(OwnSlots(values + sources), env);
    var names := StaticNames(set_.statics);
    var slots := ScopeOf(names);
    assert names[..|names|] == names && inner[..|inner| - 1] == scopes;
    BindsLast(set_, |set_.statics|);
    forall x | x in slots
      ensures slots[x] < |frame.slots| &&
        SlotMatches(bs, SetFrame(set_, named).binds[x], inner, frame, frame.slots[slots[x]])
    {
      RecursiveSlot(bs, scopes, set_, values, sources, frame, slots[x]);
    }
  }

  lemma PlainFrameMatches(bs: set<Sym>, scopes: seq<Scope>, set_: PreSet, sources: seq<Code>, named: NEnv, env: Env)
    requires EnvMatches(bs, named, scopes, env)
    ensures EnvMatches(bs, named, InnerScopes(scopes, set_, false),
      if set_.froms != [] then Frame(OwnSlots(sources), env) else env)
  {
    if set_.froms != [] {
      var inner := InnerScopes(scopes, set_, false);
      assert inner[..|inner| - 1] == scopes;
      assert StaticNames([]) == [] && ScopeOf([]) == map[];
    }
  }

  /** The compiled entries of a recursive set are the slots its scope gives. */
  lemma {:induction false} RecursiveEntries(statics: seq<CStatic>, names: seq<Sym>, n: nat, frame: Env)
    requires |names| == |statics| && n <= |statics| && frame.Frame? && |statics| <= |frame.slots|
    requires forall i :: 0 <= i < |statics| ==> statics[i] == CStatic(names[i], SlotValue(i))
    ensures Entries(statics, n, frame).Some?
    ensures var slots := ScopeOf(names[..n]);
      && Entries(statics, n, frame).value.Keys == slots.Keys
      && forall x | x in slots :: Entries(statics, n, frame).value[x] == Fetch(frame, slots[x]).value
  {
    if n > 0 {
      RecursiveEntries(statics, names, n - 1, frame);
      ScopeOfSnoc(names, n);
    }
  }

  lemma RecursiveSetMatches(bs: set<Sym>, scopes: seq<Scope>, set_: PreSet, values: seq<Code>, sources: seq<Code>,
      named: NEnv, env: Env)
    requires SetCompiles(bs, scopes, set_, true, values, sources) && EnvMatches(bs, named, scopes, env)
    ensures var frame := Frame(OwnSlots(values + sources), env);
      var statics := CompiledSet(set_, true, values, sources).statics;
      && Entries(statics, |statics|, frame).Some?
      && EntriesMatch(bs, SetEntries(set_, true, named), Entries(statics, |statics|, frame).value)
  {
    var frame := Frame(OwnSlots(values + sources), env);
    var statics, names := CompiledSet(set_, true, values, sources).statics, StaticNames(set_.statics);
    assert names[..|names|] == names;
    RecursiveSlotsMatch(bs, scopes, set_, values, sources, named, env);
    RecursiveEntries(statics, names, |statics|, frame);
    BindsLast(set_, |set_.statics|);
  }

  lemma RecursiveSlotsMatch(bs: set<Sym>, scopes: seq<Scope>, set_: PreSet, values: seq<Code>, sources: seq<Code>,
      named: NEnv, env: Env)
    requires SetCompiles(bs, scopes, set_, true, values, sources) && EnvMatches(bs, named, scopes, env)
    ensures var frame, slots := Frame(OwnSlots(values + sources), env), ScopeOf(StaticNames(set_.statics));
      forall x | x in slots ::
        && x in SetFrame(set_, named).binds && Fetch(frame, slots[x]).Some?
        && ThunkMatches(bs, SlotThunk(SetFrame(set_, named), x), Fetch(frame, slots[x]).value)
  {
    var frame, slots := Frame(OwnSlots(values + sources), env), ScopeOf(StaticNames(set_.statics));
    RecursiveFrameMatches(bs, scopes, set_, values, sources, named, env);
    forall x | x in slots
      ensures x in SetFrame(set_, named).binds && Fetch(frame, slots[x]).Some?
      ensures ThunkMatches(bs, SlotThunk(SetFrame(set_, named), x), Fetch(frame, slots[x]).value)
    {
      SlotHoldsBinding(bs, SetFrame(set_, named), InnerScopes(scopes, set_, true), frame, slots, x);
    }
  }

  lemma PlainValueMatches(bs: set<Sym>, scopes: seq<Scope>, set_: PreSet, values: seq<Code>, sources: seq<Code>,
      named: NEnv, env: Env, i: nat)
    requires SetCompiles(bs, scopes, set_, false, values, sources) && EnvMatches(bs, named, scopes, env) &&
      i < |set_.statics|
    ensures var inner := if set_.froms != [] then Frame(OwnSlots(sources), env) else env;
      ThunkMatches(bs, SlotThunkOf(set_, set_.statics[i].binding, named), Thunk(values[i], inner))
  {
    var inner := InnerScopes(scopes, set_, false);
    var frame := if set_.froms != [] then Frame(OwnSlots(sources), env) else env;
    var b := set_.statics[i].binding;
    PlainFrameMatches(bs, scopes, set_, sources, named, env);
    StaticsCompiled(bs, inner, HasFrame(set_, false), 0, set_.statics, i);
    match b {
      case Inherit(x) =>
        if set_.froms != [] {
          assert inner[..|inner| - 1] == scopes;
        } else {
          assert Resolve(bs, inner, 0, x) == Compile(bs, inner, Ident(x));
        }
      case InheritFrom(from, x) =>
        AllCompiled(bs, inner, set_.froms, from);
      case Value(e) =>
    }
    assert ThunkMatchesIn(bs, SlotThunkOf(set_, b, named), Thunk(values[i], frame), inner);
  }

  function SlotThunkOf(set_: PreSet, b: Binding, env: NEnv): NThunk
    requires b.InheritFrom? ==> b.from < |set_.froms|
  {
    match b
    case Value(e) => NDelayed(e, env)
    case Inherit(x) => NDelayed(Ident(x), env)
    case InheritFrom(from, x) => NAttribute(NDelayed(set_.froms[from], env), x)
  }

  lemma {:induction false} PlainSetMatches(bs: set<Sym>, scopes: seq<Scope>, set_: PreSet, values: seq<Code>,
      sources: seq<Code>, named: NEnv, env: Env, n: nat)
    requires SetCompiles(bs, scopes, set_, false, values, sources) && EnvMatches(bs, named, scopes, env) &&
      n <= |set_.statics|
    ensures var frame := if set_.froms != [] then Frame(OwnSlots(sources), env) else env;
      var statics := CompiledSet(set_, false, values, sources).statics;
      && Entries(statics, n, frame).Some?
      && EntriesMatch(bs, PlainEntries(set_, n, named), Entries(statics, n, frame).value)
  {
    if n > 0 {
      var frame := if set_.froms != [] then Frame(OwnSlots(sources), env) else env;
      var statics := CompiledSet(set_, false, values, sources).statics;
      PlainSetMatches(bs, scopes, set_, values, sources, named, env, n - 1);
      PlainValueMatches(bs, scopes, set_, values, sources, named, env, n - 1);
      EntryAdded(bs, PlainEntries(set_, n - 1, named), Entries(statics, n - 1, frame).value, set_.statics[n - 1].name,
        SlotThunkOf(set_, set_.statics[n - 1].binding, named), Thunk(values[n - 1], frame));
    }
  }

  lemma EntryAdded(bs: set<Sym>, entries: map<Sym, NThunk>, compiled: map<Sym, Thunk>, name: Sym, t: NThunk, u: Thunk)
    requires EntriesMatch(bs, entries, compiled) && ThunkMatches(bs, t, u)
    ensures EntriesMatch(bs, entries[name := t], compiled[name := u])
  {
  }

  // ----- patterns ---------------------------------------------------------------------------------

  ghost predicate FormalMatches(bs: set<Sym>, bound: NSlot, scopes: seq<Scope>, slot: Slot) {
    match bound
    case NGiven(t) => slot.Given? && ThunkMatches(bs, t, slot.thunk)
    case NOwn(e) => slot.Own? && Compile(bs, scopes, e) == Ok(slot.code)
    case _ => false
  }

  ghost predicate FormalsMatch(bs: set<Sym>, binds: map<Sym, NSlot>, scopes: seq<Scope>, names: seq<Sym>,
      slots: seq<Slot>)
  {
    && |slots| == |names|
    && binds.Keys == ScopeOf(names).Keys
    && forall x | x in ScopeOf(names) :: FormalMatches(bs, binds[x], scopes, slots[ScopeOf(names)[x]])
  }

  lemma NameBound(bs: set<Sym>, binds: map<Sym, NSlot>, scopes: seq<Scope>, names: seq<Sym>, slots: seq<Slot>,
      name: Sym, bound: NSlot, slot: Slot)
    requires FormalsMatch(bs, binds, scopes, names, slots) && FormalMatches(bs, bound, scopes, slot)
    ensures FormalsMatch(bs, binds[name := bound], scopes, names + [name], slots + [slot])
  {
    var all := names + [name];
    assert all[..|names|] == names && all[..|all|] == all;
    ScopeOfSnoc(all, |all|);
  }

  /** One argument, given or by default. */
  lemma FormalFilled(bs: set<Sym>, scopes: seq<Scope>, f: Formal, c: CFormal, entries: map<Sym, NThunk>,
      entries': map<Sym, Thunk>)
    requires CompileFormal(bs, scopes, f) == Ok(c) && EntriesMatch(bs, entries, entries')
    ensures c.name == f.name && (c.default.Some? <==> f.default.Some?) && (f.name in entries <==> f.name in entries')
    ensures f.name in entries ==> FormalMatches(bs, NGiven(entries[f.name]), scopes, Given(entries'[f.name]))
    ensures f.default.Some? ==> FormalMatches(bs, NOwn(f.default.value), scopes, Own(c.default.value))
  {
  }

  ghost predicate FilledAlike(bs: set<Sym>, scopes: seq<Scope>, names: seq<Sym>,
      r: Result<map<Sym, NSlot>, EvalError>, s: Result<seq<Slot>, EvalError>)
  {
    if r.Err? then s == Err(r.error) else s.Ok? && FormalsMatch(bs, r.value, scopes, names, s.value)
  }

  ghost function BindOne(r: Result<map<Sym, NSlot>, EvalError>, f: Formal, entries: map<Sym, NThunk>):
      Result<map<Sym, NSlot>, EvalError>
  {
    if r.Err? then r
    else if f.name in entries then Ok(r.value[f.name := NGiven(entries[f.name])])
    else if f.default.Some? then Ok(r.value[f.name := NOwn(f.default.value)])
    else Err(MissingArgument(f.name))
  }

  ghost function FillOne(s: Result<seq<Slot>, EvalError>, c: CFormal, entries: map<Sym, Thunk>):
      Result<seq<Slot>, EvalError>
  {
    if s.Err? then s
    else if c.name in entries then Ok(s.value + [Given(entries[c.name])])
    else if c.default.Some? then Ok(s.value + [Own(c.default.value)])
    else Err(MissingArgument(c.name))
  }

  lemma LastBound(formals: seq<Formal>, entries: map<Sym, NThunk>)
    requires formals != []
    ensures var n := |formals| - 1;
      BindFormals(formals, entries) == BindOne(BindFormals(formals[..n], entries), formals[n], entries)
  {
  }

  lemma LastFilled(formals: seq<CFormal>, entries: map<Sym, Thunk>)
    requires formals != []
    ensures var n := |formals| - 1;
      FillFormals(formals, entries) == FillOne(FillFormals(formals[..n], entries), formals[n], entries)
  {
  }

  lemma OneMoreFilled(bs: set<Sym>, scopes: seq<Scope>, names: seq<Sym>, f: Formal, c: CFormal,
      r: Result<map<Sym, NSlot>, EvalError>, s: Result<seq<Slot>, EvalError>, entries: map<Sym, NThunk>,
        entries': map<Sym, Thunk>)
    requires CompileFormal(bs, scopes, f) == Ok(c) && EntriesMatch(bs, entries, entries') &&
      FilledAlike(bs, scopes, names, r, s)
    ensures FilledAlike(bs, scopes, names + [f.name], BindOne(r, f, entries), FillOne(s, c, entries'))
  {
    FormalFilled(bs, scopes, f, c, entries, entries');
    if r.Ok? {
      if f.name in entries {
        NameBound(bs, r.value, scopes, names, s.value, f.name, NGiven(entries[f.name]), Given(entries'[f.name]));
      } else if f.default.Some? {
        NameBound(bs, r.value, scopes, names, s.value, f.name, NOwn(f.default.value), Own(c.default.value));
      }
    }
  }

  ghost predicate FormalsCompile(bs: set<Sym>, scopes: seq<Scope>, formals: seq<Formal>, compiled: seq<CFormal>) {
    |compiled| == |formals| && forall i :: 0 <= i < |formals| ==>
      CompileFormal(bs, scopes, formals[i]) == Ok(compiled[i])
  }

  lemma ButLastCompile(bs: set<Sym>, scopes: seq<Scope>, formals: seq<Formal>, compiled: seq<CFormal>)
    requires FormalsCompile(bs, scopes, formals, compiled) && formals != []
    ensures var n := |formals| - 1;
      && |compiled| == n + 1 && FormalsCompile(bs, scopes, formals[..n], compiled[..n])
      && CompileFormal(bs, scopes, formals[n]) == Ok(compiled[n])
      && FormalNames(formals) == FormalNames(formals[..n]) + [formals[n].name]
  {
  }

  lemma {:induction false} FormalsFilled(bs: set<Sym>, scopes: seq<Scope>, formals: seq<Formal>, compiled: seq<CFormal>,
      entries: map<Sym, NThunk>, entries': map<Sym, Thunk>)
    requires FormalsCompile(bs, scopes, formals, compiled) && EntriesMatch(bs, entries, entries')
    ensures FilledAlike(bs, scopes, FormalNames(formals), BindFormals(formals, entries),
      FillFormals(compiled, entries'))
    decreases |formals|
  {
    if formals == [] {
      assert FormalNames(formals) == [];
    } else {
      var n := |formals| - 1;
      ButLastCompile(bs, scopes, formals, compiled);
      FormalsFilled(bs, scopes, formals[..n], compiled[..n], entries, entries');
      LastBound(formals, entries);
      LastFilled(compiled, entries');
      OneMoreFilled(bs, scopes, FormalNames(formals[..n]), formals[n], compiled[n],
        BindFormals(formals[..n], entries), FillFormals(compiled[..n], entries'), entries, entries');
    }
  }

  lemma PatternFrameMatches(bs: set<Sym>, binds: map<Sym, NSlot>, scopes: seq<Scope>, names: seq<Sym>,
      slots: seq<Slot>, named: NEnv, env: Env)
    requires EnvMatches(bs, named, scopes, env)
    requires FormalsMatch(bs, binds, scopes + [Names(ScopeOf(names))], names, slots)
    ensures EnvMatches(bs, NFrame(binds, named), scopes + [Names(ScopeOf(names))], Frame(slots, env))
  {
    var inner, frame := scopes + [Names(ScopeOf(names))], Frame(slots, env);
    assert inner[..|inner| - 1] == scopes;
    forall x | x in ScopeOf(names)
      ensures ScopeOf(names)[x] < |slots| && SlotMatches(bs, binds[x], inner, frame, slots[ScopeOf(names)[x]])
    {
      assert FormalMatches(bs, binds[x], inner, slots[ScopeOf(names)[x]]);
    }
  }

  lemma SameFormalNames(bs: set<Sym>, scopes: seq<Scope>, formals: seq<Formal>, compiled: seq<CFormal>)
    requires CompileFormals(bs, scopes, formals) == Ok(compiled)
    ensures CFormalNames(compiled) == FormalNames(formals) && FormalsCompile(bs, scopes, formals, compiled)
  {
    forall i | 0 <= i < |formals|
      ensures CompileFormal(bs, scopes, formals[i]) == Ok(compiled[i]) && compiled[i].name == formals[i].name
    {
      FormalsCompiled(bs, scopes, formals, i);
    }
  }

  // ----- the simulation ----------------------------------------------------------------------------

  lemma {:induction false} Simulates(bs: set<Sym>, fuel: nat, e: Expr, scopes: seq<Scope>, named: NEnv, env: Env)
    requires EnvMatches(bs, named, scopes, env) && Compile(bs, scopes, e).Ok?
    ensures ResultMatches(bs, NEval(bs, fuel, e, named), Eval(fuel, Compile(bs, scopes, e).value, env))
    decreases fuel, 2, e, 1
  {
    match e {
      case IntLit(n) =>
      case Ident(name) =>
        assert scopes[..|scopes|] == scopes;
        SimulatesName(bs, fuel, name, scopes, 0, named, env);
      case Lambda(param, body) =>
        assert ClosureMatches(bs, NClosure(param, body, named), Eval(fuel, Compile(bs, scopes, e).value, env).value,
          scopes);
      case Apply(func, arg) =>
        SimulatesApply(bs, fuel, e, scopes, named, env);
      case Select(expr, attr) =>
        SimulatesSelection(bs, fuel, e, scopes, named, env);
      case If(cond, then_, else_) =>
        SimulatesIf(bs, fuel, e, scopes, named, env);
      case Let(set_, body) =>
        SimulatesLet(bs, fuel, e, scopes, named, env);
      case AttrSet(recursive, set_) =>
        SimulatesSet(bs, fuel, e, scopes, named, env);
      case With(namespace, body) =>
        SimulatesWith(bs, fuel, e, scopes, named, env);
    }
  }

  lemma {:induction false} SimulatesSelection(bs: set<Sym>, fuel: nat, e: Expr, scopes: seq<Scope>, named: NEnv,
      env: Env)
    requires e.Select? && EnvMatches(bs, named, scopes, env) && Compile(bs, scopes, e).Ok?
    ensures ResultMatches(bs, NEval(bs, fuel, e, named), Eval(fuel, Compile(bs, scopes, e).value, env))
    decreases fuel, 2, e, 0
  {
    Simulates(bs, fuel, e.expr, scopes, named, env);
    var v := NEval(bs, fuel, e.expr, named);
    if v.Ok? {
      SimulatesSelect(bs, fuel, v.value, Eval(fuel, Compile(bs, scopes, e.expr).value, env).value, e.attr);
    }
  }

  lemma {:induction false} SimulatesIf(bs: set<Sym>, fuel: nat, e: Expr, scopes: seq<Scope>, named: NEnv, env: Env)
    requires e.If? && EnvMatches(bs, named, scopes, env) && Compile(bs, scopes, e).Ok?
    ensures ResultMatches(bs, NEval(bs, fuel, e, named), Eval(fuel, Compile(bs, scopes, e).value, env))
    decreases fuel, 2, e, 0
  {
    Simulates(bs, fuel, e.cond, scopes, named, env);
    Simulates(bs, fuel, e.then_, scopes, named, env);
    Simulates(bs, fuel, e.else_, scopes, named, env);
  }

  lemma {:induction false} SimulatesApply(bs: set<Sym>, fuel: nat, e: Expr, scopes: seq<Scope>, named: NEnv, env: Env)
    requires e.Apply? && EnvMatches(bs, named, scopes, env) && Compile(bs, scopes, e).Ok?
    ensures ResultMatches(bs, NEval(bs, fuel, e, named), Eval(fuel, Compile(bs, scopes, e).value, env))
    decreases fuel, 2, e, 0
  {
    var c := Compile(bs, scopes, e).value;
    Simulates(bs, fuel, e.func, scopes, named, env);
    var f := NEval(bs, fuel, e.func, named);
    if f.Ok? {
      var t, u := NDelayed(e.arg, named), Thunk(c.arg, env);
      assert ThunkMatchesIn(bs, t, u, scopes);
      SimulatesCall(bs, fuel, f.value, Eval(fuel, c.func, env).value, t, u);
    }
  }

  lemma {:induction false} SimulatesWith(bs: set<Sym>, fuel: nat, e: Expr, scopes: seq<Scope>, named: NEnv, env: Env)
    requires e.With? && EnvMatches(bs, named, scopes, env) && Compile(bs, scopes, e).Ok?
    ensures ResultMatches(bs, NEval(bs, fuel, e, named), Eval(fuel, Compile(bs, scopes, e).value, env))
    decreases fuel, 2, e, 0
  {
    var c := Compile(bs, scopes, e).value;
    var inner := scopes + [WithScope];
    var t, u := NDelayed(e.namespace, named), Thunk(c.namespace, env);
    assert inner[..|inner| - 1] == scopes;
    assert ThunkMatchesIn(bs, t, u, scopes);
    var frame := Frame([Given(u)], env);
    assert EnvMatches(bs, NWith(t, named), inner, frame);
    Simulates(bs, fuel, e.body, inner, NWith(t, named), frame);
  }

  lemma {:induction false} SimulatesLet(bs: set<Sym>, fuel: nat, e: Expr, scopes: seq<Scope>, named: NEnv, env: Env)
    requires e.Let? && EnvMatches(bs, named, scopes, env) && Compile(bs, scopes, e).Ok?
    ensures ResultMatches(bs, NEval(bs, fuel, e, named), Eval(fuel, Compile(bs, scopes, e).value, env))
    decreases fuel, 2, e, 0
  {
    var set_, inner := e.set_, InnerScopes(scopes, e.set_, true);
    var values := CompileStatics(bs, inner, true, |set_.statics|, set_.statics).value;
    var sources := CompileAll(bs, inner, set_.froms).value;
    RecursiveFrameMatches(bs, scopes, set_, values, sources, named, env);
    Simulates(bs, fuel, e.body, inner, SetFrame(set_, named), Frame(OwnSlots(values + sources), env));
  }

  lemma SimulatesSet(bs: set<Sym>, fuel: nat, e: Expr, scopes: seq<Scope>, named: NEnv, env: Env)
    requires e.AttrSet? && EnvMatches(bs, named, scopes, env) && Compile(bs, scopes, e).Ok?
    ensures ResultMatches(bs, NEval(bs, fuel, e, named), Eval(fuel, Compile(bs, scopes, e).value, env))
  {
    var values, sources := SetParts(bs, e, scopes);
    SimulatesParts(bs, fuel, e.set_, e.recursive, values, sources, scopes, named, env);
  }

  lemma SetParts(bs: set<Sym>, e: Expr, scopes: seq<Scope>) returns (values: seq<Code>, sources: seq<Code>)
    requires e.AttrSet? && Compile(bs, scopes, e).Ok?
    ensures SetCompiles(bs, scopes, e.set_, e.recursive, values, sources)
    ensures Compile(bs, scopes, e) == Ok(CompiledSet(e.set_, e.recursive, values, sources))
  {
    var set_, inner := e.set_, InnerScopes(scopes, e.set_, e.recursive);
    var base := if e.recursive then |set_.statics| else 0;
    values := CompileStatics(bs, inner, HasFrame(set_, e.recursive), base, set_.statics).value;
    sources := CompileAll(bs, inner, set_.froms).value;
  }

  lemma SimulatesParts(bs: set<Sym>, fuel: nat, set_: PreSet, recursive: bool, values: seq<Code>, sources: seq<Code>,
      scopes: seq<Scope>, named: NEnv, env: Env)
    requires EnvMatches(bs, named, scopes, env) && SetCompiles(bs, scopes, set_, recursive, values, sources)
    ensures ResultMatches(bs, Ok(NAttrs(SetEntries(set_, recursive, named))),
      Eval(fuel, CompiledSet(set_, recursive, values, sources), env))
  {
    var statics := CompiledSet(set_, recursive, values, sources).statics;
    if recursive {
      RecursiveSetMatches(bs, scopes, set_, values, sources, named, env);
    } else {
      PlainSetMatches(bs, scopes, set_, values, sources, named, env, |set_.statics|);
    }
  }

  /** A name resolved past the `skip` innermost scopes means what it means around them. */
  lemma {:induction false} SimulatesName(bs: set<Sym>, fuel: nat, x: Sym, scopes: seq<Scope>, skip: nat, named: NEnv,
      env: Env)
    requires skip <= |scopes| && Up(env, skip).Some?
    requires EnvMatches(bs, named, scopes[..|scopes| - skip], Up(env, skip).value)
    requires Resolve(bs, scopes, skip, x).Ok?
    ensures ResultMatches(bs, NEval(bs, fuel, Ident(x), named), Eval(fuel, Resolve(bs, scopes, skip, x).value, env))
    decreases fuel, 1, |scopes| + 1
  {
    var outer := scopes[..|scopes| - skip];
    SearchFindsBinding(bs, x, outer, skip, [], named, Up(env, skip).value, env);
    var c := Resolve(bs, scopes, skip, x).value;
    match Lexical(named, x) {
      case Some(t) =>
        SimulatesForce(bs, fuel, t, Variable(env, c.depth, c.slot).value);
      case None =>
        assert [] + WithDepths(outer, skip) == WithDepths(outer, skip);
        if GlobalConstant(bs, x).None? {
          SimulatesWiths(bs, fuel, x, outer, skip, named, Up(env, skip).value, env);
        }
    }
  }

  lemma {:induction false} SimulatesWiths(bs: set<Sym>, fuel: nat, x: Sym, scopes: seq<Scope>, depth: nat,
      named: NEnv, env: Env, from: Env)
    requires EnvMatches(bs, named, scopes, env) && Up(from, depth) == Some(env)
    ensures ResultMatches(bs, NLookupWiths(bs, fuel, x, named), LookupWiths(fuel, x, WithDepths(scopes, depth), from))
    decreases fuel, 1, |scopes|
  {
    if scopes != [] {
      var outer := scopes[..|scopes| - 1];
      UpOne(from, depth);
      match scopes[|scopes| - 1] {
        case WithScope =>
          var withs := WithDepths(scopes, depth);
          assert withs[1..] == WithDepths(outer, depth + 1);
          var t, u := named.namespace, env.slots[0].thunk;
          SimulatesForce(bs, fuel, t, u);
          SimulatesWiths(bs, fuel, x, outer, depth + 1, named.parent, env.parent, from);
          var v := NForce(bs, fuel, t);
          if v.Ok? && v.value.NAttrs? && x in v.value.entries {
            SimulatesForce(bs, fuel, v.value.entries[x], Force(fuel, u).value.entries[x]);
          }
        case Names(names) =>
          if names == map[] && EnvMatches(bs, named, outer, env.parent) {
            SimulatesWiths(bs, fuel, x, outer, depth + 1, named, env.parent, from);
          } else {
            SimulatesWiths(bs, fuel, x, outer, depth + 1, named.parent, env.parent, from);
          }
      }
    }
  }

  lemma {:induction false} SimulatesForce(bs: set<Sym>, fuel: nat, t: NThunk, u: Thunk)
    requires ThunkMatches(bs, t, u)
    ensures ResultMatches(bs, NForce(bs, fuel, t), Force(fuel, u))
    decreases fuel, 0
  {
    if fuel > 0 {
      var scopes :| ThunkMatchesIn(bs, t, u, scopes);
      match t {
        case NDelayed(e, named) =>
          if Compile(bs, scopes, e) == Ok(u.code) && EnvMatches(bs, named, scopes, u.env) {
            Simulates(bs, fuel - 1, e, scopes, named, u.env);
          } else {
            SimulatesName(bs, fuel - 1, e.name, scopes, 1, named, u.env);
          }
        case NAttribute(base, x) =>
          var k := u.code.expr.slot;
          var source := Thunk(u.env.slots[k].code, u.env);
          assert ThunkMatchesIn(bs, base, source, scopes);
          assert Eval(fuel - 1, u.code.expr, u.env) == Force(fuel - 1, source);
          SimulatesForce(bs, fuel - 1, base, source);
          var v := NForce(bs, fuel - 1, base);
          if v.Ok? {
            SimulatesSelect(bs, fuel - 1, v.value, Force(fuel - 1, source).value, x);
          }
      }
    }
  }

  lemma {:induction false} SimulatesSelect(bs: set<Sym>, fuel: nat, v: NValue, w: Value, x: Sym)
    requires ValueMatches(bs, v, w)
    ensures ResultMatches(bs, NSelect(bs, fuel, v, x), SelectAttr(fuel, w, x))
    decreases fuel, 1, 0
  {
    if v.NAttrs? && x in v.entries {
      SimulatesForce(bs, fuel, v.entries[x], w.entries[x]);
    }
  }

  lemma {:induction false} SimulatesCall(bs: set<Sym>, fuel: nat, f: NValue, g: Value, t: NThunk, u: Thunk)
    requires ValueMatches(bs, f, g) && ThunkMatches(bs, t, u)
    ensures ResultMatches(bs, NCall(bs, fuel, f, t), Call(fuel, g, u))
    decreases fuel, 1, 0
  {
    if f.NClosure? {
      var scopes :| ClosureMatches(bs, f, g, scopes);
      match f.param {
        case IdentParam(name) =>
          if fuel > 0 {
            ArgumentFrameMatches(bs, scopes, name, t, u, f.env, g.env);
            Simulates(bs, fuel - 1, f.body, scopes + [Names(ScopeOf([name]))],
              NFrame(map[name := NGiven(t)], f.env), Frame([Given(u)], g.env));
          }
        case Pattern(_, _, _) =>
          SimulatesForce(bs, fuel, t, u);
          var v := NForce(bs, fuel, t);
          if v.Ok? && v.value.NAttrs? {
            SimulatesPattern(bs, fuel, f, g, scopes, t, u, v.value.entries, Force(fuel, u).value.entries);
          }
      }
    }
  }

  lemma ArgumentFrameMatches(bs: set<Sym>, scopes: seq<Scope>, name: Sym, t: NThunk, u: Thunk, named: NEnv, env: Env)
    requires EnvMatches(bs, named, scopes, env) && ThunkMatches(bs, t, u)
    ensures EnvMatches(bs, NFrame(map[name := NGiven(t)], named), scopes + [Names(ScopeOf([name]))],
      Frame([Given(u)], env))
  {
    var inner := scopes + [Names(ScopeOf([name]))];
    assert FormalsMatch(bs, map[], inner, [], []);
    NameBound(bs, map[], inner, [], [], name, NGiven(t), Given(u));
    assert [] + [name] == [name] && [] + [Given(u)] == [Given(u)];
    PatternFrameMatches(bs, map[name := NGiven(t)], scopes, [name], [Given(u)], named, env);
  }

  /** The frames a pattern and its compiled form make match, or they fail alike. */
  ghost predicate FramesMatch(bs: set<Sym>, binds: Result<map<Sym, NSlot>, EvalError>,
      slots: Result<seq<Slot>, EvalError>, scopes: seq<Scope>, named: NEnv, env: Env)
  {
    if binds.Err? then slots == Err(binds.error)
    else slots.Ok? && EnvMatches(bs, NFrame(binds.value, named), scopes, Frame(slots.value, env))
  }

  /** What a call gives once its frame is made. */
  ghost function NamedBody(bs: set<Sym>, fuel: nat, f: NValue,
      binds: Result<map<Sym, NSlot>, EvalError>): Result<NValue, EvalError>
    requires f.NClosure?
  {
    if binds.Err? then Err(binds.error)
    else if fuel == 0 then Err(OutOfFuel)
    else NEval(bs, fuel - 1, f.body, NFrame(binds.value, f.env))
  }

  ghost function Body(fuel: nat, g: Value, slots: Result<seq<Slot>, EvalError>): Result<Value, EvalError>
    requires g.VClosure?
  {
    if slots.Err? then Err(slots.error)
    else if fuel == 0 then Err(OutOfFuel)
    else Eval(fuel - 1, g.body, Frame(slots.value, g.env))
  }

  lemma {:induction false} NamedCallByPattern(bs: set<Sym>, fuel: nat, f: NValue, t: NThunk, entries: map<Sym, NThunk>)
    requires f.NClosure? && f.param.Pattern? && NForce(bs, fuel, t) == Ok(NAttrs(entries))
    ensures NCall(bs, fuel, f, t) == NamedBody(bs, fuel, f, BindPattern(f.param, t, entries))
  {
  }

  lemma {:induction false} CallByPattern(fuel: nat, g: Value, u: Thunk, entries: map<Sym, Thunk>)
    requires g.VClosure? && g.param.CPattern? && Force(fuel, u) == Ok(VAttrs(entries))
    ensures Call(fuel, g, u) == Body(fuel, g, FillPattern(g.param, u, entries))
  {
  }

  lemma {:induction false} SimulatesBody(bs: set<Sym>, fuel: nat, f: NValue, g: Value, scopes: seq<Scope>,
      binds: Result<map<Sym, NSlot>, EvalError>, slots: Result<seq<Slot>, EvalError>)
    requires f.NClosure? && g.VClosure? && ClosureMatches(bs, f, g, scopes)
    requires FramesMatch(bs, binds, slots, scopes + [Names(ScopeOf(f.param.Names()))], f.env, g.env)
    ensures ResultMatches(bs, NamedBody(bs, fuel, f, binds), Body(fuel, g, slots))
    decreases fuel, 0, 0
  {
    if binds.Ok? && fuel > 0 {
      Simulates(bs, fuel - 1, f.body, scopes + [Names(ScopeOf(f.param.Names()))],
        NFrame(binds.value, f.env), Frame(slots.value, g.env));
    }
  }

  lemma {:induction false} SimulatesPattern(bs: set<Sym>, fuel: nat, f: NValue, g: Value, scopes: seq<Scope>,
      t: NThunk, u: Thunk, entries: map<Sym, NThunk>, entries': map<Sym, Thunk>)
    requires f.NClosure? && g.VClosure? && ClosureMatches(bs, f, g, scopes) && ThunkMatches(bs, t, u)
    requires f.param.Pattern? && EntriesMatch(bs, entries, entries')
    requires NForce(bs, fuel, t) == Ok(NAttrs(entries)) && Force(fuel, u) == Ok(VAttrs(entries'))
    ensures ResultMatches(bs, NCall(bs, fuel, f, t), Call(fuel, g, u))
    decreases fuel, 0, 1
  {
    PatternFills(bs, f.param, g.param, scopes, f.env, g.env, t, u, entries, entries');
    SimulatesBody(bs, fuel, f, g, scopes, BindPattern(f.param, t, entries), FillPattern(g.param, u, entries'));
    NamedCallByPattern(bs, fuel, f, t, entries);
    CallByPattern(fuel, g, u, entries');
  }

  /** A compiled pattern fills its frame with what the pattern binds, or fails alike. */
  lemma PatternFills(bs: set<Sym>, param: Param, compiled: CParam, scopes: seq<Scope>, named: NEnv, env: Env,
      t: NThunk, u: Thunk, entries: map<Sym, NThunk>, entries': map<Sym, Thunk>)
    requires EnvMatches(bs, named, scopes, env) && ThunkMatches(bs, t, u) && EntriesMatch(bs, entries, entries')
    requires param.Pattern? && CompileParam(bs, scopes, param) == Ok(compiled)
    ensures compiled.CPattern?
    ensures FramesMatch(bs, BindPattern(param, t, entries), FillPattern(compiled, u, entries'),
      scopes + [Names(ScopeOf(param.Names()))], named, env)
  {
    var inner := scopes + [Names(ScopeOf(param.Names()))];
    PatternParts(bs, scopes, param, compiled);
    FormalsFilled(bs, inner, param.formals, compiled.formals, entries, entries');
    var binds, slots := BindFormals(param.formals, entries), FillFormals(compiled.formals, entries');
    PatternChecked(param, compiled, t, u, entries, entries');
    if binds.Ok? {
      PatternBound(bs, param, scopes, named, env, t, u, binds.value, slots.value);
    }
  }

  lemma PatternParts(bs: set<Sym>, scopes: seq<Scope>, param: Param, compiled: CParam)
    requires param.Pattern? && CompileParam(bs, scopes, param) == Ok(compiled)
    ensures compiled.CPattern? && compiled.ellipsis == param.ellipsis && compiled.at == param.at
    ensures CFormalNames(compiled.formals) == FormalNames(param.formals)
    ensures FormalsCompile(bs, scopes + [Names(ScopeOf(param.Names()))], param.formals, compiled.formals)
  {
    SameFormalNames(bs, scopes + [Names(ScopeOf(param.Names()))], param.formals, compiled.formals);
  }

  /** Both sides refuse unexpected arguments, or bind the `@` name last. */
  lemma PatternChecked(param: Param, compiled: CParam, t: NThunk, u: Thunk, entries: map<Sym, NThunk>,
      entries': map<Sym, Thunk>)
    requires param.Pattern? && compiled.CPattern? && compiled.ellipsis == param.ellipsis && compiled.at == param.at
    requires CFormalNames(compiled.formals) == FormalNames(param.formals) && entries.Keys == entries'.Keys
    ensures var extra := !param.ellipsis && GivesExtra(FormalNames(param.formals), entries.Keys);
      var binds, slots := BindFormals(param.formals, entries), FillFormals(compiled.formals, entries');
      && BindPattern(param, t, entries) == (if binds.Err? then binds else if extra then Err(UnexpectedArgument)
           else Ok(if param.at.Some? then binds.value[param.at.value := NGiven(t)] else binds.value))
      && FillPattern(compiled, u, entries') == (if slots.Err? then slots else if extra then Err(UnexpectedArgument)
           else Ok(if param.at.Some? then slots.value + [Given(u)] else slots.value))
  {
  }

  lemma PatternBound(bs: set<Sym>, param: Param, scopes: seq<Scope>, named: NEnv, env: Env, t: NThunk, u: Thunk,
      binds: map<Sym, NSlot>, slots: seq<Slot>)
    requires EnvMatches(bs, named, scopes, env) && ThunkMatches(bs, t, u) && param.Pattern?
    requires FormalsMatch(bs, binds, scopes + [Names(ScopeOf(param.Names()))], FormalNames(param.formals), slots)
    ensures EnvMatches(bs, NFrame(if param.at.Some? then binds[param.at.value := NGiven(t)] else binds, named),
      scopes + [Names(ScopeOf(param.Names()))], Frame(if param.at.Some? then slots + [Given(u)] else slots, env))
  {
    var names := param.Names();
    if param.at.Some? {
      var at := param.at.value;
      NameBound(bs, binds, scopes + [Names(ScopeOf(names))], FormalNames(param.formals), slots, at, NGiven(t),
        Given(u));
      PatternFrameMatches(bs, binds[at := NGiven(t)], scopes, names, slots + [Given(u)], named, env);
    } else {
      assert names == FormalNames(param.formals);
      PatternFrameMatches(bs, binds, scopes, names, slots, named, env);
    }
  }

  // ----- whole programs ----------------------------------------------------------------------------

  /** A program that compiles runs as its names say, and no depth or slot is ever out of range. */
  lemma ProgramMeaning(bs: set<Sym>, e: Expr, fuel: nat)
    requires Compile(bs, [], e).Ok?
    ensures ResultMatches(bs, NEval(bs, fuel, e, NRoot), Eval(fuel, Compile(bs, [], e).value, Root))
    ensures Eval(fuel, Compile(bs, [], e).value, Root) != Err(OutOfRange)
  {
    Simulates(bs, fuel, e, [], NRoot, Root);
  }

  ghost predicate UnderWith(named: NEnv) {
    match named
    case NRoot => false
    case NFrame(_, parent) => UnderWith(parent)
    case NWith(_, _) => true
  }

  lemma {:induction false} DepthsOfWiths(bs: set<Sym>, scopes: seq<Scope>, depth: nat, named: NEnv, env: Env)
    requires EnvMatches(bs, named, scopes, env)
    ensures WithDepths(scopes, depth) == [] <==> !UnderWith(named)
    decreases |scopes|
  {
    if scopes != [] {
      var outer := scopes[..|scopes| - 1];
      match scopes[|scopes| - 1] {
        case WithScope =>
        case Names(names) =>
          if names == map[] && EnvMatches(bs, named, outer, env.parent) {
            DepthsOfWiths(bs, outer, depth + 1, named, env.parent);
          } else {
            DepthsOfWiths(bs, outer, depth + 1, named.parent, env.parent);
          }
      }
    }
  }

  /** Compiling rejects a name exactly when nothing could give it a meaning: no lexical binding,
    * no global and no `with` around it.
    */
  lemma RejectsOnlyUnbound(bs: set<Sym>, x: Sym, scopes: seq<Scope>, named: NEnv, env: Env)
    requires EnvMatches(bs, named, scopes, env)
    ensures Compile(bs, scopes, Ident(x)).Err? <==>
      Lexical(named, x).None? && GlobalConstant(bs, x).None? && !UnderWith(named)
  {
    assert scopes[..|scopes|] == scopes;
    SearchFindsBinding(bs, x, scopes, 0, [], named, env, env);
    DepthsOfWiths(bs, scopes, 0, named, env);
    assert [] + WithDepths(scopes, 0) == WithDepths(scopes, 0);
  }
}
