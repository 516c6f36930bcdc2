/** Whole programs: what the evaluator computes from compiled code is what the names mean. */
module NixProgram {
  import opened Wrappers
  import opened NixLang
  import opened NixCompile
  import opened NamedEval
  import opened NixEval
  import opened NixSimulation
  import opened NixLazy
  import opened NixScoping
  import opened NixLaziness

  /** The evaluator's chain, in which a program's free names live, and what they mean. A program may
    * start in a frame of given names (`scopedImport`) or in none.
    */
  ghost predicate Starts(bs: set<Sym>, scopes: seq<Scope>, named: NEnv, l: LEnv) {
    exists env :: StartsAs(bs, scopes, named, l, env)
  }

  ghost predicate StartsAs(bs: set<Sym>, scopes: seq<Scope>, named: NEnv, l: LEnv, env: Env) {
    EnvMatches(bs, named, scopes, env) && EnvDenotes(l, env) && Fits(scopes, Widths(env))
  }

  ghost predicate Means(bs: set<Sym>, v: LValue, n: NValue) {
    exists w :: ValueMatches(bs, n, w) && ValueDenotes(v, w)
  }

  /** The same error, or values with one meaning. */
  ghost predicate SameMeaning(bs: set<Sym>, s: Result<LValue, EvalError>, r: Result<NValue, EvalError>) {
    if r.Err? then s == Err(r.error) else s.Ok? && Means(bs, s.value, r.value)
  }

  ghost predicate Ends(bs: set<Sym>, e: Expr, named: NEnv, fuel: nat) {
    NEval(bs, fuel, e, named) != Err(OutOfFuel)
  }

  predicate Answered(c: Code, l: LEnv, fuel: nat) {
    LEval(fuel, c, l) != Err(OutOfFuel)
  }

  lemma Joined(bs: set<Sym>, s: Result<LValue, EvalError>, r: Result<Value, EvalError>, n: Result<NValue, EvalError>)
    requires Same(s, r) && ResultMatches(bs, n, r)
    ensures SameMeaning(bs, s, n)
  {
  }

  /** If evaluating a program by its names ends, the evaluator gives that result. */
  lemma MeaningIsComputed(bs: set<Sym>, e: Expr, scopes: seq<Scope>, named: NEnv, l: LEnv, f: nat, g: nat)
    requires Starts(bs, scopes, named, l) && Compile(bs, scopes, e).Ok? && f <= g && Ends(bs, e, named, f)
    ensures SameMeaning(bs, LEval(g, Compile(bs, scopes, e).value, l), NEval(bs, f, e, named))
  {
    var c := Compile(bs, scopes, e).value;
    var env :| StartsAs(bs, scopes, named, l, env);
    CompiledIsScoped(bs, scopes, e, Widths(env));
    Simulates(bs, f, e, scopes, named, env);
    Refines(f, g, c, l, env);
    Joined(bs, LEval(g, c, l), Eval(f, c, env), NEval(bs, f, e, named));
  }

  /** If the evaluator gives a result, that is what evaluating the program by its names ends with. */
  lemma ComputedIsMeaning(bs: set<Sym>, e: Expr, scopes: seq<Scope>, named: NEnv, l: LEnv, f: nat) returns (g: nat)
    requires Starts(bs, scopes, named, l) && Compile(bs, scopes, e).Ok? && Answered(Compile(bs, scopes, e).value, l, f)
    ensures Ends(bs, e, named, g) && SameMeaning(bs, LEval(f, Compile(bs, scopes, e).value, l), NEval(bs, g, e, named))
  {
    var c := Compile(bs, scopes, e).value;
    var env :| StartsAs(bs, scopes, named, l, env);
    CompiledIsScoped(bs, scopes, e, Widths(env));
    g := Answers(f, c, l, env);
    Simulates(bs, g, e, scopes, named, env);
    Joined(bs, LEval(f, c, l), Eval(g, c, env), NEval(bs, g, e, named));
  }

  /** The evaluator never leaves the chain. */
  lemma NeverOutOfRange(bs: set<Sym>, e: Expr, scopes: seq<Scope>, named: NEnv, l: LEnv, g: nat)
    requires Starts(bs, scopes, named, l) && Compile(bs, scopes, e).Ok?
    ensures LEval(g, Compile(bs, scopes, e).value, l) != Err(OutOfRange)
  {
    if Answered(Compile(bs, scopes, e).value, l, g) {
      var f := ComputedIsMeaning(bs, e, scopes, named, l, g);
    }
  }

  /** The evaluator answers exactly where names have a meaning. */
  lemma AnswersWhereMeant(bs: set<Sym>, e: Expr, scopes: seq<Scope>, named: NEnv, l: LEnv)
    requires Starts(bs, scopes, named, l) && Compile(bs, scopes, e).Ok?
    ensures (exists f :: Ends(bs, e, named, f)) <==> (exists g :: Answered(Compile(bs, scopes, e).value, l, g))
  {
    if f :| Ends(bs, e, named, f) {
      MeaningIsComputed(bs, e, scopes, named, l, f, f);
      assert Answered(Compile(bs, scopes, e).value, l, f);
    }
    if g :| Answered(Compile(bs, scopes, e).value, l, g) {
      var f := ComputedIsMeaning(bs, e, scopes, named, l, g);
    }
  }

  /** A program run on its own: it starts in the empty chain. */
  lemma ProgramIsMeant(bs: set<Sym>, e: Expr)
    requires Compile(bs, [], e).Ok?
    ensures (exists f :: Ends(bs, e, NRoot, f)) <==> (exists g :: Answered(Compile(bs, [], e).value, LRoot, g))
    ensures forall f, g :: f <= g && Ends(bs, e, NRoot, f) ==>
      SameMeaning(bs, LEval(g, Compile(bs, [], e).value, LRoot), NEval(bs, f, e, NRoot))
  {
    StartsAtRoot(bs);
    AnswersWhereMeant(bs, e, [], NRoot, LRoot);
    forall f, g | f <= g && Ends(bs, e, NRoot, f)
      ensures SameMeaning(bs, LEval(g, Compile(bs, [], e).value, LRoot), NEval(bs, f, e, NRoot))
    {
      MeaningIsComputed(bs, e, [], NRoot, LRoot, f, g);
    }
  }

  /** A program without a scope of given names starts in the empty chain. */
  lemma StartsAtRoot(bs: set<Sym>)
    ensures Starts(bs, [], NRoot, LRoot)
  {
    assert StartsAs(bs, [], NRoot, LRoot, Root);
  }

  function Holding(values: seq<LValue>): seq<LSlot> {
    seq(|values|, i requires 0 <= i < |values| => Held(values[i]))
  }

  ghost function Giving(thunks: seq<Thunk>): seq<Slot> {
    seq(|thunks|, i requires 0 <= i < |thunks| => Given(thunks[i]))
  }

  lemma HoldingDenotes(values: seq<LValue>, thunks: seq<Thunk>)
    requires |values| == |thunks| && forall i :: 0 <= i < |values| ==> Denotes(values[i], thunks[i])
    ensures EnvDenotes(LFrame(Holding(values), LRoot), Frame(Giving(thunks), Root))
  {
    forall i | 0 <= i < |values|
      ensures SlotDenotes(Holding(values)[i], Giving(thunks)[i], LRoot, [|thunks|])
    {
    }
  }

  /** One imported into a scope starts in a frame of the names given it, a value in each slot. */
  lemma StartsInScope(bs: set<Sym>, names: seq<Sym>, binds: map<Sym, NSlot>, values: seq<LValue>, thunks: seq<Thunk>)
    requires |values| == |thunks| == |names|
    requires forall i :: 0 <= i < |names| ==> Denotes(values[i], thunks[i])
    requires FormalsMatch(bs, binds, [Names(ScopeOf(names))], names, Giving(thunks))
    ensures Starts(bs, [Names(ScopeOf(names))], NFrame(binds, NRoot), LFrame(Holding(values), LRoot))
  {
    var env, l := Frame(Giving(thunks), Root), LFrame(Holding(values), LRoot);
    assert [] + [Names(ScopeOf(names))] == [Names(ScopeOf(names))];
    PatternFrameMatches(bs, binds, [], names, Giving(thunks), NRoot, Root);
    FitsInner([], [], Names(ScopeOf(names)), |names|);
    HoldingDenotes(values, thunks);
    assert StartsAs(bs, [Names(ScopeOf(names))], NFrame(binds, NRoot), l, env);
  }
}
