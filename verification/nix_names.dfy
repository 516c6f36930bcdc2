/** What names and the plainest programs mean, said outright: the constants, and the laws of binding,
  * selecting and choosing, for the reference meaning and for compiled code alike.
  */
module NixNames {
  import opened Wrappers
  import opened NixLang
  import opened NixCompile
  import opened NamedEval
  import opened NixLazy
  import opened NixSimulation

  /** None of the searched scopes binds the name. */
  predicate Free(scopes: seq<Scope>, skip: nat, name: Sym) {
    forall k :: 0 <= k < |scopes| - skip && scopes[k].Names? ==> name !in scopes[k].slots
  }

  /** Whatever `with` is around. */
  predicate Enclosed(scopes: seq<Scope>, skip: nat) {
    exists k :: 0 <= k < |scopes| - skip && scopes[k].WithScope?
  }

  predicate IsKeyword(name: Sym) {
    name in {"true", "false", "null"}
  }

  lemma {:induction false} SearchFree(bs: set<Sym>, scopes: seq<Scope>, depth: nat, withs: seq<nat>, name: Sym)
    requires Free(scopes, 0, name)
    ensures Search(bs, scopes, depth, withs, name) == ResolveFree(bs, name, withs + WithDepths(scopes, depth))
    decreases |scopes|
  {
    if scopes == [] {
      assert withs + [] == withs;
    } else {
      var outer := scopes[..|scopes| - 1];
      match scopes[|scopes| - 1] {
        case Names(_) => SearchFree(bs, outer, depth + 1, withs, name);
        case WithScope =>
          SearchFree(bs, outer, depth + 1, withs + [depth], name);
          assert withs + [depth] + WithDepths(outer, depth + 1) == withs + WithDepths(scopes, depth);
      }
    }
  }

  lemma {:induction false} DepthsWhereEnclosed(scopes: seq<Scope>, depth: nat)
    ensures WithDepths(scopes, depth) == [] <==> !Enclosed(scopes, 0)
    decreases |scopes|
  {
    if scopes != [] {
      var outer := scopes[..|scopes| - 1];
      DepthsWhereEnclosed(outer, depth + 1);
      if k :| 0 <= k < |scopes| && scopes[k].WithScope? {
        assert k < |outer| ==> outer[k].WithScope?;
      }
      if k :| 0 <= k < |outer| && outer[k].WithScope? {
        assert scopes[k].WithScope?;
      }
    }
  }

  /** A name that nothing lexical binds is a constant, even under a `with`; if it is none, it is left
    * to the `with`s around it, and rejected where there are none.
    */
  lemma FreeNames(bs: set<Sym>, scopes: seq<Scope>, skip: nat, name: Sym)
    requires Free(scopes, skip, name)
    ensures var r := Resolve(bs, scopes, skip, name);
      && (name == "true" <==> r == Ok(CBool(true)))
      && (name == "false" <==> r == Ok(CBool(false)))
      && (name == "null" <==> r == Ok(CNull))
      && (!IsKeyword(name) && name in bs <==> r == Ok(Global(name)))
      && (!IsKeyword(name) && name !in bs && !Enclosed(scopes, skip) <==> r == Err(Undefined(name)))
      && (!IsKeyword(name) && name !in bs && Enclosed(scopes, skip) <==>
            r.Ok? && r.value.WithVar? && r.value.name == name)
  {
    var n := if skip < |scopes| then |scopes| - skip else 0;
    assert Free(scopes[..n], 0, name);
    SearchFree(bs, scopes[..n], skip, [], name);
    assert [] + WithDepths(scopes[..n], skip) == WithDepths(scopes[..n], skip);
    DepthsWhereEnclosed(scopes[..n], skip);
    if k :| 0 <= k < |scopes| - skip && scopes[k].WithScope? {
      assert scopes[..n][k].WithScope?;
    }
    if k :| 0 <= k < n && scopes[..n][k].WithScope? {
      assert scopes[k].WithScope?;
    }
  }

  /** What such a name evaluates to, by its name and once compiled. */
  lemma FreeNameMeans(bs: set<Sym>, scopes: seq<Scope>, named: NEnv, l: LEnv, name: Sym, fuel: nat)
    requires Free(scopes, 0, name) && Lexical(named, name).None? && Compile(bs, scopes, Ident(name)).Ok?
    ensures var s, r := LEval(fuel, Compile(bs, scopes, Ident(name)).value, l), NEval(bs, fuel, Ident(name), named);
      && (name == "true" ==> s == Ok(LConstant(BoolConstant(true))) && r == Ok(NConstant(BoolConstant(true))))
      && (name == "false" ==> s == Ok(LConstant(BoolConstant(false))) && r == Ok(NConstant(BoolConstant(false))))
      && (name == "null" ==> s == Ok(LConstant(NullConstant)) && r == Ok(NConstant(NullConstant)))
      && (!IsKeyword(name) && name in bs ==>
            s == Ok(LConstant(BuiltinConstant(name))) && r == Ok(NConstant(BuiltinConstant(name))))
  {
    FreeNames(bs, scopes, 0, name);
  }

  // ----- the plainest programs -----------------------------------------------------------------------

  /** The condition, spelt out, chooses. */
  lemma ConditionChooses(bs: set<Sym>, named: NEnv, yes: bool, then_: Expr, else_: Expr, fuel: nat)
    requires Lexical(named, if yes then "true" else "false").None?
    ensures NEval(bs, fuel, If(Ident(if yes then "true" else "false"), then_, else_), named)
      == NEval(bs, fuel, if yes then then_ else else_, named)
  {
  }

  lemma CompiledConditionChooses(bs: set<Sym>, scopes: seq<Scope>, l: LEnv, yes: bool, then_: Expr, else_: Expr,
                                 fuel: nat)
    requires Free(scopes, 0, if yes then "true" else "false")
    requires Compile(bs, scopes, then_).Ok? && Compile(bs, scopes, else_).Ok?
    ensures var c := Compile(bs, scopes, If(Ident(if yes then "true" else "false"), then_, else_));
      && c.Ok?
      && LEval(fuel, c.value, l) == LEval(fuel, Compile(bs, scopes, if yes then then_ else else_).value, l)
  {
    FreeNames(bs, scopes, 0, if yes then "true" else "false");
  }

  /** A function's parameter is its argument. */
  lemma ArgumentIsGiven(bs: set<Sym>, named: NEnv, x: Sym, arg: Expr, fuel: nat)
    ensures NEval(bs, fuel + 2, Apply(Lambda(IdentParam(x), Ident(x)), arg), named) == NEval(bs, fuel, arg, named)
  {
    var frame := NFrame(map[x := NGiven(NDelayed(arg, named))], named);
    assert Lexical(frame, x) == Some(NDelayed(arg, named));
    assert NEval(bs, fuel + 1, Ident(x), frame) == NForce(bs, fuel + 1, NDelayed(arg, named));
  }

  /** A set has what its definitions say under their names, the last of each name. */
  lemma AttributeIsDefined(bs: set<Sym>, named: NEnv, x: Sym, y: Sym, a: Expr, b: Expr, fuel: nat)
    ensures var set_ := PreSet([Static(x, Value(a)), Static(y, Value(b))], []);
      && (x != y ==> NEval(bs, fuel + 1, Select(AttrSet(false, set_), x), named) == NEval(bs, fuel, a, named))
      && NEval(bs, fuel + 1, Select(AttrSet(false, set_), y), named) == NEval(bs, fuel, b, named)
  {
    var set_ := PreSet([Static(x, Value(a)), Static(y, Value(b))], []);
    assert PlainEntries(set_, 0, named) == map[];
    assert PlainEntries(set_, 1, named) == map[x := NDelayed(a, named)];
    var entries := map[x := NDelayed(a, named)][y := NDelayed(b, named)];
    assert PlainEntries(set_, 2, named) == entries;
    assert NEval(bs, fuel + 1, AttrSet(false, set_), named) == Ok(NAttrs(entries));
    assert NForce(bs, fuel + 1, NDelayed(a, named)) == NEval(bs, fuel, a, named);
    assert NForce(bs, fuel + 1, NDelayed(b, named)) == NEval(bs, fuel, b, named);
    SelectIs(bs, fuel + 1, AttrSet(false, set_), x, named, entries);
    SelectIs(bs, fuel + 1, AttrSet(false, set_), y, named, entries);
  }

  lemma SelectIs(bs: set<Sym>, fuel: nat, e: Expr, x: Sym, named: NEnv, entries: map<Sym, NThunk>)
    requires NEval(bs, fuel, e, named) == Ok(NAttrs(entries))
    ensures x in entries ==> NEval(bs, fuel, Select(e, x), named) == NForce(bs, fuel, entries[x])
    ensures x !in entries ==> NEval(bs, fuel, Select(e, x), named) == Err(MissingAttribute(x))
  {
  }

  /** A name that a `let` inherits is the one outside it, even where they are called alike. */
  lemma InheritedIsOutside(bs: set<Sym>, named: NEnv, x: Sym, fuel: nat)
    ensures NEval(bs, fuel + 1, Let(PreSet([Static(x, Inherit(x))], []), Ident(x)), named)
      == NEval(bs, fuel, Ident(x), named)
  {
    var set_ := PreSet([Static(x, Inherit(x))], []);
    var frame := SetFrame(set_, named);
    assert BindStatics(set_, 0) == map[];
    assert BindStatics(set_, 1) == map[x := NOuter(x)];
    assert Lexical(frame, x) == Some(NDelayed(Ident(x), named));
    assert NEval(bs, fuel + 1, Let(set_, Ident(x)), named) == NEval(bs, fuel + 1, Ident(x), frame);
    assert NEval(bs, fuel + 1, Ident(x), frame) == NForce(bs, fuel + 1, NDelayed(Ident(x), named));
  }

  /** One inherited from a set is that set's, and the set is read inside. */
  lemma InheritedFromSet(bs: set<Sym>, named: NEnv, x: Sym, source: Expr, entries: map<Sym, NThunk>, fuel: nat)
    requires var set_ := PreSet([Static(x, InheritFrom(0, x))], [source]);
      NEval(bs, fuel, source, SetFrame(set_, named)) == Ok(NAttrs(entries))
    ensures NEval(bs, fuel + 2, Let(PreSet([Static(x, InheritFrom(0, x))], [source]), Ident(x)), named)
      == if x in entries then NForce(bs, fuel + 1, entries[x]) else Err(MissingAttribute(x))
  {
    var set_ := PreSet([Static(x, InheritFrom(0, x))], [source]);
    var frame := SetFrame(set_, named);
    var base := NDelayed(source, frame);
    assert BindStatics(set_, 0) == map[];
    assert BindStatics(set_, 1) == map[x := NFrom(source, x)];
    assert Lexical(frame, x) == Some(NAttribute(base, x));
    assert NEval(bs, fuel + 2, Let(set_, Ident(x)), named) == NEval(bs, fuel + 2, Ident(x), frame);
    assert NEval(bs, fuel + 2, Ident(x), frame) == NForce(bs, fuel + 2, NAttribute(base, x));
    assert NForce(bs, fuel + 1, base) == Ok(NAttrs(entries));
    assert NForce(bs, fuel + 2, NAttribute(base, x)) == NSelect(bs, fuel + 1, NAttrs(entries), x);
  }

  /** What a `with` offers does not hide what is bound lexically. */
  lemma WithHidesNothing(bs: set<Sym>, named: NEnv, namespace: Expr, x: Sym, fuel: nat)
    requires Lexical(named, x).Some?
    ensures NEval(bs, fuel, With(namespace, Ident(x)), named) == NEval(bs, fuel, Ident(x), named)
  {
  }

  /** An argument that a pattern does not take is refused, unless it ends in an ellipsis. */
  lemma UnexpectedIsRefused(bs: set<Sym>, f: NValue, arg: NThunk, entries: map<Sym, NThunk>, x: Sym, fuel: nat)
    requires f.NClosure? && f.param.Pattern? && NForce(bs, fuel, arg) == Ok(NAttrs(entries))
    requires x in entries && (forall i :: 0 <= i < |f.param.formals| ==> f.param.formals[i].name != x)
    ensures !f.param.ellipsis && BindFormals(f.param.formals, entries).Ok? ==>
      NCall(bs, fuel, f, arg) == Err(UnexpectedArgument)
  {
    assert x !in FormalNames(f.param.formals);
  }

  /** And arguments that it all takes are not. */
  lemma ExpectedIsTaken(bs: set<Sym>, f: NValue, arg: NThunk, entries: map<Sym, NThunk>, fuel: nat)
    requires f.NClosure? && f.param.Pattern? && NForce(bs, fuel, arg) == Ok(NAttrs(entries))
    requires f.param.ellipsis
      || forall x :: x in entries ==> exists i :: 0 <= i < |f.param.formals| && f.param.formals[i].name == x
    requires BindFormals(f.param.formals, entries).Ok? && fuel > 0
    ensures exists binds :: NCall(bs, fuel, f, arg) == NEval(bs, fuel - 1, f.body, NFrame(binds, f.env))
  {
    forall x | x in entries && !f.param.ellipsis
      ensures x in FormalNames(f.param.formals)
    {
      var i :| 0 <= i < |f.param.formals| && f.param.formals[i].name == x;
      assert FormalNames(f.param.formals)[i] == x;
    }
    var binds := BindPattern(f.param, arg, entries).value;
    assert NCall(bs, fuel, f, arg) == NEval(bs, fuel - 1, f.body, NFrame(binds, f.env));
  }

  // ----- what is in scope where -----------------------------------------------------------------------

  /** What a `let` binds is in scope in its own definitions; so is what a recursive set binds. */
  lemma DefinedInItself(bs: set<Sym>, named: NEnv, x: Sym, e: Expr, fuel: nat)
    ensures var set_ := PreSet([Static(x, Value(e))], []);
      && Lexical(SetFrame(set_, named), x) == Some(NDelayed(e, SetFrame(set_, named)))
      && NEval(bs, fuel + 1, Let(set_, Ident(x)), named) == NEval(bs, fuel, e, SetFrame(set_, named))
      && NEval(bs, fuel + 1, Select(AttrSet(true, set_), x), named) == NEval(bs, fuel, e, SetFrame(set_, named))
  {
    var set_ := PreSet([Static(x, Value(e))], []);
    var frame := SetFrame(set_, named);
    assert BindStatics(set_, 0) == map[];
    assert BindStatics(set_, 1) == map[x := NOwn(e)];
    var own := NDelayed(e, frame);
    assert Lexical(frame, x) == Some(own);
    assert NForce(bs, fuel + 1, own) == NEval(bs, fuel, e, frame);
    assert NEval(bs, fuel + 1, Ident(x), frame) == NForce(bs, fuel + 1, own);
    assert SetEntries(set_, true, named)[x] == own;
    SelectIs(bs, fuel + 1, AttrSet(true, set_), x, named, SetEntries(set_, true, named));
  }

  /** What a plain set binds is not: its definitions are read around it. */
  lemma DefinedOutside(bs: set<Sym>, named: NEnv, x: Sym, e: Expr, fuel: nat)
    ensures NEval(bs, fuel + 1, Select(AttrSet(false, PreSet([Static(x, Value(e))], [])), x), named)
      == NEval(bs, fuel, e, named)
  {
    var set_ := PreSet([Static(x, Value(e))], []);
    assert PlainEntries(set_, 0, named) == map[];
    assert PlainEntries(set_, 1, named) == map[x := NDelayed(e, named)];
    assert NForce(bs, fuel + 1, NDelayed(e, named)) == NEval(bs, fuel, e, named);
    SelectIs(bs, fuel + 1, AttrSet(false, set_), x, named, map[x := NDelayed(e, named)]);
  }

  /** A function's body sees what is around the function, and its parameter before that. */
  lemma BodySees(bs: set<Sym>, f: NValue, arg: NThunk, x: Sym, y: Sym, fuel: nat)
    requires f.NClosure? && f.param == IdentParam(y) && f.body == Ident(x) && Lexical(f.env, x).Some?
    ensures x == y ==> NCall(bs, fuel + 1, f, arg) == NForce(bs, fuel, arg)
    ensures x != y ==> NCall(bs, fuel + 1, f, arg) == NForce(bs, fuel, Lexical(f.env, x).value)
  {
    var frame := NFrame(map[y := NGiven(arg)], f.env);
    assert x == y ==> Lexical(frame, x) == Some(arg);
  }

  lemma LooksInside(bs: set<Sym>, around: NEnv, namespace: NThunk, x: Sym, entries: map<Sym, NThunk>, fuel: nat)
    requires NForce(bs, fuel, namespace) == Ok(NAttrs(entries))
    ensures NLookupWiths(bs, fuel, x, NWith(namespace, around)) ==
      if x in entries then NForce(bs, fuel, entries[x]) else NLookupWiths(bs, fuel, x, around)
  {
  }

  /** Of nested `with`s the inner one's set comes first; where it lacks the name, the outer one's. */
  lemma InnerWithFirst(bs: set<Sym>, named: NEnv, outer: Expr, inner: Expr, x: Sym, entries: map<Sym, NThunk>,
                       fuel: nat)
    requires Lexical(named, x).None? && !IsKeyword(x) && x !in bs
    requires NEval(bs, fuel, inner, NWith(NDelayed(outer, named), named)) == Ok(NAttrs(entries))
    ensures var program := With(outer, With(inner, Ident(x)));
      NEval(bs, fuel + 1, program, named) ==
        if x in entries then NForce(bs, fuel + 1, entries[x]) else NEval(bs, fuel + 1, With(outer, Ident(x)), named)
  {
    var around := NWith(NDelayed(outer, named), named);
    var within := NWith(NDelayed(inner, around), around);
    assert NEval(bs, fuel + 1, With(outer, With(inner, Ident(x))), named) == NEval(bs, fuel + 1, Ident(x), within);
    assert Lexical(around, x).None? && Lexical(within, x).None?;
    assert NEval(bs, fuel + 1, With(outer, Ident(x)), named) == NLookupWiths(bs, fuel + 1, x, around);
    assert NEval(bs, fuel + 1, Ident(x), within) == NLookupWiths(bs, fuel + 1, x, within);
    LooksInside(bs, around, NDelayed(inner, around), x, entries, fuel + 1);
  }

  /** A name that nothing binds and no `with` has is undefined. */
  lemma UndefinedIsRefused(bs: set<Sym>, named: NEnv, inner: Expr, x: Sym, entries: map<Sym, NThunk>, fuel: nat)
    requires !IsKeyword(x) && x !in bs
    requires NEval(bs, fuel, inner, NRoot) == Ok(NAttrs(entries)) && x !in entries
    ensures NEval(bs, fuel, Ident(x), NRoot) == Err(UndefinedVariable(x))
    ensures NEval(bs, fuel + 1, With(inner, Ident(x)), NRoot) == Err(UndefinedVariable(x))
  {
    var within := NWith(NDelayed(inner, NRoot), NRoot);
    assert Lexical(NRoot, x).None? && Lexical(within, x).None?;
    assert NEval(bs, fuel + 1, With(inner, Ident(x)), NRoot) == NLookupWiths(bs, fuel + 1, x, within);
    assert NForce(bs, fuel + 1, NDelayed(inner, NRoot)) == Ok(NAttrs(entries));
    assert NLookupWiths(bs, fuel + 1, x, NRoot) == Err(UndefinedVariable(x));
  }

  // ----- patterns ----------------------------------------------------------------------------------------

  /** A pattern's name is what the argument has under it, or else its default, which sees the other names. */
  lemma FormalIsGiven(bs: set<Sym>, f: NValue, arg: NThunk, x: Sym, default: Option<Expr>, entries: map<Sym, NThunk>,
                      fuel: nat)
    requires f.NClosure? && f.param == Pattern([Formal(x, default)], true, None) && f.body == Ident(x)
    requires NForce(bs, fuel + 2, arg) == Ok(NAttrs(entries))
    ensures x in entries ==> NCall(bs, fuel + 2, f, arg) == NForce(bs, fuel + 1, entries[x])
    ensures x !in entries && default.Some? ==>
      NCall(bs, fuel + 2, f, arg) == NEval(bs, fuel, default.value, NFrame(map[x := NOwn(default.value)], f.env))
    ensures x !in entries && default.None? ==> NCall(bs, fuel + 2, f, arg) == Err(MissingArgument(x))
  {
    var formals := [Formal(x, default)];
    assert formals[..0] == [];
    assert BindFormals([], entries) == Ok(map[]);
    if x in entries {
      var frame := NFrame(map[x := NGiven(entries[x])], f.env);
      assert BindFormals(formals, entries) == Ok(map[x := NGiven(entries[x])]);
      assert NCall(bs, fuel + 2, f, arg) == NEval(bs, fuel + 1, Ident(x), frame);
    } else if default.Some? {
      var frame := NFrame(map[x := NOwn(default.value)], f.env);
      assert BindFormals(formals, entries) == Ok(map[x := NOwn(default.value)]);
      assert NCall(bs, fuel + 2, f, arg) == NEval(bs, fuel + 1, Ident(x), frame);
      assert Lexical(frame, x) == Some(NDelayed(default.value, frame));
      assert NEval(bs, fuel + 1, Ident(x), frame) == NForce(bs, fuel + 1, NDelayed(default.value, frame));
    }
  }

  /** The name after `@` is the whole argument. */
  lemma AtIsArgument(bs: set<Sym>, f: NValue, arg: NThunk, x: Sym, entries: map<Sym, NThunk>, fuel: nat)
    requires f.NClosure? && f.param == Pattern([], true, Some(x)) && f.body == Ident(x)
    requires NForce(bs, fuel + 1, arg) == Ok(NAttrs(entries))
    ensures NCall(bs, fuel + 1, f, arg) == NForce(bs, fuel, arg)
  {
    var frame := NFrame(map[x := NGiven(arg)], f.env);
    assert BindFormals([], entries) == Ok(map[]);
    assert BindPattern(f.param, arg, entries) == Ok(map[x := NGiven(arg)]);
    assert NCall(bs, fuel + 1, f, arg) == NEval(bs, fuel, Ident(x), frame);
  }

  // ----- what goes wrong ---------------------------------------------------------------------------------

  /** Only a boolean chooses, only a function is called, and only a set is selected from. */
  lemma WrongKinds(bs: set<Sym>, named: NEnv, e: Expr, other: Expr, more: Expr, x: Sym, v: NValue, fuel: nat)
    requires NEval(bs, fuel, e, named) == Ok(v)
    ensures !(v.NConstant? && v.c.BoolConstant?) ==> NEval(bs, fuel, If(e, other, more), named) == Err(NotABool)
    ensures !v.NClosure? ==> NEval(bs, fuel, Apply(e, other), named) == Err(NotAFunction)
    ensures !v.NAttrs? ==> NEval(bs, fuel, Select(e, x), named) == Err(NotASet)
  {
  }
}
