/** The compiler as it runs: one stack of scopes, pushed and popped around each construct. */
module NixCompiler {
  import opened Wrappers
  import opened NixLang
  import opened NixCompile

  class Compiler {
    const builtins: set<Sym>
    var scopes: seq<Scope>

    constructor (builtins: set<Sym>)
      ensures this.builtins == builtins && scopes == []
    {
      this.builtins := builtins;
      scopes := [];
    }

    method Push(scope: Scope)
      modifies this
      ensures scopes == old(scopes) + [scope]
    {
      scopes := scopes + [scope];
    }

    method Pop()
      requires scopes != []
      modifies this
      ensures scopes == old(scopes)[..|old(scopes)| - 1]
    {
      scopes := scopes[..|scopes| - 1];
    }

    method ResolveName(name: Sym, skip: nat) returns (r: Compiled<Code>)
      ensures r == Resolve(builtins, scopes, skip, name)
    {
      var n := |scopes|;
      var outer := scopes[..n - (if skip < n then skip else n)];
      var k, withs: seq<nat> := |outer|, [];
      assert outer[..k] == outer;
      while k > 0
        invariant 0 <= k <= |outer|
        invariant Search(builtins, outer[..k], skip + (|outer| - k), withs, name) ==
          Resolve(builtins, scopes, skip, name)
      {
        var depth := skip + (|outer| - k);
        assert outer[..k][..k - 1] == outer[..k - 1];
        k := k - 1;
        match outer[k] {
          case Names(slots) =>
            if name in slots {
              return Ok(Var(depth, slots[name]));
            }
          case WithScope =>
            withs := withs + [depth];
        }
      }
      return ResolveFree(builtins, name, withs);
    }

    /** Whether it succeeds or fails, the scopes are as they were. */
    method CompileExpr(e: Expr) returns (r: Compiled<Code>)
      modifies this
      ensures r == Compile(builtins, old(scopes), e) && scopes == old(scopes)
      decreases e, 3
    {
      match e {
        case IntLit(n) =>
          r := Ok(CInt(n));
        case Ident(name) =>
          r := ResolveName(name, 0);
        case Lambda(param, body) =>
          r := CompileLambda(param, body);
        case Apply(func, arg) =>
          var f :- CompileExpr(func);
          var a :- CompileExpr(arg);
          r := Ok(CApply(f, a));
        case Select(expr, attr) =>
          var c :- CompileExpr(expr);
          r := Ok(CSelect(c, attr));
        case If(cond, then_, else_) =>
          var c :- CompileExpr(cond);
          var t :- CompileExpr(then_);
          var f :- CompileExpr(else_);
          r := Ok(CIf(c, t, f));
        case Let(set_, body) =>
          r := CompileLet(set_, body);
        case AttrSet(recursive, set_) =>
          r := CompileSet(set_, recursive);
        case With(namespace, body) =>
          var ns :- CompileExpr(namespace);
          Push(WithScope);
          var b := CompileExpr(body);
          Pop();
          assert scopes == old(scopes);
          var c :- b;
          r := Ok(CWith(ns, c));
      }
    }

    method CompileLambda(param: Param, body: Expr) returns (r: Compiled<Code>)
      modifies this
      ensures r == Compile(builtins, old(scopes), Lambda(param, body)) && scopes == old(scopes)
      decreases Lambda(param, body), 0
    {
      var scope := Names(ScopeOf(param.Names()));
      var p: CParam;
      match param {
        case IdentParam(name) =>
          p := CIdentParam(name);
        case Pattern(formals, ellipsis, at) =>
          var duplicate := Duplicate(param.Names());
          if duplicate.Some? {
            return Err(DuplicateFormal(duplicate.value));
          }
          Push(scope);
          var compiled := CompileDefaults(formals);
          Pop();
          assert scopes == old(scopes);
          var fs :- compiled;
          p := CPattern(fs, ellipsis, at);
      }
      Push(scope);
      var b := CompileExpr(body);
      Pop();
      assert scopes == old(scopes);
      var c :- b;
      r := Ok(CLambda(p, c));
    }

    method CompileDefaults(formals: seq<Formal>) returns (r: Compiled<seq<CFormal>>)
      modifies this
      ensures r == CompileFormals(builtins, old(scopes), formals) && scopes == old(scopes)
      decreases formals, 0
    {
      if formals == [] {
        return Ok([]);
      }
      var default: Option<Code> := None;
      if formals[0].default.Some? {
        var c :- CompileExpr(formals[0].default.value);
        default := Some(c);
      }
      var rest :- CompileDefaults(formals[1..]);
      r := Ok([CFormal(formals[0].name, default)] + rest);
    }

    /** The values of a set or `let`, the scope of its frame being pushed. */
    method CompileValues(statics: seq<Static>, hasFrame: bool, base: nat) returns (r: Compiled<seq<Code>>)
      modifies this
      ensures r == CompileStatics(builtins, old(scopes), hasFrame, base, statics) && scopes == old(scopes)
      decreases statics, 0
    {
      if statics == [] {
        return Ok([]);
      }
      var first: Compiled<Code>;
      match statics[0].binding {
        case Value(e) => first := CompileExpr(e);
        case Inherit(name) => first := ResolveName(name, if hasFrame then 1 else 0);
        case InheritFrom(from, name) => first := Ok(CSelect(Var(0, base + from), name));
      }
      var code :- first;
      var rest :- CompileValues(statics[1..], hasFrame, base);
      r := Ok([code] + rest);
    }

    method CompileExprs(es: seq<Expr>) returns (r: Compiled<seq<Code>>)
      modifies this
      ensures r == CompileAll(builtins, old(scopes), es) && scopes == old(scopes)
      decreases es, 0
    {
      if es == [] {
        return Ok([]);
      }
      var first :- CompileExpr(es[0]);
      var rest :- CompileExprs(es[1..]);
      r := Ok([first] + rest);
    }

    method CompileParts(set_: PreSet, hasFrame: bool, base: nat) returns (r: Compiled<(seq<Code>, seq<Code>)>)
      modifies this
      ensures scopes == old(scopes)
      ensures var values, sources := CompileStatics(builtins, old(scopes), hasFrame, base, set_.statics),
                                     CompileAll(builtins, old(scopes), set_.froms);
        r == if values.Err? then Err(values.error)
             else if sources.Err? then Err(sources.error)
             else Ok((values.value, sources.value))
      decreases set_, 0
    {
      var values :- CompileValues(set_.statics, hasFrame, base);
      var sources :- CompileExprs(set_.froms);
      r := Ok((values, sources));
    }

    /** The slots of a `let` and its body. */
    method CompileLetParts(set_: PreSet, body: Expr) returns (r: Compiled<(seq<Code>, Code)>)
      modifies this
      ensures scopes == old(scopes)
      ensures var values, sources := CompileStatics(builtins, old(scopes), true, |set_.statics|, set_.statics),
                                     CompileAll(builtins, old(scopes), set_.froms);
        var b := Compile(builtins, old(scopes), body);
        r == if values.Err? then Err(values.error) else if sources.Err? then Err(sources.error)
             else if b.Err? then Err(b.error) else Ok((values.value + sources.value, b.value))
      decreases Let(set_, body), 0
    {
      var slots :- CompileParts(set_, true, |set_.statics|);
      var b :- CompileExpr(body);
      r := Ok((slots.0 + slots.1, b));
    }

    /** The same in the scope of its names, which is popped again. */
    method CompileInLet(set_: PreSet, body: Expr) returns (r: Compiled<(seq<Code>, Code)>)
      modifies this
      ensures scopes == old(scopes)
      ensures var inner := InnerScopes(old(scopes), set_, true);
        var values, sources := CompileStatics(builtins, inner, true, |set_.statics|, set_.statics),
          CompileAll(builtins, inner, set_.froms);
        var b := Compile(builtins, inner, body);
        r == if values.Err? then Err(values.error) else if sources.Err? then Err(sources.error)
             else if b.Err? then Err(b.error) else Ok((values.value + sources.value, b.value))
      decreases Let(set_, body), 1
    {
      Push(Names(ScopeOf(StaticNames(set_.statics))));
      r := CompileLetParts(set_, body);
      Pop();
      assert scopes == old(scopes);
    }

    method CompileLet(set_: PreSet, body: Expr) returns (r: Compiled<Code>)
      modifies this
      ensures r == Compile(builtins, old(scopes), Let(set_, body)) && scopes == old(scopes)
      decreases Let(set_, body), 2
    {
      if !SourcesListed(set_) {
        return Err(Malformed);
      }
      var parts :- CompileInLet(set_, body);
      r := Ok(CLet(parts.0, parts.1));
    }

    method CompileSet(set_: PreSet, recursive: bool) returns (r: Compiled<Code>)
      modifies this
      ensures r == Compile(builtins, old(scopes), AttrSet(recursive, set_)) && scopes == old(scopes)
      decreases AttrSet(recursive, set_), 0
    {
      if !SourcesListed(set_) {
        return Err(Malformed);
      }
      var hasFrame := HasFrame(set_, recursive);
      if hasFrame {
        Push(Names(ScopeOf(if recursive then StaticNames(set_.statics) else [])));
      }
      var parts := CompileParts(set_, hasFrame, if recursive then |set_.statics| else 0);
      if hasFrame {
        Pop();
      }
      assert scopes == old(scopes);
      var slots :- parts;
      r := Ok(CompiledSet(set_, recursive, slots.0, slots.1));
    }
  }
}
