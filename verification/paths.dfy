/** Canonical paths: `.`, `..` and repeated slashes resolved without looking at any file system. */
module Paths {
  // ----- components -----------------------------------------------------------------------------------

  /** The pieces between slashes. */
  function Split(p: string): (parts: seq<string>)
    ensures parts != []
  {
    if p == "" then [""]
    else
      var rest := Split(p[1..]);
      if p[0] == '/' then [""] + rest else [[p[0]] + rest[0]] + rest[1..]
  }

  /** One component taken from a directory. */
  function Walk(parts: seq<string>, component: string): seq<string> {
    if component == "" || component == "." then parts
    else if component == ".." then if parts == [] then [] else parts[..|parts| - 1]
    else parts + [component]
  }

  function WalkAll(parts: seq<string>, components: seq<string>): seq<string>
    decreases |components|
  {
    if components == [] then parts else WalkAll(Walk(parts, components[0]), components[1..])
  }

  /** The components a path leads to from the root. */
  function Components(p: string): seq<string> {
    WalkAll([], Split(p))
  }

  function Rendered(parts: seq<string>): string {
    if parts == [] then "" else Rendered(parts[..|parts| - 1]) + "/" + parts[|parts| - 1]
  }

  function Render(parts: seq<string>): string {
    if parts == [] then "/" else Rendered(parts)
  }

  const COREPKGS := "<nix>"

  /** Within the files Nix ships with itself, the rest of the path is made canonical. */
  function Canon(p: string): string {
    if COREPKGS <= p then COREPKGS + Canon(p[5..]) else Render(Components(p))
  }

  // ----- what they are ---------------------------------------------------------------------------------------

  /** A component that names something. */
  predicate IsName(c: string) {
    c != "" && c != "." && c != ".." && '/' !in c
  }

  predicate AllNames(parts: seq<string>) {
    forall i :: 0 <= i < |parts| ==> IsName(parts[i])
  }

  predicate NoSlashes(components: seq<string>) {
    forall i :: 0 <= i < |components| ==> '/' !in components[i]
  }

  lemma {:induction false} SplitNoSlashes(p: string)
    ensures NoSlashes(Split(p))
    decreases |p|
  {
    if p != "" {
      SplitNoSlashes(p[1..]);
    }
  }

  lemma {:induction false} WalkedNames(parts: seq<string>, components: seq<string>)
    requires AllNames(parts) && NoSlashes(components)
    ensures AllNames(WalkAll(parts, components))
    decreases |components|
  {
    if components != [] {
      WalkedNames(Walk(parts, components[0]), components[1..]);
    }
  }

  lemma {:induction false} WalkConcat(parts: seq<string>, a: seq<string>, b: seq<string>)
    ensures WalkAll(parts, a + b) == WalkAll(WalkAll(parts, a), b)
    decreases |a|
  {
    if a == [] {
      assert a + b == b;
    } else {
      assert (a + b)[0] == a[0] && (a + b)[1..] == a[1..] + b;
      WalkConcat(Walk(parts, a[0]), a[1..], b);
    }
  }

  /** Walking names only appends them. */
  lemma {:induction false} WalkNames(parts: seq<string>, names: seq<string>)
    requires AllNames(names)
    ensures WalkAll(parts, names) == parts + names
    decreases |names|
  {
    if names == [] {
      assert parts + names == parts;
    } else {
      WalkNames(parts + [names[0]], names[1..]);
      assert parts + names == parts + [names[0]] + names[1..];
    }
  }

  lemma {:induction false} SplitJoin(a: string, b: string)
    ensures Split(a + "/" + b) == Split(a) + Split(b)
    decreases |a|
  {
    var p := a + "/" + b;
    if a == "" {
      assert p[0] == '/' && p[1..] == b;
    } else {
      assert p[0] == a[0] && p[1..] == a[1..] + "/" + b;
      SplitJoin(a[1..], b);
    }
  }

  lemma {:induction false} SplitOne(c: string)
    requires '/' !in c
    ensures Split(c) == [c]
    decreases |c|
  {
    if c != "" {
      SplitOne(c[1..]);
      assert [c[0]] + c[1..] == c;
    }
  }

  lemma {:induction false} SplitRendered(parts: seq<string>)
    requires AllNames(parts)
    ensures Split(Rendered(parts)) == [""] + parts
    decreases |parts|
  {
    if parts != [] {
      var n := |parts| - 1;
      SplitRendered(parts[..n]);
      SplitJoin(Rendered(parts[..n]), parts[n]);
      SplitOne(parts[n]);
      assert parts == parts[..n] + [parts[n]];
    }
  }

  /** A canonical path has exactly the components it was made of. */
  lemma RenderedComponents(parts: seq<string>)
    requires AllNames(parts)
    ensures Components(Render(parts)) == parts
  {
    if parts == [] {
      assert "/" == "" + "/" + "";
      SplitJoin("", "");
      WalkConcat([], [""], [""]);
    } else {
      SplitRendered(parts);
      WalkConcat([], [""], parts);
      WalkNames([], parts);
      assert [] + parts == parts;
    }
  }

  /** So components and canonical paths stand for each other. */
  lemma RenderInjective(parts: seq<string>, others: seq<string>)
    requires AllNames(parts) && AllNames(others) && Render(parts) == Render(others)
    ensures parts == others
  {
    RenderedComponents(parts);
    RenderedComponents(others);
  }

  lemma ComponentsAreNames(p: string)
    ensures AllNames(Components(p))
  {
    SplitNoSlashes(p);
    WalkedNames([], Split(p));
  }

  lemma RenderAbsolute(parts: seq<string>)
    ensures Render(parts) != "" && Render(parts)[0] == '/'
  {
    if parts != [] {
      RenderedAbsolute(parts);
    }
  }

  lemma {:induction false} RenderedAbsolute(parts: seq<string>)
    requires parts != []
    ensures Rendered(parts) != "" && Rendered(parts)[0] == '/'
    decreases |parts|
  {
    if |parts| > 1 {
      RenderedAbsolute(parts[..|parts| - 1]);
    }
  }

  /** Making a canonical path canonical changes nothing. */
  lemma {:induction false} CanonIdempotent(p: string)
    ensures Canon(Canon(p)) == Canon(p)
    decreases |p|
  {
    if COREPKGS <= p {
      CanonIdempotent(p[5..]);
      assert (COREPKGS + Canon(p[5..]))[5..] == Canon(p[5..]);
    } else {
      ComponentsAreNames(p);
      RenderAbsolute(Components(p));
      RenderedComponents(Components(p));
    }
  }

  // ----- what is resolved ------------------------------------------------------------------------------------

  /** Going one component further, by texts. */
  lemma ComponentAfter(p: string, c: string)
    requires '/' !in c
    ensures Components(p + "/" + c) == Walk(Components(p), c)
  {
    SplitJoin(p, c);
    SplitOne(c);
    WalkConcat([], Split(p), [c]);
  }

  lemma NotCorepkgs(p: string, rest: string)
    requires !(COREPKGS <= p)
    ensures !(COREPKGS <= p + "/" + rest)
  {
    var q := p + "/" + rest;
    if |p| < 5 {
      assert q[|p|] == '/' && COREPKGS[|p|] != '/';
    } else {
      assert q[..5] == p[..5];
    }
  }

  /** So canonical paths change with each further component as follows. */
  lemma CanonAfter(p: string, c: string)
    requires '/' !in c && !(COREPKGS <= p)
    ensures Canon(p + "/" + c) == Render(Walk(Components(p), c))
  {
    NotCorepkgs(p, c);
    ComponentAfter(p, c);
  }

  /** A name goes one down. */
  lemma CanonOfName(p: string, name: string)
    requires IsName(name) && !(COREPKGS <= p)
    ensures Canon(p + "/" + name) == (if Canon(p) == "/" then "" else Canon(p)) + "/" + name
  {
    CanonAfter(p, name);
    ComponentsAreNames(p);
    RenderedLast(Components(p), name);
  }

  lemma RenderedLast(parts: seq<string>, name: string)
    requires AllNames(parts)
    ensures Render(parts + [name]) == (if Render(parts) == "/" then "" else Render(parts)) + "/" + name
  {
    var more := parts + [name];
    assert more[..|more| - 1] == parts && more[|more| - 1] == name;
    if parts == [] {
      assert Render(parts) == "/" && Rendered(parts) == "";
    } else {
      LongerThanRoot(parts);
    }
  }

  lemma LongerThanRoot(parts: seq<string>)
    requires AllNames(parts) && parts != []
    ensures |Render(parts)| > 1
  {
    assert |parts[|parts| - 1]| > 0;
  }

  /** `.` and a further slash change nothing, nor does a name with `..` after it. */
  lemma CanonOfDots(p: string, name: string)
    requires IsName(name) && !(COREPKGS <= p)
    ensures Canon(p + "/") == Canon(p) && Canon(p + "/" + ".") == Canon(p)
    ensures Canon(p + "/" + name + "/" + "..") == Canon(p)
  {
    CanonAfter(p, "");
    assert p + "/" + "" == p + "/";
    CanonAfter(p, ".");
    NotCorepkgs(p, name);
    CanonAfter(p + "/" + name, "..");
    ComponentAfter(p, name);
    assert (Components(p) + [name])[..|Components(p)|] == Components(p);
  }

  /** The root is canonical, and there is nothing above it. */
  lemma CanonOfRoot()
    ensures Canon("") == Canon("/") == Canon("/..") == "/"
  {
    SplitOne("");
    CanonAfter("", "");
    assert "" + "/" + "" == "/";
    CanonAfter("", "..");
    assert "" + "/" + ".." == "/..";
  }

  // ----- joining ---------------------------------------------------------------------------------------------

  function TrimSlashes(p: string): string {
    if p != "" && p[|p| - 1] == '/' then TrimSlashes(p[..|p| - 1]) else p
  }

  function Join(dir: string, name: string): string {
    if dir == "" then name else if name == "" then dir else TrimSlashes(dir) + "/" + name
  }

  lemma {:induction false} TrimmedComponents(p: string)
    ensures Components(TrimSlashes(p)) == Components(p)
    decreases |p|
  {
    if p != "" && p[|p| - 1] == '/' {
      var most := p[..|p| - 1];
      TrimmedComponents(most);
      assert p == most + "/" + "";
      SplitJoin(most, "");
      WalkConcat([], Split(most), [""]);
    }
  }

  /** `d` is `p` without the slashes it ends with. */
  predicate IsTrimmed(d: string, p: string) {
    d <= p && (d == "" || d[|d| - 1] != '/') && forall i :: |d| <= i < |p| ==> p[i] == '/'
  }

  lemma {:induction false} TrimSlashesIs(p: string)
    ensures IsTrimmed(TrimSlashes(p), p)
    decreases |p|
  {
    if p != "" && p[|p| - 1] == '/' {
      TrimSlashesIs(p[..|p| - 1]);
    }
  }

  /** One slash is put between the two, and none where either is empty. */
  lemma JoinIs(dir: string, name: string)
    ensures Join("", name) == name && Join(dir, "") == dir
    ensures dir != "" && name != "" ==> exists d :: IsTrimmed(d, dir) && Join(dir, name) == d + "/" + name
  {
    TrimSlashesIs(dir);
  }

  /** A joined path leads where walking the name from the directory does. */
  lemma JoinWalks(dir: string, name: string)
    ensures Components(Join(dir, name)) == WalkAll(Components(dir), Split(name))
  {
    if dir != "" && name != "" {
      TrimmedComponents(dir);
      SplitJoin(TrimSlashes(dir), name);
      WalkConcat([], Split(TrimSlashes(dir)), Split(name));
    }
  }

  /** For a single name, to that entry of the directory. */
  lemma JoinEntry(dir: string, name: string)
    requires IsName(name)
    ensures Components(Join(dir, name)) == Components(dir) + [name]
  {
    JoinWalks(dir, name);
    SplitOne(name);
  }

  // ----- the loops ---------------------------------------------------------------------------------------------

  method CanonPath(p: string) returns (out: string)
    ensures out == Canon(p)
    decreases |p|
  {
    if COREPKGS <= p {
      var rest := CanonPath(p[5..]);
      return COREPKGS + rest;
    }
    var components := Split(p);
    var parts: seq<string> := [];
    for k := 0 to |components|
      invariant WalkAll([], components) == WalkAll(parts, components[k..])
    {
      var comp := components[k];
      assert components[k..][0] == comp && components[k..][1..] == components[k + 1..];
      if comp == "" || comp == "." {
      } else if comp == ".." {
        if parts != [] {
          parts := parts[..|parts| - 1];
        }
      } else {
        parts := parts + [comp];
      }
    }
    assert components[|components|..] == [];
    out := RenderParts(parts);
  }

  method RenderParts(parts: seq<string>) returns (out: string)
    ensures out == Render(parts)
  {
    if parts == [] {
      return "/";
    }
    out := "";
    for k := 0 to |parts|
      invariant out == Rendered(parts[..k])
    {
      assert parts[..k + 1][..k] == parts[..k];
      out := out + "/";
      out := out + parts[k];
    }
    assert parts[..|parts|] == parts;
  }
}
