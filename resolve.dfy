/** The program-level pass: the walker callback applied to each top-level
    statement of the program. It appends the resolver specifier to the
    JSX-runtime import, rewrites the body of `_createMdxContent` inside
    `MDXContent`, and removes the `_missingMdxReference` helper. */
module ResolveComponents {
  import opened EstreeJsx
  import opened ComponentRewrite

  /** The suffix that marks the JSX-runtime import. */
  const RuntimeSuffix := "jsx-runtime"

  const RenderName := "MDXContent"
  const CreateName := "_createMdxContent"
  const HelperName := "_missingMdxReference"

  /** `import { resolveComponent as _resolveComponent }`. */
  const ResolverSpecifier := Named("resolveComponent", ResolverName)

  /** An import whose source is a string ending in `jsx-runtime`. */
  predicate IsRuntimeImport(s: Stmt)
  {
    s.Import? && s.source.Some? && EndsWith(s.source.value, RuntimeSuffix)
  }

  predicate IsRenderFunction(s: Stmt)
  {
    s.FuncDecl? && s.id == Some(RenderName)
  }

  predicate IsCreateFunction(s: Stmt)
  {
    s.FuncDecl? && s.id == Some(CreateName)
  }

  predicate IsHelperFunction(s: Stmt)
  {
    s.FuncDecl? && s.id == Some(HelperName)
  }

  /** The `.find` lookup: the index of the first `_createMdxContent`
      declaration of a statement list, if there is one. */
  function FindCreateFunction(body: seq<Stmt>): (r: Option<nat>)
    ensures r.Some? ==> r.value < |body| && IsCreateFunction(body[r.value])
    ensures r.Some? ==> forall k :: 0 <= k < r.value ==> !IsCreateFunction(body[k])
    ensures r.None? ==> forall k :: 0 <= k < |body| ==> !IsCreateFunction(body[k])
  {
    if body == [] then None
    else if IsCreateFunction(body[0]) then Some(0)
    else match FindCreateFunction(body[1..])
      case None => None
      case Some(j) => Some(j + 1)
  }

  /** `MDXContent` after the rewrite of its first `_createMdxContent`. */
  function RewriteRenderFunction(f: Stmt): (r: Stmt)
    requires f.FuncDecl?
  {
    match FindCreateFunction(f.body)
    case None => f
    case Some(j) =>
      f.(body := f.body[j := f.body[j].(body := RewrittenStatements(f.body[j].body))])
  }

  /** What the walk makes of one top-level statement. */
  datatype Visited = Kept(node: Stmt) | Removed

  /** The walker callback on a top-level statement. A function declaration
      that is neither `MDXContent` nor the helper is entered, but none of its
      children is a function declaration, so each is skipped on sight and
      nothing in it changes. */
  function Enter(s: Stmt): (v: Visited)
  {
    if s.Import? then
      Kept(if IsRuntimeImport(s) then s.(specifiers := s.specifiers + [ResolverSpecifier]) else s)
    else if !s.FuncDecl? then Kept(s)
    else if IsRenderFunction(s) then Kept(RewriteRenderFunction(s))
    else if IsHelperFunction(s) then Removed
    else Kept(s)
  }

  /** The top-level statement list after the walk. */
  function ResolvedBody(body: seq<Stmt>): (r: seq<Stmt>)
  {
    if body == [] then []
    else match Enter(body[0])
      case Removed => ResolvedBody(body[1..])
      case Kept(n) => [n] + ResolvedBody(body[1..])
  }

  /** The statements that survive the walk, in their original order. */
  function Survivors(body: seq<Stmt>): (r: seq<Stmt>)
  {
    if body == [] then []
    else if IsHelperFunction(body[0]) then Survivors(body[1..])
    else [body[0]] + Survivors(body[1..])
  }

  /** The edit the walk makes to a statement that survives it. */
  function ResolveSurvivor(s: Stmt): (r: Stmt)
  {
    if IsRuntimeImport(s) then s.(specifiers := s.specifiers + [ResolverSpecifier])
    else if IsRenderFunction(s) then RewriteRenderFunction(s)
    else s
  }

  /** A statement is removed exactly when it is the helper; every other one is
      kept with the survivor edit. */
  lemma EnterRemovesOnlyHelper(s: Stmt)
    ensures Enter(s) == if IsHelperFunction(s) then Removed else Kept(ResolveSurvivor(s))
  {
  }

  /** The walk is the survivor edit applied to each statement that is not the
      helper, in the original order. */
  lemma {:induction false} ResolvedIsEditedSurvivors(body: seq<Stmt>)
    ensures |ResolvedBody(body)| == |Survivors(body)|
    ensures forall k :: 0 <= k < |Survivors(body)| ==>
      ResolvedBody(body)[k] == ResolveSurvivor(Survivors(body)[k])
  {
    if body != [] {
      ResolvedIsEditedSurvivors(body[1..]);
      EnterRemovesOnlyHelper(body[0]);
    }
  }

  /** The survivors are exactly the statements that are not the helper. */
  lemma {:induction false} SurvivorsAreNonHelpers(body: seq<Stmt>)
    ensures forall s :: s in Survivors(body) <==> s in body && !IsHelperFunction(s)
    ensures |Survivors(body)| <= |body|
  {
    if body != [] {
      SurvivorsAreNonHelpers(body[1..]);
      assert body == [body[0]] + body[1..];
    }
  }

  /** No top-level `_missingMdxReference` declaration is left. */
  lemma {:induction false} HelperRemoved(body: seq<Stmt>)
    ensures forall k :: 0 <= k < |ResolvedBody(body)| ==> !IsHelperFunction(ResolvedBody(body)[k])
  {
    if body != [] {
      HelperRemoved(body[1..]);
      var r := ResolvedBody(body);
      if Enter(body[0]).Kept? {
        forall k | 0 <= k < |r| ensures !IsHelperFunction(r[k]) {
          if k > 0 {
            assert r[k] == ResolvedBody(body[1..])[k - 1];
          }
        }
      }
    }
  }

  /** Import augmentation: a JSX-runtime import keeps its source and its
      specifiers in order and gains exactly one more, the resolver, at the
      end; any other import is left as it was. */
  lemma ImportAugmentation(s: Stmt)
    requires s.Import?
    ensures Enter(s).Kept? && Enter(s).node.Import? && Enter(s).node.source == s.source
    ensures IsRuntimeImport(s) ==>
      |Enter(s).node.specifiers| == |s.specifiers| + 1
      && Enter(s).node.specifiers[..|s.specifiers|] == s.specifiers
      && Enter(s).node.specifiers[|s.specifiers|] == Named("resolveComponent", "_resolveComponent")
    ensures !IsRuntimeImport(s) ==> Enter(s) == Kept(s)
  {
    assert (s.specifiers + [ResolverSpecifier])[..|s.specifiers|] == s.specifiers;
  }

  /** Statements other than imports and function declarations, and function
      declarations other than `MDXContent` and the helper, pass unchanged. */
  lemma OthersUntouched(s: Stmt)
    requires !s.Import? && !IsRenderFunction(s) && !IsHelperFunction(s)
    ensures Enter(s) == Kept(s)
  {
  }

  /** Inside `MDXContent`, only the first `_createMdxContent` child is
      changed, and only in its body, which is rewritten; without such a
      child `MDXContent` is unchanged. */
  lemma RenderFunctionRewrite(f: Stmt)
    requires IsRenderFunction(f)
    ensures Enter(f).Kept?
    ensures Enter(f).node.FuncDecl? && Enter(f).node.id == f.id && Enter(f).node.params == f.params
    ensures |Enter(f).node.body| == |f.body|
    ensures (forall k :: 0 <= k < |f.body| ==> !IsCreateFunction(f.body[k])) ==> Enter(f) == Kept(f)
    ensures forall j :: 0 <= j < |f.body| && IsCreateFunction(f.body[j])
                        && (forall k :: 0 <= k < j ==> !IsCreateFunction(f.body[k])) ==>
      Enter(f).node.body[j] == FuncDecl(f.body[j].id, f.body[j].params, RewrittenStatements(f.body[j].body))
      && forall k :: 0 <= k < |f.body| && k != j ==> Enter(f).node.body[k] == f.body[k]
  {
  }

  /** The lookup depends only on which statements are `_createMdxContent`
      declarations. */
  lemma FindSameMarks(a: seq<Stmt>, b: seq<Stmt>)
    requires |a| == |b|
    requires forall k :: 0 <= k < |a| ==> IsCreateFunction(a[k]) == IsCreateFunction(b[k])
    ensures FindCreateFunction(a) == FindCreateFunction(b)
  {
  }

  /** Rewriting `MDXContent` a second time changes nothing. */
  lemma RenderRewriteIdempotent(f: Stmt)
    requires f.FuncDecl?
    ensures RewriteRenderFunction(f).FuncDecl?
    ensures RewriteRenderFunction(RewriteRenderFunction(f)) == RewriteRenderFunction(f)
  {
    match FindCreateFunction(f.body)
    case None =>
    case Some(j) =>
      var g := RewriteRenderFunction(f);
      FindSameMarks(f.body, g.body);
      RewriteIdempotent(f.body[j].body);
      assert g.body[j].body == RewrittenStatements(f.body[j].body);
      assert g.body[j := g.body[j].(body := RewrittenStatements(g.body[j].body))] == g.body;
  }

  /** The survivor edit run again on its own output changes nothing except
      that a JSX-runtime import gains another resolver specifier. */
  lemma ResolveSurvivorTwice(s: Stmt)
    requires !IsHelperFunction(s)
    ensures !IsHelperFunction(ResolveSurvivor(s))
    ensures ResolveSurvivor(ResolveSurvivor(s)) ==
      if IsRuntimeImport(s) then ResolveSurvivor(s).(specifiers := ResolveSurvivor(s).specifiers + [ResolverSpecifier])
      else ResolveSurvivor(s)
  {
    if IsRenderFunction(s) {
      RenderRewriteIdempotent(s);
    }
  }

  /** The walk is not idempotent: a second pass over its output keeps the
      same statements and changes each JSX-runtime import, and only those,
      by appending one more resolver specifier. */
  lemma {:induction false} SecondPassOnlyAddsSpecifiers(body: seq<Stmt>)
    ensures |ResolvedBody(ResolvedBody(body))| == |ResolvedBody(body)|
    ensures forall k :: 0 <= k < |ResolvedBody(body)| ==>
      ResolvedBody(ResolvedBody(body))[k] ==
        if IsRuntimeImport(ResolvedBody(body)[k])
        then ResolvedBody(body)[k].(specifiers := ResolvedBody(body)[k].specifiers + [ResolverSpecifier])
        else ResolvedBody(body)[k]
  {
    if body != [] {
      SecondPassOnlyAddsSpecifiers(body[1..]);
      EnterRemovesOnlyHelper(body[0]);
      if !IsHelperFunction(body[0]) {
        var s := body[0];
        var n := ResolveSurvivor(s);
        var r := ResolvedBody(body);
        var tail := ResolvedBody(body[1..]);
        assert r == [n] + tail;
        ResolveSurvivorTwice(s);
        EnterRemovesOnlyHelper(n);
        assert IsRuntimeImport(n) == IsRuntimeImport(s);
        assert r[1..] == tail;
        assert ResolvedBody(r) == [ResolveSurvivor(n)] + ResolvedBody(tail);
        forall k | 1 <= k < |r|
          ensures ResolvedBody(r)[k] ==
            if IsRuntimeImport(r[k]) then r[k].(specifiers := r[k].specifiers + [ResolverSpecifier]) else r[k]
        {
          assert r[k] == tail[k - 1];
          assert ResolvedBody(r)[k] == ResolvedBody(tail)[k - 1];
        }
      }
    }
  }

  /** On any program that has a JSX-runtime import, two passes give a
      different tree from one. */
  lemma TwoPassesDiffer(body: seq<Stmt>, i: nat)
    requires i < |body| && IsRuntimeImport(body[i])
    ensures ResolvedBody(ResolvedBody(body)) != ResolvedBody(body)
  {
    SurvivorsAreNonHelpers(body);
    var live := Survivors(body);
    assert body[i] in live;
    var m :| 0 <= m < |live| && live[m] == body[i];
    ResolvedIsEditedSurvivors(body);
    SecondPassOnlyAddsSpecifiers(body);
    var once := ResolvedBody(body);
    assert once[m] == body[i].(specifiers := body[i].specifiers + [ResolverSpecifier]);
    assert IsRuntimeImport(once[m]);
    assert |ResolvedBody(once)[m].specifiers| == |once[m].specifiers| + 1;
  }

  /** The end-to-end scenario: an import from the JSX runtime, `MDXContent`
      holding `_createMdxContent` with one declared component and its check,
      and the helper. */
  lemma EndToEndScenario()
    ensures
      var create := FuncDecl(Some(CreateName), [], [
        VarDecl("const", [Declarator(Ident("Foo"), None)]),
        If(Unary("!", Ident("Foo")),
           ExprStmt(Call(Ident(HelperName), [StringLit("Foo"), StringLit("a.mdx")])), None),
        Return(Some(Call(Ident("_jsx"), [Ident("Foo")])))]);
      var body := [
        Import(Some("react/jsx-runtime"), [Named("jsx", "_jsx")]),
        FuncDecl(Some(RenderName), [], [create]),
        FuncDecl(Some(HelperName), [], [])];
      ResolvedBody(body) == [
        Import(Some("react/jsx-runtime"), [Named("jsx", "_jsx"), Named("resolveComponent", "_resolveComponent")]),
        FuncDecl(Some(RenderName), [], [FuncDecl(Some(CreateName), [], [
          VarDecl("let", [Declarator(Ident("Foo"), None)]),
          If(Unary("!", Ident("Foo")),
             ExprStmt(Assign("=", Ident("Foo"), Call(Ident("_resolveComponent"), [StringLit("Foo")]))), None),
          Return(Some(Call(Ident("_jsx"), [Ident("Foo")])))])])]
  {
    var statements := [
      VarDecl("const", [Declarator(Ident("Foo"), None)]),
      If(Unary("!", Ident("Foo")),
         ExprStmt(Call(Ident(HelperName), [StringLit("Foo"), StringLit("a.mdx")])), None),
      Return(Some(Call(Ident("_jsx"), [Ident("Foo")])))];
    var create := FuncDecl(Some(CreateName), [], statements);
    var runtime := Import(Some("react/jsx-runtime"), [Named("jsx", "_jsx")]);
    var render := FuncDecl(Some(RenderName), [], [create]);
    var helper := FuncDecl(Some(HelperName), [], []);
    var body := [runtime, render, helper];

    assert "react/jsx-runtime"[6..] == RuntimeSuffix;
    assert IsRuntimeImport(runtime);
    var rewritten := [
      VarDecl("let", [Declarator(Ident("Foo"), None)]),
      If(Unary("!", Ident("Foo")),
         ExprStmt(Assign("=", Ident("Foo"), Call(Ident("_resolveComponent"), [StringLit("Foo")]))), None),
      Return(Some(Call(Ident("_jsx"), [Ident("Foo")])))];
    assert RemoveSecond([StringLit("Foo"), StringLit("a.mdx")]) == [StringLit("Foo")];
    assert RewriteStatement(statements[0]) == rewritten[0];
    assert RewriteStatement(statements[1]) == rewritten[1];
    assert statements[1..] == [statements[1], statements[2]];
    assert statements[1..][1..] == [statements[2]];
    assert RewrittenStatements([statements[2]]) == [statements[2]];
    assert RewrittenStatements(statements[1..]) == rewritten[1..];
    assert RewrittenStatements(statements) == rewritten;
    assert FindCreateFunction([create]) == Some(0);
    var runtime' := Import(Some("react/jsx-runtime"), [Named("jsx", "_jsx"), ResolverSpecifier]);
    var render' := FuncDecl(Some(RenderName), [], [FuncDecl(Some(CreateName), [], rewritten)]);
    assert runtime.specifiers + [ResolverSpecifier] == runtime'.specifiers;
    assert Enter(runtime) == Kept(runtime');
    assert [create][0 := create.(body := rewritten)] == render'.body;
    assert RewriteRenderFunction(render) == render';
    assert Enter(render) == Kept(render');
    assert Enter(helper) == Removed;
    assert [helper][1..] == [];
    assert ResolvedBody([helper]) == [];
    assert [render, helper][1..] == [helper];
    assert ResolvedBody([render, helper]) == [render'];
    assert body[1..] == [render, helper];
    assert ResolvedBody(body) == [runtime', render'];
  }

  /** One step of the walk, seen from index `i`. */
  lemma ResolvedFrom(body: seq<Stmt>, i: nat)
    requires i < |body|
    ensures ResolvedBody(body[i..]) ==
      match Enter(body[i])
      case Removed => ResolvedBody(body[i + 1..])
      case Kept(n) => [n] + ResolvedBody(body[i + 1..])
  {
    assert body[i..][0] == body[i];
    assert body[i..][1..] == body[i + 1..];
  }

  /** Storing the kept node at index `i` and moving past it keeps the walk's
      loop invariant. */
  lemma KeptStep(body: seq<Stmt>, i: nat, n: Stmt)
    requires i < |body| && Enter(body[i]) == Kept(n)
    ensures body[i := n][..i + 1] + ResolvedBody(body[i := n][i + 1..]) == body[..i] + ResolvedBody(body[i..])
  {
    ResolvedFrom(body, i);
    assert body[i := n][..i + 1] == body[..i] + [n];
    assert body[i := n][i + 1..] == body[i + 1..];
  }

  /** Removing the statement at index `i` and staying at `i` keeps the walk's
      loop invariant. */
  lemma RemovedStep(body: seq<Stmt>, i: nat)
    requires i < |body| && Enter(body[i]) == Removed
    ensures (body[..i] + body[i + 1..])[..i] + ResolvedBody((body[..i] + body[i + 1..])[i..])
            == body[..i] + ResolvedBody(body[i..])
  {
    ResolvedFrom(body, i);
    assert (body[..i] + body[i + 1..])[..i] == body[..i];
    assert (body[..i] + body[i + 1..])[i..] == body[i + 1..];
  }

  /** The program node, whose statement list the walk edits in place. */
  class Program {
    var body: seq<Stmt>

    constructor (body: seq<Stmt>)
      ensures this.body == body
    {
      this.body := body;
    }
  }

  /** The walk over the top-level statements. As in the walker, removing the
      statement at index `i` makes the next statement the one at index `i`. */
  method ResolveMissingComponents(tree: Program) returns (r: Program)
    modifies tree
    ensures r == tree
    ensures tree.body == ResolvedBody(old(tree.body))
  {
    var i := 0;
    while i < |tree.body|
      invariant i <= |tree.body|
      invariant tree.body[..i] + ResolvedBody(tree.body[i..]) == ResolvedBody(old(tree.body))
      decreases |tree.body| - i
    {
      var node := tree.body[i];
      ghost var before := tree.body;

      if node.Import? {
        if node.source.Some? && EndsWith(node.source.value, RuntimeSuffix) {
          node := node.(specifiers := node.specifiers + [ResolverSpecifier]);
        }
        tree.body := tree.body[i := node];
        KeptStep(before, i, node);
        i := i + 1;
      } else if !node.FuncDecl? {
        KeptStep(before, i, node);
        assert before[i := node] == before;
        i := i + 1;
      } else if node.id == Some(RenderName) {
        var found := FindCreateFunction(node.body);
        if found.Some? {
          var create := node.body[found.value];
          var statements := new Stmt[|create.body|](k requires 0 <= k < |create.body| => create.body[k]);
          assert statements[..] == create.body;
          RewriteMdxContentComponents(statements);
          node := node.(body := node.body[found.value := create.(body := statements[..])]);
        }
        tree.body := tree.body[i := node];
        KeptStep(before, i, node);
        i := i + 1;
      } else if node.id == Some(HelperName) {
        tree.body := tree.body[..i] + tree.body[i + 1..];
        RemovedStep(before, i);
      } else {
        KeptStep(before, i, node);
        assert before[i := node] == before;
        i := i + 1;
      }
    }
    return tree;
  }
}
