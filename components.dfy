/** The rewrite of the statement list of `_createMdxContent`: every variable
    declaration of the leading run becomes `let`, and every missing-component
    check `if (<op> X) f(a, b, …)` of that run becomes
    `if (<op> X) X = _resolveComponent(a, …)`. The scan stops at the first
    statement that is neither. */
module ComponentRewrite {
  import opened EstreeJsx

  /** The local name under which the resolver is imported. */
  const ResolverName := "_resolveComponent"

  /** The declaration kind forced on the leading variable declarations. */
  const LetKind := "let"

  /** The outer shape of a missing-component check: an `if` whose test is a
      unary expression (any operator) over an identifier and whose consequent
      is an expression statement. The alternate is not inspected. */
  predicate IsMissingComponentCheck(s: Stmt)
  {
    s.If? && s.test.Unary? && s.test.argument.Ident? && s.consequent.ExprStmt?
  }

  /** A check whose expression is a call with an identifier callee: the one
      shape that is edited. */
  predicate IsRewritableCheck(s: Stmt)
  {
    IsMissingComponentCheck(s)
    && s.consequent.expression.Call? && s.consequent.expression.callee.Ident?
  }

  /** A statement that lets the scan go on. */
  predicate InCheckPrefix(s: Stmt)
  {
    s.VarDecl? || IsMissingComponentCheck(s)
  }

  /** JavaScript's `args.splice(1, 1)`: drops the element at index 1, and
      drops nothing when there is no such element. */
  function RemoveSecond(args: seq<Expr>): (r: seq<Expr>)
    ensures |args| < 2 ==> r == args
    ensures |args| >= 2 ==> |r| == |args| - 1 && r[0] == args[0]
    ensures |args| >= 2 ==> forall k :: 1 <= k < |r| ==> r[k] == args[k + 1]
  {
    if |args| < 2 then args else args[..1] + args[2..]
  }

  /** What one loop iteration makes of a statement of the leading run. */
  function RewriteStatement(s: Stmt): (r: Stmt)
    requires InCheckPrefix(s)
  {
    if s.VarDecl? then s.(kind := LetKind)
    else if IsRewritableCheck(s) then
      var call := s.consequent.expression;
      s.(consequent := ExprStmt(Assign("=", s.test.argument, Call(Ident(ResolverName), RemoveSecond(call.arguments)))))
    else s
  }

  /** The whole statement list after the rewrite. */
  function RewrittenStatements(s: seq<Stmt>): (r: seq<Stmt>)
  {
    if s == [] || !InCheckPrefix(s[0]) then s
    else [RewriteStatement(s[0])] + RewrittenStatements(s[1..])
  }

  /** The length of the leading run that the scan walks through. */
  function PrefixLength(s: seq<Stmt>): (n: nat)
  {
    if s == [] || !InCheckPrefix(s[0]) then 0 else 1 + PrefixLength(s[1..])
  }

  /** A statement of the leading run that the rewrite has already handled:
      a `let` declaration, or a check whose expression is no identifier call. */
  predicate IsSettled(s: Stmt)
  {
    (s.VarDecl? && s.kind == LetKind) || (IsMissingComponentCheck(s) && !IsRewritableCheck(s))
  }

  /** PrefixLength is the index of the first statement that stops the scan,
      or the length of the list when there is none. */
  lemma {:induction false} PrefixLengthIsFirstStop(s: seq<Stmt>)
    ensures PrefixLength(s) <= |s|
    ensures forall k :: 0 <= k < PrefixLength(s) ==> InCheckPrefix(s[k])
    ensures PrefixLength(s) < |s| ==> !InCheckPrefix(s[PrefixLength(s)])
  {
    if s != [] && InCheckPrefix(s[0]) {
      PrefixLengthIsFirstStop(s[1..]);
      forall k | 1 <= k < PrefixLength(s) ensures InCheckPrefix(s[k]) {
        assert s[k] == s[1..][k - 1];
      }
    }
  }

  /** The rewrite keeps the length of the list, leaves every statement from the
      first stop onward as it was, and rewrites each statement before it on
      its own. */
  lemma {:induction false} RewriteShape(s: seq<Stmt>)
    ensures |RewrittenStatements(s)| == |s|
    ensures PrefixLength(s) <= |s|
    ensures forall k :: PrefixLength(s) <= k < |s| ==> RewrittenStatements(s)[k] == s[k]
    ensures forall k :: 0 <= k < PrefixLength(s) ==>
      InCheckPrefix(s[k]) && RewrittenStatements(s)[k] == RewriteStatement(s[k])
  {
    PrefixLengthIsFirstStop(s);
    if s != [] && InCheckPrefix(s[0]) {
      RewriteShape(s[1..]);
      var r := RewrittenStatements(s);
      assert r == [RewriteStatement(s[0])] + RewrittenStatements(s[1..]);
      forall k | 1 <= k < |s| ensures r[k] == (if k < PrefixLength(s) then RewriteStatement(s[k]) else s[k]) {
        assert r[k] == RewrittenStatements(s[1..])[k - 1];
        assert s[k] == s[1..][k - 1];
      }
    }
  }

  /** The edits made at one index of the leading run: a variable declaration
      keeps its bindings and becomes `let`; a rewritable check keeps its test
      and alternate, and its consequent becomes the assignment of the tested
      identifier to a `_resolveComponent` call without the second argument;
      any other check is left as it was. */
  lemma RewriteAt(s: seq<Stmt>, k: nat)
    requires k < |s| && k < PrefixLength(s)
    ensures |RewrittenStatements(s)| == |s|
    ensures s[k].VarDecl? ==>
      RewrittenStatements(s)[k] == VarDecl(LetKind, s[k].declarations)
    ensures IsRewritableCheck(s[k]) ==>
      RewrittenStatements(s)[k] ==
        If(s[k].test,
           ExprStmt(Assign("=", s[k].test.argument,
                           Call(Ident(ResolverName), RemoveSecond(s[k].consequent.expression.arguments)))),
           s[k].alternate)
    ensures IsMissingComponentCheck(s[k]) && !IsRewritableCheck(s[k]) ==>
      RewrittenStatements(s)[k] == s[k]
  {
    RewriteShape(s);
  }

  /** After one rewrite, the leading run has the same length and every
      statement in it is settled. */
  lemma {:induction false} RewriteSettlesPrefix(s: seq<Stmt>)
    ensures PrefixLength(RewrittenStatements(s)) == PrefixLength(s)
    ensures forall k :: 0 <= k < PrefixLength(s) && k < |RewrittenStatements(s)| ==>
      IsSettled(RewrittenStatements(s)[k])
  {
    if s != [] && InCheckPrefix(s[0]) {
      RewriteSettlesPrefix(s[1..]);
      var r := RewrittenStatements(s);
      assert r[0] == RewriteStatement(s[0]);
      assert r[1..] == RewrittenStatements(s[1..]);
      forall k | 1 <= k < PrefixLength(s) && k < |r| ensures IsSettled(r[k]) {
        assert r[k] == r[1..][k - 1];
      }
    }
  }

  /** A settled statement is a fixed point of the per-statement rewrite. */
  lemma SettledIsFixed(s: Stmt)
    requires IsSettled(s)
    ensures InCheckPrefix(s) && RewriteStatement(s) == s
  {
  }

  /** Running the rewrite twice gives the same list as running it once. */
  lemma {:induction false} RewriteIdempotent(s: seq<Stmt>)
    ensures RewrittenStatements(RewrittenStatements(s)) == RewrittenStatements(s)
  {
    if s != [] && InCheckPrefix(s[0]) {
      var r := RewrittenStatements(s);
      RewriteSettlesPrefix(s);
      assert r[0] == RewriteStatement(s[0]);
      SettledIsFixed(r[0]);
      assert r[1..] == RewrittenStatements(s[1..]);
      RewriteIdempotent(s[1..]);
    }
  }

  /** A list that agrees with the per-statement rewrite up to the first stop
      and with the original from there on is the rewritten list. */
  lemma RewrittenByIndex(original: seq<Stmt>, current: seq<Stmt>)
    requires |current| == |original| && PrefixLength(original) <= |original|
    requires forall k :: 0 <= k < PrefixLength(original) ==>
      InCheckPrefix(original[k]) && current[k] == RewriteStatement(original[k])
    requires forall k :: PrefixLength(original) <= k < |original| ==> current[k] == original[k]
    ensures current == RewrittenStatements(original)
  {
    RewriteShape(original);
  }

  /** The rewrite of `_createMdxContent`'s statement array, in place. */
  method RewriteMdxContentComponents(statements: array<Stmt>)
    modifies statements
    ensures statements[..] == RewrittenStatements(old(statements[..]))
  {
    ghost var original := statements[..];
    PrefixLengthIsFirstStop(original);
    var i := 0;
    while i < statements.Length
      invariant i <= PrefixLength(original)
      invariant forall k :: 0 <= k < i ==> statements[k] == RewriteStatement(original[k])
      invariant forall k :: i <= k < statements.Length ==> statements[k] == original[k]
    {
      var statement := statements[i];

      // Leading variable declarations become reassignable.
      if statement.VarDecl? {
        statements[i] := statement.(kind := LetKind);
        i := i + 1;
        continue;
      }

      if IsMissingComponentCheck(statement) {
        var call := statement.consequent.expression;
        if call.Call? && call.callee.Ident? {
          call := call.(callee := call.callee.(name := ResolverName));
          call := call.(arguments := RemoveSecond(call.arguments));
          statement := statement.(consequent := statement.consequent.(expression := Assign("=", statement.test.argument, call)));
          statements[i] := statement;
        }
        i := i + 1;
        continue;
      }

      // The first statement of any other shape ends the scan.
      break;
    }
    RewrittenByIndex(original, statements[..]);
  }
}
