# recma-vue-resolve-components, modelled in Dafny

The recma plugin `recmaVueResolveComponents` rewrites the program tree that the
MDX compiler emits so that a Vue build can resolve components statically. It
makes one pass over the top-level statements of the program:

- an `import` whose source is a string ending in `jsx-runtime` gains the
  specifier `resolveComponent as _resolveComponent`, appended last;
- the helper `function _missingMdxReference` is removed;
- inside `function MDXContent`, the first direct child
  `function _createMdxContent` has its statement list rewritten: every
  variable declaration of the leading run becomes `let`, and every check
  `if (<unary> X) f(a, b, …)` of that run becomes
  `if (<unary> X) X = _resolveComponent(a, …)`; the scan stops at the first
  statement of any other shape;
- every other statement is left as it is, and the same tree is returned.

Files:

- `estree.dfy` (module `EstreeJsx`): the part of the ESTree/JSX tree the pass
  looks at, as datatypes. Node kinds it never inspects are opaque `Other…`
  nodes; `StringLit` and `Return` are not inspected either and serve only to
  write out the concrete program of `EndToEndScenario`. Nodes are values.
- `components.dfy` (module `ComponentRewrite`): `rewriteMdxContentComponents`.
  The method `RewriteMdxContentComponents` edits an `array<Stmt>` in place
  with the source's index loop, `continue` and `break`, and is proved equal to
  the function `RewrittenStatements` of the old contents. The lemmas state what
  that function does.
- `resolve.dfy` (module `ResolveComponents`): `resolveMissingComponents`. The
  walker callback is the function `Enter`, which yields the kept node or
  `Removed`. `ResolvedBody` is the whole walk. The class `Program` holds the
  top-level statement list. The method `ResolveMissingComponents` walks it in
  place as the walker does: a removal keeps the index, so the next statement
  is visited at that index. It is proved equal to `ResolvedBody`, and it
  returns the tree it was given.

Details of the code that the model keeps:

- The pass is not idempotent: line 34 appends the specifier on every pass,
  so a second pass adds a duplicate (`SecondPassOnlyAddsSpecifiers`,
  `TwoPassesDiffer`). The statement rewrite on its own is idempotent
  (`RewriteIdempotent`).
- Line 83 accepts any unary operator in the test of a check, not only `!`.
- `splice(1, 1)` at line 98 drops the argument at index 1, and drops nothing
  when there are fewer than two arguments.
- Only top-level `_missingMdxReference` declarations are removed (lines
  56-57). Nested ones are never visited: declarations inside `MDXContent` are
  skipped with it, and the children of other functions are skipped on sight.
- A check written with braces, `if (!Foo) { _missingMdxReference(…) }`, has a
  block statement as its consequent. It fails the expression-statement test
  at line 85 and ends the scan, so it and every statement after it are left
  unchanged. The model does the same: a block is an `OtherStmt`.

## Model

| member | source | states |
|---|---|---|
| `ComponentRewrite.RemoveSecond` | lib/plugin/recma-vue-resolve-components.js:98 | `splice(1, 1)`: with two or more arguments the result is one shorter, keeps the first argument and shifts the rest down past index 1; with fewer it is the input |
| `ComponentRewrite.PrefixLengthIsFirstStop` | lib/plugin/recma-vue-resolve-components.js:71-112 | the scanned run's length is the index of the first statement that is neither a variable declaration nor a check of the accepted outer shape, or the list's length if there is none |
| `ComponentRewrite.RewriteShape` | lib/plugin/recma-vue-resolve-components.js:71-112 | the rewrite keeps the list's length; every statement from the first stop onward is unchanged; each one before it is rewritten on its own |
| `ComponentRewrite.RewriteAt` | lib/plugin/recma-vue-resolve-components.js:75-108 | in the leading run, a variable declaration keeps its bindings and gets kind `let`; a check whose expression is a call with an identifier callee keeps its test and alternate, and its consequent becomes `X = _resolveComponent(args without index 1)` with X the tested identifier; any other check is unchanged |
| `ComponentRewrite.RewriteSettlesPrefix` | lib/plugin/recma-vue-resolve-components.js:75-112 | after one rewrite the scanned run has the same length, and every statement in it is a `let` declaration or a check whose expression is no identifier call, such as the new assignment |
| `ComponentRewrite.SettledIsFixed` | lib/plugin/recma-vue-resolve-components.js:75-108 | a `let` declaration or a check whose expression is no identifier call is left as it is by one loop iteration |
| `ComponentRewrite.RewriteIdempotent` | lib/plugin/recma-vue-resolve-components.js:70-114 | running the statement rewrite twice gives the same list as running it once |
| `ComponentRewrite.RewriteMdxContentComponents` | lib/plugin/recma-vue-resolve-components.js:70-114 | the in-place loop leaves the array equal to the rewritten list of its old contents |
| `ResolveComponents.FindCreateFunction` | lib/plugin/recma-vue-resolve-components.js:48-49 | the lookup returns the index of a `_createMdxContent` declaration with none before it, or nothing when the list holds none |
| `ResolveComponents.EnterRemovesOnlyHelper` | lib/plugin/recma-vue-resolve-components.js:27-59 | the callback removes a top-level statement exactly when it is a function declaration named `_missingMdxReference`; every other one is kept with the survivor edit |
| `ResolveComponents.ResolvedIsEditedSurvivors` | lib/plugin/recma-vue-resolve-components.js:25-60 | the walk's output has one statement per survivor, in the survivors' order, each the survivor edit of its survivor |
| `ResolveComponents.SurvivorsAreNonHelpers` | lib/plugin/recma-vue-resolve-components.js:56-57 | the survivors are exactly the input's statements that are not the helper, and there are no more of them than input statements |
| `ResolveComponents.HelperRemoved` | lib/plugin/recma-vue-resolve-components.js:56-57 | no top-level function declaration named `_missingMdxReference` is left after the walk |
| `ResolveComponents.ImportAugmentation` | lib/plugin/recma-vue-resolve-components.js:31-39 | a JSX-runtime import keeps its source and its specifiers in order and gains exactly one more at the end, imported `resolveComponent`, local `_resolveComponent`; any other import, including one whose source is not a string, is unchanged |
| `ResolveComponents.OthersUntouched` | lib/plugin/recma-vue-resolve-components.js:42-58 | a statement that is not an import, and a function declaration not named `MDXContent` or `_missingMdxReference`, is kept unchanged |
| `ResolveComponents.RenderFunctionRewrite` | lib/plugin/recma-vue-resolve-components.js:45-54 | `MDXContent` keeps its name, parameters and body length; only its first `_createMdxContent` child changes, and only its body, which is rewritten; without such a child `MDXContent` is unchanged |
| `ResolveComponents.RenderRewriteIdempotent` | lib/plugin/recma-vue-resolve-components.js:45-54 | rewriting `MDXContent` a second time changes nothing |
| `ResolveComponents.ResolveSurvivorTwice` | lib/plugin/recma-vue-resolve-components.js:31-55 | applying the survivor edit to its own output changes nothing except that a JSX-runtime import gains another resolver specifier |
| `ResolveComponents.SecondPassOnlyAddsSpecifiers` | lib/plugin/recma-vue-resolve-components.js:24-63 | a second walk keeps every statement of the first walk's output in place and changes only the JSX-runtime imports, each of which gains one more resolver specifier |
| `ResolveComponents.TwoPassesDiffer` | lib/plugin/recma-vue-resolve-components.js:33-38 | on any program with a JSX-runtime import, two walks give a different tree from one |
| `ResolveComponents.EndToEndScenario` | lib/plugin/recma-vue-resolve-components.js:24-114 | on a program with a JSX-runtime import, `MDXContent` holding `_createMdxContent` with `const Foo`, `if (!Foo) _missingMdxReference("Foo", "a.mdx")` and `return _jsx(Foo)`, and the helper: the import gains the resolver specifier, `Foo` becomes `let`, the check becomes `Foo = _resolveComponent("Foo")`, the return is untouched and the helper is gone |
| `ResolveComponents.ResolveMissingComponents` | lib/plugin/recma-vue-resolve-components.js:24-63 | the in-place walk leaves the program's statements equal to the walk of the old statements, and returns the tree it was given |

## Left out

- The `unified` plugin wrapper `recmaVueResolveComponents` (lines 15-17) only
  returns a function that calls `resolveMissingComponents`. It and the JSDoc
  type definitions (lines 3-8) are not modelled.
- The internals of `estree-walker` are not modelled. Only its enter, skip and
  remove behaviour on the top-level statements is. The root `Program` node
  passes through. A function declaration that is neither `MDXContent` nor the
  helper is entered, but its children (name, parameters and block) are not
  function declarations, so the callback skips each. The model therefore keeps
  that declaration unchanged without walking into it.
- Node identity and aliasing are not modelled: the assignment built at line
  103 shares the test's identifier node. Nodes are values here.
- Statement and expression kinds the pass never inspects are opaque
  (`OtherStmt`, `OtherExpr`). This includes export declarations, which the
  walk skips at the top level exactly as other non-function statements.
- Parsing, code generation and the downstream component resolver are outside
  this code, and are not modelled.
