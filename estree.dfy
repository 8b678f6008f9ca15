/** The fragment of the ESTree/JSX program tree that the component-resolution
    rewrite looks at. Node kinds the rewrite never inspects are kept as opaque
    `Other…` nodes carrying their ESTree type tag; `StringLit` and `Return` are
    not inspected either and exist only to write out concrete programs. Nodes
    are values: the rewrite's sharing of one identifier node between two
    parents is not observable here. */
module EstreeJsx {

  datatype Option<+T> = None | Some(value: T)

  /** An expression node. */
  datatype Expr =
    | Ident(name: string)
    | StringLit(value: string)
    | Unary(operator: string, argument: Expr)
    | Call(callee: Expr, arguments: seq<Expr>)
    | Assign(op: string, left: Expr, right: Expr)
    | OtherExpr(tag: string)

  /** One binding of an import declaration. */
  datatype Specifier =
    | Named(imported: string, local: string)
    | Default(local: string)
    | Namespace(local: string)

  /** One `id = init` binding of a variable declaration. */
  datatype Declarator = Declarator(id: Expr, init: Option<Expr>)

  /** A statement node. `Import.source` is the value of the source literal when
      it is a string and `None` otherwise; `FuncDecl.id` is the function's name,
      absent for an anonymous declaration; `FuncDecl.body` is the statement list
      of the function's block. */
  datatype Stmt =
    | Import(source: Option<string>, specifiers: seq<Specifier>)
    | FuncDecl(id: Option<string>, params: seq<Expr>, body: seq<Stmt>)
    | VarDecl(kind: string, declarations: seq<Declarator>)
    | If(test: Expr, consequent: Stmt, alternate: Option<Stmt>)
    | ExprStmt(expression: Expr)
    | Return(argument: Option<Expr>)
    | OtherStmt(tag: string)

  /** JavaScript's `String.prototype.endsWith` with an explicit suffix. */
  predicate EndsWith(s: string, suffix: string)
  {
    |suffix| <= |s| && s[|s| - |suffix|..] == suffix
  }
}
