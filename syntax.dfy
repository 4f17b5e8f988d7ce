/**
 * The fragment of the TypeScript syntax tree that the downlevel pass inspects or builds.
 * Names are the source text of the name node (what `getText()` returns); a module
 * specifier is the text of its string literal.
 */
module Syntax {
  import opened Wrappers

  /** The modifier keywords that a ModifierFlags value can stand for. */
  datatype Modifier =
    | Export | Declare | Default | Const | Public | Private | Protected
    | Abstract | Static | Readonly | Async

  /** A type annotation: the `any` keyword type, or any other type expression (by its text). */
  datatype TypeNode = AnyKeyword | TypeExpr(text: string)

  datatype Decorator = Decorator(expression: string)

  datatype Parameter = Parameter(name: string, paramType: Option<TypeNode>)

  /**
   * An identifier: one the parser produced, or one made by `createUniqueName`, which
   * keeps the requested base text and takes the next auto-generate id.
   */
  datatype Identifier = Ident(text: string) | Generated(base: string, id: nat)

  datatype ExportSpecifier = ExportSpecifier(propertyName: Option<Identifier>, name: Identifier)

  /** `* as name` (a namespace export) or `{ a as b, ... }` (named exports). */
  datatype ExportClause = NamespaceExport(name: Identifier) | NamedExports(elements: seq<ExportSpecifier>)

  datatype NamedBindings = NamespaceImport(name: Identifier) | NamedImports(elements: seq<ExportSpecifier>)

  datatype ImportClause = ImportClause(name: Option<Identifier>, namedBindings: Option<NamedBindings>)

  /**
   * A syntax node. `contextFlags` on an accessor stands for the flags that
   * `getCombinedModifierFlags` adds beyond the node's own modifiers.
   * Every node kind the pass does not single out is `Other`, with its child nodes.
   */
  datatype Node =
    | ClassDecl(className: Option<string>, members: seq<Node>)
    | GetAccessor(decorators: seq<Decorator>, modifiers: seq<Modifier>, contextFlags: set<Modifier>,
                  name: string, parameters: seq<Parameter>, returnType: Option<TypeNode>)
    | SetAccessor(decorators: seq<Decorator>, modifiers: seq<Modifier>, contextFlags: set<Modifier>,
                  name: string, parameters: seq<Parameter>)
    | Property(decorators: seq<Decorator>, modifiers: seq<Modifier>, name: string,
               questionToken: bool, propertyType: Option<TypeNode>, initializer: Option<string>)
    | ExportDecl(decorators: seq<Decorator>, modifiers: seq<Modifier>,
                 exportClause: Option<ExportClause>, moduleSpecifier: Option<string>)
    | ImportDecl(decorators: seq<Decorator>, modifiers: seq<Modifier>,
                 importClause: ImportClause, specifier: string)
    | Other(kind: string, children: seq<Node>)

  /** The source text of an identifier; a generated one prints from its base text. */
  function IdentifierText(id: Identifier): string {
    match id
    case Ident(t) => t
    case Generated(b, _) => b
  }

  /** The flag set `getModifierFlags` reads off a modifier list. */
  function ModifierSet(mods: seq<Modifier>): set<Modifier> {
    set m | m in mods
  }

  /** The combined modifier flags of an accessor (`getCombinedModifierFlags`). */
  function CombinedFlags(n: Node): set<Modifier>
    requires n.GetAccessor? || n.SetAccessor?
  {
    ModifierSet(n.modifiers) + n.contextFlags
  }

  /** The keyword `m` when its flag is in `flags`, and nothing otherwise. */
  function KeywordIf(flags: set<Modifier>, m: Modifier): seq<Modifier> {
    if m in flags then [m] else []
  }

  /**
   * The modifier list `createModifiersFromModifierFlags` builds: one keyword per flag, in
   * the factory's fixed order (export, declare, default, const, public, private,
   * protected, abstract, static, readonly, async).
   */
  function ModifiersFromFlags(flags: set<Modifier>): seq<Modifier> {
    KeywordIf(flags, Export) + KeywordIf(flags, Declare) + KeywordIf(flags, Default)
    + KeywordIf(flags, Const) + KeywordIf(flags, Public) + KeywordIf(flags, Private)
    + KeywordIf(flags, Protected) + KeywordIf(flags, Abstract) + KeywordIf(flags, Static)
    + KeywordIf(flags, Readonly) + KeywordIf(flags, Async)
  }

  /** The modifier list built from a flag set carries exactly the flags of that set. */
  lemma ModifiersFromFlagsKeepsFlags(flags: set<Modifier>)
    ensures ModifierSet(ModifiersFromFlags(flags)) == flags
  {
    var r := ModifiersFromFlags(flags);
    forall m | m in flags ensures m in r {
      match m
      case Export => case Declare => case Default => case Const =>
      case Public => case Private => case Protected => case Abstract =>
      case Static => case Readonly => case Async =>
    }
  }
}
