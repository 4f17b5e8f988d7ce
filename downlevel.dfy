/**
 * The rewrite pass of downlevel-dts (`doTransform` and its inner `transform`), with the
 * helpers `defaultAny` and `getMatchingAccessor`.
 *
 * `transform` returns zero, one or two nodes, or throws; here it returns a Result whose
 * value is the sequence of replacement nodes. `createUniqueName` draws a fresh
 * auto-generate id from a global counter, so the counter is threaded through the pass:
 * every call takes the next free id and returns the next free id after it.
 */
module Downlevel {
  import opened Wrappers
  import opened Syntax

  /** The two ways the pass aborts. */
  datatype Failure =
    | BadAst           // an accessor whose parent is not a class declaration
    | AssertionFailed  // a standalone setter without parameters

  /** The argument `getset` of `getMatchingAccessor`: the kind of the accessor itself. */
  datatype AccessorKind = Get | Set

  /** What visiting a node yields: the replacement nodes and the next free generated-name id. */
  datatype Visit = Visit(nodes: seq<Node>, nextId: nat)

  /** `defaultAny`: the declared type, or the `any` keyword type when there is none. */
  function DefaultAny(t: Option<TypeNode>): TypeNode {
    if t.Some? then t.value else AnyKeyword
  }

  /** `isOther`: a setter is the other kind for "get", a getter for "set". */
  predicate IsOther(getset: AccessorKind, m: Node) {
    if getset == Get then m.SetAccessor? else m.GetAccessor?
  }

  /** `members.some(m => isOther(m) && m.name.getText() === name)`, scanned front to back. */
  function SomeMatching(members: seq<Node>, getset: AccessorKind, name: string): (b: bool)
    ensures b <==> exists i :: 0 <= i < |members| && IsOther(getset, members[i]) && members[i].name == name
  {
    if members == [] then false
    else (IsOther(getset, members[0]) && members[0].name == name) || SomeMatching(members[1..], getset, name)
  }

  /**
   * `getMatchingAccessor(n, getset)`: throws unless the parent is a class declaration;
   * otherwise tells whether the class has an accessor of the opposite kind with n's name.
   */
  function GetMatchingAccessor(n: Node, getset: AccessorKind, parent: Option<Node>): (r: Result<bool, Failure>)
    requires n.GetAccessor? || n.SetAccessor?
    ensures r.Err? <==> (parent.None? || !parent.value.ClassDecl?)
    ensures r.Err? ==> r.error == BadAst
    ensures r.Ok? ==>
      var ms := parent.value.members;
      r.value <==> exists i :: (0 <= i < |ms| &&
                                (if getset == Get then ms[i].SetAccessor? else ms[i].GetAccessor?) &&
                                ms[i].name == n.name)
  {
    if parent.None? || !parent.value.ClassDecl? then Err(BadAst)
    else Ok(SomeMatching(parent.value.members, getset, n.name))
  }

  /**
   * The inner `transform` of `doTransform`, applied to node `n` whose parent in the
   * parsed tree is `parent`. Replacement nodes are returned as they are, not revisited.
   */
  function Transform(n: Node, parent: Option<Node>, nextId: nat): (r: Result<Visit, Failure>)
    ensures r.Ok? ==> nextId <= r.value.nextId
    decreases n, 1
  {
    match n
    case GetAccessor(decorators, _, _, name, _, returnType) =>
      var hasSetter :- GetMatchingAccessor(n, Get, parent);
      var flags := CombinedFlags(n);
      var flags' := if !hasSetter then flags + {Readonly} else flags;
      Ok(Visit([Property(decorators, ModifiersFromFlags(flags'), name, false, Some(DefaultAny(returnType)), None)], nextId))
    case SetAccessor(decorators, modifiers, _, name, parameters) =>
      var hasGetter :- GetMatchingAccessor(n, Set, parent);
      if hasGetter then Ok(Visit([], nextId))
      else if |parameters| == 0 then Err(AssertionFailed)
      else Ok(Visit([Property(decorators, modifiers, name, false, Some(DefaultAny(parameters[0].paramType)), None)], nextId))
    case ExportDecl(decorators, modifiers, Some(NamespaceExport(name)), Some(specifier)) =>
      Ok(Visit(ReexportAsWritten(decorators, modifiers, name, specifier, nextId), nextId + 1))
    case _ => VisitEachChild(n, nextId)
  }

  /**
   * The two statements built for `export * as name from specifier` as index.js:59-77
   * writes them: `import * as t from specifier` with the original decorators and
   * modifiers, then `export { t as name } from specifier`. Because that export keeps
   * the module specifier, it names a member `t` of the imported module, not the local
   * namespace binding `t`. The pass uses this form.
   */
  function ReexportAsWritten(decorators: seq<Decorator>, modifiers: seq<Modifier>, name: Identifier,
                             specifier: string, id: nat): seq<Node>
  {
    var tempName := Generated(IdentifierText(name), id);
    [ImportDecl(decorators, modifiers, ImportClause(None, Some(NamespaceImport(tempName))), specifier),
     ExportDecl([], [], Some(NamedExports([ExportSpecifier(Some(tempName), name)])), Some(specifier))]
  }

  /**
   * The two statements the rule evidently intends, as its own comment at index.js:54-57
   * shows them: the same import, then `export { t as name }` without a module specifier,
   * which re-exports the local namespace binding.
   */
  function Reexport(decorators: seq<Decorator>, modifiers: seq<Modifier>, name: Identifier,
                    specifier: string, id: nat): seq<Node>
  {
    var tempName := Generated(IdentifierText(name), id);
    [ImportDecl(decorators, modifiers, ImportClause(None, Some(NamespaceImport(tempName))), specifier),
     ExportDecl([], [], Some(NamedExports([ExportSpecifier(Some(tempName), name)])), None)]
  }

  /**
   * `ts.visitEachChild(n, transform, k)`: the node rebuilt with each child node replaced by
   * what `transform` makes of it, flattened in order. Children of a node are visited with
   * that node as their parent. Kinds without child nodes in this model come back as they are.
   */
  function VisitEachChild(n: Node, nextId: nat): (r: Result<Visit, Failure>)
    ensures r.Ok? ==> nextId <= r.value.nextId
    decreases n, 0
  {
    match n
    case ClassDecl(className, members) =>
      var r :- TransformList(members, Some(n), nextId);
      Ok(Visit([ClassDecl(className, r.nodes)], r.nextId))
    case Other(kind, children) =>
      var r :- TransformList(children, Some(n), nextId);
      Ok(Visit([Other(kind, r.nodes)], r.nextId))
    case _ => Ok(Visit([n], nextId))
  }

  /** A node list visited in order: the replacements concatenated, the id counter threaded. */
  function TransformList(cs: seq<Node>, parent: Option<Node>, nextId: nat): (r: Result<Visit, Failure>)
    ensures r.Ok? ==> nextId <= r.value.nextId
    decreases cs
  {
    if cs == [] then Ok(Visit([], nextId))
    else
      var first :- Transform(cs[0], parent, nextId);
      var rest :- TransformList(cs[1..], parent, first.nextId);
      Ok(Visit(first.nodes + rest.nodes, rest.nextId))
  }

  /** `ts.transform(files, [doTransform])`: each source file transformed in turn, as a root. */
  function TransformAll(files: seq<Node>, nextId: nat): (r: Result<Visit, Failure>)
    ensures r.Ok? ==> nextId <= r.value.nextId
  {
    TransformList(files, None, nextId)
  }
}
