/**
 * What a list of statements exports under a given name, following local names through
 * namespace imports. This is enough to compare the namespace re-export rule's output with
 * its input.
 */
module ExportResolution {
  import opened Wrappers
  import opened Syntax
  import opened Downlevel
  import opened RewriteRules

  /** What an exported name denotes. */
  datatype Binding =
    | NamespaceOf(source: string)                 // the whole namespace of a module
    | MemberOf(source: string, member: Identifier) // one named export of a module
    | LocalName(local: Identifier)                 // a local name bound by no namespace import
    | Unexported

  /** The local (or imported) name that the first specifier exporting `x` refers to. */
  function SpecifierFor(specs: seq<ExportSpecifier>, x: Identifier): (r: Option<Identifier>)
    ensures r.Some? <==> exists i :: 0 <= i < |specs| && specs[i].name == x
  {
    if specs == [] then None
    else if specs[0].name == x then Some(if specs[0].propertyName.Some? then specs[0].propertyName.value else x)
    else SpecifierFor(specs[1..], x)
  }

  /** What statement `s` exports under `x`, before local names are resolved. */
  function EntryOf(s: Node, x: Identifier): Option<Binding> {
    match s
    case ExportDecl(_, _, Some(NamespaceExport(y)), Some(m)) =>
      if y == x then Some(NamespaceOf(m)) else None
    case ExportDecl(_, _, Some(NamedExports(specs)), Some(m)) =>
      var l := SpecifierFor(specs, x);
      if l.Some? then Some(MemberOf(m, l.value)) else None
    case ExportDecl(_, _, Some(NamedExports(specs)), None) =>
      var l := SpecifierFor(specs, x);
      if l.Some? then Some(LocalName(l.value)) else None
    case _ => None
  }

  /** The module that the first namespace import binding `l` imports, if any. */
  function NamespaceImported(stmts: seq<Node>, l: Identifier): (r: Option<string>)
    ensures r.Some? ==>
      exists i :: (0 <= i < |stmts| && stmts[i].ImportDecl?
                   && stmts[i].importClause.namedBindings == Some(NamespaceImport(l)) && stmts[i].specifier == r.value)
  {
    if stmts == [] then None
    else match stmts[0]
      case ImportDecl(_, _, ImportClause(_, Some(NamespaceImport(y))), m) =>
        if y == l then Some(m) else NamespaceImported(stmts[1..], l)
      case _ => NamespaceImported(stmts[1..], l)
  }

  /** The first entry for `x` among `stmts`. */
  function FirstEntry(stmts: seq<Node>, x: Identifier): Option<Binding> {
    if stmts == [] then None
    else if EntryOf(stmts[0], x).Some? then EntryOf(stmts[0], x)
    else FirstEntry(stmts[1..], x)
  }

  /** What the statements `stmts` of one module export under the name `x`. */
  function ExportTarget(stmts: seq<Node>, x: Identifier): Binding {
    match FirstEntry(stmts, x)
    case None => Unexported
    case Some(LocalName(l)) =>
      var m := NamespaceImported(stmts, l);
      if m.Some? then NamespaceOf(m.value) else LocalName(l)
    case Some(b) => b
  }

  /** The namespace re-export `export * as ns from m` the rule starts from. */
  function NamespaceReexport(decorators: seq<Decorator>, modifiers: seq<Modifier>, ns: Identifier, m: string): Node {
    ExportDecl(decorators, modifiers, Some(NamespaceExport(ns)), Some(m))
  }

  /** Before the rewrite, `ns` names the namespace of `m`, and no other name is exported. */
  lemma ReexportOriginalTarget(decorators: seq<Decorator>, modifiers: seq<Modifier>, ns: Identifier, m: string, x: Identifier)
    ensures ExportTarget([NamespaceReexport(decorators, modifiers, ns, m)], x)
         == (if x == ns then NamespaceOf(m) else Unexported)
  {
    var e := NamespaceReexport(decorators, modifiers, ns, m);
    assert [e][1..] == [];
    assert FirstEntry([e], x) == EntryOf(e, x);
  }

  /**
   * As written, the two statements export under `ns` the member `t` of `m` (t being the
   * generated name), not the namespace of `m`: the rewrite changes what `ns` means.
   */
  lemma ReexportAsWrittenMisbinds(decorators: seq<Decorator>, modifiers: seq<Modifier>, ns: Identifier, m: string, id: nat)
    ensures var t := Generated(IdentifierText(ns), id);
      && ExportTarget(ReexportAsWritten(decorators, modifiers, ns, m, id), ns) == MemberOf(m, t)
      && ExportTarget(ReexportAsWritten(decorators, modifiers, ns, m, id), ns)
         != ExportTarget([NamespaceReexport(decorators, modifiers, ns, m)], ns)
  {
    var t := Generated(IdentifierText(ns), id);
    var out := ReexportAsWritten(decorators, modifiers, ns, m, id);
    assert EntryOf(out[0], ns).None?;
    assert SpecifierFor([ExportSpecifier(Some(t), ns)], ns) == Some(t);
    assert out[1..][1..] == [];
    assert FirstEntry(out, ns) == Some(MemberOf(m, t));
    ReexportOriginalTarget(decorators, modifiers, ns, m, ns);
  }

  /** The input that shows it: `export * as utils from "./utils"`. */
  lemma UtilsReexportAsWritten()
    ensures ExportTarget(ReexportAsWritten([], [], Ident("utils"), "./utils", 1), Ident("utils"))
         == MemberOf("./utils", Generated("utils", 1))
  {
    ReexportAsWrittenMisbinds([], [], Ident("utils"), "./utils", 1);
  }

  /**
   * The corrected statements export exactly what the original re-export did under every
   * name: the namespace of `m` under `ns`, nothing else.
   */
  lemma {:induction false} ReexportKeepsExports(decorators: seq<Decorator>, modifiers: seq<Modifier>, ns: Identifier, m: string, id: nat, x: Identifier)
    ensures ExportTarget(Reexport(decorators, modifiers, ns, m, id), x)
         == ExportTarget([NamespaceReexport(decorators, modifiers, ns, m)], x)
  {
    var t := Generated(IdentifierText(ns), id);
    var out := Reexport(decorators, modifiers, ns, m, id);
    assert EntryOf(out[0], x).None?;
    assert out[1..][1..] == [];
    ReexportOriginalTarget(decorators, modifiers, ns, m, x);
    if x == ns {
      assert SpecifierFor([ExportSpecifier(Some(t), ns)], ns) == Some(t);
      assert FirstEntry(out, ns) == Some(LocalName(t));
      assert NamespaceImported(out, t) == Some(m);
    } else {
      assert SpecifierFor([ExportSpecifier(Some(t), ns)], x).None?;
      assert EntryOf(out[1], x).None?;
      assert FirstEntry(out[1..], x).None?;
    }
  }

  /**
   * After the pass, a source file holding one namespace re-export exports under `ns` the
   * member `t` of `m` rather than the namespace of `m` that it exported before.
   */
  lemma ReexportFileMisbinds(decorators: seq<Decorator>, modifiers: seq<Modifier>, ns: Identifier, m: string, k: nat)
    ensures var f := Other("SourceFile", [NamespaceReexport(decorators, modifiers, ns, m)]);
      && Transform(f, None, k).Ok?
      && var out := Transform(f, None, k).value.nodes;
      && |out| == 1 && out[0].Other? && out[0].kind == "SourceFile"
      && ExportTarget(out[0].children, ns) == MemberOf(m, Generated(IdentifierText(ns), k))
      && ExportTarget(out[0].children, ns) != ExportTarget(f.children, ns)
  {
    var e := NamespaceReexport(decorators, modifiers, ns, m);
    var f := Other("SourceFile", [e]);
    NamespaceReexportSplits(e, Some(f), k);
    var v := Transform(e, Some(f), k).value;
    assert v.nodes == ReexportAsWritten(decorators, modifiers, ns, m, k);
    assert f.children[1..] == [];
    assert TransformList(f.children, Some(f), k) == Ok(Visit(v.nodes + [], k + 1));
    assert v.nodes + [] == v.nodes;
    ReexportAsWrittenMisbinds(decorators, modifiers, ns, m, k);
  }
}
