/** What each rewrite rule of the pass produces for a single node. */
module RewriteRules {
  import opened Wrappers
  import opened Syntax
  import opened Downlevel

  /** Some member of the class is a setter named `x`. */
  predicate HasSetterNamed(members: seq<Node>, x: string) {
    exists i :: 0 <= i < |members| && members[i].SetAccessor? && members[i].name == x
  }

  /** Some member of the class is a getter named `x`. */
  predicate HasGetterNamed(members: seq<Node>, x: string) {
    exists i :: 0 <= i < |members| && members[i].GetAccessor? && members[i].name == x
  }

  /**
   * A getter inside a class becomes one property: same decorators and name, no question
   * token, no initializer, its combined flags plus `readonly` exactly when the class has
   * no setter of that name, and its return type or `any`.
   */
  lemma GetterBecomesProperty(n: Node, c: Node, k: nat)
    requires n.GetAccessor? && c.ClassDecl?
    ensures Transform(n, Some(c), k).Ok?
    ensures var v := Transform(n, Some(c), k).value;
      && v.nextId == k && |v.nodes| == 1 && v.nodes[0].Property?
      && var p := v.nodes[0];
      && p.decorators == n.decorators && p.name == n.name
      && !p.questionToken && p.initializer.None?
      && var flags := CombinedFlags(n) + (if HasSetterNamed(c.members, n.name) then {} else {Readonly});
      && p.modifiers == ModifiersFromFlags(flags) && ModifierSet(p.modifiers) == flags
      && (n.returnType.Some? ==> p.propertyType == n.returnType)
      && (n.returnType.None? ==> p.propertyType == Some(AnyKeyword))
  {
    var hasSetter := HasSetterNamed(c.members, n.name);
    assert GetMatchingAccessor(n, Get, Some(c)) == Ok(hasSetter);
    var flags := CombinedFlags(n) + (if hasSetter then {} else {Readonly});
    var p := Property(n.decorators, ModifiersFromFlags(flags), n.name, false, Some(DefaultAny(n.returnType)), None);
    assert Transform(n, Some(c), k) == Ok(Visit([p], k));
    ModifiersFromFlagsKeepsFlags(flags);
  }

  /** Every flag the getter had is kept, and `readonly` is present iff there is no setter (or it was already there). */
  lemma GetterReadonlyInference(n: Node, c: Node, k: nat)
    requires n.GetAccessor? && c.ClassDecl?
    ensures var p := Transform(n, Some(c), k).value.nodes[0];
      && CombinedFlags(n) <= ModifierSet(p.modifiers)
      && (Readonly in ModifierSet(p.modifiers) <==> Readonly in CombinedFlags(n) || !HasSetterNamed(c.members, n.name))
  {
    GetterBecomesProperty(n, c, k);
  }

  /** A setter whose class also has a getter of that name disappears, parameters or not. */
  lemma SetterWithGetterDropped(n: Node, c: Node, k: nat)
    requires n.SetAccessor? && c.ClassDecl? && HasGetterNamed(c.members, n.name)
    ensures Transform(n, Some(c), k) == Ok(Visit([], k))
  {
  }

  /**
   * A setter with no getter of that name becomes one property carrying the setter's own
   * modifiers unchanged and the type of its first parameter (or `any`); without
   * parameters the pass fails its assertion.
   */
  lemma StandaloneSetterBecomesProperty(n: Node, c: Node, k: nat)
    requires n.SetAccessor? && c.ClassDecl? && !HasGetterNamed(c.members, n.name)
    ensures |n.parameters| == 0 ==> Transform(n, Some(c), k) == Err(AssertionFailed)
    ensures |n.parameters| > 0 ==>
      && Transform(n, Some(c), k).Ok?
      && var v := Transform(n, Some(c), k).value;
      && v.nextId == k && |v.nodes| == 1 && v.nodes[0].Property?
      && var p := v.nodes[0];
      && p.decorators == n.decorators && p.modifiers == n.modifiers && p.name == n.name
      && !p.questionToken && p.initializer.None?
      && (n.parameters[0].paramType.Some? ==> p.propertyType == n.parameters[0].paramType)
      && (n.parameters[0].paramType.None? ==> p.propertyType == Some(AnyKeyword))
  {
  }

  /** An accessor whose parent is not a class declaration aborts the pass. */
  lemma AccessorOutsideClassFails(n: Node, parent: Option<Node>, k: nat)
    requires n.GetAccessor? || n.SetAccessor?
    requires parent.None? || !parent.value.ClassDecl?
    ensures Transform(n, parent, k) == Err(BadAst)
  {
  }

  /**
   * `export * as ns from "m"` becomes `import * as t from "m"` (with the original
   * decorators and modifiers) followed by `export { t as ns } from "m"` (with none), where
   * t is a new unique name based on ns's text that takes the next id.
   */
  lemma NamespaceReexportSplits(n: Node, parent: Option<Node>, k: nat)
    requires n.ExportDecl? && n.exportClause.Some? && n.exportClause.value.NamespaceExport?
    requires n.moduleSpecifier.Some?
    ensures Transform(n, parent, k).Ok?
    ensures var v := Transform(n, parent, k).value;
      var ns := n.exportClause.value.name;
      var t := Generated(IdentifierText(ns), k);
      && v.nextId == k + 1 && |v.nodes| == 2
      && v.nodes[0] == ImportDecl(n.decorators, n.modifiers, ImportClause(None, Some(NamespaceImport(t))),
                                  n.moduleSpecifier.value)
      && v.nodes[1] == ExportDecl([], [], Some(NamedExports([ExportSpecifier(Some(t), ns)])), n.moduleSpecifier)
      && (ns.Ident? ==> t != ns)
  {
  }

  /** An export without clause, without module specifier, or with named exports is kept as it is. */
  lemma OtherExportsUnchanged(n: Node, parent: Option<Node>, k: nat)
    requires n.ExportDecl?
    requires n.exportClause.None? || n.moduleSpecifier.None? || n.exportClause.value.NamedExports?
    ensures Transform(n, parent, k) == Ok(Visit([n], k))
  {
  }

  /**
   * Pass-through: a class or any other node kind is rebuilt as one node of the same kind
   * whose children are its children transformed in order, with itself as their parent.
   */
  lemma PassThroughRebuilds(n: Node, parent: Option<Node>, k: nat)
    requires n.ClassDecl? || n.Other?
    ensures var cs := if n.ClassDecl? then n.members else n.children;
      var r := TransformList(cs, Some(n), k);
      && (Transform(n, parent, k).Ok? <==> r.Ok?)
      && (r.Ok? ==>
            var rebuilt := if n.ClassDecl? then ClassDecl(n.className, r.value.nodes) else Other(n.kind, r.value.nodes);
            Transform(n, parent, k).value == Visit([rebuilt], r.value.nextId))
  {
  }

  /** Properties and import declarations come back unchanged. */
  lemma LeavesUnchanged(n: Node, parent: Option<Node>, k: nat)
    requires n.Property? || n.ImportDecl?
    ensures Transform(n, parent, k) == Ok(Visit([n], k))
  {
  }
}
