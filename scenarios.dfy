/** Small classes and statements as inputs to the pass, each with the output it yields. */
module Scenarios {
  import opened Wrappers
  import opened Syntax
  import opened Downlevel
  import opened RewriteRules

  const Num := TypeExpr("number")
  const Str := TypeExpr("string")

  /** The class `class C { m }` visited as a root: its one member's replacements. */
  lemma OneMemberClass(m: Node, k: nat)
    requires Transform(m, Some(ClassDecl(Some("C"), [m])), k).Ok?
    ensures var c := ClassDecl(Some("C"), [m]);
      var v := Transform(m, Some(c), k).value;
      Transform(c, None, k) == Ok(Visit([ClassDecl(Some("C"), v.nodes)], v.nextId))
  {
    var c := ClassDecl(Some("C"), [m]);
    var v := Transform(m, Some(c), k).value;
    assert c.members[1..] == [];
    assert TransformList(c.members, Some(c), k) == Ok(Visit(v.nodes + [], v.nextId));
    assert v.nodes + [] == v.nodes;
  }

  /** Two siblings visited in order. */
  lemma TwoSiblings(a: Node, b: Node, parent: Option<Node>, k: nat)
    requires Transform(a, parent, k).Ok?
    requires Transform(b, parent, Transform(a, parent, k).value.nextId).Ok?
    ensures var va := Transform(a, parent, k).value;
      var vb := Transform(b, parent, va.nextId).value;
      TransformList([a, b], parent, k) == Ok(Visit(va.nodes + vb.nodes, vb.nextId))
  {
    var va := Transform(a, parent, k).value;
    var vb := Transform(b, parent, va.nextId).value;
    assert [a, b][1..] == [b] && [b][1..] == [];
    assert TransformList([b], parent, va.nextId) == Ok(Visit(vb.nodes + [], vb.nextId));
    assert vb.nodes + [] == vb.nodes;
  }

  /** `get x(): number` alone in a class becomes `readonly x: number`. */
  lemma LoneGetter(k: nat)
    ensures var c := ClassDecl(Some("C"), [GetAccessor([], [], {}, "x", [], Some(Num))]);
      var r := Transform(c, None, k);
      && r.Ok? && r.value.nextId == k && |r.value.nodes| == 1
      && var out := r.value.nodes[0];
      && out.ClassDecl? && |out.members| == 1
      && var p := out.members[0];
      && p.Property? && p.name == "x" && p.modifiers == [Readonly]
      && p.propertyType == Some(Num) && !p.questionToken && p.initializer.None?
  {
    var g := GetAccessor([], [], {}, "x", [], Some(Num));
    var c := ClassDecl(Some("C"), [g]);
    assert !HasSetterNamed(c.members, "x");
    assert CombinedFlags(g) + {Readonly} == {Readonly};
    assert ModifiersFromFlags({Readonly}) == [Readonly];
    GetterBecomesProperty(g, c, k);
    OneMemberClass(g, k);
  }

  /** `get x(): number` with `set x(v: number)` becomes the single member `x: number`. */
  lemma GetterSetterPair(k: nat)
    ensures var c := ClassDecl(Some("C"), [GetAccessor([], [], {}, "x", [], Some(Num)),
                                           SetAccessor([], [], {}, "x", [Parameter("v", Some(Num))])]);
      var r := Transform(c, None, k);
      && r.Ok? && r.value.nextId == k && |r.value.nodes| == 1
      && var out := r.value.nodes[0];
      && out.ClassDecl? && |out.members| == 1
      && var p := out.members[0];
      && p.Property? && p.name == "x" && p.modifiers == []
      && p.propertyType == Some(Num) && !p.questionToken && p.initializer.None?
  {
    var g := GetAccessor([], [], {}, "x", [], Some(Num));
    var s := SetAccessor([], [], {}, "x", [Parameter("v", Some(Num))]);
    var c := ClassDecl(Some("C"), [g, s]);
    assert c.members[0] == g && c.members[1] == s;
    assert HasSetterNamed(c.members, "x") && HasGetterNamed(c.members, "x");
    GetterBecomesProperty(g, c, k);
    SetterWithGetterDropped(s, c, k);
    var vg := Transform(g, Some(c), k).value;
    TwoSiblings(g, s, Some(c), k);
    assert vg.nodes + [] == vg.nodes;
    PassThroughRebuilds(c, None, k);
  }

  /** `set y(v: string)` alone becomes `y: string`, without `readonly`. */
  lemma LoneSetter(k: nat)
    ensures var c := ClassDecl(Some("C"), [SetAccessor([], [], {}, "y", [Parameter("v", Some(Str))])]);
      Transform(c, None, k) == Ok(Visit([ClassDecl(Some("C"), [Property([], [], "y", false, Some(Str), None)])], k))
  {
    var s := SetAccessor([], [], {}, "y", [Parameter("v", Some(Str))]);
    var c := ClassDecl(Some("C"), [s]);
    assert !HasGetterNamed(c.members, "y");
    StandaloneSetterBecomesProperty(s, c, k);
    OneMemberClass(s, k);
  }

  /** `static get z()` without a return type becomes `static readonly z: any`. */
  lemma UntypedGetter(k: nat)
    ensures var c := ClassDecl(Some("C"), [GetAccessor([], [Static], {}, "z", [], None)]);
      var r := Transform(c, None, k);
      && r.Ok? && r.value.nextId == k && |r.value.nodes| == 1
      && var out := r.value.nodes[0];
      && out.ClassDecl? && |out.members| == 1
      && var p := out.members[0];
      && p.Property? && p.name == "z" && p.modifiers == [Static, Readonly]
      && p.propertyType == Some(AnyKeyword) && !p.questionToken && p.initializer.None?
  {
    var g := GetAccessor([], [Static], {}, "z", [], None);
    var c := ClassDecl(Some("C"), [g]);
    assert !HasSetterNamed(c.members, "z");
    assert CombinedFlags(g) + {Readonly} == {Static, Readonly};
    assert ModifiersFromFlags({Static, Readonly}) == [Static, Readonly];
    GetterBecomesProperty(g, c, k);
    OneMemberClass(g, k);
  }

  /** `export * as utils from "./utils"` becomes an import of a new name and an export of it as `utils`. */
  lemma UtilsReexport(k: nat)
    ensures var e := ExportDecl([], [], Some(NamespaceExport(Ident("utils"))), Some("./utils"));
      var t := Generated("utils", k);
      Transform(Other("SourceFile", [e]), None, k) ==
        Ok(Visit([Other("SourceFile", [ImportDecl([], [], ImportClause(None, Some(NamespaceImport(t))), "./utils"),
                                      ExportDecl([], [], Some(NamedExports([ExportSpecifier(Some(t), Ident("utils"))])), Some("./utils"))])],
                 k + 1))
  {
    var e := ExportDecl([], [], Some(NamespaceExport(Ident("utils"))), Some("./utils"));
    var f := Other("SourceFile", [e]);
    var v := Transform(e, Some(f), k).value;
    NamespaceReexportSplits(e, Some(f), k);
    assert f.children[1..] == [];
    assert TransformList(f.children, Some(f), k) == Ok(Visit(v.nodes + [], k + 1));
    assert v.nodes + [] == v.nodes;
  }

  /** A getter inside an interface (not a class declaration) aborts the pass. */
  lemma GetterInInterface(k: nat)
    ensures Transform(Other("InterfaceDeclaration", [GetAccessor([], [], {}, "x", [], None)]), None, k) == Err(BadAst)
  {
  }
}
