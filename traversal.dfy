/**
 * Properties of the whole traversal: sibling order and flattening, the generated-name
 * counter, the shape of the output, and how accessor pairs of a class merge.
 */
module TraversalProperties {
  import opened Wrappers
  import opened Syntax
  import opened Downlevel
  import opened RewriteRules

  // ---------------------------------------------------------------------------------------
  // Flattening in order

  /**
   * Visiting a concatenation of siblings is visiting the first part and then the second,
   * starting from the counter the first part left: the results are concatenated in order.
   */
  lemma {:induction false} TransformListAppend(a: seq<Node>, b: seq<Node>, parent: Option<Node>, k: nat)
    requires TransformList(a, parent, k).Ok?
    requires TransformList(b, parent, TransformList(a, parent, k).value.nextId).Ok?
    ensures var va := TransformList(a, parent, k).value;
      var vb := TransformList(b, parent, va.nextId).value;
      TransformList(a + b, parent, k) == Ok(Visit(va.nodes + vb.nodes, vb.nextId))
    decreases a
  {
    if a == [] {
      assert a + b == b;
      var vb := TransformList(b, parent, k).value;
      assert [] + vb.nodes == vb.nodes;
    } else {
      assert (a + b)[0] == a[0];
      assert (a + b)[1..] == a[1..] + b;
      var v0 := Transform(a[0], parent, k).value;
      var va := TransformList(a[1..], parent, v0.nextId).value;
      var vb := TransformList(b, parent, va.nextId).value;
      TransformListAppend(a[1..], b, parent, v0.nextId);
      assert TransformList(a[1..] + b, parent, v0.nextId) == Ok(Visit(va.nodes + vb.nodes, vb.nextId));
      assert v0.nodes + (va.nodes + vb.nodes) == (v0.nodes + va.nodes) + vb.nodes;
    }
  }

  /** An error in the first part of a sibling list is the error of the whole list. */
  lemma {:induction false} TransformListAppendFails(a: seq<Node>, b: seq<Node>, parent: Option<Node>, k: nat)
    requires TransformList(a, parent, k).Err?
    ensures TransformList(a + b, parent, k) == TransformList(a, parent, k)
    decreases a
  {
    assert a != [];
    assert (a + b)[0] == a[0];
    assert (a + b)[1..] == a[1..] + b;
    var r0 := Transform(a[0], parent, k);
    if r0.Ok? {
      TransformListAppendFails(a[1..], b, parent, r0.value.nextId);
    }
  }

  // ---------------------------------------------------------------------------------------
  // Generated names

  /** The number of namespace re-exports the pass rewrites in a tree. */
  function Reexports(n: Node): nat
    decreases n
  {
    match n
    case ExportDecl(_, _, Some(NamespaceExport(_)), Some(_)) => 1
    case ClassDecl(_, members) => ReexportsIn(members)
    case Other(_, children) => ReexportsIn(children)
    case _ => 0
  }

  function ReexportsIn(ns: seq<Node>): nat
    decreases ns
  {
    if ns == [] then 0 else Reexports(ns[0]) + ReexportsIn(ns[1..])
  }

  /** The ids of the generated names bound by namespace imports in a tree, in pre-order. */
  function ImportIds(n: Node): seq<nat>
    decreases n
  {
    match n
    case ImportDecl(_, _, ImportClause(_, Some(NamespaceImport(Generated(_, id)))), _) => [id]
    case ClassDecl(_, members) => ImportIdsIn(members)
    case Other(_, children) => ImportIdsIn(children)
    case _ => []
  }

  function ImportIdsIn(ns: seq<Node>): seq<nat>
    decreases ns
  {
    if ns == [] then [] else ImportIds(ns[0]) + ImportIdsIn(ns[1..])
  }

  lemma {:induction false} ImportIdsInAppend(a: seq<Node>, b: seq<Node>)
    ensures ImportIdsIn(a + b) == ImportIdsIn(a) + ImportIdsIn(b)
    decreases a
  {
    if a == [] {
      assert a + b == b;
    } else {
      assert (a + b)[0] == a[0];
      assert (a + b)[1..] == a[1..] + b;
      ImportIdsInAppend(a[1..], b);
    }
  }

  /** The ids lo, lo + 1, ..., hi - 1. */
  function Range(lo: nat, hi: nat): seq<nat>
    decreases hi - lo
  {
    if lo >= hi then [] else [lo] + Range(lo + 1, hi)
  }

  lemma {:induction false} RangeAppend(lo: nat, mid: nat, hi: nat)
    requires lo <= mid <= hi
    ensures Range(lo, mid) + Range(mid, hi) == Range(lo, hi)
    decreases mid - lo
  {
    if lo < mid {
      RangeAppend(lo + 1, mid, hi);
    }
  }

  lemma {:induction false} RangeDistinct(lo: nat, hi: nat)
    ensures |Range(lo, hi)| == if lo <= hi then hi - lo else 0
    ensures forall i :: 0 <= i < |Range(lo, hi)| ==> Range(lo, hi)[i] == lo + i
    decreases hi - lo
  {
    if lo < hi {
      RangeDistinct(lo + 1, hi);
    }
  }

  /**
   * Each rewritten re-export takes one id: the counter advances by the number of
   * re-exports, and on a parsed tree (no generated names yet) the imports of the output
   * bind exactly the ids k, k + 1, ... in order.
   */
  lemma {:induction false} CounterAdvances(n: Node, parent: Option<Node>, k: nat)
    ensures Transform(n, parent, k).Ok? ==>
      var v := Transform(n, parent, k).value;
      && v.nextId == k + Reexports(n)
      && (ImportIds(n) == [] ==> ImportIdsIn(v.nodes) == Range(k, v.nextId))
    decreases n
  {
    if Transform(n, parent, k).Err? {
      return;
    }
    var v := Transform(n, parent, k).value;
    if n.ClassDecl? || n.Other? {
      var cs := if n.ClassDecl? then n.members else n.children;
      PassThroughRebuilds(n, parent, k);
      CounterAdvancesIn(cs, Some(n), k);
      assert ImportIdsIn(v.nodes) == ImportIds(v.nodes[0]) + ImportIdsIn([]);
    } else if n.ExportDecl? && n.exportClause.Some? && n.exportClause.value.NamespaceExport? && n.moduleSpecifier.Some? {
      NamespaceReexportSplits(n, parent, k);
      assert v.nodes[1..][1..] == [];
      assert ImportIds(v.nodes[0]) == [k] && ImportIds(v.nodes[1]) == [];
      assert ImportIdsIn(v.nodes) == [k] + ImportIdsIn(v.nodes[1..]);
      assert ImportIdsIn(v.nodes[1..]) == ImportIds(v.nodes[1]) + ImportIdsIn([]);
      assert Range(k, k + 1) == [k] + Range(k + 1, k + 1);
    } else {
      assert |v.nodes| <= 1;
      assert v.nodes != [] ==> ImportIdsIn(v.nodes) == ImportIds(v.nodes[0]) + ImportIdsIn([]);
    }
  }

  lemma {:induction false} CounterAdvancesIn(cs: seq<Node>, parent: Option<Node>, k: nat)
    requires TransformList(cs, parent, k).Ok?
    ensures var v := TransformList(cs, parent, k).value;
      && v.nextId == k + ReexportsIn(cs)
      && (ImportIdsIn(cs) == [] ==> ImportIdsIn(v.nodes) == Range(k, v.nextId))
    decreases cs
  {
    if cs != [] {
      var first := Transform(cs[0], parent, k).value;
      var rest := TransformList(cs[1..], parent, first.nextId).value;
      CounterAdvances(cs[0], parent, k);
      CounterAdvancesIn(cs[1..], parent, first.nextId);
      ImportIdsInAppend(first.nodes, rest.nodes);
      RangeAppend(k, first.nextId, rest.nextId);
    }
  }

  /**
   * The names generated in one pass over a parsed tree are pairwise distinct and none of
   * them was in use before: their ids are k, k + 1, ... and lie below the returned counter.
   */
  lemma GeneratedNamesFresh(n: Node, parent: Option<Node>, k: nat)
    requires ImportIds(n) == []
    ensures Transform(n, parent, k).Ok? ==>
      var v := Transform(n, parent, k).value;
      var ids := ImportIdsIn(v.nodes);
      && |ids| == Reexports(n)
      && (forall i, j :: 0 <= i < j < |ids| ==> ids[i] < ids[j])
      && (forall i :: 0 <= i < |ids| ==> k <= ids[i] < v.nextId)
  {
    CounterAdvances(n, parent, k);
    if Transform(n, parent, k).Ok? {
      RangeDistinct(k, Transform(n, parent, k).value.nextId);
    }
  }

  // ---------------------------------------------------------------------------------------
  // The output is in downlevel form, and the pass leaves such trees alone

  /** No accessor and no rewritable namespace re-export anywhere in the tree. */
  predicate Downleveled(n: Node)
    decreases n
  {
    match n
    case GetAccessor(_, _, _, _, _, _) => false
    case SetAccessor(_, _, _, _, _) => false
    case ExportDecl(_, _, Some(NamespaceExport(_)), Some(_)) => false
    case ClassDecl(_, members) => AllDownleveled(members)
    case Other(_, children) => AllDownleveled(children)
    case _ => true
  }

  predicate AllDownleveled(ns: seq<Node>)
    decreases ns
  {
    forall i :: 0 <= i < |ns| ==> Downleveled(ns[i])
  }

  /** Whatever the pass returns is in downlevel form. */
  lemma {:induction false} OutputDownleveled(n: Node, parent: Option<Node>, k: nat)
    ensures Transform(n, parent, k).Ok? ==> AllDownleveled(Transform(n, parent, k).value.nodes)
    decreases n
  {
    if Transform(n, parent, k).Err? {
    } else if n.ClassDecl? {
      PassThroughRebuilds(n, parent, k);
      OutputDownleveledIn(n.members, Some(n), k);
    } else if n.Other? {
      PassThroughRebuilds(n, parent, k);
      OutputDownleveledIn(n.children, Some(n), k);
    }
  }

  lemma {:induction false} OutputDownleveledIn(cs: seq<Node>, parent: Option<Node>, k: nat)
    requires TransformList(cs, parent, k).Ok?
    ensures AllDownleveled(TransformList(cs, parent, k).value.nodes)
    decreases cs
  {
    if cs != [] {
      var first := Transform(cs[0], parent, k).value;
      OutputDownleveled(cs[0], parent, k);
      OutputDownleveledIn(cs[1..], parent, first.nextId);
    }
  }

  /** A tree in downlevel form comes back unchanged, whatever its parent, without drawing ids. */
  lemma {:induction false} DownleveledUnchanged(n: Node, parent: Option<Node>, k: nat)
    requires Downleveled(n)
    ensures Transform(n, parent, k) == Ok(Visit([n], k))
    decreases n
  {
    if n.ClassDecl? {
      DownleveledUnchangedIn(n.members, Some(n), k);
    } else if n.Other? {
      DownleveledUnchangedIn(n.children, Some(n), k);
    }
  }

  lemma {:induction false} DownleveledUnchangedIn(cs: seq<Node>, parent: Option<Node>, k: nat)
    requires AllDownleveled(cs)
    ensures TransformList(cs, parent, k) == Ok(Visit(cs, k))
    decreases cs
  {
    if cs != [] {
      DownleveledUnchanged(cs[0], parent, k);
      DownleveledUnchangedIn(cs[1..], parent, k);
      assert [cs[0]] + cs[1..] == cs;
    }
  }

  /** Running the pass again over its own output changes nothing: the pass is idempotent. */
  lemma Idempotent(n: Node, parent: Option<Node>, k: nat, parent': Option<Node>, k': nat)
    ensures Transform(n, parent, k).Ok? ==>
      var out := Transform(n, parent, k).value.nodes;
      TransformList(out, parent', k') == Ok(Visit(out, k'))
  {
    OutputDownleveled(n, parent, k);
    if Transform(n, parent, k).Ok? {
      DownleveledUnchangedIn(Transform(n, parent, k).value.nodes, parent', k');
    }
  }

  // ---------------------------------------------------------------------------------------
  // Accessor pairs in a class

  function PropertiesNamed(ns: seq<Node>, x: string): nat {
    if ns == [] then 0 else (if ns[0].Property? && ns[0].name == x then 1 else 0) + PropertiesNamed(ns[1..], x)
  }

  function GettersNamed(ns: seq<Node>, x: string): nat {
    if ns == [] then 0 else (if ns[0].GetAccessor? && ns[0].name == x then 1 else 0) + GettersNamed(ns[1..], x)
  }

  function SettersNamed(ns: seq<Node>, x: string): nat {
    if ns == [] then 0 else (if ns[0].SetAccessor? && ns[0].name == x then 1 else 0) + SettersNamed(ns[1..], x)
  }

  function Accessors(ns: seq<Node>): nat {
    if ns == [] then 0 else (if ns[0].GetAccessor? || ns[0].SetAccessor? then 1 else 0) + Accessors(ns[1..])
  }

  lemma {:induction false} CountsAppend(a: seq<Node>, b: seq<Node>, x: string)
    ensures PropertiesNamed(a + b, x) == PropertiesNamed(a, x) + PropertiesNamed(b, x)
    ensures Accessors(a + b) == Accessors(a) + Accessors(b)
    decreases a
  {
    if a == [] {
      assert a + b == b;
    } else {
      assert (a + b)[0] == a[0];
      assert (a + b)[1..] == a[1..] + b;
      CountsAppend(a[1..], b, x);
    }
  }

  lemma {:induction false} GettersNamedCounts(ms: seq<Node>, x: string)
    ensures GettersNamed(ms, x) > 0 <==> HasGetterNamed(ms, x)
    decreases ms
  {
    if ms != [] {
      GettersNamedCounts(ms[1..], x);
      if HasGetterNamed(ms[1..], x) {
        var i :| 0 <= i < |ms[1..]| && ms[1..][i].GetAccessor? && ms[1..][i].name == x;
        assert ms[i + 1] == ms[1..][i];
      }
      if HasGetterNamed(ms, x) && !(ms[0].GetAccessor? && ms[0].name == x) {
        var i :| 0 <= i < |ms| && ms[i].GetAccessor? && ms[i].name == x;
        assert ms[1..][i - 1] == ms[i];
      }
    }
  }

  /** What one member of class c contributes to the class's output. */
  lemma MemberOutput(m: Node, c: Node, k: nat, x: string)
    requires c.ClassDecl? && Transform(m, Some(c), k).Ok?
    ensures var out := Transform(m, Some(c), k).value.nodes;
      && PropertiesNamed(out, x) ==
           (if m.Property? && m.name == x then 1 else 0)
           + (if m.GetAccessor? && m.name == x then 1 else 0)
           + (if m.SetAccessor? && m.name == x && !HasGetterNamed(c.members, x) then 1 else 0)
      && Accessors(out) == 0
  {
    var out := Transform(m, Some(c), k).value.nodes;
    if |out| == 2 {
      assert PropertiesNamed(out, x) == PropertiesNamed(out[1..], x);
      assert Accessors(out) == Accessors(out[1..]);
    }
  }

  lemma {:induction false} MemberCounts(ms: seq<Node>, c: Node, k: nat, x: string)
    requires c.ClassDecl? && TransformList(ms, Some(c), k).Ok?
    ensures var out := TransformList(ms, Some(c), k).value.nodes;
      && PropertiesNamed(out, x) ==
           PropertiesNamed(ms, x) + GettersNamed(ms, x) + (if HasGetterNamed(c.members, x) then 0 else SettersNamed(ms, x))
      && Accessors(out) == 0
    decreases ms
  {
    if ms != [] {
      var first := Transform(ms[0], Some(c), k).value;
      var rest := TransformList(ms[1..], Some(c), first.nextId).value;
      MemberOutput(ms[0], c, k, x);
      MemberCounts(ms[1..], c, first.nextId, x);
      CountsAppend(first.nodes, rest.nodes, x);
    }
  }

  /**
   * In a transformed class the properties named x are the old ones, one per getter named
   * x, and one per setter named x only when there is no such getter; no accessor is left.
   */
  lemma ClassAccessorsMerge(c: Node, parent: Option<Node>, k: nat, x: string)
    requires c.ClassDecl? && Transform(c, parent, k).Ok?
    ensures var out := Transform(c, parent, k).value.nodes;
      && |out| == 1 && out[0].ClassDecl? && out[0].className == c.className
      && PropertiesNamed(out[0].members, x) ==
           PropertiesNamed(c.members, x) + GettersNamed(c.members, x)
           + (if GettersNamed(c.members, x) > 0 then 0 else SettersNamed(c.members, x))
      && Accessors(out[0].members) == 0
  {
    MemberCounts(c.members, c, k, x);
    GettersNamedCounts(c.members, x);
  }

  /** A getter and a setter sharing a name end up as exactly one property of that name. */
  lemma AccessorPairBecomesOneProperty(c: Node, parent: Option<Node>, k: nat, x: string)
    requires c.ClassDecl? && Transform(c, parent, k).Ok?
    requires GettersNamed(c.members, x) == 1 && SettersNamed(c.members, x) == 1
    requires PropertiesNamed(c.members, x) == 0
    ensures var out := Transform(c, parent, k).value.nodes;
      && |out| == 1 && out[0].ClassDecl?
      && PropertiesNamed(out[0].members, x) == 1 && Accessors(out[0].members) == 0
  {
    ClassAccessorsMerge(c, parent, k, x);
  }

  // ---------------------------------------------------------------------------------------
  // Several files

  /** The source file `f`, visited alone as a root from counter `k`, becomes the one source file `o`. */
  predicate FileBecomes(f: Node, k: nat, o: Node) {
    && Transform(f, None, k).Ok?
    && Transform(f, None, k).value.nodes == [o]
    && f.Other? && o.Other? && o.kind == f.kind
  }

  /** The re-exports before file i are those of the first file plus those before it among the rest. */
  lemma ReexportsInPrefix(files: seq<Node>, i: nat)
    requires 0 < i <= |files|
    ensures ReexportsIn(files[..i]) == Reexports(files[0]) + ReexportsIn(files[1..][..i - 1])
  {
    assert files[..i][0] == files[0] && files[..i][1..] == files[1..][..i - 1];
  }

  /**
   * One output per file, and the i-th output is what the i-th file becomes alone, visited
   * from k plus the re-exports of the files before it.
   */
  predicate FilesBecome(files: seq<Node>, k: nat, out: seq<Node>) {
    && |out| == |files|
    && forall i :: 0 <= i < |files| ==> FileBecomes(files[i], k + ReexportsIn(files[..i]), out[i])
  }

  /** What each file becomes, read off what the first file and the rest become. */
  lemma FilesBecomeCons(files: seq<Node>, k: nat, out: seq<Node>)
    requires 0 < |files| && 0 < |out|
    requires FileBecomes(files[0], k, out[0])
    requires FilesBecome(files[1..], k + Reexports(files[0]), out[1..])
    ensures FilesBecome(files, k, out)
  {
    assert files[..0] == [];
    forall i | 0 < i < |files|
      ensures FileBecomes(files[i], k + ReexportsIn(files[..i]), out[i])
    {
      ReexportsInPrefix(files, i);
      assert files[1..][i - 1] == files[i] && out[1..][i - 1] == out[i];
    }
  }

  /** The first of several source files: what it becomes, and where the rest start. */
  lemma TransformAllFirst(files: seq<Node>, k: nat)
    requires files != [] && files[0].Other? && TransformAll(files, k).Ok?
    ensures var out := TransformAll(files, k).value.nodes;
      var rest := TransformAll(files[1..], k + Reexports(files[0]));
      && rest.Ok? && |out| == 1 + |rest.value.nodes|
      && FileBecomes(files[0], k, out[0])
      && out[1..] == rest.value.nodes
  {
    var f := files[0];
    var first := Transform(f, None, k).value;
    PassThroughRebuilds(f, None, k);
    CounterAdvances(f, None, k);
    var inner := TransformList(f.children, Some(f), k).value;
    assert first.nodes == [Other(f.kind, inner.nodes)];
    var out := TransformAll(files, k).value.nodes;
    assert out == first.nodes + TransformAll(files[1..], first.nextId).value.nodes;
  }

  /**
   * Transforming source files yields one source file per input, in the same order: the
   * i-th output is what the i-th file alone becomes, visited from the counter the files
   * before it left.
   */
  lemma {:induction false} TransformAllKeepsFiles(files: seq<Node>, k: nat)
    requires forall i :: 0 <= i < |files| ==> files[i].Other?
    requires TransformAll(files, k).Ok?
    ensures FilesBecome(files, k, TransformAll(files, k).value.nodes)
    decreases files
  {
    if files != [] {
      TransformAllFirst(files, k);
      var out := TransformAll(files, k).value.nodes;
      TransformAllKeepsFiles(files[1..], k + Reexports(files[0]));
      FilesBecomeCons(files, k, out);
    }
  }
}
