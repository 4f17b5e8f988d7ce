# downlevel-dts: the declaration rewrite pass, in Dafny

downlevel-dts rewrites TypeScript declaration files (`.d.ts`) so that older compilers can
read them. Its core is one pass over each syntax tree, `doTransform` and its inner
`transform` in `index.js`. It applies three rules and rebuilds every other node with its
children transformed:

- **Getter to property.** `get x(): T` becomes `x: T`. The property carries the getter's
  combined modifier flags. `readonly` is added when the class has no setter named `x`.
- **Setter.** With a getter of the same name in the class, the setter is dropped.
  Otherwise it becomes `x: T` with the setter's own modifiers unchanged, where `T` is the
  type of its first parameter.
- **Namespace re-export.** `export * as ns from "m"` becomes `import * as ns_1 from "m"`
  followed by `export { ns_1 as ns } from "m"`. The rule's own comment shows the export
  without `from "m"`, and only that form keeps what `ns` denotes. The pass is modelled as
  written, and the corrected form is kept beside it (see "## Findings").

A missing type becomes the `any` keyword type (`defaultAny`). An accessor whose parent is
not a class declaration aborts the whole pass (`getMatchingAccessor` throws). So does a
standalone setter without parameters (an `assert`). The small helper `mapDefined` is
modelled as a method with a loop.

Files:

- `wrappers.dfy` (module `Wrappers`): `Option` and a failure-compatible `Result`.
- `syntax.dfy` (module `Syntax`): the syntax nodes the pass reads or builds. Also modifier
  flags as sets, and the two factory helpers the pass uses on flags.
- `downlevel.dfy` (module `Downlevel`): `DefaultAny`, `GetMatchingAccessor`, `Transform`
  (the inner `transform`), `VisitEachChild`, `TransformList` and `TransformAll`. Also the
  two statements of the re-export rule, as written (`ReexportAsWritten`) and corrected
  (`Reexport`).
- `rules.dfy` (module `RewriteRules`): what each rule yields for one node.
- `traversal.dfy` (module `TraversalProperties`): properties of the whole pass. These
  cover sibling order, fresh generated names, idempotence, and how accessor pairs merge.
- `exports.dfy` (module `ExportResolution`): what a module's statements export under a
  name, following local names through namespace imports. It is used to compare the
  re-export rule's output with its input.
- `scenarios.dfy` (module `Scenarios`): small concrete inputs with their outputs.
- `map_defined.dfy` (module `MapDefined`): `mapDefined`, its specification and lemmas.

How the model represents the source:

- `transform` returns `undefined`, one node, an array of two nodes, or throws. `Transform`
  returns `Result<Visit, Failure>`. A `Visit` holds a sequence of zero, one or two nodes.
  The failures are `BadAst` (the thrown "Bad AST" error) and `AssertionFailed`.
- `createUniqueName` makes an identifier with the requested text and the next value of
  a global auto-generate counter. The model threads that counter through the pass. A
  generated name is `Generated(base, id)`, which is structurally distinct from every
  identifier the parser produced (`Ident(text)`). No freshness assumption is needed.
- The parent link is an explicit argument: the node whose children are being visited.
  A root file has no parent.
- Names are the text `getText()` returns, compared as strings.
- Modifier flags are sets of `Modifier`. `getCombinedModifierFlags` is the set of the
  node's own modifiers plus `contextFlags`. For an accessor that helper adds nothing, since
  it only folds in the flags of enclosing variable declarations, so a parsed accessor has
  empty `contextFlags`. The model leaves the set open so that every statement about
  combined flags holds whatever it contains.
- `createModifiersFromModifierFlags` lists the flags in the keyword order of the
  TypeScript factory.
- Class expressions, interfaces and every other container are `Other` nodes. An accessor
  among their children aborts with `BadAst`, since its parent is not a class declaration.

Quirks of the code the model keeps:

- The parameter assertion for setters runs only when no getter of the same name exists.
  A setter with a getter and no parameters is dropped without failing.
- `getMatchingAccessor` is called with the accessor's own kind, `"get"` or `"set"`. It
  looks for the opposite kind.
- The setter branch computes the combined flags but never uses them. The model does not
  compute them at all.
- Two getters with the same name both become properties.
- A `static` getter and an instance setter with the same name count as a pair. The setter
  is dropped and the getter gets no `readonly`.

## Model

| member | source | states |
|---|---|---|
| `Downlevel.DefaultAny` | index.js:84-87 | definition with no contract of its own; that the property gets the declared type, or the `any` keyword type when there is none, is stated by `RewriteRules.GetterBecomesProperty` and `RewriteRules.StandaloneSetterBecomesProperty` |
| `Downlevel.IsOther` | index.js:98 | definition with no contract of its own; that "get" looks for setters and "set" for getters is stated by `Downlevel.GetMatchingAccessor` |
| `Downlevel.SomeMatching` | index.js:98-101 | the front-to-back scan of the members is true iff some member has the opposite accessor kind and the same name text |
| `Downlevel.GetMatchingAccessor` | index.js:93-102 | fails with BadAst exactly when the parent is not a class declaration; otherwise true iff the class has an accessor of the other kind (a setter for "get", a getter for "set") with the same name |
| `Syntax.ModifierSet` | index.js:19 | definition with no contract of its own (the flags of a modifier list are the keywords in it); the flags the rewritten getter and setter carry are stated by `RewriteRules.GetterBecomesProperty` and `RewriteRules.StandaloneSetterBecomesProperty` |
| `Syntax.CombinedFlags` | index.js:19 | definition with no contract of its own (own modifiers plus `contextFlags`); what the getter's property carries in terms of it is stated by `RewriteRules.GetterBecomesProperty` and `RewriteRules.GetterReadonlyInference` |
| `Syntax.ModifiersFromFlags` | index.js:23 | definition with no contract of its own: the flags in the keyword order of the factory; its flag set is stated by `Syntax.ModifiersFromFlagsKeepsFlags`, and its order on examples by `Scenarios.UntypedGetter` |
| `Syntax.ModifiersFromFlagsKeepsFlags` | index.js:23 | the modifier list built from a flag set carries exactly the flags of that set |
| `Downlevel.Transform` | index.js:16-80 | on success the id counter never goes back; what each branch yields is stated by the `RewriteRules` lemmas, and the properties of the whole pass by the `TraversalProperties` lemmas |
| `Downlevel.VisitEachChild` | index.js:79 | on success the id counter never goes back; that a container is rebuilt from its transformed children is stated by `RewriteRules.PassThroughRebuilds` |
| `Downlevel.TransformList` | index.js:79 | on success the id counter never goes back; sibling order and counter threading are stated by `TraversalProperties.TransformListAppend` |
| `Downlevel.TransformAll` | index.js:126 | on success the id counter never goes back; one output file per input is stated by `TraversalProperties.TransformAllKeepsFiles` |
| `Downlevel.ReexportAsWritten` | index.js:59-77 | definition with no contract of its own: the two statements as the code builds them, the export keeping the module specifier; what that export means is stated by `ExportResolution.ReexportAsWrittenMisbinds` |
| `Downlevel.Reexport` | index.js:54-57 | definition with no contract of its own: the two statements as the rule's comment shows them, the export without a module specifier; that they export what the input did is stated by `ExportResolution.ReexportKeepsExports` |
| `RewriteRules.GetterBecomesProperty` | index.js:17-31 | a getter in a class becomes exactly one property with the same decorators and name, no question token and no initializer; its modifier list is the factory's list for, and carries exactly, the combined flags plus `readonly` exactly when the class has no same-named setter; its type is the return type, or `any` when absent; no id is drawn |
| `RewriteRules.GetterReadonlyInference` | index.js:19-22 | every pre-existing flag is kept, and `readonly` is present iff it was already there or no same-named setter exists |
| `RewriteRules.SetterWithGetterDropped` | index.js:32-36 | a setter whose class has a same-named getter yields zero nodes, even with no parameters |
| `RewriteRules.StandaloneSetterBecomesProperty` | index.js:37-46 | a setter without a same-named getter fails the assertion when it has no parameters; otherwise it becomes one property with the setter's own modifiers unchanged and the first parameter's type, or `any` |
| `RewriteRules.AccessorOutsideClassFails` | index.js:93-97 | a getter or setter whose parent is not a class declaration aborts with BadAst |
| `RewriteRules.NamespaceReexportSplits` | index.js:48-77 | `export * as ns from m` becomes exactly an import binding a new name `t` as a namespace import from m, with the original decorators and modifiers, then an export `{ t as ns }` from m with none; `t` takes the next id, is distinct from a parsed `ns`, and the counter advances by one |
| `RewriteRules.OtherExportsUnchanged` | index.js:48-79 | an export declaration without a clause, without a module specifier, or with named exports comes back unchanged |
| `RewriteRules.PassThroughRebuilds` | index.js:79 | a class or any other container succeeds iff its children do, and becomes one node of the same kind whose children are its own children transformed, with itself as their parent |
| `RewriteRules.LeavesUnchanged` | index.js:79 | properties and import declarations come back unchanged |
| `TraversalProperties.TransformListAppend` | index.js:79 | visiting a list of siblings is visiting its first part and then the rest: the results are concatenated in sibling order and the id counter is threaded through |
| `TraversalProperties.TransformListAppendFails` | index.js:79 | an error among the first siblings is the error of the whole list |
| `TraversalProperties.CounterAdvances` | index.js:58 | the counter advances by the number of rewritten re-exports; on a tree with no generated names, the generated import names of the output take the ids k, k+1, ... in pre-order |
| `TraversalProperties.GeneratedNamesFresh` | index.js:58 | the names generated in one pass are pairwise distinct, one per re-export, and lie between the starting and the returned counter |
| `TraversalProperties.OutputDownleveled` | index.js:16-80 | a successful pass leaves no getter, no setter and no rewritable namespace re-export anywhere in its output |
| `TraversalProperties.DownleveledUnchanged` | index.js:16-80 | a tree with no accessor and no rewritable re-export comes back unchanged and draws no id |
| `TraversalProperties.Idempotent` | index.js:16-80 | running the pass again over its own output returns that output unchanged |
| `TraversalProperties.ClassAccessorsMerge` | index.js:17-47 | in a transformed class, the properties named x are the old ones, plus one per getter named x, plus one per setter named x only when there is no such getter; no accessor remains |
| `TraversalProperties.AccessorPairBecomesOneProperty` | index.js:17-47 | a class with one getter and one setter named x and no property named x yields exactly one property named x and no accessor |
| `TraversalProperties.TransformAllKeepsFiles` | index.js:126 | transforming a list of source files yields one source file per input, and the i-th output is exactly what the i-th file becomes when visited alone as a root, from the counter the files before it left; it is of the same kind |
| `ExportResolution.ReexportOriginalTarget` | index.js:48-53 | before the rewrite, `export * as ns from m` exports the namespace of m under `ns` and nothing under any other name |
| `ExportResolution.ReexportAsWrittenMisbinds` | index.js:69-76 | the statements as written export under `ns` the member `t` of m (t the generated name), which differs from the namespace of m that the input exported |
| `ExportResolution.UtilsReexportAsWritten` | index.js:69-76 | as written, `export * as utils from "./utils"` turns into an export of the member `utils_1` of "./utils" under `utils` |
| `ExportResolution.ReexportKeepsExports` | index.js:54-57 | the corrected statements export, under every name, exactly what the input re-export did |
| `ExportResolution.ReexportFileMisbinds` | index.js:48-79 | after the pass, a source file holding one namespace re-export is one source file that exports under `ns` the member `t` of m (t the generated name), not the namespace of m that the input file exported |
| `Scenarios.LoneGetter` | index.js:17-31 | `get x(): number` alone in a class becomes `readonly x: number`: modifier list exactly `[readonly]`, no question token, no initializer |
| `Scenarios.GetterSetterPair` | index.js:17-36 | a getter and setter pair for x becomes the single member `x: number`, with an empty modifier list, no question token and no initializer |
| `Scenarios.LoneSetter` | index.js:37-46 | `set y(v: string)` alone becomes `y: string` |
| `Scenarios.UntypedGetter` | index.js:17-31 | `static get z()` without a type becomes `static readonly z: any`: modifier list exactly `[static, readonly]` in that order, no question token, no initializer |
| `Scenarios.UtilsReexport` | index.js:48-77 | `export * as utils from "./utils"` becomes the import of a generated name from "./utils" followed by its re-export as `utils` from "./utils" |
| `Scenarios.GetterInInterface` | index.js:93-97 | a getter inside an interface aborts the pass |
| `MapDefined.MapDefined` | index.js:147-154 | the loop returns exactly the specification sequence `Defined` of the defined, truthy results in input order, and is no longer than the input |
| `MapDefined.DefinedShorter` | index.js:147-154 | there is at most one output per input |
| `MapDefined.DefinedMembers` | index.js:147-154 | a value is in the output iff it is the defined, truthy result of some input |
| `MapDefined.DefinedAppend` | index.js:148-152 | input order is kept: the outputs for a concatenation are the outputs of the parts, concatenated |

## Left out

- `main` (index.js:107-132) is not modelled. It finds files with shelljs, builds the
  program, uses the type checker to set parent pointers, prints with CRLF line endings,
  and writes output paths. All of that is I/O or library plumbing. Only the call
  `ts.transform(files, [doTransform])` is modelled, as `TransformAll`.
- The command-line entry and `process.exit` (index.js:108-111, 135-139) are I/O.
- The TypeScript factory functions are modelled only as node constructors. The printed
  form of a generated name (`ns_1`) is the printer's business. The model keeps the base
  text and the auto-generate id.
- `getText()` returns source text by source position. The model stores that text as
  the name.
- Type positions and other child slots are not visited. These are the types, initializers
  and clauses of properties, imports and exports, and a class's decorators, heritage
  clauses and type parameters. The model returns such nodes as they are. `ts.visitEachChild`
  does descend into them, and an accessor in a type literal there (for example
  `class C { x: { get y(): number } }`) has a type literal as parent, so the source aborts
  with "Bad AST" (index.js:94-97). The model passes such a node through unchanged.
- RewriteRules.LeavesUnchanged: states that a property comes back unchanged, which differs
  from the source when the property's type is a type literal holding an accessor (the
  source aborts), because type positions are not modelled.
- The bodies of accessors are not modelled, since declaration files have none. Replacement
  nodes do not use them.
- Accessor parameters beyond name and type are not modelled, and neither are
  `isTypeOnly` on exports or source positions.
- JavaScript exceptions carry messages. The model keeps only which failure occurred, and
  the first failure in visiting order ends the pass.
- Syntax.ModifiersFromFlags: the keyword order is taken from the TypeScript factory as the
  definition. Only the set of keywords is proved in general; the order is proved on examples.
- ExportResolution: export resolution covers only the statement forms the pass reads or
  builds. Default exports, `export *` without a name and declarations exported in place are
  not modelled.
- MapDefined.MapDefined: `f` and truthiness are parameters. A callback with side effects
  or one that throws is not modelled.

## Findings

| source | as written | input that shows it | evidently intended | confidence | as-written member | corrected member |
|---|---|---|---|---|---|---|
| index.js:75 | the export built by the re-export rule passes `n.moduleSpecifier`, giving `export { ns_1 as ns } from "m"`, which exports the member `ns_1` of "m" under `ns` | `export * as utils from "./utils"` yields an export of the member `utils_1` of "./utils", which that module need not have | `export { ns_1 as ns }` with no module specifier, as the rule's comment at index.js:54-57 shows, which exports the local namespace binding and so means what the input meant | not executed; high | `ExportResolution.ReexportAsWrittenMisbinds` | `ExportResolution.ReexportKeepsExports` |
