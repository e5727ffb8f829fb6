# Prefill resolution engine: a verified model

This project models the prefill engine of a form-workflow app. Forms are nodes
of a directed graph. An edge `source -> target` says that `source` is filled in
before `target`. A field of a form can take its value from a fixed global
namespace (`GLOBAL_VALUES`) or from a field of an upstream form. The model covers
these parts:

- **Upstream** (`upstream.dfy`): `getUpstreamNodeIds`. It builds the
  reverse-adjacency record and runs a depth-first search guarded by a visited
  list. Termination is proved on every edge list, cyclic ones included. The
  result is proved to be exactly the set of nodes that reach the start node.
- **MappingStore** (`store.dfy`): the three per-node records of `App` and the
  handlers `onTogglePrefill`, `updateMapping`, `clearMapping`, `onFieldChange`
  and `getInputValue`. Each handler is a store-to-store function. Auto-mapping
  is the first-match scan over `["GLOBAL", ...upstream]`.
- **Catalog** (`catalog.dfy`): the values `App` derives from the graph.
  - `formNodes` is the node list sorted by name.
  - `upstreamNodes` are the upstream nodes, in `formNodes` order.
  - `upstreamLabels` maps each source id to its label.
  - `modalOptions` is the list of candidate sources.
  - `children`, `nextDisabled` and `handleNext` drive the Next button.
- **PrefillModal** (`prefill_modal.dfy`): the pure logic of the source picker.
  - The global options.
  - The merge that keeps the first option of each key.
  - Grouping by the label text before the first dot.
  - The trimmed, case-insensitive search.
  - Group ordering, with "Global values" first.
  - Expansion toggling, the reset on close, and the Select button.
- **FormCard** (`form_card.dfy`): the per-field row (raw value, `isPrefilled`,
  `sourceLabel`) and the Submit/Next label.
- **AppWiring** (`app_wiring.dfy`): how `App` connects these pieces for the
  selected form. It holds the properties that only appear once the pieces are
  combined.
- **Collections**, **Strings**, **GraphTypes**, **Wrappers**: generic sequence
  operations, string operations, the graph types and `Option`.

Field values are `Option<Value>`. `None` is JavaScript `undefined`, and
`EmptyValue` is `""`. `Bool(false)` is a defined value, as `button: false` is in
the global namespace. React state updates are modelled as synchronous
transitions. The state a handler reads from its closure becomes explicit
parameters: the current node, the field list of its form, and the upstream ids.

Three behaviours of the code are easy to misread, and the model follows the code in each:

- **Auto-mapping priority.** An upstream value does not win over a global
  default. The code tries `"GLOBAL"` first. So a field that has a global
  default (`name`, `email`, ...) is always mapped to the global source
  (`AppWiring.EnableGlobalWins`).
- **Disabling prefill.** After disabling, a field does not go back to empty.
  Enabling has already copied each auto-filled value into the node's raw
  values, and disabling does not undo that. The field therefore keeps showing
  the auto-filled value (`MappingStore.DisableKeepsAutoFilledValue`).
- **Disabled means no mapping.** This is not an invariant. `updateMapping`
  ignores the flag, so a disabled node can hold a mapping
  (`MappingStore.UpdateIgnoresPrefillFlag`). Only the disable transition
  establishes an empty mapping.

The form card shows the raw value, not what `getInputValue` resolves. The two
agree right after prefill is enabled (`AppWiring.EnableShowsResolved`). They
differ after a manual pick (`AppWiring.PickerMappingNotDisplayed`).

## Model

| member | source | states |
|---|---|---|
| Upstream.ReverseAdjacency | app/src/helpers/utils.ts:12-16 | under each target the record lists the sources of the edges into it, in edge order; its keys are exactly the edge targets |
| Upstream.AdjacencyIsEdges | app/src/helpers/utils.ts:12-16 | `s` is listed under `t` exactly when `s -> t` is an edge |
| Upstream.NoIncomingNoSources | app/src/helpers/utils.ts:20 | a node with no incoming edge has an empty adjacency list |
| Upstream.Dfs | app/src/helpers/utils.ts:19-26 | `dfs` terminates on every edge list: each recursive call marks one more node of the finite set of listed nodes; it only adds to the visited list, adds only listed nodes, and never adds a node twice |
| Upstream.DfsEach | app/src/helpers/utils.ts:20-25 | the same for the `forEach` over one adjacency list, threading the visited list |
| Upstream.UpstreamNodeIds | app/src/helpers/utils.ts:8-30 | the result has no duplicates, every returned id is the source of some edge, and a start node with no incoming edge gets an empty result |
| Upstream.UpstreamSound | app/src/helpers/utils.ts:19-29 | every returned id reaches the start node along edges |
| Upstream.UpstreamClosed | app/src/helpers/utils.ts:19-28 | every direct source of the start node, and every direct source of a returned id, is returned |
| Upstream.UpstreamComplete | app/src/helpers/utils.ts:19-29 | every node that reaches the start node is returned |
| Upstream.UpstreamIsAncestors | app/src/helpers/utils.ts:8-30 | an id is returned exactly when it reaches the start node |
| Upstream.UpstreamExcludesStart | app/src/helpers/utils.ts:17-29 | on an acyclic edge list the start node is not returned |
| Upstream.UpstreamOfCycleIncludesStart | app/src/helpers/utils.ts:17-29 | on the cycle `a -> b -> a` the start node is returned, so acyclicity is needed above |
| Upstream.UpstreamOfChainEnd | app/src/helpers/utils.ts:8-30 | on the chain `x -> y -> z` the upstream of `z` is `{x, y}` |
| Upstream.UpstreamOfChainMiddle | app/src/helpers/utils.ts:8-30 | on that chain with distinct nodes the upstream of `y` is `{x}` |
| Upstream.UpstreamOrderIndependent | app/src/helpers/utils.ts:12-29 | permuting the edge list changes only the order of the result, not its set of ids |
| GraphTypes.LookupGlobal | app/src/App.tsx:92 | `GLOBAL_VALUES[field]` is undefined exactly when no key equals `field`, else it is a value stored under `field` |
| GraphTypes.LookupGlobalAt | app/src/components/PrefillModal.tsx:25-34 | with distinct keys each key reads its own value |
| GraphTypes.NamespaceKeys | app/src/App.tsx:153 | `Object.keys` lists the namespace's keys in order |
| MappingStore.SourceValue | app/src/App.tsx:90-93 | the id `"GLOBAL"` reads the global namespace; any other id reads that node's raw value |
| MappingStore.PrefillSources | app/src/App.tsx:86 | the sources are `"GLOBAL"` followed by the upstream ids in order |
| MappingStore.PickSource | app/src/App.tsx:89-99 | the scan stops at the first source whose value for the field is defined; every source before it is undefined |
| MappingStore.ChosenIsFirstDefined | app/src/App.tsx:89-99 | a source is chosen exactly when some source defines the field, and it is the first such source, with its value |
| MappingStore.AutoMap | app/src/App.tsx:82-100 | `newMap` and `newVals` have the same keys, and only schema fields are mapped |
| MappingStore.AutoMapChoosesFirstDefined | app/src/App.tsx:82-100 | each schema field with a defined source maps to `(first such source, same field name)`, with that source's value; fields with no defined source get no entry |
| MappingStore.TogglePrefill | app/src/App.tsx:75-107 | the node's flag becomes `checked`; flags, mappings and values of every other node are unchanged |
| MappingStore.DisablePrefill | app/src/App.tsx:76-80 | disabling empties the node's mapping and leaves every raw value untouched |
| MappingStore.EnablePrefill | app/src/App.tsx:82-106 | enabling sets the flag and maps only schema fields; other nodes are untouched |
| MappingStore.EnableMapsFirstDefined | app/src/App.tsx:82-106 | after enabling, the node's mapping is exactly the auto-mapping, replacing the old one wholesale; each mapped field's raw value equals the chosen source's value; every other raw value is unchanged |
| MappingStore.UpdateMapping | app/src/App.tsx:109-113 | sets exactly this field's entry to `(opt.sourceFormId, opt.sourceField)`; other entries, other nodes, values and flags are unchanged |
| MappingStore.ClearMapping | app/src/App.tsx:115-123 | removes the field's entry and sets its raw value to `""`; nothing else changes |
| MappingStore.FieldChange | app/src/App.tsx:135-140 | sets exactly this field's raw value |
| MappingStore.InputValue | app/src/App.tsx:125-133 | a mapped field reads its source (global or node), an unmapped field its own raw value; whatever is undefined reads `""` |
| MappingStore.UpdateThenRead | app/src/App.tsx:109-133 | right after `updateMapping`, `getInputValue` returns the chosen source's value |
| MappingStore.ClearThenResolveEmpty | app/src/App.tsx:115-133 | after `clearMapping` the field has no entry and resolves to `""` |
| MappingStore.AutoMapAgrees | app/src/App.tsx:82-100 | auto-mapping depends only on the values the sources offer |
| MappingStore.EnableKeepsOtherSources | app/src/App.tsx:103-106 | when the node is not its own source, enabling changes no value any source offers |
| MappingStore.AutoMapIdempotent | app/src/App.tsx:82-106 | when the node is not its own source, enabling twice gives the same store as enabling once |
| MappingStore.ResolvedEqualsRawAfterEnable | app/src/App.tsx:125-133 | right after enabling, every field resolves to its raw value, even when the node is among its own sources |
| MappingStore.DisableKeepsAutoFilledValue | app/src/App.tsx:75-133 | after enable then disable, the mapping is empty but an auto-filled field still resolves to the value copied in |
| MappingStore.UpdateIgnoresPrefillFlag | app/src/App.tsx:109-113 | a disabled node can gain a mapping, so "disabled means no mapping" is not an invariant |
| Strings.LeTotal | app/src/App.tsx:35-37 | any two names compare one way or the other |
| Strings.LeTransitive | app/src/App.tsx:35-37 | the name order is transitive |
| Strings.LeAntisymmetric | app/src/components/PrefillModal.tsx:98-102 | two names that compare both ways are equal |
| Strings.Trim | app/src/components/PrefillModal.tsx:90 | `trim` cuts whitespace only; the result neither starts nor ends with whitespace; it is empty exactly when the input is all whitespace |
| Strings.ToLower | app/src/components/PrefillModal.tsx:90 | lower-casing keeps the length and maps each character, and the result has no upper-case letters |
| Strings.ToLowerIdempotent | app/src/components/PrefillModal.tsx:94 | lower-casing twice is lower-casing once |
| Strings.Contains | app/src/components/PrefillModal.tsx:94 | `includes` holds exactly when the needle occurs at some position |
| Strings.BeforeFirstDot | app/src/components/PrefillModal.tsx:82 | `split(".")[0]` is a dot-free prefix ending at the first dot or at the end |
| Strings.Dotted | app/src/App.tsx:163-164 | the template `${a}.${b}` is `a`, a dot, then `b` |
| Strings.BeforeFirstDotOfDotted | app/src/components/PrefillModal.tsx:82 | the group of a dotted label whose prefix has no dot is that prefix |
| Strings.DottedInjective | app/src/App.tsx:163 | dotted keys with dot-free prefixes determine their prefix and suffix |
| PrefillModal.GlobalValuesDistinct | app/src/components/PrefillModal.tsx:25-34 | the namespace has eight distinct keys, `button` first |
| PrefillModal.GlobalOption | app/src/components/PrefillModal.tsx:59-64 | the option for field `f` has key `GLOBAL.f`, label `Global values.f`, source `"GLOBAL"` and field `f`, so it is listed under "Global values" |
| PrefillModal.GlobalOptionKeyInjective | app/src/components/PrefillModal.tsx:59-64 | two global options share a key exactly when they share a field |
| PrefillModal.GlobalOptions | app/src/components/PrefillModal.tsx:57-66 | one global option per namespace key, in key order; the `i`-th has key `GLOBAL.k` and label `Global values.k` for the `i`-th key `k` |
| PrefillModal.GlobalOptionsUniqueKeys | app/src/components/PrefillModal.tsx:57-66 | distinct namespace keys give distinct option keys |
| PrefillModal.AllOptions | app/src/components/PrefillModal.tsx:69-77 | the merged list has unique keys, holds only given options, and keeps every key of globals and passed-in options |
| PrefillModal.AllOptionsGlobalsFirst | app/src/components/PrefillModal.tsx:69-77 | with distinct namespace keys, all global options come first, in key order; after them come the passed-in options, with every key already seen dropped |
| PrefillModal.AllOptionsFirstOfKey | app/src/components/PrefillModal.tsx:69-77 | each kept option is the first of its key in globals followed by the passed-in options |
| PrefillModal.AllOptionsKeepsOrder | app/src/components/PrefillModal.tsx:69-77 | the kept options stay in their original relative order: they appear in the order in which their keys first occur |
| PrefillModal.PassedOptionKept | app/src/components/PrefillModal.tsx:69-77 | a passed-in option whose key is used by no global option and by no other passed-in option survives the merge |
| PrefillModal.AllOptionsAbsorbsGlobals | app/src/components/PrefillModal.tsx:69-77 | passing in a list that already starts with the global options gives the same merge as passing the rest |
| PrefillModal.Grouped | app/src/components/PrefillModal.tsx:79-86 | the groups are the label prefixes present, and each option is in exactly the group named by its label prefix |
| PrefillModal.GroupedKeepsOrder | app/src/components/PrefillModal.tsx:79-86 | each group is the sub-list of the options with that prefix, in their original order |
| PrefillModal.GroupNames | app/src/components/PrefillModal.tsx:91 | the entry order lists each group name once |
| PrefillModal.EmptyQueryMatches | app/src/components/PrefillModal.tsx:94 | every option matches the empty query |
| PrefillModal.Visible | app/src/components/PrefillModal.tsx:94 | a group keeps exactly the options whose lower-cased label contains the query |
| PrefillModal.GroupBeforeTotalPreorder | app/src/components/PrefillModal.tsx:98-102 | the comparator is a total preorder |
| PrefillModal.RawEntriesSpec | app/src/components/PrefillModal.tsx:91-95 | one entry per group, holding the group's visible options |
| PrefillModal.GroupEntries | app/src/components/PrefillModal.tsx:89-104 | the listed entries are a permutation of the non-empty filtered entries |
| PrefillModal.GroupEntriesMembership | app/src/components/PrefillModal.tsx:89-104 | an entry is listed exactly when it is a group's entry and has a visible option |
| PrefillModal.GroupEntriesContents | app/src/components/PrefillModal.tsx:91-96 | no listed group is empty, and a listed group shows exactly its options that match the trimmed, lower-cased search |
| PrefillModal.GroupListed | app/src/components/PrefillModal.tsx:91-96 | the group of any matching option is listed |
| PrefillModal.GroupEntriesDistinctNames | app/src/components/PrefillModal.tsx:91-103 | no group is listed twice |
| PrefillModal.GroupBeforeAntisymmetric | app/src/components/PrefillModal.tsx:98-102 | two entries that the comparator puts both ways round have the same group name |
| PrefillModal.SortedEntriesUnique | app/src/components/PrefillModal.tsx:98-102 | two comparator-sorted arrangements of the same entries with distinct group names are equal |
| PrefillModal.GroupEntriesUnique | app/src/components/PrefillModal.tsx:89-104 | any comparator-sorted arrangement of the listed entries is the listed one, so the order does not depend on how the sort breaks ties |
| PrefillModal.GroupEntriesOrdered | app/src/components/PrefillModal.tsx:98-102 | "Global values" can only be first, and the other groups are in ascending name order |
| PrefillModal.GroupEntriesBlankSearch | app/src/components/PrefillModal.tsx:90-96 | with a blank or whitespace-only search every group is listed in full |
| PrefillModal.GlobalGroupShown | app/tests/PrefillModal.test.tsx:62-63 | with no search the "Global values" group is listed |
| PrefillModal.PassedGroupShown | app/tests/PrefillModal.test.tsx:62-65 | with no search, the group of a passed-in option is listed when no global option and no other passed-in option uses its key |
| PrefillModal.Toggle | app/src/components/PrefillModal.tsx:107-113 | `toggle(g)` flips the membership of `g` and of nothing else |
| PrefillModal.ToggleTwice | app/src/components/PrefillModal.tsx:107-113 | toggling a group twice restores the expanded set |
| PrefillModal.ClickGroup | app/src/components/PrefillModal.tsx:141 | clicking a group label flips that group's expansion and changes no other group, the search or the selection |
| PrefillModal.ClickOption | app/src/components/PrefillModal.tsx:163 | clicking an option selects its key and keeps the search and the expanded groups |
| PrefillModal.SetSearch | app/src/components/PrefillModal.tsx:132 | typing replaces the search text and keeps the selection and the expanded groups |
| PrefillModal.OnOpenChange | app/src/components/PrefillModal.tsx:48-54 | closing resets the search to `""`, the selection to none and the expanded set to empty |
| PrefillModal.Select | app/src/components/PrefillModal.tsx:183-189 | Select yields the option of `allOptions` with the selected key; it yields nothing when no key is selected or no option has that key |
| PrefillModal.SelectAfterClick | app/src/components/PrefillModal.tsx:183-189 | with unique keys, clicking an option and pressing Select yields that option |
| PrefillModal.SelectGlobalField | app/src/components/PrefillModal.tsx:183-189 | picking a global field yields its global option, whatever options are passed in |
| PrefillModal.SelectFirstGlobalValue | app/tests/PrefillModal.test.tsx:79-102 | opening with no options, expanding the global group and picking the first field yields `{GLOBAL.button, Global values.button, GLOBAL, button}` |
| PrefillModal.CloseDisablesSelect | app/src/components/PrefillModal.tsx:48-54 | after closing, Select is disabled and yields nothing |
| Catalog.NameBeforeTotalPreorder | app/src/App.tsx:35-37 | comparing nodes by name is a total preorder |
| Catalog.FormNodes | app/src/App.tsx:35-37 | `formNodes` is a permutation of the graph's nodes |
| Catalog.FormNodesByName | app/src/App.tsx:35-37 | `formNodes` is in ascending name order |
| Catalog.FindNode | app/src/App.tsx:52 | the node found has the id; nothing is found exactly when no node has it |
| Catalog.FindForm | app/src/App.tsx:53-55 | the definition found has the component id; nothing is found exactly when none has it |
| Catalog.UpstreamNodes | app/src/App.tsx:59 | a form node is upstream exactly when its id is among the upstream ids |
| Catalog.UpstreamNodesByName | app/src/App.tsx:59 | the upstream nodes are in name order, not in search order |
| Catalog.UpstreamNodesIgnoreIdOrder | app/src/App.tsx:59 | only the set of upstream ids matters, not their order |
| Catalog.NameMap | app/src/App.tsx:64 | `Object.fromEntries` has one key per node id, and a later node overwrites an earlier node with the same id |
| Catalog.UpstreamLabels | app/src/App.tsx:62-65 | `GLOBAL` is labelled "Global values" unless an upstream id is `GLOBAL`; each upstream id is labelled by the name of its last node |
| Catalog.UpstreamLabelsByName | app/src/App.tsx:62-65 | with distinct ids every upstream node is labelled by its own name |
| Catalog.NodeOption | app/src/App.tsx:162-167 | an upstream option has the node's id and field as its source, key `id.field` and label `name.field`, so a node whose name has no dot is its group |
| Catalog.FieldOptions | app/src/App.tsx:162-167 | one option per field, in schema order |
| Catalog.UpstreamOptions | app/src/App.tsx:160-168 | the list exists exactly when every upstream node's component has a definition |
| Catalog.UpstreamOptionsConcat | app/src/App.tsx:160-168 | `flatMap` lays the nodes' option blocks end to end |
| Catalog.UpstreamOptionsLength | app/src/App.tsx:160-168 | the list holds exactly the fields of all upstream nodes |
| Catalog.UpstreamOptionsAt | app/src/App.tsx:160-168 | field `k` of node `i` is at its block's offset plus `k`, inside that block |
| Catalog.UpstreamOptionsFrom | app/src/App.tsx:160-168 | every upstream option's source is an upstream node, and its key is `sourceFormId.sourceField` |
| Catalog.ModalOptions | app/src/App.tsx:151-169 | `modalOptions` exists exactly when every upstream node has a definition |
| Catalog.ModalOptionsKeys | app/src/App.tsx:151-169 | every candidate's key is `sourceFormId.sourceField` |
| Catalog.ModalOptionsGlobalsFirst | app/src/App.tsx:151-169 | one option per global key comes first, in key order, then the upstream options in `formNodes` order |
| Catalog.Children | app/src/App.tsx:143-145 | `children` lists exactly the targets of the edges leaving the current node |
| Catalog.ChildrenHead | app/src/App.tsx:143-147 | the first child is the target of the first edge leaving the current node |
| Catalog.NextDisabled | app/src/App.tsx:196 | Next is disabled exactly when no edge leaves the current node |
| Catalog.HandleNext | app/src/App.tsx:146-148 | `handleNext` selects the target of the first outgoing edge, and keeps the selection when there is none |
| FormCard.LabelText | app/src/components/FormCard.tsx:56 | a missing label reads "undefined" |
| FormCard.RowOf | app/src/components/FormCard.tsx:53-63 | a row is prefilled exactly when the field is mapped and prefill is on; its value is the raw value or `""`; its source label is `label.sourceField` when mapped, else `""` |
| FormCard.Rows | app/src/components/FormCard.tsx:52-71 | one row per schema field, in schema order |
| FormCard.SourceLabelParts | app/src/components/FormCard.tsx:55-57 | when the source's label has no dot, the row's source label splits back into that label and the source field |
| FormCard.DisabledRowsNotPrefilled | app/src/components/FormCard.tsx:54 | with prefill off no row is prefilled, whatever the mapping holds |
| FormCard.ButtonLabel | app/src/components/FormCard.tsx:77-79 | the button reads "Submit" exactly when Next is disabled, and "Next" otherwise |
| FormCard.DefaultRows | app/tests/FormCard.test.tsx:100-108 | two unmapped fields with values A and B show A and B, unprefilled, with no source label |
| FormCard.MappedRow | app/tests/FormCard.test.tsx:147-149 | a field mapped to `SRC1.fld`, labelled "SourceOne", with prefill on, is prefilled with label "SourceOne.fld" |
| AppWiring.IdsOf | app/src/App.tsx:86 | the upstream ids, in node order |
| AppWiring.CurrentView | app/src/App.tsx:49-169 | the current node has the selected id and its definition has the node's component id; nothing renders exactly when the selected id is empty (`App` returns `null`), when either lookup fails, or when some upstream form has no definition, which makes building `modalOptions` throw |
| AppWiring.MissingUpstreamFormRendersNothing | app/src/App.tsx:160-163 | a form with any ancestor form whose component has no definition renders nothing |
| AppWiring.CurrentViewUpstream | app/src/App.tsx:57-59 | the upstream forms are exactly the graph's nodes that reach the selected form, in name order |
| AppWiring.CurrentViewIgnoresEdgeOrder | app/src/App.tsx:58-59 | permuting the edge list changes nothing `App` shows |
| AppWiring.AcyclicNotOwnSource | app/src/App.tsx:58-59 | in an acyclic graph a form is never among its own sources |
| AppWiring.OnToggle | app/src/App.tsx:192 | the checkbox sets the flag; unchecking empties the mapping and keeps every value |
| AppWiring.CardRows | app/src/App.tsx:185-198 | the card shows one row per field, with the raw value of the current node, prefilled exactly when mapped and enabled |
| AppWiring.OnPickerSelect | app/src/App.tsx:204-207 | picking an option maps the configured field to it and leaves the values alone |
| AppWiring.DisableClearsRows | app/src/App.tsx:75-80 | after unchecking, no row is prefilled or labelled, and every row keeps its value |
| AppWiring.EnableShowsResolved | app/src/App.tsx:125-133 | right after enabling, every row shows what `getInputValue` resolves, in any graph |
| AppWiring.PickerMappingNotDisplayed | app/src/App.tsx:188 | after mapping an empty field to the global email, the row shows `""` while `getInputValue` gives the address |
| AppWiring.EnableGlobalWins | app/src/App.tsx:86-99 | a field with a global default is auto-mapped to `GLOBAL` and takes the global value, whatever the upstream forms hold |
| AppWiring.SelectGlobalThenResolve | app/src/App.tsx:204-207 | picking a global field maps the configured field to it, and the field then resolves to the global value |
| AppWiring.PickerListsGlobalsOnce | app/src/App.tsx:151-158 | the globals that `App` prepends are merged away, so the picker lists each global once |
| AppWiring.PickerOffersAncestorsOnly | app/src/App.tsx:151-169 | every source the picker offers is `GLOBAL` or a form that reaches the selected form |
| AppWiring.NextButtonLabel | app/src/App.tsx:196 | the button reads "Submit" exactly when no edge leaves the form |

## Left out

- The graph fetch (`useGraph`), and the error and loading screens (`App.tsx:46-49`), are I/O and rendering. The graph is a parameter.
- Sidebar, FieldRow, the unused picker draft (`PrefilModal.tsx`), the header and footer, JSX structure, CSS and framer-motion animations are rendering only.
- React hook mechanics are not modelled. This covers `useState` batching, `useMemo` caching and the `useEffect` that selects the first form on load (`App.tsx:40-44`). Each handler is a synchronous transition, and the selected form is a parameter.
- The Cancel button and the `isOpen`/`fieldName` wiring of the picker (`App.tsx:201-202, 208`) are prop plumbing. Closing is modelled by `OnOpenChange`. The configured field is a parameter of `OnPickerSelect`. The `!` in `fieldToConfigure!` only silences the type checker and checks nothing at run time.
- `localeCompare` is replaced by plain lexicographic order on character codes. Locale collation is not modelled.
- Strings.ToLower: `toLowerCase` is modelled on ASCII letters only. Other scripts are left unchanged.
- `Object.keys` ordering is not modelled. JavaScript lists integer-like keys first; the model keeps declaration order.
- Inherited prototype keys such as `toString` are not modelled. The model's records hold only their own keys.
- The filter `n.type === "form"` is not modelled: the node type holds only form nodes.
- Field values are opaque. `Value` distinguishes strings, booleans and string lists from everything else, and `null` is not represented, so `?? ""` only ever replaces `undefined`.
- The option text that the picker shows (`split(".")[1]`, `PrefillModal.tsx:158`) and the selected-row highlight are display only.
- Catalog.FormNodes: the stability of `Array.prototype.sort` is not stated. It is proved to be a permutation in comparator order, not a stable sort. For `PrefillModal.GroupEntries` stability does not matter, because group names are distinct and the comparator-sorted order is unique (`PrefillModal.GroupEntriesUnique`).
- Upstream.UpstreamNodeIds: the search order of the result is not stated; only its set of ids is characterised. `App` reorders the ids by name anyway.
