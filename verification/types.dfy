/** The shapes of app/src/helpers/types.ts, plus the value and mapping shapes
    that App.tsx and the picker pass around. */
module GraphTypes {
  import opened Wrappers

  type NodeId = string
  type FieldName = string

  /** A form node of the workflow graph (`GraphNode`: `id`, `data.component_id`, `data.name`). */
  datatype Node = Node(id: NodeId, componentId: string, name: string)

  /** `GraphEdge`: `source` must be completed before `target`. */
  datatype Edge = Edge(source: NodeId, target: NodeId)

  /** `FormDefinition`: the keys of `field_schema.properties`, in key order. */
  datatype FormDef = FormDef(id: string, fields: seq<FieldName>)

  datatype Graph = Graph(nodes: seq<Node>, edges: seq<Edge>, forms: seq<FormDef>)

  /** A defined field value. JavaScript `any` payloads are kept opaque: strings,
      booleans and string arrays appear in the global defaults, anything else is `Other`.
      An undefined value is `None` of an `Option<Value>`. */
  datatype Value = Str(s: string) | Bool(b: bool) | StrList(items: seq<string>) | Other(tag: nat)

  /** The empty string `""` that cleared and unresolved fields show. */
  const EmptyValue: Value := Str("")

  /** The pseudo source id of the global namespace. */
  const GlobalSourceId: NodeId := "GLOBAL"

  /** An object literal of default values: its keys in order, each with a value. */
  type Namespace = seq<(FieldName, Value)>

  /** `globals[field]`: the value of the first entry with that key, `None` (undefined) when absent. */
  function LookupGlobal(globals: Namespace, field: FieldName): (r: Option<Value>)
    ensures r.None? <==> forall i :: 0 <= i < |globals| ==> globals[i].0 != field
    ensures r.Some? ==> (field, r.value) in globals
  {
    if globals == [] then None
    else if globals[0].0 == field then Some(globals[0].1)
    else LookupGlobal(globals[1..], field)
  }

  /** No key occurs twice, as in an object literal. */
  predicate DistinctKeys(globals: Namespace) {
    forall i, j :: 0 <= i < j < |globals| ==> globals[i].0 != globals[j].0
  }

  /** In a namespace with distinct keys, each key reads its own value. */
  lemma {:induction false} LookupGlobalAt(globals: Namespace, i: nat)
    requires DistinctKeys(globals) && i < |globals|
    ensures LookupGlobal(globals, globals[i].0) == Some(globals[i].1)
  {
    if i > 0 {
      assert globals[0].0 != globals[i].0;
      LookupGlobalAt(globals[1..], i - 1);
    }
  }

  /** The keys of a namespace, in order (`Object.keys`). */
  function NamespaceKeys(globals: Namespace): (r: seq<FieldName>)
    ensures |r| == |globals|
    ensures forall i :: 0 <= i < |r| ==> r[i] == globals[i].0
  {
    seq(|globals|, i requires 0 <= i < |globals| => globals[i].0)
  }

  /** Where a mapped field takes its value from: `{ sourceFormId, sourceField }`. */
  datatype MappingEntry = MappingEntry(sourceFormId: NodeId, sourceField: FieldName)

  /** A selectable source in the picker (`Option` of PrefillModal.tsx); `displayLabel` is its `label`. */
  datatype SourceOption = SourceOption(key: string, displayLabel: string, sourceFormId: NodeId, sourceField: FieldName)
}
