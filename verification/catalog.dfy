/** The values App.tsx derives from the graph for the selected form: the
    name-sorted form list, the upstream nodes and their labels, the candidate
    sources offered to the picker, and the Next navigation. */
module Catalog {
  import opened Wrappers
  import opened GraphTypes
  import opened Collections
  import opened Strings
  import opened PrefillModal

  // ---------------------------------------------------------------------------
  // Form list and lookups

  predicate NameBefore(a: Node, b: Node) { Le(a.name, b.name) }

  lemma NameBeforeTotalPreorder()
    ensures TotalPreorder(NameBefore)
  {
    forall a: Node, b: Node ensures NameBefore(a, b) || NameBefore(b, a) {
      LeTotal(a.name, b.name);
    }
    forall a: Node, b: Node, c: Node | NameBefore(a, b) && NameBefore(b, c) ensures NameBefore(a, c) {
      LeTransitive(a.name, b.name, c.name);
    }
  }

  /** `formNodes`: the graph's nodes sorted by name. */
  function FormNodes(g: Graph): (r: seq<Node>)
    ensures multiset(r) == multiset(g.nodes)
  {
    SortBy(g.nodes, NameBefore)
  }

  lemma FormNodesByName(g: Graph)
    ensures forall i, j :: 0 <= i < j < |FormNodes(g)| ==> Le(FormNodes(g)[i].name, FormNodes(g)[j].name)
  {
    NameBeforeTotalPreorder();
    SortBySorted(g.nodes, NameBefore);
  }

  /** `formNodes.find(n => n.id === id)`: a node with that id, if any. */
  function FindNode(nodes: seq<Node>, id: NodeId): (r: Option<Node>)
    ensures r.Some? ==> r.value in nodes && r.value.id == id
    ensures r.None? <==> forall n :: n in nodes ==> n.id != id
  {
    Find(nodes, (n: Node) => n.id == id)
  }

  /** `graph.forms.find(f => f.id === componentId)`: the definition of a component, if any. */
  function FindForm(g: Graph, componentId: string): (r: Option<FormDef>)
    ensures r.Some? ==> r.value in g.forms && r.value.id == componentId
    ensures r.None? <==> forall f :: f in g.forms ==> f.id != componentId
  {
    Find(g.forms, (f: FormDef) => f.id == componentId)
  }

  /** The field names of a node's form, in schema order (none when the definition is missing). */
  function FieldsOf(g: Graph, n: Node): seq<FieldName> {
    match FindForm(g, n.componentId)
    case None => []
    case Some(def) => def.fields
  }

  // ---------------------------------------------------------------------------
  // Upstream nodes and labels

  /** `upstreamNodes`: the form nodes whose id is upstream, in `formNodes` order. */
  function UpstreamNodes(formNodes: seq<Node>, upstreamIds: seq<NodeId>): (r: seq<Node>)
    ensures forall n :: n in r <==> n in formNodes && n.id in upstreamIds
  {
    Filter(formNodes, (n: Node) => n.id in upstreamIds)
  }

  /** The upstream nodes come in name order, not in search order. */
  lemma UpstreamNodesByName(g: Graph, upstreamIds: seq<NodeId>)
    ensures forall i, j :: 0 <= i < j < |UpstreamNodes(FormNodes(g), upstreamIds)| ==>
      Le(UpstreamNodes(FormNodes(g), upstreamIds)[i].name, UpstreamNodes(FormNodes(g), upstreamIds)[j].name)
  {
    NameBeforeTotalPreorder();
    SortBySorted(g.nodes, NameBefore);
    FilterSorted(FormNodes(g), (n: Node) => n.id in upstreamIds, NameBefore);
  }

  /** Only which ids are upstream matters, not their order or repetition. */
  lemma UpstreamNodesIgnoreIdOrder(formNodes: seq<Node>, ids: seq<NodeId>, ids': seq<NodeId>)
    requires Elems(ids) == Elems(ids')
    ensures UpstreamNodes(formNodes, ids) == UpstreamNodes(formNodes, ids')
  {
    forall n | n in formNodes ensures (n.id in ids) == (n.id in ids') {
      assert n.id in ids <==> n.id in Elems(ids);
      assert n.id in ids' <==> n.id in Elems(ids');
    }
    FilterCongruent(formNodes, (n: Node) => n.id in ids, (n: Node) => n.id in ids');
  }

  function NodeIdOf(n: Node): NodeId { n.id }

  /** No later node of `nodes` has the id of `nodes[i]`. */
  predicate IsLastOfId(nodes: seq<Node>, i: int) {
    0 <= i < |nodes| && forall j :: i < j < |nodes| ==> nodes[j].id != nodes[i].id
  }

  /** `Object.fromEntries(nodes.map(n => [n.id, n.data.name]))`: a later entry
      overwrites an earlier one with the same id. */
  function NameMap(nodes: seq<Node>): (m: map<NodeId, string>)
    ensures m.Keys == KeysOf(nodes, NodeIdOf)
    ensures forall i :: IsLastOfId(nodes, i) ==> nodes[i].id in m && m[nodes[i].id] == nodes[i].name
  {
    if nodes == [] then map[]
    else
      var init, last := nodes[..|nodes| - 1], nodes[|nodes| - 1];
      assert nodes == init + [last];
      var m := NameMap(init);
      KeysOfSnoc(init, last, NodeIdOf);
      forall i | IsLastOfId(nodes, i) && i < |nodes| - 1
        ensures IsLastOfId(init, i) && nodes[i].id != last.id
      {
        assert nodes[i] == init[i];
      }
      m[last.id := last.name]
  }

  /** `upstreamLabels`: the global source labelled "Global values", then each
      upstream node's id labelled with its name. */
  function UpstreamLabels(ups: seq<Node>): (r: map<NodeId, string>)
    ensures r.Keys == {GlobalSourceId} + KeysOf(ups, NodeIdOf)
    ensures GlobalSourceId !in KeysOf(ups, NodeIdOf) ==> r[GlobalSourceId] == GlobalGroup
    ensures forall i :: IsLastOfId(ups, i) ==> ups[i].id in r && r[ups[i].id] == ups[i].name
  {
    map[GlobalSourceId := GlobalGroup] + NameMap(ups)
  }

  /** With distinct ids every upstream node is labelled by its own name. */
  lemma UpstreamLabelsByName(ups: seq<Node>)
    requires UniqueKeys(ups, NodeIdOf)
    ensures forall n :: n in ups ==> UpstreamLabels(ups)[n.id] == n.name
  {
    forall n | n in ups ensures UpstreamLabels(ups)[n.id] == n.name {
      var i :| 0 <= i < |ups| && ups[i] == n;
      assert IsLastOfId(ups, i);
    }
  }

  // ---------------------------------------------------------------------------
  // Candidate sources

  /** The option offered for field `fn` of upstream node `n`. */
  function NodeOption(n: Node, fn: FieldName): (r: SourceOption)
    ensures r.sourceFormId == n.id && r.sourceField == fn
    ensures r.key == Dotted(r.sourceFormId, r.sourceField)
    ensures r.displayLabel == Dotted(n.name, fn)
    ensures '.' !in n.name ==> GroupName(r) == n.name
  {
    var r := SourceOption(Dotted(n.id, fn), Dotted(n.name, fn), n.id, fn);
    assert '.' !in n.name ==> GroupName(r) == n.name by {
      if '.' !in n.name {
        BeforeFirstDotOfDotted(n.name, fn);
      }
    }
    r
  }

  function FieldOptions(n: Node, fields: seq<FieldName>): (r: seq<SourceOption>)
    ensures |r| == |fields|
    ensures forall k :: 0 <= k < |r| ==> r[k] == NodeOption(n, fields[k])
  {
    seq(|fields|, k requires 0 <= k < |fields| => NodeOption(n, fields[k]))
  }

  /** Every node's component has a form definition. */
  predicate AllFormsFound(g: Graph, ups: seq<Node>) {
    forall n :: n in ups ==> FindForm(g, n.componentId).Some?
  }

  /** The upstream part of `modalOptions`: each node's fields, node after node.
      `None` when some node has no form definition: `find` then yields
      `undefined`, reading `def.field_schema` throws and no list is produced. */
  function UpstreamOptions(g: Graph, ups: seq<Node>): (r: Option<seq<SourceOption>>)
    ensures r.Some? <==> AllFormsFound(g, ups)
  {
    if ups == [] then Some([])
    else
      assert forall n :: n in ups <==> n == ups[0] || n in ups[1..];
      match FindForm(g, ups[0].componentId)
      case None => None
      case Some(def) =>
        match UpstreamOptions(g, ups[1..])
        case None => None
        case Some(rest) => Some(FieldOptions(ups[0], def.fields) + rest)
  }

  /** The block of options of each node, in node order. */
  function Blocks(g: Graph, ups: seq<Node>): (r: seq<seq<SourceOption>>)
    ensures |r| == |ups|
    ensures forall i :: 0 <= i < |ups| ==> r[i] == FieldOptions(ups[i], FieldsOf(g, ups[i]))
  {
    seq(|ups|, i requires 0 <= i < |ups| => FieldOptions(ups[i], FieldsOf(g, ups[i])))
  }

  /** Where node `i`'s options start: the field counts of the nodes before it. */
  function Offset(g: Graph, ups: seq<Node>, i: nat): nat
    requires i <= |ups|
  {
    BlockStart(Blocks(g, ups), i)
  }

  /** One step of the concatenation: the first node's block, then the rest. */
  lemma UpstreamOptionsCons(g: Graph, ups: seq<Node>)
    requires UpstreamOptions(g, ups).Some? && ups != []
    ensures UpstreamOptions(g, ups[1..]).Some?
    ensures UpstreamOptions(g, ups).value
         == FieldOptions(ups[0], FieldsOf(g, ups[0])) + UpstreamOptions(g, ups[1..]).value
  {
  }

  /** The upstream options are the nodes' blocks laid end to end. */
  lemma {:induction false} UpstreamOptionsConcat(g: Graph, ups: seq<Node>)
    requires UpstreamOptions(g, ups).Some?
    ensures UpstreamOptions(g, ups).value == Concat(Blocks(g, ups))
  {
    if ups != [] {
      UpstreamOptionsCons(g, ups);
      UpstreamOptionsConcat(g, ups[1..]);
      assert Blocks(g, ups)[1..] == Blocks(g, ups[1..]);
    }
  }

  /** The upstream options hold, for every node, all its fields in schema order,
      in one block per node; nothing else. */
  lemma UpstreamOptionsLength(g: Graph, ups: seq<Node>)
    requires UpstreamOptions(g, ups).Some?
    ensures |UpstreamOptions(g, ups).value| == Offset(g, ups, |ups|)
  {
    UpstreamOptionsConcat(g, ups);
    ConcatLength(Blocks(g, ups));
  }

  lemma UpstreamOptionsAt(g: Graph, ups: seq<Node>, i: nat, k: nat)
    requires UpstreamOptions(g, ups).Some?
    requires i < |ups| && k < |FieldsOf(g, ups[i])|
    ensures Offset(g, ups, i) + k < Offset(g, ups, i + 1) <= |UpstreamOptions(g, ups).value|
    ensures UpstreamOptions(g, ups).value[Offset(g, ups, i) + k] == NodeOption(ups[i], FieldsOf(g, ups[i])[k])
  {
    UpstreamOptionsConcat(g, ups);
    ConcatAt(Blocks(g, ups), i, k);
  }

  /** Every upstream option reads a field of one of the given nodes, under the
      key `sourceFormId + "." + sourceField`. */
  lemma {:induction false} UpstreamOptionsFrom(g: Graph, ups: seq<Node>)
    requires UpstreamOptions(g, ups).Some?
    ensures forall o :: o in UpstreamOptions(g, ups).value ==> exists n :: n in ups && n.id == o.sourceFormId
    ensures forall o :: o in UpstreamOptions(g, ups).value ==> o.key == Dotted(o.sourceFormId, o.sourceField)
  {
    if ups != [] {
      UpstreamOptionsCons(g, ups);
      UpstreamOptionsFrom(g, ups[1..]);
      forall o | o in UpstreamOptions(g, ups).value
        ensures exists n :: n in ups && n.id == o.sourceFormId
      {
        var head := FieldOptions(ups[0], FieldsOf(g, ups[0]));
        if o in head {
          assert ups[0] in ups;
        } else {
          assert o in UpstreamOptions(g, ups[1..]).value;
          var n :| n in ups[1..] && n.id == o.sourceFormId;
          assert n in ups;
        }
      }
    }
  }

  /** `modalOptions`: the global options, then the upstream options. */
  function ModalOptions(g: Graph, ups: seq<Node>): (r: Option<seq<SourceOption>>)
    ensures r.Some? <==> AllFormsFound(g, ups)
  {
    match UpstreamOptions(g, ups)
    case None => None
    case Some(u) => Some(GlobalOptions(GlobalValues) + u)
  }

  /** Every candidate's key is its source id and field joined by a dot. */
  lemma ModalOptionsKeys(g: Graph, ups: seq<Node>)
    requires ModalOptions(g, ups).Some?
    ensures forall o :: o in ModalOptions(g, ups).value ==> o.key == Dotted(o.sourceFormId, o.sourceField)
  {
    UpstreamOptionsFrom(g, ups);
    var u := UpstreamOptions(g, ups).value;
    forall o | o in ModalOptions(g, ups).value ensures o.key == Dotted(o.sourceFormId, o.sourceField) {
      if o !in u {
        var i :| 0 <= i < |GlobalValues| && o == GlobalOptions(GlobalValues)[i];
      }
    }
  }

  /** One option per global key comes first, in key order; the upstream options follow. */
  lemma ModalOptionsGlobalsFirst(g: Graph, ups: seq<Node>)
    requires ModalOptions(g, ups).Some?
    ensures |ModalOptions(g, ups).value| == |GlobalValues| + Offset(g, ups, |ups|)
    ensures forall i :: 0 <= i < |GlobalValues| ==> ModalOptions(g, ups).value[i] == GlobalOption(GlobalValues[i].0)
    ensures ModalOptions(g, ups).value[|GlobalValues|..] == UpstreamOptions(g, ups).value
  {
    UpstreamOptionsLength(g, ups);
  }

  // ---------------------------------------------------------------------------
  // Navigation

  /** `children`: the targets of the edges leaving `cur`, in edge order. */
  function Children(edges: seq<Edge>, cur: NodeId): (r: seq<NodeId>)
    ensures |r| <= |edges|
    ensures forall t :: t in r <==> Edge(cur, t) in edges
  {
    if edges == [] then []
    else (if edges[0].source == cur then [edges[0].target] else []) + Children(edges[1..], cur)
  }

  /** `edges[i]` is the first edge leaving `cur`. */
  ghost predicate IsFirstEdgeOut(edges: seq<Edge>, cur: NodeId, i: int) {
    0 <= i < |edges| && edges[i].source == cur && forall j :: 0 <= j < i ==> edges[j].source != cur
  }

  lemma {:induction false} ChildrenHead(edges: seq<Edge>, cur: NodeId)
    requires Children(edges, cur) != []
    ensures exists i :: IsFirstEdgeOut(edges, cur, i) && edges[i].target == Children(edges, cur)[0]
  {
    if edges[0].source == cur {
      assert IsFirstEdgeOut(edges, cur, 0);
    } else {
      ChildrenHead(edges[1..], cur);
      var i :| IsFirstEdgeOut(edges[1..], cur, i) && edges[1..][i].target == Children(edges[1..], cur)[0];
      assert IsFirstEdgeOut(edges, cur, i + 1);
    }
  }

  /** `nextDisabled`: no edge leaves the current form. */
  function NextDisabled(edges: seq<Edge>, cur: NodeId): (r: bool)
    ensures r <==> forall e :: e in edges ==> e.source != cur
  {
    var ch := Children(edges, cur);
    assert ch != [] ==> Edge(cur, ch[0]) in edges;
    ch == []
  }

  /** `handleNext`: the form selected afterwards — the target of the first edge
      leaving the current form, or the current selection when there is none. */
  function HandleNext(edges: seq<Edge>, cur: NodeId, selected: NodeId): (r: NodeId)
    ensures NextDisabled(edges, cur) ==> r == selected
    ensures !NextDisabled(edges, cur) ==> exists i :: IsFirstEdgeOut(edges, cur, i) && r == edges[i].target
  {
    var ch := Children(edges, cur);
    if ch != [] then
      ChildrenHead(edges, cur);
      ch[0]
    else selected
  }
}
