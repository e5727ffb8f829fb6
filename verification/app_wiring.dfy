/** How App.tsx wires the graph, the mapping store, the picker and the form card
    together for the selected form, and the properties that only show up once
    the pieces are combined. */
module AppWiring {
  import opened Wrappers
  import opened GraphTypes
  import opened Upstream
  import opened MappingStore
  import opened PrefillModal
  import opened Catalog
  import opened FormCard

  /** What App renders for the selected form: its node, its definition and its
      upstream forms in name order. */
  datatype View = View(node: Node, def: FormDef, upstream: seq<Node>)

  /** `upstreamNodes.map(n => n.id)`. */
  function IdsOf(nodes: seq<Node>): (r: seq<NodeId>)
    ensures |r| == |nodes|
    ensures forall i :: 0 <= i < |r| ==> r[i] == nodes[i].id
  {
    seq(|nodes|, i requires 0 <= i < |nodes| => nodes[i].id)
  }

  /** `currentNode`, `currentDef` and `upstreamNodes`. `None` when App renders
      nothing for the selection: the selected id is empty, which returns
      early as falsy; the selected node or its definition is missing, so reading `currentNode.data` or `currentDef.field_schema`
      throws, or some upstream node has no definition, so building
      `modalOptions` throws at `def.field_schema`. */
  function CurrentView(g: Graph, selected: NodeId): (r: Option<View>)
    ensures r.Some? ==> r.value.node in g.nodes && r.value.node.id == selected
    ensures r.Some? ==> r.value.def in g.forms && r.value.def.id == r.value.node.componentId
    ensures r.Some? ==> AllFormsFound(g, r.value.upstream)
    ensures r.None? <==> selected == ""
                         || FindNode(FormNodes(g), selected).None?
                         || FindForm(g, FindNode(FormNodes(g), selected).value.componentId).None?
                         || !AllFormsFound(g, UpstreamNodes(FormNodes(g), UpstreamNodeIds(selected, g.edges)))
  {
    if selected == "" then None
    else match FindNode(FormNodes(g), selected)
    case None => None
    case Some(node) =>
      assert node in multiset(FormNodes(g));
      var ups := UpstreamNodes(FormNodes(g), UpstreamNodeIds(node.id, g.edges));
      match FindForm(g, node.componentId)
      case None => None
      case Some(def) => if AllFormsFound(g, ups) then Some(View(node, def, ups)) else None
  }

  /** A form with an upstream form whose component has no definition renders
      nothing: building `modalOptions` fails at that form. */
  lemma MissingUpstreamFormRendersNothing(g: Graph, selected: NodeId, n: Node)
    requires n in g.nodes && Reaches(g.edges, n.id, selected)
    requires forall f :: f in g.forms ==> f.id != n.componentId
    ensures CurrentView(g, selected).None?
  {
    UpstreamIsAncestors(selected, g.edges, n.id);
    assert n in multiset(FormNodes(g));
    var ups := UpstreamNodes(FormNodes(g), UpstreamNodeIds(selected, g.edges));
    assert n in ups && FindForm(g, n.componentId).None?;
  }

  /** The upstream forms are exactly the graph's nodes that reach the selected
      form along edges, listed by name. */
  lemma CurrentViewUpstream(g: Graph, selected: NodeId)
    requires CurrentView(g, selected).Some?
    ensures forall n :: n in CurrentView(g, selected).value.upstream <==> n in g.nodes && Reaches(g.edges, n.id, selected)
    ensures forall i, j :: 0 <= i < j < |CurrentView(g, selected).value.upstream| ==>
      Strings.Le(CurrentView(g, selected).value.upstream[i].name, CurrentView(g, selected).value.upstream[j].name)
  {
    var v := CurrentView(g, selected).value;
    var ids := UpstreamNodeIds(selected, g.edges);
    forall n ensures n in v.upstream <==> n in g.nodes && Reaches(g.edges, n.id, selected) {
      assert n in FormNodes(g) <==> n in multiset(g.nodes);
      UpstreamIsAncestors(selected, g.edges, n.id);
    }
    UpstreamNodesByName(g, ids);
  }

  /** Reordering the edge list changes nothing that App shows for a form. */
  lemma CurrentViewIgnoresEdgeOrder(g: Graph, g': Graph, selected: NodeId)
    requires g.nodes == g'.nodes && g.forms == g'.forms
    requires multiset(g.edges) == multiset(g'.edges)
    ensures CurrentView(g, selected) == CurrentView(g', selected)
  {
    var node := FindNode(FormNodes(g), selected);
    if node.Some? {
      UpstreamOrderIndependent(node.value.id, g.edges, g'.edges);
      UpstreamNodesIgnoreIdOrder(FormNodes(g), UpstreamNodeIds(node.value.id, g.edges),
                                 UpstreamNodeIds(node.value.id, g'.edges));
    }
  }

  /** In an acyclic graph a form is never among its own sources. */
  lemma AcyclicNotOwnSource(g: Graph, selected: NodeId)
    requires Acyclic(g.edges)
    requires CurrentView(g, selected).Some?
    ensures CurrentView(g, selected).value.node.id !in IdsOf(CurrentView(g, selected).value.upstream)
  {
    var v := CurrentView(g, selected).value;
    UpstreamExcludesStart(selected, g.edges);
    forall i | 0 <= i < |v.upstream| ensures IdsOf(v.upstream)[i] != v.node.id {
      assert v.upstream[i] in v.upstream;
    }
  }

  // ---------------------------------------------------------------------------
  // Handlers as wired to the selected form

  /** The checkbox: `onTogglePrefill(currentNode.id, checked)`. */
  function OnToggle(s: Store, v: View, checked: bool): (r: Store)
    ensures IsEnabled(r, v.node.id) == checked
    ensures !checked ==> MappingOf(r, v.node.id) == map[] && r.formValues == s.formValues
  {
    TogglePrefill(s, GlobalValues, v.node.id, checked, v.def.fields, IdsOf(v.upstream))
  }

  /** The form card's rows for the selected form. */
  function CardRows(s: Store, v: View): (r: seq<Row>)
    ensures |r| == |v.def.fields|
    ensures forall i :: 0 <= i < |r| ==> r[i].field == v.def.fields[i]
    ensures forall i :: 0 <= i < |r| ==> r[i].value == RawValue(s, v.node.id, v.def.fields[i]).GetOr(EmptyValue)
    ensures forall i :: 0 <= i < |r| ==> (r[i].isPrefilled <==> EntryOf(s, v.node.id, v.def.fields[i]).Some? && IsEnabled(s, v.node.id))
  {
    Rows(v.def.fields, ValuesOf(s, v.node.id), MappingOf(s, v.node.id), UpstreamLabels(v.upstream), IsEnabled(s, v.node.id))
  }

  /** The picker's `onSelect`: maps the configured field to the chosen option. */
  function OnPickerSelect(s: Store, v: View, field: FieldName, opt: SourceOption): (r: Store)
    ensures EntryOf(r, v.node.id, field) == Some(MappingEntry(opt.sourceFormId, opt.sourceField))
    ensures r.formValues == s.formValues
  {
    UpdateMapping(s, v.node.id, field, opt)
  }

  /** Turning prefill off leaves no row prefilled and no source label, and every
      row keeps the value it showed before. */
  lemma DisableClearsRows(s: Store, v: View)
    ensures forall i :: 0 <= i < |v.def.fields| ==>
      var row := CardRows(OnToggle(s, v, false), v)[i];
      !row.isPrefilled && row.sourceLabel == "" && row.value == CardRows(s, v)[i].value
  {
    var r := OnToggle(s, v, false);
    forall i | 0 <= i < |v.def.fields|
      ensures CardRows(r, v)[i].sourceLabel == ""
    {
      assert v.def.fields[i] !in MappingOf(r, v.node.id);
    }
  }

  /** Right after prefill is turned on, every row shows exactly what
      `getInputValue` resolves for its field, in any graph. */
  lemma EnableShowsResolved(g: Graph, selected: NodeId, s: Store)
    requires CurrentView(g, selected).Some?
    ensures var v := CurrentView(g, selected).value;
            var r := OnToggle(s, v, true);
            forall i :: 0 <= i < |v.def.fields| ==>
              CardRows(r, v)[i].value == InputValue(r, GlobalValues, v.node.id, v.def.fields[i])
  {
    var v := CurrentView(g, selected).value;
    forall i | 0 <= i < |v.def.fields|
      ensures CardRows(OnToggle(s, v, true), v)[i].value
           == InputValue(OnToggle(s, v, true), GlobalValues, v.node.id, v.def.fields[i])
    {
      ResolvedEqualsRawAfterEnable(s, GlobalValues, v.node.id, v.def.fields, IdsOf(v.upstream), v.def.fields[i]);
    }
  }

  /** The row shows the raw value, not the resolved one: mapping an empty field
      to the global email leaves the row blank while `getInputValue` resolves the
      global address. */
  lemma PickerMappingNotDisplayed()
    ensures var v := View(Node("n1", "form1", "Form"), FormDef("form1", ["email"]), []);
            var r := OnPickerSelect(InitialStore, v, "email", GlobalOption("email"));
            && CardRows(r, v)[0].value == EmptyValue
            && InputValue(r, GlobalValues, "n1", "email") == Str("karanlvm123@gmail.com")
  {
    GlobalValuesDistinct();
    LookupGlobalAt(GlobalValues, 3);
  }

  /** A field that has a global default is always auto-mapped to the global
      source, whatever the upstream forms hold, and takes the global value. */
  lemma EnableGlobalWins(s: Store, v: View, i: nat)
    requires i < |v.def.fields|
    requires LookupGlobal(GlobalValues, v.def.fields[i]).Some?
    ensures var r := OnToggle(s, v, true);
            && EntryOf(r, v.node.id, v.def.fields[i]) == Some(MappingEntry(GlobalSourceId, v.def.fields[i]))
            && RawValue(r, v.node.id, v.def.fields[i]) == LookupGlobal(GlobalValues, v.def.fields[i])
  {
    var f := v.def.fields[i];
    var sources := PrefillSources(IdsOf(v.upstream));
    EnableMapsFirstDefined(s, GlobalValues, v.node.id, v.def.fields, IdsOf(v.upstream));
    var r := OnToggle(s, v, true);
    var m := MappingOf(r, v.node.id);
    assert SourceValue(s, GlobalValues, sources[0], f).Some?;
    assert f in m;
    var k :| 0 <= k < |sources| && sources[k] == m[f].sourceFormId
             && SourceValue(s, GlobalValues, m[f].sourceFormId, f).Some?
             && forall j :: 0 <= j < k ==> SourceValue(s, GlobalValues, sources[j], f).None?;
    assert k == 0;
  }

  /** Picking a global field in the picker maps the configured field to it, and
      the field then resolves to that global value. */
  lemma SelectGlobalThenResolve(g: Graph, v: View, s: Store, st: ModalState, field: FieldName, i: nat)
    requires ModalOptions(g, v.upstream).Some?
    requires i < |GlobalValues|
    ensures var opt := Select(AllOptions(GlobalValues, ModalOptions(g, v.upstream).value),
                              ClickOption(st, GlobalOption(GlobalValues[i].0)));
            && opt == Some(GlobalOption(GlobalValues[i].0))
            && var r := OnPickerSelect(s, v, field, opt.value);
               && EntryOf(r, v.node.id, field) == Some(MappingEntry(GlobalSourceId, GlobalValues[i].0))
               && InputValue(r, GlobalValues, v.node.id, field) == GlobalValues[i].1
  {
    GlobalValuesDistinct();
    SelectGlobalField(GlobalValues, ModalOptions(g, v.upstream).value, st, i);
    LookupGlobalAt(GlobalValues, i);
  }

  /** App already puts the global options in front of the list it passes, and
      the picker puts them in front again: the picker still lists each once. */
  lemma PickerListsGlobalsOnce(g: Graph, v: View)
    requires ModalOptions(g, v.upstream).Some?
    ensures AllOptions(GlobalValues, ModalOptions(g, v.upstream).value)
         == AllOptions(GlobalValues, UpstreamOptions(g, v.upstream).value)
  {
    AllOptionsAbsorbsGlobals(GlobalValues, UpstreamOptions(g, v.upstream).value);
  }

  /** Every source the picker offers is the global namespace or a form that
      reaches the selected form along edges. */
  lemma PickerOffersAncestorsOnly(g: Graph, selected: NodeId)
    requires CurrentView(g, selected).Some?
    ensures var v := CurrentView(g, selected).value;
            forall o :: o in AllOptions(GlobalValues, ModalOptions(g, v.upstream).value) ==>
              o.sourceFormId == GlobalSourceId || Reaches(g.edges, o.sourceFormId, selected)
  {
    var v := CurrentView(g, selected).value;
    var up := UpstreamOptions(g, v.upstream).value;
    PickerListsGlobalsOnce(g, v);
    UpstreamOptionsFrom(g, v.upstream);
    CurrentViewUpstream(g, selected);
    forall o | o in AllOptions(GlobalValues, up)
      ensures o.sourceFormId == GlobalSourceId || Reaches(g.edges, o.sourceFormId, selected)
    {
      if o !in GlobalOptions(GlobalValues) {
        assert o in up;
        var n :| n in v.upstream && n.id == o.sourceFormId;
      }
    }
  }

  /** The navigation button reads "Submit" exactly when no edge leaves the form. */
  lemma NextButtonLabel(g: Graph, v: View)
    ensures ButtonLabel(NextDisabled(g.edges, v.node.id)) == "Submit"
        <==> forall e :: e in g.edges ==> e.source != v.node.id
  {
  }
}
