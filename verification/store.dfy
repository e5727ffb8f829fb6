/** The prefill state of App.tsx and its handlers: the three per-node records
    `prefillEnabled`, `formValues` and `mappings`, each handler a synchronous
    store-to-store transition. */
module MappingStore {
  import opened Wrappers
  import opened GraphTypes
  import opened Collections

  datatype Store = Store(
    prefillEnabled: map<NodeId, bool>,
    formValues: map<NodeId, map<FieldName, Value>>,
    mappings: map<NodeId, map<FieldName, MappingEntry>>)

  /** The state before any handler has run. */
  const InitialStore := Store(map[], map[], map[])

  /** `formValues[node] || {}` */
  function ValuesOf(s: Store, node: NodeId): map<FieldName, Value> {
    if node in s.formValues then s.formValues[node] else map[]
  }

  /** `mappings[node] || {}` */
  function MappingOf(s: Store, node: NodeId): map<FieldName, MappingEntry> {
    if node in s.mappings then s.mappings[node] else map[]
  }

  /** `!!prefillEnabled[node]` */
  function IsEnabled(s: Store, node: NodeId): bool {
    node in s.prefillEnabled && s.prefillEnabled[node]
  }

  /** `formValues[node]?.[field]`: `None` when undefined. */
  function RawValue(s: Store, node: NodeId, field: FieldName): Option<Value> {
    var vals := ValuesOf(s, node);
    if field in vals then Some(vals[field]) else None
  }

  /** `mappings[node]?.[field]` */
  function EntryOf(s: Store, node: NodeId, field: FieldName): Option<MappingEntry> {
    var m := MappingOf(s, node);
    if field in m then Some(m[field]) else None
  }

  /** The value a source offers for a field: the global default when the source
      id is `"GLOBAL"`, otherwise that node's stored value. */
  function SourceValue(s: Store, globals: Namespace, sid: NodeId, field: FieldName): (r: Option<Value>)
    ensures sid == GlobalSourceId ==> r == LookupGlobal(globals, field)
    ensures sid != GlobalSourceId ==> r == RawValue(s, sid, field)
  {
    if sid == GlobalSourceId then LookupGlobal(globals, field) else RawValue(s, sid, field)
  }

  /** `["GLOBAL", ...upstream]`: the order in which auto-mapping tries sources. */
  function PrefillSources(upstream: seq<NodeId>): (r: seq<NodeId>)
    ensures |r| == |upstream| + 1 && r[0] == GlobalSourceId && r[1..] == upstream
  {
    [GlobalSourceId] + upstream
  }

  // ---------------------------------------------------------------------------
  // Auto-mapping

  /** Position in `sources` of the first source with a defined value for
      `field`, or `|sources|` when none has one. */
  function PickSource(s: Store, globals: Namespace, sources: seq<NodeId>, field: FieldName): (i: nat)
    ensures i <= |sources|
    ensures i < |sources| ==> SourceValue(s, globals, sources[i], field).Some?
    ensures forall j :: 0 <= j < i ==> SourceValue(s, globals, sources[j], field).None?
  {
    if sources == [] then 0
    else if SourceValue(s, globals, sources[0], field).Some? then 0
    else 1 + PickSource(s, globals, sources[1..], field)
  }

  /** Some source in the list has a defined value for the field. */
  ghost predicate SomeSourceDefines(s: Store, globals: Namespace, sources: seq<NodeId>, field: FieldName) {
    exists sid :: sid in sources && SourceValue(s, globals, sid, field).Some?
  }

  /** `sid` is the first source in the list with a defined value for the field. */
  ghost predicate IsFirstDefined(s: Store, globals: Namespace, sources: seq<NodeId>, field: FieldName, sid: NodeId) {
    exists i :: 0 <= i < |sources| && sources[i] == sid && SourceValue(s, globals, sid, field).Some?
                && forall j :: 0 <= j < i ==> SourceValue(s, globals, sources[j], field).None?
  }

  /** The first source with a defined value for `field`, with that value. */
  function Chosen(s: Store, globals: Namespace, sources: seq<NodeId>, field: FieldName): Option<(NodeId, Value)>
  {
    var i := PickSource(s, globals, sources, field);
    if i < |sources| then Some((sources[i], SourceValue(s, globals, sources[i], field).value)) else None
  }

  /** The chosen source is the first one with a defined value, and there is a
      chosen source exactly when some source has a defined value. */
  lemma ChosenIsFirstDefined(s: Store, globals: Namespace, sources: seq<NodeId>, field: FieldName)
    ensures var r := Chosen(s, globals, sources, field);
            && (r.None? <==> !SomeSourceDefines(s, globals, sources, field))
            && (r.Some? ==> IsFirstDefined(s, globals, sources, field, r.value.0)
                            && SourceValue(s, globals, r.value.0, field) == Some(r.value.1))
  {
    var i := PickSource(s, globals, sources, field);
    if i < |sources| {
      assert sources[i] in sources;
    } else {
      assert !SomeSourceDefines(s, globals, sources, field);
    }
  }

  /** The `newMap` and `newVals` records of the enable branch of `onTogglePrefill`:
      each field goes to the first source with a defined value for a field of the same name. */
  function AutoMap(s: Store, globals: Namespace, fields: seq<FieldName>, sources: seq<NodeId>)
    : (r: (map<FieldName, MappingEntry>, map<FieldName, Value>))
    ensures r.0.Keys == r.1.Keys
    ensures forall f :: f in r.0 ==> f in fields
  {
    var newMap := map f | f in fields && Chosen(s, globals, sources, f).Some?
                    :: MappingEntry(Chosen(s, globals, sources, f).value.0, f);
    var newVals := map f | f in fields && Chosen(s, globals, sources, f).Some?
                    :: Chosen(s, globals, sources, f).value.1;
    (newMap, newVals)
  }

  /** What auto-mapping decides, field by field. */
  lemma AutoMapChoosesFirstDefined(s: Store, globals: Namespace, fields: seq<FieldName>, sources: seq<NodeId>)
    ensures var r := AutoMap(s, globals, fields, sources);
            && (forall f :: f in r.0 <==> f in fields && SomeSourceDefines(s, globals, sources, f))
            && forall f :: f in r.0 ==>
                 && r.0[f].sourceField == f
                 && IsFirstDefined(s, globals, sources, f, r.0[f].sourceFormId)
                 && SourceValue(s, globals, r.0[f].sourceFormId, f) == Some(r.1[f])
  {
    forall f {
      ChosenIsFirstDefined(s, globals, sources, f);
    }
  }

  // ---------------------------------------------------------------------------
  // Handlers

  /** `onTogglePrefill(node, checked)`. `fields` are the keys of the current
      form's schema and `upstream` the ids of the current node's upstream forms
      in display order; the source reads both from the render in which the
      handler was created. */
  function TogglePrefill(s: Store, globals: Namespace, node: NodeId, checked: bool,
                         fields: seq<FieldName>, upstream: seq<NodeId>): (r: Store)
    ensures IsEnabled(r, node) == checked
    ensures forall n :: n != node ==> IsEnabled(r, n) == IsEnabled(s, n)
    ensures forall n :: n != node ==> MappingOf(r, n) == MappingOf(s, n) && ValuesOf(r, n) == ValuesOf(s, n)
  {
    if checked then EnablePrefill(s, globals, node, fields, upstream) else DisablePrefill(s, node)
  }

  /** The disable branch: the node's mapping becomes empty and every value stays. */
  function DisablePrefill(s: Store, node: NodeId): (r: Store)
    ensures !IsEnabled(r, node) && MappingOf(r, node) == map[]
    ensures r.formValues == s.formValues
    ensures forall n :: n != node ==> IsEnabled(r, n) == IsEnabled(s, n) && MappingOf(r, n) == MappingOf(s, n)
  {
    Store(s.prefillEnabled[node := false], s.formValues, s.mappings[node := map[]])
  }

  /** The enable branch: the auto-mapping replaces the node's mapping wholesale
      and its values are merged over the node's raw values. */
  function EnablePrefill(s: Store, globals: Namespace, node: NodeId,
                         fields: seq<FieldName>, upstream: seq<NodeId>): (r: Store)
    ensures IsEnabled(r, node)
    ensures forall f :: f in MappingOf(r, node) ==> f in fields
    ensures forall n :: n != node ==> IsEnabled(r, n) == IsEnabled(s, n)
    ensures forall n :: n != node ==> MappingOf(r, n) == MappingOf(s, n)
    ensures forall n :: n != node ==> ValuesOf(r, n) == ValuesOf(s, n)
  {
    var auto := AutoMap(s, globals, fields, PrefillSources(upstream));
    SetNode(s, node, true, ValuesOf(s, node) + auto.1, auto.0)
  }

  /** The store with the three records of `node` replaced. */
  function SetNode(s: Store, node: NodeId, enabled: bool, vals: map<FieldName, Value>,
                   mapping: map<FieldName, MappingEntry>): (r: Store)
    ensures IsEnabled(r, node) == enabled && ValuesOf(r, node) == vals && MappingOf(r, node) == mapping
    ensures forall n :: n != node ==> IsEnabled(r, n) == IsEnabled(s, n)
    ensures forall n :: n != node ==> MappingOf(r, n) == MappingOf(s, n)
    ensures forall n :: n != node ==> ValuesOf(r, n) == ValuesOf(s, n)
  {
    Store(s.prefillEnabled[node := enabled], s.formValues[node := vals], s.mappings[node := mapping])
  }

  /** Enabling maps exactly the fields some source defines, each to the first
      source in `["GLOBAL", ...upstream]` that defines it, copies that source's
      value into the node's raw values, and leaves every other raw value alone. */
  lemma EnableMapsFirstDefined(s: Store, globals: Namespace, node: NodeId,
                               fields: seq<FieldName>, upstream: seq<NodeId>)
    ensures var r := TogglePrefill(s, globals, node, true, fields, upstream);
            var m := MappingOf(r, node);
            && (forall f :: f in m <==> f in fields && SomeSourceDefines(s, globals, PrefillSources(upstream), f))
            && (forall f :: f in m ==>
                  && m[f].sourceField == f
                  && IsFirstDefined(s, globals, PrefillSources(upstream), f, m[f].sourceFormId)
                  && RawValue(r, node, f) == SourceValue(s, globals, m[f].sourceFormId, f))
            && (forall f :: f !in m ==> RawValue(r, node, f) == RawValue(s, node, f))
  {
    AutoMapChoosesFirstDefined(s, globals, fields, PrefillSources(upstream));
  }

  /** `updateMapping(field, opt)` on the current node: sets exactly this field's entry. */
  function UpdateMapping(s: Store, cur: NodeId, field: FieldName, opt: SourceOption): (r: Store)
    ensures EntryOf(r, cur, field) == Some(MappingEntry(opt.sourceFormId, opt.sourceField))
    ensures forall f :: f != field ==> EntryOf(r, cur, f) == EntryOf(s, cur, f)
    ensures forall n :: n != cur ==> MappingOf(r, n) == MappingOf(s, n)
    ensures r.formValues == s.formValues && r.prefillEnabled == s.prefillEnabled
  {
    var nm := MappingOf(s, cur)[field := MappingEntry(opt.sourceFormId, opt.sourceField)];
    s.(mappings := s.mappings[cur := nm])
  }

  /** `clearMapping(field)` on the current node: drops the entry and blanks the raw value. */
  function ClearMapping(s: Store, cur: NodeId, field: FieldName): (r: Store)
    ensures EntryOf(r, cur, field).None?
    ensures RawValue(r, cur, field) == Some(EmptyValue)
    ensures forall f :: f != field ==> EntryOf(r, cur, f) == EntryOf(s, cur, f)
    ensures forall f :: f != field ==> RawValue(r, cur, f) == RawValue(s, cur, f)
    ensures forall n :: n != cur ==> MappingOf(r, n) == MappingOf(s, n) && ValuesOf(r, n) == ValuesOf(s, n)
    ensures r.prefillEnabled == s.prefillEnabled
  {
    var nm := MappingOf(s, cur) - {field};
    s.(mappings := s.mappings[cur := nm],
       formValues := s.formValues[cur := ValuesOf(s, cur)[field := EmptyValue]])
  }

  /** `onFieldChange(field, value)` on the current node: sets the raw value only. */
  function FieldChange(s: Store, cur: NodeId, field: FieldName, value: Value): (r: Store)
    ensures RawValue(r, cur, field) == Some(value)
    ensures forall f :: f != field ==> RawValue(r, cur, f) == RawValue(s, cur, f)
    ensures forall n :: n != cur ==> ValuesOf(r, n) == ValuesOf(s, n)
    ensures r.mappings == s.mappings && r.prefillEnabled == s.prefillEnabled
  {
    s.(formValues := s.formValues[cur := ValuesOf(s, cur)[field := value]])
  }

  /** `getInputValue(field)` on the current node: a mapped field reads its source
      (the global default or the source node's value), an unmapped field its own
      raw value; whatever is undefined reads as `""`. */
  function InputValue(s: Store, globals: Namespace, cur: NodeId, field: FieldName): (r: Value)
    ensures EntryOf(s, cur, field).Some? ==>
              r == SourceValue(s, globals, EntryOf(s, cur, field).value.sourceFormId,
                               EntryOf(s, cur, field).value.sourceField).GetOr(EmptyValue)
    ensures EntryOf(s, cur, field).None? ==> r == RawValue(s, cur, field).GetOr(EmptyValue)
  {
    var m := MappingOf(s, cur);
    if field in m then
      if m[field].sourceFormId == GlobalSourceId then
        LookupGlobal(globals, m[field].sourceField).GetOr(EmptyValue)
      else
        RawValue(s, m[field].sourceFormId, m[field].sourceField).GetOr(EmptyValue)
    else
      RawValue(s, cur, field).GetOr(EmptyValue)
  }

  // ---------------------------------------------------------------------------
  // Properties relating several handlers

  /** Reading back a mapping just set returns the chosen source. */
  lemma UpdateThenRead(s: Store, globals: Namespace, cur: NodeId, field: FieldName, opt: SourceOption)
    ensures var r := UpdateMapping(s, cur, field, opt);
            InputValue(r, globals, cur, field)
              == SourceValue(s, globals, opt.sourceFormId, opt.sourceField).GetOr(EmptyValue)
  {
  }

  /** After clearing, the field resolves to `""` and has no mapping. */
  lemma ClearThenResolveEmpty(s: Store, globals: Namespace, cur: NodeId, field: FieldName)
    ensures InputValue(ClearMapping(s, cur, field), globals, cur, field) == EmptyValue
    ensures field !in MappingOf(ClearMapping(s, cur, field), cur)
  {
  }

  /** Two stores on which every source offers the same values pick the same source. */
  lemma PickSourceAgrees(s1: Store, s2: Store, globals: Namespace, sources: seq<NodeId>, f: FieldName)
    requires forall sid :: sid in sources ==> SourceValue(s1, globals, sid, f) == SourceValue(s2, globals, sid, f)
    ensures PickSource(s1, globals, sources, f) == PickSource(s2, globals, sources, f)
  {
  }

  /** Auto-mapping depends on the sources' values only. */
  lemma AutoMapAgrees(s1: Store, s2: Store, globals: Namespace, fields: seq<FieldName>, sources: seq<NodeId>)
    requires forall sid, f :: sid in sources ==> SourceValue(s1, globals, sid, f) == SourceValue(s2, globals, sid, f)
    ensures AutoMap(s1, globals, fields, sources) == AutoMap(s2, globals, fields, sources)
  {
    forall f ensures Chosen(s1, globals, sources, f) == Chosen(s2, globals, sources, f) {
      PickSourceAgrees(s1, s2, globals, sources, f);
    }
    SameChoicesSameAutoMap(s1, s2, globals, fields, sources);
  }

  lemma SameChoicesSameAutoMap(s1: Store, s2: Store, globals: Namespace, fields: seq<FieldName>, sources: seq<NodeId>)
    requires forall f :: Chosen(s1, globals, sources, f) == Chosen(s2, globals, sources, f)
    ensures AutoMap(s1, globals, fields, sources) == AutoMap(s2, globals, fields, sources)
  {
    var a1, a2 := AutoMap(s1, globals, fields, sources), AutoMap(s2, globals, fields, sources);
    MapsAgree(a1.0, a2.0);
    MapsAgree(a1.1, a2.1);
  }

  lemma MapsAgree<K, V>(a: map<K, V>, b: map<K, V>)
    requires a.Keys == b.Keys
    requires forall k :: k in a ==> a[k] == b[k]
    ensures a == b
  {
  }

  /** Enabling writes only the node's own values, so every other source offers what it offered before. */
  lemma EnableKeepsOtherSources(s: Store, globals: Namespace, node: NodeId,
                                fields: seq<FieldName>, upstream: seq<NodeId>)
    requires node !in upstream
    ensures var once := TogglePrefill(s, globals, node, true, fields, upstream);
            forall sid, f :: sid in PrefillSources(upstream) ==>
              SourceValue(once, globals, sid, f) == SourceValue(s, globals, sid, f)
  {
    var once := TogglePrefill(s, globals, node, true, fields, upstream);
    forall sid, f | sid in PrefillSources(upstream)
      ensures SourceValue(once, globals, sid, f) == SourceValue(s, globals, sid, f)
    {
      if sid != GlobalSourceId {
        assert sid in upstream;
        assert ValuesOf(once, sid) == ValuesOf(s, sid);
      }
    }
  }

  /** The enable branch, spelled out. */
  lemma EnableUnfolds(s: Store, globals: Namespace, node: NodeId, fields: seq<FieldName>, upstream: seq<NodeId>)
    ensures var auto := AutoMap(s, globals, fields, PrefillSources(upstream));
            EnablePrefill(s, globals, node, fields, upstream)
            == Store(s.prefillEnabled[node := true],
                     s.formValues[node := ValuesOf(s, node) + auto.1],
                     s.mappings[node := auto.0])
  {
  }

  /** Enabling reads the sources only and writes only the node itself, so when the
      node is not among its own sources a second run changes nothing. */
  lemma AutoMapIdempotent(s: Store, globals: Namespace, node: NodeId,
                          fields: seq<FieldName>, upstream: seq<NodeId>)
    requires node !in upstream
    ensures var once := TogglePrefill(s, globals, node, true, fields, upstream);
            TogglePrefill(once, globals, node, true, fields, upstream) == once
  {
    var sources := PrefillSources(upstream);
    var once := TogglePrefill(s, globals, node, true, fields, upstream);
    EnableKeepsOtherSources(s, globals, node, fields, upstream);
    AutoMapAgrees(once, s, globals, fields, sources);
    var auto := AutoMap(s, globals, fields, sources);
    var vals := ValuesOf(s, node) + auto.1;
    EnableUnfolds(s, globals, node, fields, upstream);
    EnableUnfolds(once, globals, node, fields, upstream);
    MergeTwice(ValuesOf(s, node), auto.1);
    UpdateSame(once.prefillEnabled, node, true);
    UpdateSame(once.formValues, node, vals);
    UpdateSame(once.mappings, node, auto.0);
  }

  lemma UpdateSame<K, V>(m: map<K, V>, k: K, v: V)
    requires k in m && m[k] == v
    ensures m[k := v] == m
  {
  }

  lemma MergeTwice<K, V>(a: map<K, V>, b: map<K, V>)
    ensures (a + b) + b == a + b
  {
  }

  /** Right after enabling, the resolved value of every field equals the raw value
      the form card shows, even when the node is among its own sources: a field
      mapped to the node itself reads the very value it was filled with. */
  lemma ResolvedEqualsRawAfterEnable(s: Store, globals: Namespace, node: NodeId,
                                     fields: seq<FieldName>, upstream: seq<NodeId>, f: FieldName)
    ensures var r := TogglePrefill(s, globals, node, true, fields, upstream);
            InputValue(r, globals, node, f) == RawValue(r, node, f).GetOr(EmptyValue)
  {
    var r := TogglePrefill(s, globals, node, true, fields, upstream);
    if f in MappingOf(r, node) {
      var sid := MappingOf(r, node)[f].sourceFormId;
      var i :| 0 <= i < |PrefillSources(upstream)| && PrefillSources(upstream)[i] == sid
               && SourceValue(s, globals, sid, f).Some?;
      if sid != GlobalSourceId && sid != node {
        assert i > 0 && sid in upstream;
        assert ValuesOf(r, sid) == ValuesOf(s, sid);
      }
    }
  }

  /** Disabling after enabling keeps the auto-filled value: with no mapping left,
      the field resolves to the value that was copied in when it was mapped. */
  lemma DisableKeepsAutoFilledValue(s: Store, globals: Namespace, node: NodeId,
                                    fields: seq<FieldName>, upstream: seq<NodeId>, f: FieldName)
    requires f in MappingOf(TogglePrefill(s, globals, node, true, fields, upstream), node)
    ensures var on := TogglePrefill(s, globals, node, true, fields, upstream);
            var off := TogglePrefill(on, globals, node, false, fields, upstream);
            && MappingOf(off, node) == map[]
            && InputValue(off, globals, node, f)
               == SourceValue(s, globals, MappingOf(on, node)[f].sourceFormId, f).value
  {
  }

  /** Manual mapping ignores the prefill flag: a disabled node can hold a mapping. */
  lemma UpdateIgnoresPrefillFlag(s: Store, cur: NodeId, field: FieldName, opt: SourceOption)
    requires !IsEnabled(s, cur)
    ensures var r := UpdateMapping(s, cur, field, opt);
            !IsEnabled(r, cur) && MappingOf(r, cur) != map[]
  {
    assert field in MappingOf(UpdateMapping(s, cur, field, opt), cur);
  }
}
