/** The per-field rows of the form card (app/src/components/FormCard.tsx):
    what each row shows and how the navigation button is labelled. */
module FormCard {
  import opened GraphTypes
  import opened Strings

  /** The props handed to one `FieldRow`. */
  datatype Row = Row(field: FieldName, value: Value, isPrefilled: bool, sourceLabel: string)

  /** `${upstreamLabels[id]}`: a missing label interpolates as "undefined". */
  function LabelText(labels: map<NodeId, string>, id: NodeId): (r: string)
    ensures id in labels ==> r == labels[id]
    ensures id !in labels ==> r == "undefined"
  {
    if id in labels then labels[id] else "undefined"
  }

  /** The row of one field: the raw value (`""` when undefined), whether it is
      prefilled, and which source it is mapped to. */
  function RowOf(field: FieldName, values: map<FieldName, Value>, mappings: map<FieldName, MappingEntry>,
                 labels: map<NodeId, string>, prefillEnabled: bool): (r: Row)
    ensures r.field == field
    ensures r.isPrefilled <==> field in mappings && prefillEnabled
    ensures field in values ==> r.value == values[field]
    ensures field !in values ==> r.value == EmptyValue
    ensures field !in mappings ==> r.sourceLabel == ""
    ensures field in mappings ==>
      r.sourceLabel == Dotted(LabelText(labels, mappings[field].sourceFormId), mappings[field].sourceField)
  {
    var value := if field in values then values[field] else EmptyValue;
    var sourceLabel := if field in mappings
      then Dotted(LabelText(labels, mappings[field].sourceFormId), mappings[field].sourceField)
      else "";
    Row(field, value, field in mappings && prefillEnabled, sourceLabel)
  }

  /** One row per field of the schema, in schema order. */
  function Rows(fields: seq<FieldName>, values: map<FieldName, Value>, mappings: map<FieldName, MappingEntry>,
                labels: map<NodeId, string>, prefillEnabled: bool): (r: seq<Row>)
    ensures |r| == |fields|
    ensures forall i :: 0 <= i < |r| ==> r[i] == RowOf(fields[i], values, mappings, labels, prefillEnabled)
  {
    seq(|fields|, i requires 0 <= i < |fields| => RowOf(fields[i], values, mappings, labels, prefillEnabled))
  }

  /** The source label names the source and the field, and both can be read back
      from it when the source's label has no dot. */
  lemma SourceLabelParts(field: FieldName, values: map<FieldName, Value>, mappings: map<FieldName, MappingEntry>,
                         labels: map<NodeId, string>, prefillEnabled: bool)
    requires field in mappings
    requires '.' !in LabelText(labels, mappings[field].sourceFormId)
    ensures var r := RowOf(field, values, mappings, labels, prefillEnabled);
            var src := LabelText(labels, mappings[field].sourceFormId);
            && BeforeFirstDot(r.sourceLabel) == src
            && r.sourceLabel[|src| + 1..] == mappings[field].sourceField
  {
    var src := LabelText(labels, mappings[field].sourceFormId);
    BeforeFirstDotOfDotted(src, mappings[field].sourceField);
  }

  /** Without prefill no row is marked prefilled, whatever the mapping holds. */
  lemma DisabledRowsNotPrefilled(fields: seq<FieldName>, values: map<FieldName, Value>,
                                 mappings: map<FieldName, MappingEntry>, labels: map<NodeId, string>)
    ensures forall row :: row in Rows(fields, values, mappings, labels, false) ==> !row.isPrefilled
  {
  }

  /** `nextDisabled ? "Submit" : "Next"`. */
  function ButtonLabel(nextDisabled: bool): (r: string)
    ensures r == "Submit" <==> nextDisabled
    ensures r == "Next" <==> !nextDisabled
  {
    if nextDisabled then "Submit" else "Next"
  }

  /** A form with fields `first` and `second` valued "A" and "B", no mappings and
      prefill off shows both values, neither prefilled, with no source label. */
  lemma DefaultRows()
    ensures Rows(["first", "second"], map["first" := Str("A"), "second" := Str("B")], map[], map[], false)
         == [Row("first", Str("A"), false, ""), Row("second", Str("B"), false, "")]
  {
  }

  /** With `first` mapped to field `fld` of source `SRC1` labelled "SourceOne"
      and prefill on, its row is prefilled and labelled "SourceOne.fld". */
  lemma MappedRow()
    ensures var r := Rows(["first", "second"], map["first" := Str("A"), "second" := Str("B")],
                          map["first" := MappingEntry("SRC1", "fld")], map["SRC1" := "SourceOne"], true);
            r[0].isPrefilled && r[0].sourceLabel == "SourceOne.fld" && !r[1].isPrefilled
  {
    assert Dotted("SourceOne", "fld") == "SourceOne.fld";
  }
}
