/** The field schemas each conversion documents for the form that collects its
    inputs, transcribed as constants, and what it means for inputs to satisfy one.
    The converters themselves never consult these schemas. */
module Schemas {
  import opened Wrappers
  import opened FieldValues

  datatype FieldKind = NumberField | SelectField

  /** One choice of a select field: the label shown and the value submitted. */
  datatype SelectOption = SelectOption(name: string, value: string)

  datatype FieldDef = FieldDef(
    name: string,
    kind: FieldKind,
    placeholder: string,
    min: Option<real>,
    required: bool,
    options: seq<SelectOption>)

  const BagsField := FieldDef("number_of_bags", NumberField, "The number bags supplied.", Some(1.0), true, [])
  const PacketsField := FieldDef("packets_per_bag", NumberField, "The number of packets in a bag.", Some(1.0), true, [])
  const PiecesField := FieldDef("pieces_per_packet", NumberField, "The number of pieces in a packet.", Some(1.0), true, [])
  const PacksReceivedField := FieldDef("number_of_packs_received", NumberField, "The total number of packs received.", Some(1.0), true, [])
  const PerPackField := FieldDef("number_per_pack", NumberField, "The number products in a complete pack.", Some(1.0), true, [])
  const VolumeOptions := [SelectOption("35cl", "35"), SelectOption("50cl", "50"), SelectOption("1L", "100")]
  const ProductVolumeField := FieldDef("product_volume", SelectField,
    "The volume of this product, as stated on the product's container.", None, true, VolumeOptions)

  const ChickenSchema := [PacketsField, BagsField]
  const Cut9Schema := [BagsField, PacketsField, PiecesField]
  const NbcVolumeSchema := [PacksReceivedField, PerPackField, ProductVolumeField]

  /** A value counts as not supplied when it is `None` or the empty string. */
  predicate Empty(v: Value) {
    v.Null? || v == Text("")
  }

  /** A supplied value meets a field's type, `min` and `options`; an unsupplied one
      is acceptable only for a field that is not `required`. */
  predicate Accepts(f: FieldDef, v: Value) {
    if Empty(v) then !f.required
    else match f.kind
      case NumberField =>
        Float(v).Success? && (f.min.Some? ==> Float(v).value >= f.min.value)
      case SelectField =>
        v.Text? && exists i :: 0 <= i < |f.options| && f.options[i].value == v.s
  }

  /** The inputs satisfy every field of the schema. */
  predicate Conforms(schema: seq<FieldDef>, inputs: Inputs) {
    forall i :: 0 <= i < |schema| ==> Accepts(schema[i], Get(inputs, schema[i].name))
  }

  /** A field the schema marks `required` with a `min` is supplied as a number at least that `min`. */
  lemma ConformsGivesMinimum(schema: seq<FieldDef>, inputs: Inputs, i: nat)
    requires Conforms(schema, inputs)
    requires i < |schema| && schema[i].kind == NumberField && schema[i].required && schema[i].min.Some?
    ensures Float(Get(inputs, schema[i].name)).Success?
    ensures Float(Get(inputs, schema[i].name)).value >= schema[i].min.value
  {
    assert Accepts(schema[i], Get(inputs, schema[i].name));
  }
}
