/** The three quantity conversion rules applied to a goods-received line. Each
    reads its inputs with `inputs.get(name)` and returns a result map that always
    carries `quantity_received`. */
module Converters {
  import opened Wrappers
  import opened DecimalText
  import opened FieldValues

  const QuantityReceived := "quantity_received"
  const ExtendedVolumeReceived := "extended_volume_received"

  type Quantities = map<string, real>
  type Conversion = Result<Quantities, FloatError>

  /** Bagged units: `float(number_of_bags) * float(packets_per_bag)`. Neither
      input has a default, so a missing one raises from `float(None)`. */
  function ChickenConversion(inputs: Inputs): (r: Conversion)
    ensures r.Success? ==> r.value.Keys == {QuantityReceived}
    ensures Get(inputs, "number_of_bags").Null? ==> r == Failure(NotStringOrNumber)
    ensures Get(inputs, "packets_per_bag").Null? ==> r.Failure?
  {
    var bags :- Float(Get(inputs, "number_of_bags"));
    var packets :- Float(Get(inputs, "packets_per_bag"));
    Success(map[QuantityReceived := bags * packets])
  }

  /** Three-level packaging: bags, packets per bag and pieces per packet
      multiplied, each read strictly in that order. */
  function Cut9Conversion(inputs: Inputs): (r: Conversion)
    ensures r.Success? ==> r.value.Keys == {QuantityReceived}
    ensures Get(inputs, "number_of_bags").Null? ==> r == Failure(NotStringOrNumber)
    ensures Get(inputs, "packets_per_bag").Null? ==> r.Failure?
    ensures Get(inputs, "pieces_per_packet").Null? ==> r.Failure?
  {
    var bags :- Float(Get(inputs, "number_of_bags"));
    var packets :- Float(Get(inputs, "packets_per_bag"));
    var pieces :- Float(Get(inputs, "pieces_per_packet"));
    Success(map[QuantityReceived := bags * packets * pieces])
  }

  /** Volume goods: containers counted, plus the total volume in litres from the
      centilitre option. Every input reads as zero when missing or empty. */
  function NbcProductsVolumeConversion(inputs: Inputs): (r: Conversion)
    ensures r.Success? ==> r.value.Keys == {QuantityReceived, ExtendedVolumeReceived}
    ensures r.Failure? ==> exists name :: name in inputs && inputs[name].Text? && ParseFloat(inputs[name].s).None?
  {
    match FloatOrZero(Get(inputs, "number_of_packs_received"))
    case Failure(e) => Failure(e)
    case Success(packs) =>
      match FloatOrZero(Get(inputs, "number_per_pack"))
      case Failure(e) => Failure(e)
      case Success(perPack) =>
        match FloatOrZero(Get(inputs, "product_volume"))
        case Failure(e) => Failure(e)
        case Success(centilitres) =>
          var litres := centilitres / 100.0;
          var extended := litres * perPack * packs;
          Success(map[QuantityReceived := packs * perPack, ExtendedVolumeReceived := extended])
  }
}
