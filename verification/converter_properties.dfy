/** What the conversion rules promise: their formulas, their error behaviour on
    missing or unreadable inputs, and the bounds the form schemas guarantee. */
module ConverterProperties {
  import opened Wrappers
  import opened DecimalText
  import opened FieldValues
  import opened Schemas
  import opened Converters
  import opened RealArith

  /** `float(v)` raises for `v`: it is `None` or a string that is not a decimal literal. */
  predicate Unreadable(v: Value) {
    v.Null? || (v.Text? && ParseFloat(v.s).None?)
  }

  /** A non-empty string `float()` rejects: the only thing `float(v or 0.00)` raises on. */
  predicate BadLiteral(v: Value) {
    v.Text? && |v.s| > 0 && ParseFloat(v.s).None?
  }

  lemma ReadableFloat(v: Value)
    ensures Float(v).Success? <==> !Unreadable(v)
  {
  }

  // ---------------------------------------------------------------- chicken_conversion

  lemma ChickenQuantity(inputs: Inputs, bags: real, packets: real)
    requires Float(Get(inputs, "number_of_bags")) == Success(bags)
    requires Float(Get(inputs, "packets_per_bag")) == Success(packets)
    ensures ChickenConversion(inputs) == Success(map[QuantityReceived := bags * packets])
  {
    var r := ChickenConversion(inputs);
    assert r.value.Keys == {QuantityReceived} && r.value[QuantityReceived] == bags * packets;
  }

  /** The strict conversion fails exactly when one of its two inputs is missing or
      unreadable, and reports the first such input in reading order. */
  lemma ChickenFailsIffUnreadable(inputs: Inputs)
    ensures ChickenConversion(inputs).Failure? <==>
      Unreadable(Get(inputs, "number_of_bags")) || Unreadable(Get(inputs, "packets_per_bag"))
    ensures Unreadable(Get(inputs, "number_of_bags")) ==>
      ChickenConversion(inputs) == Failure(Float(Get(inputs, "number_of_bags")).error)
    ensures !Unreadable(Get(inputs, "number_of_bags")) && Unreadable(Get(inputs, "packets_per_bag")) ==>
      ChickenConversion(inputs) == Failure(Float(Get(inputs, "packets_per_bag")).error)
  {
    ReadableFloat(Get(inputs, "number_of_bags"));
    ReadableFloat(Get(inputs, "packets_per_bag"));
  }

  // ---------------------------------------------------------------- cut9_conversion

  lemma Cut9Quantity(inputs: Inputs, bags: real, packets: real, pieces: real)
    requires Float(Get(inputs, "number_of_bags")) == Success(bags)
    requires Float(Get(inputs, "packets_per_bag")) == Success(packets)
    requires Float(Get(inputs, "pieces_per_packet")) == Success(pieces)
    ensures Cut9Conversion(inputs) == Success(map[QuantityReceived := bags * packets * pieces])
  {
    var r := Cut9Conversion(inputs);
    assert r.value.Keys == {QuantityReceived} && r.value[QuantityReceived] == bags * packets * pieces;
  }

  lemma Cut9FailsIffUnreadable(inputs: Inputs)
    ensures Cut9Conversion(inputs).Failure? <==>
      Unreadable(Get(inputs, "number_of_bags")) || Unreadable(Get(inputs, "packets_per_bag"))
      || Unreadable(Get(inputs, "pieces_per_packet"))
  {
    ReadableFloat(Get(inputs, "number_of_bags"));
    ReadableFloat(Get(inputs, "packets_per_bag"));
    ReadableFloat(Get(inputs, "pieces_per_packet"));
  }

  /** Both bag rules read the bag count and then the packet count, so they fail
      alike on those two inputs. */
  lemma BagRulesFailAlike(inputs: Inputs)
    requires Float(Get(inputs, "number_of_bags")).Failure? || Float(Get(inputs, "packets_per_bag")).Failure?
    ensures Cut9Conversion(inputs) == ChickenConversion(inputs)
  {
    var bags := Float(Get(inputs, "number_of_bags"));
    if bags.Failure? {
      assert ChickenConversion(inputs) == Failure(bags.error);
      assert Cut9Conversion(inputs) == Failure(bags.error);
    } else {
      var packets := Float(Get(inputs, "packets_per_bag"));
      assert ChickenConversion(inputs) == Failure(packets.error);
      assert Cut9Conversion(inputs) == Failure(packets.error);
    }
  }

  /** With one piece per packet the three-level rule is the bagged rule, on every
      input: the same quantity, or the same error. */
  lemma Cut9WithOnePieceIsChicken(inputs: Inputs)
    requires Float(Get(inputs, "pieces_per_packet")) == Success(1.0)
    ensures Cut9Conversion(inputs) == ChickenConversion(inputs)
  {
    var bags := Float(Get(inputs, "number_of_bags"));
    var packets := Float(Get(inputs, "packets_per_bag"));
    if bags.Failure? || packets.Failure? {
      BagRulesFailAlike(inputs);
    } else {
      Cut9Quantity(inputs, bags.value, packets.value, 1.0);
      ChickenQuantity(inputs, bags.value, packets.value);
      SameQuantity(Cut9Conversion(inputs), ChickenConversion(inputs));
    }
  }

  /** Two successful results holding only `quantity_received`, with equal values, are equal. */
  lemma SameQuantity(a: Conversion, b: Conversion)
    requires a.Success? && a.value.Keys == {QuantityReceived}
    requires b.Success? && b.value.Keys == {QuantityReceived}
    requires a.value[QuantityReceived] == b.value[QuantityReceived]
    ensures a == b
  {
    assert a.value == b.value;
  }

  // ---------------------------------------------------------------- schema bounds

  /** Inputs the bagged form accepts (both counts at least 1) convert, and the
      quantity is at least 1 and at least each factor. */
  lemma ChickenUnderSchema(inputs: Inputs)
    requires Conforms(ChickenSchema, inputs)
    ensures ChickenConversion(inputs).Success?
    ensures var q := ChickenConversion(inputs).value[QuantityReceived];
      && q >= 1.0
      && q >= Float(Get(inputs, "number_of_bags")).value
      && q >= Float(Get(inputs, "packets_per_bag")).value
  {
    ConformsGivesMinimum(ChickenSchema, inputs, 1);
    ConformsGivesMinimum(ChickenSchema, inputs, 0);
    var bags := Float(Get(inputs, "number_of_bags")).value;
    var packets := Float(Get(inputs, "packets_per_bag")).value;
    ChickenQuantity(inputs, bags, packets);
    ProductAtLeastFactors(bags, packets, bags * packets);
  }

  /** Inputs the three-level form accepts convert, and the quantity is at least 1
      and at least each of the three factors. */
  lemma Cut9UnderSchema(inputs: Inputs)
    requires Conforms(Cut9Schema, inputs)
    ensures Cut9Conversion(inputs).Success?
    ensures var q := Cut9Conversion(inputs).value[QuantityReceived];
      && q >= 1.0
      && q >= Float(Get(inputs, "number_of_bags")).value
      && q >= Float(Get(inputs, "packets_per_bag")).value
      && q >= Float(Get(inputs, "pieces_per_packet")).value
  {
    ConformsGivesMinimum(Cut9Schema, inputs, 0);
    ConformsGivesMinimum(Cut9Schema, inputs, 1);
    ConformsGivesMinimum(Cut9Schema, inputs, 2);
    var bags := Float(Get(inputs, "number_of_bags")).value;
    var packets := Float(Get(inputs, "packets_per_bag")).value;
    var pieces := Float(Get(inputs, "pieces_per_packet")).value;
    Cut9Quantity(inputs, bags, packets, pieces);
    TripleProductBounds(bags, packets, pieces, Cut9Conversion(inputs).value[QuantityReceived]);
  }

  /** The form schema is not enforced by the rule itself: a bag count of 0, which
      the form's `min` forbids, still converts, to a quantity of 0. */
  lemma ChickenIgnoresMinimum()
    ensures !Conforms(ChickenSchema, map["number_of_bags" := Number(0.0), "packets_per_bag" := Number(5.0)])
    ensures ChickenConversion(map["number_of_bags" := Number(0.0), "packets_per_bag" := Number(5.0)])
      == Success(map[QuantityReceived := 0.0])
  {
    var inputs := map["number_of_bags" := Number(0.0), "packets_per_bag" := Number(5.0)];
    assert !Accepts(ChickenSchema[1], Get(inputs, ChickenSchema[1].name));
  }

  // ---------------------------------------------------------------- nbc_products_volume_conversion

  /** The volume rule on three readings, before any regrouping of the product. */
  lemma NbcEntries(inputs: Inputs, packs: real, perPack: real, centilitres: real)
    requires FloatOrZero(Get(inputs, "number_of_packs_received")) == Success(packs)
    requires FloatOrZero(Get(inputs, "number_per_pack")) == Success(perPack)
    requires FloatOrZero(Get(inputs, "product_volume")) == Success(centilitres)
    ensures NbcProductsVolumeConversion(inputs).Success?
    ensures NbcProductsVolumeConversion(inputs).value[QuantityReceived] == packs * perPack
    ensures NbcProductsVolumeConversion(inputs).value[ExtendedVolumeReceived] == (centilitres / 100.0) * perPack * packs
  {
    assert QuantityReceived != ExtendedVolumeReceived;
  }

  /** From the three readings: the container count is packs times units per pack,
      and the extended volume is that count times the centilitres over 100. */
  lemma NbcFromValues(inputs: Inputs, packs: real, perPack: real, centilitres: real)
    requires FloatOrZero(Get(inputs, "number_of_packs_received")) == Success(packs)
    requires FloatOrZero(Get(inputs, "number_per_pack")) == Success(perPack)
    requires FloatOrZero(Get(inputs, "product_volume")) == Success(centilitres)
    ensures NbcProductsVolumeConversion(inputs).Success?
    ensures NbcProductsVolumeConversion(inputs).value[QuantityReceived] == packs * perPack
    ensures NbcProductsVolumeConversion(inputs).value[ExtendedVolumeReceived] ==
      NbcProductsVolumeConversion(inputs).value[QuantityReceived] * centilitres / 100.0
  {
    NbcEntries(inputs, packs, perPack, centilitres);
    var r := NbcProductsVolumeConversion(inputs).value;
    ExtendedVolumeRegrouped(packs, perPack, centilitres, r[QuantityReceived], r[ExtendedVolumeReceived]);
  }

  /** Container count is packs times units per pack; the extended volume is that
      count times the selected volume converted from centilitres to litres. */
  lemma NbcQuantities(inputs: Inputs)
    requires NbcProductsVolumeConversion(inputs).Success?
    ensures FloatOrZero(Get(inputs, "number_of_packs_received")).Success?
    ensures FloatOrZero(Get(inputs, "number_per_pack")).Success?
    ensures FloatOrZero(Get(inputs, "product_volume")).Success?
    ensures var r := NbcProductsVolumeConversion(inputs).value;
      var packs := FloatOrZero(Get(inputs, "number_of_packs_received")).value;
      var perPack := FloatOrZero(Get(inputs, "number_per_pack")).value;
      var centilitres := FloatOrZero(Get(inputs, "product_volume")).value;
      && r[QuantityReceived] == packs * perPack
      && r[ExtendedVolumeReceived] == r[QuantityReceived] * centilitres / 100.0
  {
    NbcFromValues(inputs,
      FloatOrZero(Get(inputs, "number_of_packs_received")).value,
      FloatOrZero(Get(inputs, "number_per_pack")).value,
      FloatOrZero(Get(inputs, "product_volume")).value);
  }

  /** The tolerant rule raises only on a non-empty string `float()` rejects;
      missing, `None`, zero and empty inputs never make it fail. */
  lemma NbcFailsIffBadLiteral(inputs: Inputs)
    ensures NbcProductsVolumeConversion(inputs).Failure? <==>
      BadLiteral(Get(inputs, "number_of_packs_received")) || BadLiteral(Get(inputs, "number_per_pack"))
      || BadLiteral(Get(inputs, "product_volume"))
  {
  }

  /** A missing pack count or units-per-pack zeroes both outputs instead of failing. */
  lemma NbcMissingCountGivesZero(inputs: Inputs)
    requires !Truthy(Get(inputs, "number_of_packs_received")) || !Truthy(Get(inputs, "number_per_pack"))
    requires !BadLiteral(Get(inputs, "number_of_packs_received")) && !BadLiteral(Get(inputs, "number_per_pack"))
    requires !BadLiteral(Get(inputs, "product_volume"))
    ensures NbcProductsVolumeConversion(inputs) ==
      Success(map[QuantityReceived := 0.0, ExtendedVolumeReceived := 0.0])
  {
    NbcFailsIffBadLiteral(inputs);
    NbcQuantities(inputs);
  }

  /** With every input omitted the tolerant rule gives zero containers and zero litres. */
  lemma NbcAllMissing()
    ensures NbcProductsVolumeConversion(map[]) ==
      Success(map[QuantityReceived := 0.0, ExtendedVolumeReceived := 0.0])
  {
  }

  /** The three volume options are 35, 50 and 100 centilitres: 0.35, 0.5 and 1 litre. */
  lemma VolumeOptionLitres()
    ensures |VolumeOptions| == 3
    ensures ParseFloat(VolumeOptions[0].value) == Some(35.0) && 35.0 / 100.0 == 0.35
    ensures ParseFloat(VolumeOptions[1].value) == Some(50.0) && 50.0 / 100.0 == 0.5
    ensures ParseFloat(VolumeOptions[2].value) == Some(100.0) && 100.0 / 100.0 == 1.0
  {
    ParseNatToDecimal(35);
    ParseNatToDecimal(50);
    ParseNatToDecimal(100);
  }

  /** A volume the form accepts reads as 35, 50 or 100 centilitres. */
  lemma AcceptedVolume(v: Value)
    requires Accepts(ProductVolumeField, v)
    ensures FloatOrZero(v) == Success(35.0) || FloatOrZero(v) == Success(50.0) || FloatOrZero(v) == Success(100.0)
  {
    VolumeOptionLitres();
    var k :| 0 <= k < |VolumeOptions| && VolumeOptions[k].value == v.s;
    assert k == 0 || k == 1 || k == 2;
  }

  /** The volume outputs from counts of at least one and a volume option's centilitres. */
  lemma NbcFromReadings(inputs: Inputs, packs: real, perPack: real, centilitres: real)
    requires FloatOrZero(Get(inputs, "number_of_packs_received")) == Success(packs) && packs >= 1.0
    requires FloatOrZero(Get(inputs, "number_per_pack")) == Success(perPack) && perPack >= 1.0
    requires FloatOrZero(Get(inputs, "product_volume")) == Success(centilitres)
    requires centilitres == 35.0 || centilitres == 50.0 || centilitres == 100.0
    ensures NbcProductsVolumeConversion(inputs).Success?
    ensures var r := NbcProductsVolumeConversion(inputs).value;
      && r[QuantityReceived] >= 1.0
      && (r[ExtendedVolumeReceived] == 0.35 * r[QuantityReceived]
       || r[ExtendedVolumeReceived] == 0.5 * r[QuantityReceived]
       || r[ExtendedVolumeReceived] == 1.0 * r[QuantityReceived])
  {
    NbcFromValues(inputs, packs, perPack, centilitres);
    var r := NbcProductsVolumeConversion(inputs).value;
    VolumeBounds(packs, perPack, centilitres, r[QuantityReceived], r[ExtendedVolumeReceived]);
  }

  /** Inputs the volume form accepts convert: at least one container, and an
      extended volume of 0.35, 0.5 or 1 litre per container. */
  lemma NbcUnderSchema(inputs: Inputs)
    requires Conforms(NbcVolumeSchema, inputs)
    ensures NbcProductsVolumeConversion(inputs).Success?
    ensures var r := NbcProductsVolumeConversion(inputs).value;
      && r[QuantityReceived] >= 1.0
      && (r[ExtendedVolumeReceived] == 0.35 * r[QuantityReceived]
       || r[ExtendedVolumeReceived] == 0.5 * r[QuantityReceived]
       || r[ExtendedVolumeReceived] == 1.0 * r[QuantityReceived])
  {
    ConformsGivesMinimum(NbcVolumeSchema, inputs, 0);
    ConformsGivesMinimum(NbcVolumeSchema, inputs, 1);
    var packsV := Get(inputs, "number_of_packs_received");
    var perPackV := Get(inputs, "number_per_pack");
    var volumeV := Get(inputs, "product_volume");
    assert Accepts(NbcVolumeSchema[2], volumeV);
    AcceptedVolume(volumeV);
    var packs := Float(packsV).value;
    var perPack := Float(perPackV).value;
    NbcFromReadings(inputs, packs, perPack, FloatOrZero(volumeV).value);
  }

  // ---------------------------------------------------------------- worked examples

  lemma ChickenExample()
    ensures ChickenConversion(map["number_of_bags" := Number(10.0), "packets_per_bag" := Number(5.0)])
      == Success(map[QuantityReceived := 50.0])
  {
  }

  lemma Cut9Example()
    ensures Cut9Conversion(map["number_of_bags" := Number(2.0), "packets_per_bag" := Number(3.0),
                               "pieces_per_packet" := Number(4.0)])
      == Success(map[QuantityReceived := 24.0])
  {
  }

  lemma NbcExample()
    ensures NbcProductsVolumeConversion(map["number_of_packs_received" := Number(10.0),
                                            "number_per_pack" := Number(12.0),
                                            "product_volume" := Text("35")])
      == Success(map[QuantityReceived := 120.0, ExtendedVolumeReceived := 42.0])
  {
    VolumeOptionLitres();
  }
}
