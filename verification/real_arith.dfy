/** Facts about products of exact reals that the quantity bounds rest on. */
module RealArith {

  lemma NonNegativeProduct(x: real, y: real)
    requires x >= 0.0 && y >= 0.0
    ensures x * y >= 0.0
  {
  }

  /** A product of two factors that are each at least 1 is at least either factor. */
  lemma ProductAtLeastFactors(a: real, b: real, product: real)
    requires a >= 1.0 && b >= 1.0 && product == a * b
    ensures product >= a && product >= b && product >= 1.0
  {
    NonNegativeProduct(a, b - 1.0);
    NonNegativeProduct(a - 1.0, b);
    assert product - a == a * (b - 1.0);
    assert product - b == (a - 1.0) * b;
  }

  lemma TripleProductBounds(a: real, b: real, c: real, product: real)
    requires a >= 1.0 && b >= 1.0 && c >= 1.0 && product == a * b * c
    ensures product >= a && product >= b && product >= c && product >= 1.0
  {
    var ab := a * b;
    ProductAtLeastFactors(a, b, ab);
    ProductAtLeastFactors(ab, c, product);
  }

  /** Litres per container times units per pack times packs is the container count
      times the litres per container. */
  lemma ExtendedVolumeRegrouped(packs: real, perPack: real, centilitres: real, count: real, litres: real)
    requires count == packs * perPack
    requires litres == (centilitres / 100.0) * perPack * packs
    ensures litres == count * centilitres / 100.0
  {
  }

  /** A count times 35, 50 or 100 centilitres, in litres. */
  lemma OptionLitres(count: real, centilitres: real)
    requires centilitres == 35.0 || centilitres == 50.0 || centilitres == 100.0
    ensures count * centilitres / 100.0 == 0.35 * count
         || count * centilitres / 100.0 == 0.5 * count
         || count * centilitres / 100.0 == 1.0 * count
  {
  }

  /** Counts of at least 1 and a volume option give at least one container and
      0.35, 0.5 or 1 litre per container. */
  lemma VolumeBounds(packs: real, perPack: real, centilitres: real, count: real, litres: real)
    requires packs >= 1.0 && perPack >= 1.0 && count == packs * perPack
    requires centilitres == 35.0 || centilitres == 50.0 || centilitres == 100.0
    requires litres == count * centilitres / 100.0
    ensures count >= 1.0
    ensures litres == 0.35 * count || litres == 0.5 * count || litres == 1.0 * count
  {
    ProductAtLeastFactors(packs, perPack, count);
    OptionLitres(count, centilitres);
  }
}
