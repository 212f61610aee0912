/** Rounding to two decimals, on exact numbers. */
module Rounding {
  /** `math.Round`: halves are rounded away from zero. */
  function Round(x: real): int {
    if x >= 0.0 then (x + 0.5).Floor else -((-x + 0.5).Floor)
  }

  function Round2(v: real): real {
    Round(v * 100.0) as real / 100.0
  }

  function Cents(k: int): real {
    k as real / 100.0
  }

  /** A whole number of hundredths. */
  ghost predicate IsCents(v: real) {
    exists k :: v == Cents(k)
  }

  lemma RoundIsNear(x: real)
    ensures -0.5 <= Round(x) as real - x <= 0.5
  {
  }

  lemma Round2IsNear(v: real)
    ensures IsCents(Round2(v)) && -0.005 <= Round2(v) - v <= 0.005
  {
    RoundIsNear(v * 100.0);
    assert Round2(v) == Cents(Round(v * 100.0));
  }

  lemma CentsAreRounded(v: real)
    requires IsCents(v)
    ensures Round2(v) == v
  {
    var k :| v == Cents(k);
    assert v * 100.0 == k as real;
    RoundOfWhole(k);
  }

  lemma RoundOfWhole(k: int)
    ensures Round(k as real) == k
  {
  }

  /** An amount that is not negative vanishes exactly below half a cent. */
  lemma Round2Vanishes(v: real)
    requires v >= 0.0
    ensures Round2(v) >= 0.0 && (Round2(v) == 0.0 <==> v < 0.005)
  {
    assert Round(v * 100.0) == (v * 100.0 + 0.5).Floor;
  }

  lemma CentsAddUp(a: real, b: real)
    requires IsCents(a) && IsCents(b)
    ensures IsCents(a + b)
  {
    var i :| a == Cents(i);
    var j :| b == Cents(j);
    assert a + b == Cents(i + j);
  }
}

/** Shipping marks and their normal form. */
module ShippingMarks {
  import opened Basics
  import opened Rounding

  const VOLUMETRIC_FACTOR := 0.0004

  datatype Dimensions = Dimensions(
    height: real, width: real, depth: real, realWeight: real, volWeight: real, declared: real)

  /** `texts` are the description and the package type. */
  datatype PackageUnit = PackageUnit(texts: seq<string>, dims: Dimensions)

  /** `texts` are the text fields that are trimmed, `kept` those that are taken over; `url` may be missing. */
  datatype ShippingMark = ShippingMark(
    texts: seq<string>, kept: seq<string>, url: Option<string>, status: string, units: seq<PackageUnit>,
    totalWeight: real, totalVolWeight: real, declared: real,
    codAmount: real, codFeePercent: real, codCharged: real, quotedCost: real)

  function NonNegative(v: real): real {
    if v < 0.0 then 0.0 else v
  }

  function BoxVolume(height: real, width: real, depth: real): real {
    height * width * depth * VOLUMETRIC_FACTOR
  }

  function Volume(d: Dimensions): real {
    BoxVolume(NonNegative(d.height), NonNegative(d.width), NonNegative(d.depth))
  }

  lemma VolumeIsNonNegative(d: Dimensions)
    ensures Volume(d) >= 0.0
  {
    var a, b, c := NonNegative(d.height), NonNegative(d.width), NonNegative(d.depth);
    ProductIsNonNegative(a, b);
    ProductIsNonNegative(a * b, c);
    ProductIsNonNegative(a * b * c, VOLUMETRIC_FACTOR);
  }

  lemma ProductIsNonNegative(a: real, b: real)
    requires a >= 0.0 && b >= 0.0
    ensures a * b >= 0.0
  {
  }

  function NormalDimensions(d: Dimensions): Dimensions {
    Dimensions(
      NonNegative(d.height), NonNegative(d.width), NonNegative(d.depth),
      Round2(NonNegative(d.realWeight)),
      Round2(if d.volWeight <= 0.0 then Volume(d) else d.volWeight),
      Round2(NonNegative(d.declared)))
  }

  method NormalizeDimensions(d: Dimensions) returns (r: Dimensions)
    ensures r == NormalDimensions(d)
  {
    var copy := d;
    if copy.height < 0.0 { copy := copy.(height := 0.0); }
    if copy.width < 0.0 { copy := copy.(width := 0.0); }
    if copy.depth < 0.0 { copy := copy.(depth := 0.0); }
    if copy.realWeight < 0.0 { copy := copy.(realWeight := 0.0); }
    if copy.declared < 0.0 { copy := copy.(declared := 0.0); }
    VolumeIsNonNegative(d);
    if copy.volWeight <= 0.0 {
      copy := copy.(volWeight := BoxVolume(copy.height, copy.width, copy.depth));
    }
    if copy.volWeight < 0.0 {
      copy := copy.(volWeight := 0.0);
    }
    r := copy.(
      realWeight := Round2(copy.realWeight), volWeight := Round2(copy.volWeight), declared := Round2(copy.declared));
  }

  type Trim = string -> string

  function TrimAll(trim: Trim, texts: seq<string>): seq<string> {
    seq(|texts|, i requires 0 <= i < |texts| => trim(texts[i]))
  }

  function NormalUnit(trim: Trim, u: PackageUnit): PackageUnit {
    PackageUnit(TrimAll(trim, u.texts), NormalDimensions(u.dims))
  }

  function NormalUnits(trim: Trim, units: seq<PackageUnit>): seq<PackageUnit> {
    seq(|units|, i requires 0 <= i < |units| => NormalUnit(trim, units[i]))
  }

  function Weight(units: seq<PackageUnit>): real {
    if units == [] then 0.0 else Weight(units[..|units| - 1]) + units[|units| - 1].dims.realWeight
  }

  function VolWeight(units: seq<PackageUnit>): real {
    if units == [] then 0.0 else VolWeight(units[..|units| - 1]) + units[|units| - 1].dims.volWeight
  }

  /** The declared value grows by the units' values until it is positive. */
  function Declared(start: real, units: seq<PackageUnit>): real {
    if units == [] then start
    else
      var before := Declared(start, units[..|units| - 1]);
      if before <= 0.0 then before + units[|units| - 1].dims.declared else before
  }

  datatype Cod = Cod(amount: real, feePercent: real, charged: real)

  /** Cash on delivery: without an amount nothing is charged, without a charge the amount is. */
  function NormalCod(c: Cod): Cod {
    var amount := NonNegative(c.amount);
    if amount <= 0.0 then Cod(0.0, 0.0, 0.0)
    else
      var percent := if NonNegative(c.feePercent) > 100.0 then 100.0 else NonNegative(c.feePercent);
      Cod(Round2(amount), Round2(percent), Round2(if c.charged <= 0.0 then amount else c.charged))
  }

  function CodOf(m: ShippingMark): Cod {
    Cod(m.codAmount, m.codFeePercent, m.codCharged)
  }

  /** A blank URL is no URL. */
  function NormalURL(trim: Trim, url: Option<string>): (r: Option<string>)
    ensures r.Some? ==> url.Some? && r.value == trim(url.value) && r.value != ""
    ensures r.None? <==> url.None? || trim(url.value) == ""
  {
    if url.None? || trim(url.value) == "" then None else Some(trim(url.value))
  }

  const PENDING := "PENDING"

  function NormalMark(trim: Trim, m: ShippingMark): ShippingMark {
    var units := NormalUnits(trim, m.units);
    var cod := NormalCod(CodOf(m));
    ShippingMark(
      TrimAll(trim, m.texts), m.kept, NormalURL(trim, m.url), if m.status == "" then PENDING else m.status, units,
      Round2(Weight(units)), Round2(VolWeight(units)), Round2(NonNegative(Declared(m.declared, units))),
      cod.amount, cod.feePercent, cod.charged, Round2(NonNegative(m.quotedCost)))
  }

  lemma OneMoreUnit(start: real, all: seq<PackageUnit>, n: nat)
    requires n < |all|
    ensures Weight(all[..n + 1]) == Weight(all[..n]) + all[n].dims.realWeight
    ensures VolWeight(all[..n + 1]) == VolWeight(all[..n]) + all[n].dims.volWeight
    ensures Declared(start, all[..n + 1]) ==
            if Declared(start, all[..n]) <= 0.0 then Declared(start, all[..n]) + all[n].dims.declared
            else Declared(start, all[..n])
  {
    assert all[..n + 1][..n] == all[..n];
  }

  /** The units one after the other, with the totals and the declared value. */
  method NormalizeUnits(trim: Trim, start: real, given: seq<PackageUnit>)
    returns (units: seq<PackageUnit>, totalWeight: real, totalVolWeight: real, declared: real)
    ensures units == NormalUnits(trim, given)
    ensures totalWeight == Weight(units) && totalVolWeight == VolWeight(units) && declared == Declared(start, units)
  {
    ghost var all := NormalUnits(trim, given);
    units, totalWeight, totalVolWeight, declared := [], 0.0, 0.0, start;
    for n := 0 to |given|
      invariant units == all[..n]
      invariant totalWeight == Weight(all[..n]) && totalVolWeight == VolWeight(all[..n])
      invariant declared == Declared(start, all[..n])
    {
      var dims := NormalizeDimensions(given[n].dims);
      units := units + [PackageUnit(TrimAll(trim, given[n].texts), dims)];
      totalWeight := totalWeight + dims.realWeight;
      totalVolWeight := totalVolWeight + dims.volWeight;
      if declared <= 0.0 {
        declared := declared + dims.declared;
      }
      OneMoreUnit(start, all, n);
    }
    assert all[..|given|] == all;
  }

  method Normalize(trim: Trim, m: ShippingMark) returns (r: ShippingMark)
    ensures r == NormalMark(trim, m)
  {
    var units, totalWeight, totalVolWeight, declared := NormalizeUnits(trim, m.declared, m.units);
    if declared < 0.0 {
      declared := 0.0;
    }
    var cod := NormalizeCod(CodOf(m));
    var quotedCost := m.quotedCost;
    if quotedCost < 0.0 {
      quotedCost := 0.0;
    }
    r := ShippingMark(
      TrimAll(trim, m.texts), m.kept, NormalURL(trim, m.url), m.status, units,
      Round2(totalWeight), Round2(totalVolWeight), Round2(declared),
      cod.amount, cod.feePercent, cod.charged, Round2(quotedCost));
    if r.status == "" {
      r := r.(status := PENDING);
    }
  }

  method NormalizeCod(c: Cod) returns (r: Cod)
    ensures r == NormalCod(c)
  {
    var amount, percent, charged := c.amount, c.feePercent, c.charged;
    if amount < 0.0 { amount := 0.0; }
    if percent < 0.0 { percent := 0.0; }
    if percent > 100.0 { percent := 100.0; }
    if charged < 0.0 { charged := 0.0; }
    if amount <= 0.0 { percent, charged := 0.0, 0.0; }
    if amount > 0.0 && charged <= 0.0 { charged := amount; }
    Round2Vanishes(0.0);
    r := Cod(Round2(amount), Round2(percent), Round2(charged));
  }

  // ----- the total weight -----

  /** The weights as given, negative ones counted as nothing. */
  function RawWeight(units: seq<PackageUnit>): real {
    if units == [] then 0.0 else RawWeight(units[..|units| - 1]) + NonNegative(units[|units| - 1].dims.realWeight)
  }

  lemma {:induction false} WeightIsNear(trim: Trim, units: seq<PackageUnit>)
    ensures IsCents(Weight(NormalUnits(trim, units)))
    ensures -0.005 * |units| as real <= Weight(NormalUnits(trim, units)) - RawWeight(units) <= 0.005 * |units| as real
    decreases |units|
  {
    var all := NormalUnits(trim, units);
    if units == [] {
      assert 0.0 == Cents(0);
    } else {
      var n := |units| - 1;
      WeightIsNear(trim, units[..n]);
      assert all[..n] == NormalUnits(trim, units[..n]);
      Round2IsNear(NonNegative(units[n].dims.realWeight));
      CentsAddUp(Weight(all[..n]), all[n].dims.realWeight);
    }
  }

  /** The total weight is off by at most half a hundredth per unit. */
  lemma TotalWeightIsNear(trim: Trim, m: ShippingMark)
    ensures var n := |m.units| as real;
            -0.005 * n <= NormalMark(trim, m).totalWeight - RawWeight(m.units) <= 0.005 * n
  {
    WeightIsNear(trim, m.units);
    CentsAreRounded(Weight(NormalUnits(trim, m.units)));
  }

  // ----- what a normal mark says, in terms of the given amounts -----

  /** An amount that is not negative, to the nearest hundredth, halves upwards; there is only one. */
  ghost predicate IsRounded(r: real, v: real) {
    IsCents(r) && -0.005 < r - v <= 0.005
  }

  lemma RoundedOnce(r: real, t: real, v: real)
    requires IsRounded(r, v) && IsRounded(t, v)
    ensures r == t
  {
    var i :| r == Cents(i);
    var j :| t == Cents(j);
    assert -0.01 < (i - j) as real / 100.0 < 0.01;
  }

  lemma Round2Rounds(v: real)
    requires v >= 0.0
    ensures IsRounded(Round2(v), v)
  {
    Round2IsNear(v);
    assert Round(v * 100.0) == (v * 100.0 + 0.5).Floor;
  }

  function AtLeastZero(v: real): real {
    if v >= 0.0 then v else 0.0
  }

  /** Sizes are cut off at zero; a missing volumetric weight is the volume at 2500 cubic centimetres per kilogram. */
  ghost predicate IsNormal(d: Dimensions, n: Dimensions) {
    && n.height == AtLeastZero(d.height) && n.width == AtLeastZero(d.width) && n.depth == AtLeastZero(d.depth)
    && IsRounded(n.realWeight, AtLeastZero(d.realWeight)) && IsRounded(n.declared, AtLeastZero(d.declared))
    && IsRounded(n.volWeight, if d.volWeight > 0.0 then d.volWeight else n.height * n.width * n.depth / 2500.0)
  }

  lemma DimensionsMeaning(d: Dimensions)
    ensures IsNormal(d, NormalDimensions(d))
  {
    VolumeIsNonNegative(d);
    Round2Rounds(AtLeastZero(d.realWeight));
    Round2Rounds(AtLeastZero(d.declared));
    Round2Rounds(if d.volWeight <= 0.0 then Volume(d) else d.volWeight);
  }

  ghost predicate AreTrimmed(trim: Trim, given: seq<string>, texts: seq<string>) {
    |texts| == |given| && forall i :: 0 <= i < |texts| ==> texts[i] == trim(given[i])
  }

  /** Nothing is charged without an amount; the fee is at most 100 percent; a missing charge is the amount. */
  ghost predicate IsNormalCod(m: ShippingMark, n: ShippingMark) {
    if m.codAmount <= 0.0 then n.codAmount == n.codFeePercent == n.codCharged == 0.0
    else
      && IsRounded(n.codAmount, m.codAmount)
      && IsRounded(n.codFeePercent, if m.codFeePercent > 100.0 then 100.0 else AtLeastZero(m.codFeePercent))
      && IsRounded(n.codCharged, if m.codCharged > 0.0 then m.codCharged else m.codAmount)
  }

  /** The totals of a normal mark are exact sums over its own units. */
  ghost predicate HasTotals(n: ShippingMark) {
    n.totalWeight == Weight(n.units) && n.totalVolWeight == VolWeight(n.units)
  }

  /** What the first unit with a declared value declares, or nothing if there is none. */
  ghost predicate IsFirstDeclared(units: seq<PackageUnit>, v: real) {
    || (v == 0.0 && forall i :: 0 <= i < |units| ==> units[i].dims.declared == 0.0)
    || exists i :: 0 <= i < |units| && units[i].dims.declared == v > 0.0
                   && forall j :: 0 <= j < i ==> units[j].dims.declared == 0.0
  }

  lemma {:induction false} DeclaredIsFirst(units: seq<PackageUnit>)
    requires forall i :: 0 <= i < |units| ==> units[i].dims.declared >= 0.0
    ensures IsFirstDeclared(units, Declared(0.0, units))
    decreases |units|
  {
    if units == [] {
    } else {
      DeclaredIsFirst(units[..|units| - 1]);
    }
  }

  lemma MarkMeaning(trim: Trim, m: ShippingMark)
    ensures var n := NormalMark(trim, m);
            && |n.units| == |m.units|
            && (forall i :: 0 <= i < |n.units| ==>
                  IsNormal(m.units[i].dims, n.units[i].dims) && AreTrimmed(trim, m.units[i].texts, n.units[i].texts))
            && HasTotals(n) && IsNormalCod(m, n)
            && IsRounded(n.quotedCost, AtLeastZero(m.quotedCost))
            && (m.declared > 0.0 ==> IsRounded(n.declared, m.declared))
            && (m.declared == 0.0 ==> IsFirstDeclared(n.units, n.declared))
            && AreTrimmed(trim, m.texts, n.texts) && n.kept == m.kept && n.url == NormalURL(trim, m.url)
            && n.status == if m.status == "" then "PENDING" else m.status
  {
    var n := NormalMark(trim, m);
    forall i | 0 <= i < |n.units|
      ensures IsNormal(m.units[i].dims, n.units[i].dims) && AreTrimmed(trim, m.units[i].texts, n.units[i].texts)
    {
      DimensionsMeaning(m.units[i].dims);
    }
    WeightIsNear(trim, m.units);
    CentsAreRounded(Weight(n.units));
    VolWeightIsCents(trim, m.units);
    CentsAreRounded(VolWeight(n.units));
    CodMeaning(m, n);
    Round2Rounds(AtLeastZero(m.quotedCost));
    if m.declared > 0.0 {
      DeclaredStaysPositive(m.declared, n.units);
      Round2Rounds(m.declared);
    } else if m.declared == 0.0 {
      forall i | 0 <= i < |n.units| ensures n.units[i].dims.declared >= 0.0 && IsCents(n.units[i].dims.declared) {
        UnitsAreDeclaredInCents(trim, m.units, i);
      }
      DeclaredIsFirst(n.units);
      DeclaredFromZero(n.units);
      CentsAreRounded(Declared(0.0, n.units));
    }
  }

  lemma {:induction false} VolWeightIsCents(trim: Trim, units: seq<PackageUnit>)
    ensures IsCents(VolWeight(NormalUnits(trim, units)))
    decreases |units|
  {
    var all := NormalUnits(trim, units);
    if units == [] {
      assert 0.0 == Cents(0);
    } else {
      var n := |units| - 1;
      VolWeightIsCents(trim, units[..n]);
      assert all[..n] == NormalUnits(trim, units[..n]);
      DimensionsMeaning(units[n].dims);
      CentsAddUp(VolWeight(all[..n]), all[n].dims.volWeight);
    }
  }

  lemma CodMeaning(m: ShippingMark, n: ShippingMark)
    requires Cod(n.codAmount, n.codFeePercent, n.codCharged) == NormalCod(CodOf(m))
    ensures IsNormalCod(m, n)
  {
    if m.codAmount > 0.0 {
      Round2Rounds(m.codAmount);
      Round2Rounds(if m.codFeePercent > 100.0 then 100.0 else AtLeastZero(m.codFeePercent));
      Round2Rounds(if m.codCharged > 0.0 then m.codCharged else m.codAmount);
    }
  }

  // ----- normalizing twice -----

  /** A given volumetric weight does not vanish while the computed one would not. */
  predicate DimensionsSettle(d: Dimensions) {
    !(0.0 < d.volWeight < 0.005 && Volume(d) >= 0.005)
  }

  lemma DimensionsSettleExactly(d: Dimensions)
    ensures NormalDimensions(NormalDimensions(d)) == NormalDimensions(d) <==> DimensionsSettle(d)
  {
    var once := NormalDimensions(d);
    assert Volume(once) == Volume(d);
    VolumeIsNonNegative(d);
    SettledAmount(NonNegative(d.realWeight));
    SettledAmount(NonNegative(d.declared));
    var vol := if d.volWeight <= 0.0 then Volume(d) else d.volWeight;
    SettledAmount(vol);
    Round2Vanishes(Volume(d));
  }

  lemma SettledAmount(v: real)
    requires v >= 0.0
    ensures Round2(v) >= 0.0 && (Round2(v) == 0.0 <==> v < 0.005) && Round2(Round2(v)) == Round2(v)
  {
    Round2IsNear(v);
    Round2Vanishes(v);
    CentsAreRounded(Round2(v));
  }

  /** Neither the charge nor the fee outlives an amount that vanishes, and no charge vanishes before the amount. */
  predicate CodSettles(c: Cod) {
    || c.amount <= 0.0
    || (c.amount < 0.005 && c.feePercent < 0.005 && c.charged < 0.005)
    || (c.amount >= 0.005 && (c.charged <= 0.0 || c.charged >= 0.005))
  }

  lemma CodSettlesExactly(c: Cod)
    ensures NormalCod(NormalCod(c)) == NormalCod(c) <==> CodSettles(c)
  {
    if c.amount > 0.0 {
      var percent := if NonNegative(c.feePercent) > 100.0 then 100.0 else NonNegative(c.feePercent);
      SettledAmount(c.amount);
      SettledAmount(percent);
      SettledAmount(if c.charged <= 0.0 then c.amount else c.charged);
      PercentStays(percent);
    }
  }

  lemma PercentStays(percent: real)
    requires 0.0 <= percent <= 100.0
    ensures Round2(percent) <= 100.0
  {
    assert Round(percent * 100.0) == (percent * 100.0 + 0.5).Floor <= 10000;
  }

  /** The declared value does not vanish while a unit still declares something. */
  ghost predicate DeclaredSettles(start: real, units: seq<PackageUnit>) {
    Declared(start, units) >= 0.005 || forall i :: 0 <= i < |units| ==> units[i].dims.declared == 0.0
  }

  lemma {:induction false} DeclaredFromZero(units: seq<PackageUnit>)
    requires forall i :: 0 <= i < |units| ==> units[i].dims.declared >= 0.0
    ensures Declared(0.0, units) >= 0.0
    ensures Declared(0.0, units) == 0.0 <==> forall i :: 0 <= i < |units| ==> units[i].dims.declared == 0.0
    ensures (forall i :: 0 <= i < |units| ==> IsCents(units[i].dims.declared)) ==> IsCents(Declared(0.0, units))
    decreases |units|
  {
    if units == [] {
      assert 0.0 == Cents(0);
    } else {
      DeclaredFromZero(units[..|units| - 1]);
    }
  }

  lemma {:induction false} DeclaredStaysPositive(start: real, units: seq<PackageUnit>)
    requires start > 0.0
    ensures Declared(start, units) == start
    decreases |units|
  {
    if units == [] {
    } else {
      DeclaredStaysPositive(start, units[..|units| - 1]);
    }
  }

  lemma DeclaredSettlesExactly(start: real, units: seq<PackageUnit>)
    requires forall i :: 0 <= i < |units| ==> units[i].dims.declared >= 0.0 && IsCents(units[i].dims.declared)
    ensures var once := Round2(NonNegative(Declared(start, units)));
            Round2(NonNegative(Declared(once, units))) == once <==> DeclaredSettles(start, units)
  {
    var v := NonNegative(Declared(start, units));
    SettledAmount(v);
    if v >= 0.005 {
      DeclaredStaysPositive(Round2(v), units);
    } else {
      DeclaredFromZero(units);
      CentsAreRounded(Declared(0.0, units));
    }
  }

  /** What a mark must satisfy for its normal form to be final. */
  ghost predicate Settles(trim: Trim, m: ShippingMark) {
    && (forall i :: 0 <= i < |m.units| ==> DimensionsSettle(m.units[i].dims))
    && DeclaredSettles(m.declared, NormalUnits(trim, m.units))
    && CodSettles(CodOf(m))
  }

  ghost predicate IsTrim(trim: Trim) {
    forall s :: trim(trim(s)) == trim(s)
  }

  lemma UnitsSettleExactly(trim: Trim, units: seq<PackageUnit>)
    requires IsTrim(trim)
    ensures NormalUnits(trim, NormalUnits(trim, units)) == NormalUnits(trim, units) <==>
            forall i :: 0 <= i < |units| ==> DimensionsSettle(units[i].dims)
  {
    var once := NormalUnits(trim, units);
    var twice := NormalUnits(trim, once);
    forall i | 0 <= i < |units| ensures twice[i] == once[i] <==> DimensionsSettle(units[i].dims) {
      DimensionsSettleExactly(units[i].dims);
      assert TrimAll(trim, TrimAll(trim, units[i].texts)) == TrimAll(trim, units[i].texts);
    }
    if twice == once {
      forall i | 0 <= i < |units| ensures DimensionsSettle(units[i].dims) { assert twice[i] == once[i]; }
    }
  }

  lemma UnitsAreDeclaredInCents(trim: Trim, units: seq<PackageUnit>, i: nat)
    requires i < |units|
    ensures NormalUnits(trim, units)[i].dims.declared >= 0.0 && IsCents(NormalUnits(trim, units)[i].dims.declared)
  {
    Round2IsNear(NonNegative(units[i].dims.declared));
    SettledAmount(NonNegative(units[i].dims.declared));
  }

  /** Normalizing twice is the same as normalizing once for exactly the marks that settle. */
  lemma NormalizeIsIdempotentExactly(trim: Trim, m: ShippingMark)
    requires IsTrim(trim)
    ensures NormalMark(trim, NormalMark(trim, m)) == NormalMark(trim, m) <==> Settles(trim, m)
  {
    var once := NormalMark(trim, m);
    var units := NormalUnits(trim, m.units);
    UnitsSettleExactly(trim, m.units);
    forall i | 0 <= i < |units| ensures units[i].dims.declared >= 0.0 && IsCents(units[i].dims.declared) {
      UnitsAreDeclaredInCents(trim, m.units, i);
    }
    DeclaredSettlesExactly(m.declared, units);
    CodSettlesExactly(CodOf(m));
    assert CodOf(once) == NormalCod(CodOf(m));
    assert TrimAll(trim, TrimAll(trim, m.texts)) == TrimAll(trim, m.texts);
    SettledAmount(NonNegative(m.quotedCost));
  }

  predicate ZeroOrVisible(v: real) {
    v == 0.0 || v >= 0.005
  }

  /** In particular, marks settle whose amounts are nothing or at least half a cent. */
  lemma PlainAmountsSettle(trim: Trim, m: ShippingMark)
    requires ZeroOrVisible(m.declared) && ZeroOrVisible(m.codAmount) && ZeroOrVisible(m.codCharged)
    requires forall i :: 0 <= i < |m.units| ==> ZeroOrVisible(m.units[i].dims.volWeight)
    ensures Settles(trim, m)
  {
    var units := NormalUnits(trim, m.units);
    forall i | 0 <= i < |units| ensures units[i].dims.declared >= 0.0 && IsCents(units[i].dims.declared) {
      UnitsAreDeclaredInCents(trim, m.units, i);
    }
    if m.declared == 0.0 {
      DeclaredFromZero(units);
      SettledAmount(Declared(0.0, units));
      CentsAreRounded(Declared(0.0, units));
    } else {
      DeclaredStaysPositive(m.declared, units);
    }
  }
}
