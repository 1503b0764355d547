/** The per-item metric calculation of `calculateItemMetrics`: one recipe of a
    skill's catalog combined with a price snapshot. Prices are whole coins;
    experience and the coins-per-experience ratio are exact rationals. */
module Metrics {
  import opened Results
  import opened PriceData

  datatype Material = Material(itemId: int, name: string, quantity: int)

  datatype Recipe = Recipe(itemId: int, name: string, level: int, xpGained: real, materials: seq<Material>)

  /** A material enriched with its resolved unit cost and the cost of the
      quantity one recipe needs; `material` keeps every input field. */
  datatype CostedMaterial = CostedMaterial(material: Material, unitCost: int, totalCost: int)

  /** A recipe enriched with its metrics. The enriched materials take the
      place of the recipe's own list, since the metrics are merged over the
      recipe's fields. */
  datatype CalculatedItem = CalculatedItem(
    recipe: Recipe,
    sellPrice: int,
    materialCost: int,
    netProfit: int,
    pricePerXp: real,
    isProfit: bool,
    materials: seq<CostedMaterial>)

  /** The summed `totalCost` of enriched materials, added up left to right. */
  function TotalOf(costed: seq<CostedMaterial>): int
  {
    if |costed| == 0 then 0 else TotalOf(costed[..|costed| - 1]) + costed[|costed| - 1].totalCost
  }

  lemma {:induction false} TotalOfCons(head: CostedMaterial, tail: seq<CostedMaterial>)
    ensures TotalOf([head] + tail) == head.totalCost + TotalOf(tail)
    decreases |tail|
  {
    if |tail| > 0 {
      var all := [head] + tail;
      assert all[..|all| - 1] == [head] + tail[..|tail| - 1];
      TotalOfCons(head, tail[..|tail| - 1]);
    }
  }

  /** `costed` is `ms`, in the same order and number, each material keeping its
      fields and priced at its own `low` quote (or 0) times its quantity. */
  predicate CostedAtLowQuote(prices: Snapshot, ms: seq<Material>, costed: seq<CostedMaterial>)
  {
    && |costed| == |ms|
    && forall i :: 0 <= i < |ms| ==>
         && costed[i].material == ms[i]
         && costed[i].unitCost == LowPrice(prices, ms[i].itemId)
         && costed[i].totalCost == costed[i].unitCost * ms[i].quantity
  }

  /** The material pass: each material gets its `low` quote (or 0) as
      unit cost and that times its quantity as total cost, while the running
      material cost accumulates the totals. */
  function CostMaterials(prices: Snapshot, ms: seq<Material>): (out: (seq<CostedMaterial>, int))
    ensures CostedAtLowQuote(prices, ms, out.0)
    ensures out.1 == TotalOf(out.0)
    decreases |ms|
  {
    if |ms| == 0 then ([], 0)
    else
      var unit := LowPrice(prices, ms[0].itemId);
      var here := CostedMaterial(ms[0], unit, unit * ms[0].quantity);
      var rest := CostMaterials(prices, ms[1..]);
      TotalOfCons(here, rest.0);
      ([here] + rest.0, here.totalCost + rest.1)
  }

  /** Coins spent per experience point: minus the net profit divided by the
      experience, for a recipe that yields experience, and 0 for one that
      does not. Negative when training makes a profit. */
  function PricePerXp(netProfit: int, xpGained: real): (ratio: real)
    ensures xpGained > 0.0 ==> ratio * xpGained == -(netProfit as real)
    ensures xpGained > 0.0 ==> (ratio < 0.0 <==> netProfit > 0)
    ensures xpGained <= 0.0 ==> ratio == 0.0
  {
    if xpGained > 0.0 then
      var ratio := -(netProfit as real) / xpGained;
      assert ratio * xpGained == -(netProfit as real);
      assert ratio < 0.0 <==> netProfit > 0 by {
        if ratio < 0.0 { assert ratio * xpGained < 0.0; }
        if netProfit > 0 { assert ratio * xpGained < 0.0; }
      }
      ratio
    else 0.0
  }

  /** The metrics of one recipe: sell price from the item's `high` quote,
      material cost from each material's `low` quote, net profit, ratio and
      profitability. */
  function CalculateItemMetrics(item: Recipe, prices: Snapshot): (r: CalculatedItem)
    ensures r.recipe == item
    ensures r.sellPrice == HighPrice(prices, item.itemId)
    ensures CostedAtLowQuote(prices, item.materials, r.materials)
    ensures r.materialCost == TotalOf(r.materials)
    ensures r.netProfit == r.sellPrice - r.materialCost
    ensures r.pricePerXp == PricePerXp(r.netProfit, item.xpGained)
    ensures r.isProfit <==> r.netProfit > 0
  {
    var sellPrice := HighPrice(prices, item.itemId);
    var costed := CostMaterials(prices, item.materials);
    var netProfit := sellPrice - costed.1;
    var ratio := PricePerXp(netProfit, item.xpGained);
    CalculatedItem(item, sellPrice, costed.1, netProfit, ratio, netProfit > 0, costed.0)
  }

  /** An item is marked profitable exactly when it sells for more than its
      materials cost, which for an item yielding experience is exactly when
      its ratio is negative. */
  lemma ProfitableIffNegativeRatio(item: Recipe, prices: Snapshot)
    ensures var r := CalculateItemMetrics(item, prices);
            && (r.isProfit <==> r.sellPrice > r.materialCost)
            && (item.xpGained > 0.0 ==> (r.isProfit <==> r.pricePerXp < 0.0))
  {
  }

  /** The sell price is the item's own truthy `high` quote, and 0 when the
      snapshot has no entry, a `null` entry, or a missing or zero `high`. */
  lemma SellPriceFromHighQuote(item: Recipe, prices: Snapshot)
    ensures var key := ItemKey(item.itemId);
            CalculateItemMetrics(item, prices).sellPrice ==
              if key in prices && prices[key].Some? && prices[key].value.high.Some?
              then prices[key].value.high.value else 0
  {
  }

  /** A recipe that yields no experience has ratio 0 whatever the prices. */
  lemma XplessRatioIgnoresPrices(item: Recipe, p1: Snapshot, p2: Snapshot)
    requires item.xpGained <= 0.0
    ensures CalculateItemMetrics(item, p1).pricePerXp == 0.0
    ensures CalculateItemMetrics(item, p1).pricePerXp == CalculateItemMetrics(item, p2).pricePerXp
  {
  }

  /** Non-negative material totals add up to a non-negative material cost. */
  lemma {:induction false} MaterialCostNonNegative(costed: seq<CostedMaterial>)
    requires forall i :: 0 <= i < |costed| ==> costed[i].totalCost >= 0
    ensures TotalOf(costed) >= 0
    decreases |costed|
  {
    if |costed| > 0 {
      MaterialCostNonNegative(costed[..|costed| - 1]);
    }
  }

  /** With non-negative quantities and non-negative `low` quotes, the net
      profit never exceeds the sell price. */
  lemma ProfitAtMostSellPrice(item: Recipe, prices: Snapshot)
    requires forall i :: 0 <= i < |item.materials| ==>
               item.materials[i].quantity >= 0 && LowPrice(prices, item.materials[i].itemId) >= 0
    ensures CalculateItemMetrics(item, prices).netProfit <= CalculateItemMetrics(item, prices).sellPrice
  {
    var r := CalculateItemMetrics(item, prices);
    CostedTotalsNonNegative(prices, item.materials, r.materials);
    MaterialCostNonNegative(r.materials);
  }

  /** Costing a non-negative quantity at a non-negative quote gives a
      non-negative total. */
  lemma CostedTotalsNonNegative(prices: Snapshot, ms: seq<Material>, costed: seq<CostedMaterial>)
    requires CostedAtLowQuote(prices, ms, costed)
    requires forall i :: 0 <= i < |ms| ==> ms[i].quantity >= 0 && LowPrice(prices, ms[i].itemId) >= 0
    ensures forall i :: 0 <= i < |costed| ==> costed[i].totalCost >= 0
  {
    forall i | 0 <= i < |costed|
      ensures costed[i].totalCost >= 0
    {
      NonNegativeProduct(costed[i].unitCost, ms[i].quantity);
    }
  }

  lemma NonNegativeProduct(a: int, b: int)
    requires a >= 0 && b >= 0
    ensures a * b >= 0
  {
  }

  /** Under the same conditions the ratio is never below that of an item
      with free materials: materials only ever add to the coins per
      experience point. */
  lemma RatioAtLeastFreeMaterials(item: Recipe, prices: Snapshot)
    requires forall i :: 0 <= i < |item.materials| ==>
               item.materials[i].quantity >= 0 && LowPrice(prices, item.materials[i].itemId) >= 0
    ensures CalculateItemMetrics(item, prices).pricePerXp
            >= PricePerXp(CalculateItemMetrics(item, prices).sellPrice, item.xpGained)
  {
    ProfitAtMostSellPrice(item, prices);
    var r := CalculateItemMetrics(item, prices);
    PricePerXpAntitone(r.netProfit, r.sellPrice, item.xpGained);
  }

  /** The ratio falls as the net profit rises. */
  lemma PricePerXpAntitone(less: int, more: int, xpGained: real)
    requires less <= more
    ensures PricePerXp(less, xpGained) >= PricePerXp(more, xpGained)
  {
    if xpGained > 0.0 {
      var a, b := PricePerXp(less, xpGained), PricePerXp(more, xpGained);
      assert (a - b) * xpGained == more as real - less as real >= 0.0;
      if a < b {
        assert (b - a) * xpGained > 0.0;
      }
    }
  }

  /** A worked example: an item selling at 100 that needs two of a material
      bought at 20 and yields 10 xp makes 60 profit, i.e. -6 coins per xp. */
  lemma ProfitableExample()
    ensures var prices := map["1" := Some(Quote(Some(100), None)), "2" := Some(Quote(None, Some(20)))];
            var item := Recipe(1, "X", 1, 10.0, [Material(2, "Y", 2)]);
            var r := CalculateItemMetrics(item, prices);
            r.sellPrice == 100 && r.materialCost == 40 && r.netProfit == 60
            && r.pricePerXp == -6.0 && r.isProfit
  {
  }
}
