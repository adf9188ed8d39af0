/**
 * The aggregation engine of utils/data_processor.py: four read-only analyses
 * over a list of sales transactions.
 *
 * Each analysis is a method that runs the Python code's loops over a dictionary of
 * per-key statistics (an insertion-ordered key list `order` beside a map
 * `stats`), and is proved to return what a specification function of the
 * input describes. The lemmas after each method state what
 * utils/data_processor.py promises of that result.
 */
module DataProcessor {
  import opened Transactions
  import opened StableSort

  // ---------------------------------------------------------------------------
  // calculate_total_revenue
  // ---------------------------------------------------------------------------

  method CalculateTotalRevenue(txs: seq<Transaction>) returns (total: real)
    ensures total == TotalRevenue(txs)
  {
    total := 0.0;
    for i := 0 to |txs|
      invariant total == TotalRevenue(txs[..i])
    {
      assert txs[..i + 1][..i] == txs[..i];
      total := total + Amount(txs[i]);
    }
    assert txs[..|txs|] == txs;
  }

  // ---------------------------------------------------------------------------
  // region_wise_sales
  // ---------------------------------------------------------------------------

  /** One entry of the result: a region and its statistics. */
  datatype RegionSales = RegionSales(
    region: string,
    totalSales: real,
    transactionCount: nat,
    percentage: real)

  /** The running statistics of one region while the transactions are read. */
  datatype RegionStats = RegionStats(totalSales: real, transactionCount: nat)

  /** A region's share of the overall total, in percent; 0 unless the overall total is positive. */
  function Percentage(sales: real, overall: real): (r: real)
    ensures overall > 0.0 ==> r * overall == sales * 100.0
    ensures overall > 0.0 && 0.0 <= sales <= overall ==> 0.0 <= r <= 100.0
    ensures overall <= 0.0 ==> r == 0.0
  {
    if overall > 0.0 then sales / overall * 100.0 else 0.0
  }

  function RegionRow(txs: seq<Transaction>, k: string, overall: real): RegionSales
  {
    var sales := Total(txs, RegionField, k);
    RegionSales(k, sales, Count(txs, RegionField, k), Percentage(sales, overall))
  }

  /** The items of the statistics dictionary, in key order `ks`. */
  function RegionRows(txs: seq<Transaction>, ks: seq<string>, overall: real): seq<RegionSales>
  {
    seq(|ks|, i requires 0 <= i < |ks| => RegionRow(txs, ks[i], overall))
  }

  function SalesKey(e: RegionSales): real { e.totalSales }
  function CountKey(e: RegionSales): real { e.transactionCount as real }
  function PercentageKey(e: RegionSales): real { e.percentage }

  /** The regions in first-seen order, before the sort. */
  function RegionsFirstSeen(txs: seq<Transaction>): seq<RegionSales>
  {
    RegionRows(txs, Keys(txs, RegionField), TotalRevenue(txs))
  }

  /** What region_wise_sales returns: the regions sorted by total sales, highest first. */
  function RegionWiseSalesOf(txs: seq<Transaction>): (r: seq<RegionSales>)
    ensures |r| == |Keys(txs, RegionField)|
    ensures multiset(r) == multiset(RegionsFirstSeen(txs))
    ensures SortedDesc(r, SalesKey)
  {
    SortDesc(RegionsFirstSeen(txs), SalesKey)
  }

  /**
   * Step 1 of region_wise_sales: the statistics dictionary and the overall
   * total. The dictionary holds every region that occurs, in first-seen
   * order, each with its total sales and its number of transactions.
   */
  method AggregateRegions(txs: seq<Transaction>)
    returns (order: seq<string>, stats: map<string, RegionStats>, overall: real)
    ensures order == Keys(txs, RegionField)
    ensures forall k :: k in stats <==> k in order
    ensures forall k :: k in stats ==>
      stats[k] == RegionStats(Total(txs, RegionField, k), Count(txs, RegionField, k))
    ensures overall == TotalRevenue(txs)
  {
    order, stats, overall := [], map[], 0.0;
    for i := 0 to |txs|
      invariant order == Keys(txs[..i], RegionField)
      invariant forall k :: k in stats <==> k in order
      invariant forall k :: k in stats ==>
        stats[k] == RegionStats(Total(txs[..i], RegionField, k), Count(txs[..i], RegionField, k))
      invariant overall == TotalRevenue(txs[..i])
    {
      KeysStep(txs, i, RegionField);
      TotalRevenueStep(txs, i);
      var region := txs[i].region;
      var amount := Amount(txs[i]);
      if region !in stats {
        CountPositive(txs[..i], RegionField, region);
        TotalAbsent(txs[..i], RegionField, region);
        stats := stats[region := RegionStats(0.0, 0)];
        order := order + [region];
      }
      stats := stats[region := RegionStats(stats[region].totalSales + amount, stats[region].transactionCount + 1)];
      overall := overall + amount;
      forall k | k in stats
        ensures stats[k] == RegionStats(Total(txs[..i + 1], RegionField, k), Count(txs[..i + 1], RegionField, k))
      {
        StatsStep(txs, i, RegionField, k);
      }
    }
    assert txs[..|txs|] == txs;
  }

  method RegionWiseSales(txs: seq<Transaction>) returns (result: seq<RegionSales>)
    ensures result == RegionWiseSalesOf(txs)
  {
    // Step 1: aggregate totals by region.
    var order, stats, overall := AggregateRegions(txs);

    // Step 2: the percentage of each region, in the dictionary's order.
    var rows: seq<RegionSales> := [];
    for j := 0 to |order|
      invariant |rows| == j
      invariant forall m :: 0 <= m < j ==> rows[m] == RegionRow(txs, order[m], overall)
    {
      var st := stats[order[j]];
      var pct := if overall > 0.0 then st.totalSales / overall * 100.0 else 0.0;
      rows := rows + [RegionSales(order[j], st.totalSales, st.transactionCount, pct)];
    }
    assert rows == RegionsFirstSeen(txs);

    // Step 3: sort by total sales, highest first.
    result := SortDesc(rows, SalesKey);
  }

  /** The rows in key order carry the keys `ks`, each row its key's own statistics. */
  lemma RegionRowsAt(txs: seq<Transaction>, ks: seq<string>, overall: real, e: RegionSales)
    requires e in RegionRows(txs, ks, overall)
    ensures e.region in ks && e == RegionRow(txs, e.region, overall)
  {
  }

  /**
   * region_wise_sales has one entry per region that occurs, and each entry
   * holds that region's total and its number of transactions, at least one.
   */
  lemma RegionWiseSalesContents(txs: seq<Transaction>)
    ensures |RegionWiseSalesOf(txs)| == |Keys(txs, RegionField)|
    ensures forall i, j :: 0 <= i < j < |RegionWiseSalesOf(txs)| ==>
      RegionWiseSalesOf(txs)[i].region != RegionWiseSalesOf(txs)[j].region
    ensures forall t :: t in txs ==> exists e :: e in RegionWiseSalesOf(txs) && e.region == t.region
    ensures forall e :: e in RegionWiseSalesOf(txs) ==> exists t :: t in txs && t.region == e.region
    ensures forall e :: e in RegionWiseSalesOf(txs) ==>
      e.totalSales == Total(txs, RegionField, e.region) &&
      e.transactionCount == Count(txs, RegionField, e.region) &&
      e.transactionCount >= 1
  {
    var ks, rows, r := Keys(txs, RegionField), RegionsFirstSeen(txs), RegionWiseSalesOf(txs);
    KeysDistinct(txs, RegionField);
    KeysMembers(txs, RegionField);
    SortDescDistinctBy(rows, SalesKey, (e: RegionSales) => e.region);
    SortDescMembers(rows, SalesKey);
    forall e | e in r
      ensures e.totalSales == Total(txs, RegionField, e.region)
      ensures e.transactionCount == Count(txs, RegionField, e.region) && e.transactionCount >= 1
    {
      RegionRowsAt(txs, ks, TotalRevenue(txs), e);
      CountPositive(txs, RegionField, e.region);
    }
    forall t | t in txs ensures exists e :: e in r && e.region == t.region {
      assert KeyOf(t, RegionField) == t.region;
      assert t.region in ks;
      var i :| 0 <= i < |ks| && ks[i] == t.region;
      assert rows[i] in r;
    }
    forall e | e in r ensures exists t :: t in txs && t.region == e.region {
      RegionRowsAt(txs, ks, TotalRevenue(txs), e);
      var t :| t in txs && KeyOf(t, RegionField) == e.region;
    }
  }

  lemma RegionRowsSnoc(txs: seq<Transaction>, ks: seq<string>, overall: real)
    requires ks != []
    ensures RegionRows(txs, ks, overall) ==
      RegionRows(txs, ks[..|ks| - 1], overall) + [RegionRow(txs, ks[|ks| - 1], overall)]
  {
  }

  /** Two shares of the same positive total add up to the share of the sum. */
  lemma ShareAdd(a: real, b: real, overall: real)
    requires overall > 0.0
    ensures a / overall * 100.0 + b / overall * 100.0 == (a + b) / overall * 100.0
  {
  }

  /** Sums over the rows in key order are the sums over their keys. */
  lemma {:induction false} RegionRowsSums(txs: seq<Transaction>, ks: seq<string>, overall: real)
    ensures SumBy(RegionRows(txs, ks, overall), SalesKey) == TotalOver(txs, RegionField, ks)
    ensures SumBy(RegionRows(txs, ks, overall), CountKey) == CountOver(txs, RegionField, ks) as real
  {
    if ks != [] {
      var init, last := RegionRows(txs, ks[..|ks| - 1], overall), [RegionRow(txs, ks[|ks| - 1], overall)];
      RegionRowsSnoc(txs, ks, overall);
      RegionRowsSums(txs, ks[..|ks| - 1], overall);
      SumByAppend(init, last, SalesKey);
      SumByAppend(init, last, CountKey);
    }
  }

  /** The percentages over the rows in key order are the share of the sum of their totals. */
  lemma {:induction false} RegionRowsShares(txs: seq<Transaction>, ks: seq<string>, overall: real)
    requires overall > 0.0
    ensures SumBy(RegionRows(txs, ks, overall), PercentageKey) == TotalOver(txs, RegionField, ks) / overall * 100.0
  {
    if ks != [] {
      var init, last := RegionRows(txs, ks[..|ks| - 1], overall), [RegionRow(txs, ks[|ks| - 1], overall)];
      RegionRowsSnoc(txs, ks, overall);
      RegionRowsShares(txs, ks[..|ks| - 1], overall);
      SumByAppend(init, last, PercentageKey);
      ShareAdd(TotalOver(txs, RegionField, ks[..|ks| - 1]), Total(txs, RegionField, ks[|ks| - 1]), overall);
    }
  }

  /**
   * The region totals add up to the overall total, which is the total
   * revenue; the counts add up to the number of transactions; and when the
   * overall total is positive the percentages add up to 100. It only
   * collects the three lemmas below, one per fact.
   */
  lemma RegionWiseSalesSums(txs: seq<Transaction>)
    ensures SumBy(RegionWiseSalesOf(txs), SalesKey) == TotalRevenue(txs)
    ensures SumBy(RegionWiseSalesOf(txs), CountKey) == |txs| as real
    ensures TotalRevenue(txs) > 0.0 ==> SumBy(RegionWiseSalesOf(txs), PercentageKey) == 100.0
  {
    RegionSalesAddUp(txs);
    RegionCountsAddUp(txs);
    if TotalRevenue(txs) > 0.0 {
      RegionSharesAddUp(txs);
    }
  }

  /** The region totals add up to the total revenue. */
  lemma RegionSalesAddUp(txs: seq<Transaction>)
    ensures SumBy(RegionWiseSalesOf(txs), SalesKey) == TotalRevenue(txs)
  {
    SortDescSum(RegionsFirstSeen(txs), SalesKey, SalesKey);
    RegionRowsSums(txs, Keys(txs, RegionField), TotalRevenue(txs));
    TotalsAddUp(txs, RegionField);
  }

  /** The region counts add up to the number of transactions. */
  lemma RegionCountsAddUp(txs: seq<Transaction>)
    ensures SumBy(RegionWiseSalesOf(txs), CountKey) == |txs| as real
  {
    SortDescSum(RegionsFirstSeen(txs), SalesKey, CountKey);
    RegionRowsSums(txs, Keys(txs, RegionField), TotalRevenue(txs));
    CountsAddUp(txs, RegionField);
  }

  /** With a positive overall total, the percentages add up to 100. */
  lemma RegionSharesAddUp(txs: seq<Transaction>)
    requires TotalRevenue(txs) > 0.0
    ensures SumBy(RegionWiseSalesOf(txs), PercentageKey) == 100.0
  {
    var overall := TotalRevenue(txs);
    var rows := RegionsFirstSeen(txs);
    SortDescSum(rows, SalesKey, PercentageKey);
    RegionRowsShares(txs, Keys(txs, RegionField), overall);
    TotalsAddUp(txs, RegionField);
    assert SumBy(rows, PercentageKey) == overall / overall * 100.0;
    WholeShare(overall);
  }

  /** The whole of a positive total is 100 percent of it. */
  lemma WholeShare(overall: real)
    requires overall > 0.0
    ensures overall / overall * 100.0 == 100.0
  {
  }

  /**
   * Each region's percentage is its share of the overall total times 100
   * when the overall total is positive, and 0 otherwise.
   */
  lemma RegionWiseSalesPercentages(txs: seq<Transaction>)
    ensures forall e :: e in RegionWiseSalesOf(txs) ==>
      (TotalRevenue(txs) > 0.0 ==> e.percentage == e.totalSales / TotalRevenue(txs) * 100.0) &&
      (TotalRevenue(txs) <= 0.0 ==> e.percentage == 0.0)
  {
    SortDescMembers(RegionsFirstSeen(txs), SalesKey);
    forall e | e in RegionWiseSalesOf(txs)
      ensures TotalRevenue(txs) > 0.0 ==> e.percentage == e.totalSales / TotalRevenue(txs) * 100.0
      ensures TotalRevenue(txs) <= 0.0 ==> e.percentage == 0.0
    {
      RegionRowsAt(txs, Keys(txs, RegionField), TotalRevenue(txs), e);
    }
  }

  /**
   * The regions are ordered by total sales, highest first, and regions with
   * equal totals keep the order in which they were first seen.
   */
  lemma RegionWiseSalesOrder(txs: seq<Transaction>)
    ensures SortedDesc(RegionWiseSalesOf(txs), SalesKey)
    ensures forall v :: WithKey(RegionWiseSalesOf(txs), SalesKey, v) == WithKey(RegionsFirstSeen(txs), SalesKey, v)
  {
    forall v ensures WithKey(RegionWiseSalesOf(txs), SalesKey, v) == WithKey(RegionsFirstSeen(txs), SalesKey, v) {
      SortDescStable(RegionsFirstSeen(txs), SalesKey, v);
    }
  }

  // ---------------------------------------------------------------------------
  // top_selling_products
  // ---------------------------------------------------------------------------

  /** The tuple `(name, qty, revenue)` of one product. */
  datatype ProductSales = ProductSales(name: string, totalQty: int, totalRevenue: real)

  /** The running statistics of one product while the transactions are read. */
  datatype ProductStats = ProductStats(totalQty: int, totalRevenue: real)

  function ProductRow(txs: seq<Transaction>, k: string): ProductSales
  {
    ProductSales(k, Quantity(txs, ProductField, k), Total(txs, ProductField, k))
  }

  /** The products in first-seen order, before the sort. */
  function ProductsFirstSeen(txs: seq<Transaction>): seq<ProductSales>
  {
    var ks := Keys(txs, ProductField);
    seq(|ks|, i requires 0 <= i < |ks| => ProductRow(txs, ks[i]))
  }

  function QtyKey(p: ProductSales): real { p.totalQty as real }

  /** Where the slice `[:n]` of a list of length `len` ends, negative `n` counting from the end. */
  function SliceEnd(n: int, len: nat): (r: nat)
    ensures r <= len
    ensures 0 <= n <= len ==> r == n
    ensures n > len ==> r == len
    ensures n < 0 && n + len >= 0 ==> r - n == len
    ensures n + len < 0 ==> r == 0
  {
    if n >= 0 then (if n < len then n else len)
    else if len + n >= 0 then len + n
    else 0
  }

  /** All products, sorted by quantity, highest first. */
  function ProductRanking(txs: seq<Transaction>): seq<ProductSales>
  {
    SortDesc(ProductsFirstSeen(txs), QtyKey)
  }

  /** What top_selling_products returns: the first `n` entries of the ranking. */
  function TopSellingProductsOf(txs: seq<Transaction>, n: int): (r: seq<ProductSales>)
    ensures |r| == SliceEnd(n, |Keys(txs, ProductField)|)
    ensures r <= ProductRanking(txs)
    ensures SortedDesc(r, QtyKey)
  {
    var ranking := ProductRanking(txs);
    var top := ranking[..SliceEnd(n, |ranking|)];
    assert forall i :: 0 <= i < |top| ==> top[i] == ranking[i];
    top
  }

  /**
   * The aggregation loop of top_selling_products: the statistics dictionary
   * holds every product that occurs, in first-seen order, each with its
   * total quantity and its total revenue.
   */
  method AggregateProducts(txs: seq<Transaction>) returns (order: seq<string>, stats: map<string, ProductStats>)
    ensures order == Keys(txs, ProductField)
    ensures forall k :: k in stats <==> k in order
    ensures forall k :: k in stats ==>
      stats[k] == ProductStats(Quantity(txs, ProductField, k), Total(txs, ProductField, k))
  {
    order, stats := [], map[];
    for i := 0 to |txs|
      invariant order == Keys(txs[..i], ProductField)
      invariant forall k :: k in stats <==> k in order
      invariant forall k :: k in stats ==>
        stats[k] == ProductStats(Quantity(txs[..i], ProductField, k), Total(txs[..i], ProductField, k))
    {
      KeysStep(txs, i, ProductField);
      var name := txs[i].productName;
      var qty := txs[i].quantity;
      var revenue := Amount(txs[i]);
      if name !in stats {
        QuantityAbsent(txs[..i], ProductField, name);
        TotalAbsent(txs[..i], ProductField, name);
        stats := stats[name := ProductStats(0, 0.0)];
        order := order + [name];
      }
      stats := stats[name := ProductStats(stats[name].totalQty + qty, stats[name].totalRevenue + revenue)];
      forall k | k in stats
        ensures stats[k] == ProductStats(Quantity(txs[..i + 1], ProductField, k), Total(txs[..i + 1], ProductField, k))
      {
        StatsStep(txs, i, ProductField, k);
      }
    }
    assert txs[..|txs|] == txs;
  }

  /** The number of products returned when the caller does not give `n`. */
  const DefaultTopN: int := 5

  /**
   * top_selling_products called without `n`: at most five products, or all
   * of them when there are fewer, ranked by quantity.
   */
  method TopSellingProductsDefault(txs: seq<Transaction>) returns (top: seq<ProductSales>)
    ensures top == TopSellingProductsOf(txs, DefaultTopN)
    ensures |top| == if |Keys(txs, ProductField)| < 5 then |Keys(txs, ProductField)| else 5
  {
    top := TopSellingProducts(txs, DefaultTopN);
  }

  method TopSellingProducts(txs: seq<Transaction>, n: int) returns (top: seq<ProductSales>)
    ensures top == TopSellingProductsOf(txs, n)
  {
    // Aggregate totals per product.
    var order, stats := AggregateProducts(txs);

    // The list of tuples (name, qty, revenue), in the dictionary's order.
    assert forall j :: 0 <= j < |order| ==> order[j] in stats;
    var productList := seq(|order|, j requires 0 <= j < |order| =>
      ProductSales(order[j], stats[order[j]].totalQty, stats[order[j]].totalRevenue));
    assert productList == ProductsFirstSeen(txs);

    // Sort the list in place by quantity, highest first, and keep the first n.
    var a := new ProductSales[|productList|](j requires 0 <= j < |productList| => productList[j]);
    assert a[..] == productList;
    SortDescInPlace(a, QtyKey);
    top := a[..SliceEnd(n, a.Length)];
  }

  /** Each product row carries a product that occurs, with that product's own statistics. */
  lemma ProductRowsAt(txs: seq<Transaction>, p: ProductSales)
    requires p in ProductsFirstSeen(txs)
    ensures p.name in Keys(txs, ProductField) && p == ProductRow(txs, p.name)
  {
  }

  /**
   * top_selling_products returns distinct products that occur, each with its
   * total quantity and total revenue; there are `n` of them, or all products
   * when fewer than `n` exist (a negative `n` drops that many from the end).
   */
  lemma TopSellingProductsContents(txs: seq<Transaction>, n: int)
    ensures var d := |Keys(txs, ProductField)|;
      && (n >= 0 ==> |TopSellingProductsOf(txs, n)| == if n < d then n else d)
      && (n < 0 ==> |TopSellingProductsOf(txs, n)| == if d + n >= 0 then d + n else 0)
    ensures forall i, j :: 0 <= i < j < |TopSellingProductsOf(txs, n)| ==>
      TopSellingProductsOf(txs, n)[i].name != TopSellingProductsOf(txs, n)[j].name
    ensures forall p :: p in TopSellingProductsOf(txs, n) ==>
      && p.totalQty == Quantity(txs, ProductField, p.name)
      && p.totalRevenue == Total(txs, ProductField, p.name)
      && exists t :: t in txs && t.productName == p.name
  {
    var rows, ranking, top := ProductsFirstSeen(txs), ProductRanking(txs), TopSellingProductsOf(txs, n);
    KeysDistinct(txs, ProductField);
    KeysMembers(txs, ProductField);
    SortDescDistinctBy(rows, QtyKey, (p: ProductSales) => p.name);
    SortDescMembers(rows, QtyKey);
    forall i, j | 0 <= i < j < |top| ensures top[i].name != top[j].name {
      assert top[i] == ranking[i] && top[j] == ranking[j];
    }
    forall p | p in top
      ensures p.totalQty == Quantity(txs, ProductField, p.name)
      ensures p.totalRevenue == Total(txs, ProductField, p.name)
      ensures exists t :: t in txs && t.productName == p.name
    {
      assert p in ranking;
      ProductRowsAt(txs, p);
      var t :| t in txs && KeyOf(t, ProductField) == p.name;
    }
  }

  /**
   * The products returned are ordered by quantity, highest first; products
   * with equal quantities keep the order in which they were first seen; and
   * every product left out sold no more than any product returned.
   */
  lemma TopSellingProductsOrder(txs: seq<Transaction>, n: int)
    ensures SortedDesc(TopSellingProductsOf(txs, n), QtyKey)
    ensures forall v :: WithKey(TopSellingProductsOf(txs, n), QtyKey, v) <= WithKey(ProductsFirstSeen(txs), QtyKey, v)
    ensures forall k, p ::
      (k in Keys(txs, ProductField) && p in TopSellingProductsOf(txs, n) &&
       (forall q :: q in TopSellingProductsOf(txs, n) ==> q.name != k)) ==>
      Quantity(txs, ProductField, k) <= p.totalQty
  {
    var rows, ranking, top := ProductsFirstSeen(txs), ProductRanking(txs), TopSellingProductsOf(txs, n);
    var m := SliceEnd(n, |ranking|);
    assert SortedDesc(top, QtyKey) by {
      forall i, j | 0 <= i < j < |top| ensures QtyKey(top[i]) >= QtyKey(top[j]) {
        assert top[i] == ranking[i] && top[j] == ranking[j];
      }
    }
    forall v ensures WithKey(top, QtyKey, v) <= WithKey(rows, QtyKey, v) {
      WithKeyPrefix(ranking, m, QtyKey, v);
      SortDescStable(rows, QtyKey, v);
    }
    SortDescCutoff(rows, QtyKey, m);
    forall k, p | k in Keys(txs, ProductField) && p in top && (forall q :: q in top ==> q.name != k)
      ensures Quantity(txs, ProductField, k) <= p.totalQty
    {
      var i :| 0 <= i < |Keys(txs, ProductField)| && Keys(txs, ProductField)[i] == k;
      var left := rows[i];
      assert left.name == k;
      assert left in rows && left !in top;
      assert QtyKey(p) >= QtyKey(left);
    }
  }

  // ---------------------------------------------------------------------------
  // customer_analysis
  // ---------------------------------------------------------------------------

  /** One entry of the result: a customer and their purchase profile. */
  datatype CustomerProfile = CustomerProfile(
    customerId: string,
    totalSpent: real,
    purchaseCount: nat,
    avgOrderValue: real,
    productsBought: set<string>)

  /** The running statistics of one customer while the transactions are read. */
  datatype CustomerStats = CustomerStats(totalSpent: real, purchaseCount: nat, products: set<string>)

  /** The average order value, 0 when there are no purchases. */
  function AvgOrder(spent: real, count: nat): (r: real)
    ensures count > 0 ==> r * count as real == spent
    ensures count == 0 ==> r == 0.0
  {
    if count > 0 then spent / count as real else 0.0
  }

  function CustomerRow(txs: seq<Transaction>, c: string): CustomerProfile
  {
    var spent := Total(txs, CustomerField, c);
    var count := Count(txs, CustomerField, c);
    CustomerProfile(c, spent, count, AvgOrder(spent, count), ProductsOf(txs, c))
  }

  /** The customers in first-seen order, before the sort. */
  function CustomersFirstSeen(txs: seq<Transaction>): seq<CustomerProfile>
  {
    var ks := Keys(txs, CustomerField);
    seq(|ks|, i requires 0 <= i < |ks| => CustomerRow(txs, ks[i]))
  }

  function SpentKey(c: CustomerProfile): real { c.totalSpent }

  /** What customer_analysis returns: the customers sorted by total spent, highest first. */
  function CustomerAnalysisOf(txs: seq<Transaction>): (r: seq<CustomerProfile>)
    ensures |r| == |Keys(txs, CustomerField)|
    ensures multiset(r) == multiset(CustomersFirstSeen(txs))
    ensures SortedDesc(r, SpentKey)
  {
    SortDesc(CustomersFirstSeen(txs), SpentKey)
  }

  /** Reading transaction `i` updates one customer's entry as the loop body does. */
  lemma CustomerEntryStep(txs: seq<Transaction>, i: nat, k: string, before: CustomerStats, after: CustomerStats)
    requires i < |txs|
    requires before == CustomerStats(Total(txs[..i], CustomerField, k), Count(txs[..i], CustomerField, k), ProductsOf(txs[..i], k))
    requires after == if txs[i].customerId == k
      then CustomerStats(before.totalSpent + Amount(txs[i]), before.purchaseCount + 1, before.products + {txs[i].productName})
      else before
    ensures after == CustomerStats(Total(txs[..i + 1], CustomerField, k), Count(txs[..i + 1], CustomerField, k), ProductsOf(txs[..i + 1], k))
  {
    StatsStep(txs, i, CustomerField, k);
  }

  /**
   * Step 1 of customer_analysis: the statistics dictionary holds every
   * customer that occurs, in first-seen order, each with the total they
   * spent, their number of purchases and the products they bought.
   */
  method AggregateCustomers(txs: seq<Transaction>) returns (order: seq<string>, stats: map<string, CustomerStats>)
    ensures order == Keys(txs, CustomerField)
    ensures forall k :: k in stats <==> k in order
    ensures forall k :: k in stats ==>
      stats[k] == CustomerStats(Total(txs, CustomerField, k), Count(txs, CustomerField, k), ProductsOf(txs, k))
  {
    order, stats := [], map[];
    for i := 0 to |txs|
      invariant order == Keys(txs[..i], CustomerField)
      invariant forall k :: k in stats <==> k in order
      invariant forall k :: k in stats ==>
        stats[k] == CustomerStats(Total(txs[..i], CustomerField, k), Count(txs[..i], CustomerField, k), ProductsOf(txs[..i], k))
    {
      KeysStep(txs, i, CustomerField);
      var cid := txs[i].customerId;
      var product := txs[i].productName;
      var amount := Amount(txs[i]);
      if cid !in stats {
        CountPositive(txs[..i], CustomerField, cid);
        TotalAbsent(txs[..i], CustomerField, cid);
        ProductsAbsent(txs[..i], cid);
        stats := stats[cid := CustomerStats(0.0, 0, {})];
        order := order + [cid];
      }
      ghost var before := stats;
      var st := stats[cid];
      stats := stats[cid := CustomerStats(st.totalSpent + amount, st.purchaseCount + 1, st.products + {product})];
      forall k | k in stats
        ensures stats[k] == CustomerStats(Total(txs[..i + 1], CustomerField, k), Count(txs[..i + 1], CustomerField, k), ProductsOf(txs[..i + 1], k))
      {
        CustomerEntryStep(txs, i, k, before[k], stats[k]);
      }
    }
    assert txs[..|txs|] == txs;
  }

  method CustomerAnalysis(txs: seq<Transaction>) returns (result: seq<CustomerProfile>)
    ensures result == CustomerAnalysisOf(txs)
  {
    // Step 1: aggregate per customer.
    var order, stats := AggregateCustomers(txs);

    // Step 2: finalize the metrics, in the dictionary's order.
    var rows: seq<CustomerProfile> := [];
    for j := 0 to |order|
      invariant |rows| == j
      invariant forall m :: 0 <= m < j ==> rows[m] == CustomerRow(txs, order[m])
    {
      var st := stats[order[j]];
      var avgOrder := if st.purchaseCount > 0 then st.totalSpent / st.purchaseCount as real else 0.0;
      rows := rows + [CustomerProfile(order[j], st.totalSpent, st.purchaseCount, avgOrder, st.products)];
    }
    assert rows == CustomersFirstSeen(txs);

    // Step 3: sort by total spent, highest first.
    result := SortDesc(rows, SpentKey);
  }

  /** Each customer row carries a customer that occurs, with that customer's own statistics. */
  lemma CustomerRowsAt(txs: seq<Transaction>, c: CustomerProfile)
    requires c in CustomersFirstSeen(txs)
    ensures c.customerId in Keys(txs, CustomerField) && c == CustomerRow(txs, c.customerId)
  {
  }

  /**
   * customer_analysis has one profile per customer that occurs, and no other.
   * It only collects `CustomersDistinct` and `CustomersPresent`.
   */
  lemma CustomerAnalysisCustomers(txs: seq<Transaction>)
    ensures |CustomerAnalysisOf(txs)| == |Keys(txs, CustomerField)|
    ensures forall i, j :: 0 <= i < j < |CustomerAnalysisOf(txs)| ==>
      CustomerAnalysisOf(txs)[i].customerId != CustomerAnalysisOf(txs)[j].customerId
    ensures forall t :: t in txs ==> exists c :: c in CustomerAnalysisOf(txs) && c.customerId == t.customerId
    ensures forall c :: c in CustomerAnalysisOf(txs) ==> exists t :: t in txs && t.customerId == c.customerId
  {
    CustomersDistinct(txs);
    CustomersPresent(txs);
  }

  /** No customer has two profiles. */
  lemma CustomersDistinct(txs: seq<Transaction>)
    ensures forall i, j :: 0 <= i < j < |CustomerAnalysisOf(txs)| ==>
      CustomerAnalysisOf(txs)[i].customerId != CustomerAnalysisOf(txs)[j].customerId
  {
    KeysDistinct(txs, CustomerField);
    SortDescDistinctBy(CustomersFirstSeen(txs), SpentKey, (c: CustomerProfile) => c.customerId);
  }

  /** Every customer that occurs has a profile, and every profile is of a customer that occurs. */
  lemma CustomersPresent(txs: seq<Transaction>)
    ensures forall t :: t in txs ==> exists c :: c in CustomerAnalysisOf(txs) && c.customerId == t.customerId
    ensures forall c :: c in CustomerAnalysisOf(txs) ==> exists t :: t in txs && t.customerId == c.customerId
  {
    var ks, rows, r := Keys(txs, CustomerField), CustomersFirstSeen(txs), CustomerAnalysisOf(txs);
    KeysMembers(txs, CustomerField);
    SortDescMembers(rows, SpentKey);
    forall c | c in r ensures exists t :: t in txs && t.customerId == c.customerId {
      CustomerRowsAt(txs, c);
      var t :| t in txs && KeyOf(t, CustomerField) == c.customerId;
    }
    forall t | t in txs ensures exists c :: c in r && c.customerId == t.customerId {
      assert KeyOf(t, CustomerField) == t.customerId;
      assert t.customerId in ks;
      var i :| 0 <= i < |ks| && ks[i] == t.customerId;
      assert rows[i] in r;
    }
  }

  /**
   * Each profile has at least one purchase, so the average order value is
   * always the total spent divided by the number of purchases; and its
   * products are exactly the products the customer bought.
   */
  lemma CustomerAnalysisProfiles(txs: seq<Transaction>)
    ensures forall c :: c in CustomerAnalysisOf(txs) ==>
      && c.totalSpent == Total(txs, CustomerField, c.customerId)
      && c.purchaseCount == Count(txs, CustomerField, c.customerId)
      && c.purchaseCount >= 1
      && c.avgOrderValue == c.totalSpent / c.purchaseCount as real
    ensures forall c, p :: c in CustomerAnalysisOf(txs) ==>
      (p in c.productsBought <==> exists t :: t in txs && t.customerId == c.customerId && t.productName == p)
  {
    SortDescMembers(CustomersFirstSeen(txs), SpentKey);
    forall c | c in CustomerAnalysisOf(txs)
      ensures c.totalSpent == Total(txs, CustomerField, c.customerId)
      ensures c.purchaseCount == Count(txs, CustomerField, c.customerId) && c.purchaseCount >= 1
      ensures c.avgOrderValue == c.totalSpent / c.purchaseCount as real
    {
      CustomerRowsAt(txs, c);
      CountPositive(txs, CustomerField, c.customerId);
    }
    forall c, p | c in CustomerAnalysisOf(txs)
      ensures p in c.productsBought <==> exists t :: t in txs && t.customerId == c.customerId && t.productName == p
    {
      CustomerRowsAt(txs, c);
      ProductsOfMembers(txs, c.customerId);
    }
  }

  /**
   * The customers are ordered by total spent, highest first, and customers
   * with equal totals keep the order in which they were first seen.
   */
  lemma CustomerAnalysisOrder(txs: seq<Transaction>)
    ensures SortedDesc(CustomerAnalysisOf(txs), SpentKey)
    ensures forall v :: WithKey(CustomerAnalysisOf(txs), SpentKey, v) == WithKey(CustomersFirstSeen(txs), SpentKey, v)
  {
    forall v ensures WithKey(CustomerAnalysisOf(txs), SpentKey, v) == WithKey(CustomersFirstSeen(txs), SpentKey, v) {
      SortDescStable(CustomersFirstSeen(txs), SpentKey, v);
    }
  }

  // ---------------------------------------------------------------------------
  // A worked example
  // ---------------------------------------------------------------------------

  /**
   * Five widgets at 10.00 in North and three gadgets at 20.00 in South: the
   * total revenue is 110.00, and South (60.00) comes before North (50.00),
   * with shares of 60/110 and 50/110 of 100 percent.
   */
  lemma TwoRegionExample()
    ensures var txs := [Transaction(5, 10.0, "North", "Widget", "C1"), Transaction(3, 20.0, "South", "Gadget", "C2")];
      && TotalRevenue(txs) == 110.0
      && RegionWiseSalesOf(txs) == [
           RegionSales("South", 60.0, 1, 60.0 / 110.0 * 100.0),
           RegionSales("North", 50.0, 1, 50.0 / 110.0 * 100.0)]
  {
    var t1, t2 := Transaction(5, 10.0, "North", "Widget", "C1"), Transaction(3, 20.0, "South", "Gadget", "C2");
    var txs := [t1, t2];
    assert txs[..1] == [t1] && [t1][..0] == [];
    assert Amount(t1) == 50.0 && Amount(t2) == 60.0;
    assert TotalRevenue([t1]) == 50.0;
    assert TotalRevenue(txs) == 110.0;
    assert "North" != "South" by { assert "North"[0] != "South"[0]; }
    assert Keys([t1], RegionField) == ["North"];
    assert Keys(txs, RegionField) == ["North", "South"];
    assert KeyOf(t1, RegionField) == "North" && KeyOf(t2, RegionField) == "South";
    assert Count([], RegionField, "South") == 0 && Total([], RegionField, "South") == 0.0;
    assert Count([t1], RegionField, "North") == 1 && Count([t1], RegionField, "South") == 0;
    assert Total([t1], RegionField, "North") == 50.0;
    assert Total([t1], RegionField, "South") == 0.0;
    var north, south := RegionRow(txs, "North", 110.0), RegionRow(txs, "South", 110.0);
    assert north == RegionSales("North", 50.0, 1, 50.0 / 110.0 * 100.0);
    assert south == RegionSales("South", 60.0, 1, 60.0 / 110.0 * 100.0);
    var rows := RegionsFirstSeen(txs);
    assert rows == [north, south];
    assert rows[..1] == [north] && [north][..0] == [];
    assert SortDesc([north], SalesKey) == [north];
    assert InsertDesc([north], south, SalesKey) == [south, north];
  }
}
