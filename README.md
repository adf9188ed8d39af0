# Sales aggregation engine

A Dafny model of the aggregation engine of a sales-analytics pipeline: the
four read-only analyses of `utils/data_processor.py` over a list of sales
transactions.

- `calculate_total_revenue`: the sum of `Quantity * UnitPrice`.
- `region_wise_sales`: per-region total sales, transaction count and
  percentage of the overall total. Regions are ordered by total sales,
  highest first.
- `top_selling_products`: per-product total quantity and revenue as
  `(name, qty, revenue)` tuples. They are sorted in place by quantity,
  highest first, and cut to the first `n`.
- `customer_analysis`: per-customer total spent, purchase count, average
  order value and the set of products bought. Customers are ordered by total
  spent, highest first.

The project has three modules.

- `Transactions` (`transactions.dfy`): the transaction record and the
  reference definitions of the group-by totals. These are the total revenue
  and, for each key of a chosen field (region, product name or customer id),
  the keys in first-seen order, the count, the total amount, the total
  quantity and a customer's products. They are written as recursions over
  the prefix of the list, so they follow the left-to-right loops of the Python code.
  The lemmas prove what the dictionaries hold:
  - the keys are distinct and are exactly the keys that occur;
  - the counts add up to the number of transactions;
  - the totals add up to the total revenue.
- `StableSort` (`stable_sort.dfy`): Python's stable `sorted(..., reverse=True)`
  and `list.sort(..., reverse=True)`, by a key.
  - `SortDesc` is a stable insertion sort on sequences.
  - `SortDescInPlace` sorts an array in place and is proved to leave exactly
    `SortDesc` of the old contents.
  - The lemmas prove that the sort yields a permutation, is ordered and is
    stable. Stability means that, for every key value, the entries with that
    key keep their relative order. The lemmas also prove that the sort keeps
    sums and distinctness and that the cut-off after `m` entries is sound.
- `DataProcessor` (`data_processor.dfy`): the four analyses.
  - `calculate_total_revenue` is a method with one summing loop.
  - Each aggregation loop is a method over an insertion-ordered key list
    plus a `map` (Python's dict). Its contract says which keys the map
    holds and what each entry is.
  - Each method is proved equal to a specification function of the input
    (`RegionWiseSalesOf`, `TopSellingProductsOf`, `CustomerAnalysisOf`).
  - Lemmas then state what the Python code promises of those results.

Amounts are `real`, so sums, percentages and averages are exact. Quantities
are `int`. A Python dict result becomes a sequence of records in the dict's
order. Each record carries its key (`region`, `name`, `customerId`).

Three behaviours of `utils/data_processor.py` worth spelling out:

- A percentage is computed only when the overall total is positive
  (`overall_total_sales > 0`). When the overall total is zero or negative,
  every region's percentage is 0.
- `product_list[:n]` is a Python slice. A negative `n` drops `-n` entries
  from the end. `SliceEnd` models this.
- The average keeps the `purchase_count > 0` guard of the Python code. It is proved
  that this guard always holds.

## Model

| member | source | states |
|---|---|---|
| `DataProcessor.CalculateTotalRevenue` | utils/data_processor.py:1-10 | The loop's running total ends as the sum of `Quantity * UnitPrice` over all transactions, taken in order. |
| `Transactions.TotalRevenue` | utils/data_processor.py:5-10 | The reference sum of `Quantity * UnitPrice`, left to right. It is 0 for no transactions, and it is not negative when no amount is. |
| `Transactions.TotalRevenueCons` | utils/data_processor.py:5-10 | The total revenue of a non-empty list is the first transaction's amount plus the total of the rest. |
| `Transactions.TotalRevenueStep` | utils/data_processor.py:7-8 | One more iteration adds that transaction's amount to the running total. |
| `Transactions.TotalRevenueAppend` | utils/data_processor.py:7-8 | The total revenue of two lists one after the other is the sum of their totals. |
| `Transactions.Keys` | utils/data_processor.py:26-30 | The keys of a statistics dictionary in insertion order. A new key is appended when first seen, so there are never more keys than transactions. |
| `Transactions.KeysStep` | utils/data_processor.py:26-30 | One more transaction appends its key exactly when the key is not yet in the dictionary. |
| `Transactions.Count` | utils/data_processor.py:26-33 | The number of transactions with a given key, never more than the number of transactions. |
| `Transactions.Total` | utils/data_processor.py:26-32 | The sum of `Quantity * UnitPrice` over the transactions with a given key. When no amount is negative, it lies between 0 and the total revenue. |
| `Transactions.Quantity` | utils/data_processor.py:67-73 | The sum of `Quantity` over the transactions of one product, not negative when no quantity is. |
| `Transactions.ProductsOf` | utils/data_processor.py:106-115 | The set of products a customer bought, with never more products than the customer has purchases. |
| `Transactions.StatsStep` | utils/data_processor.py:32-115 | The per-key step of all three aggregation loops (lines 32-33, 73-74 and 113-115): one more transaction changes the count, total, quantity and product set of its own key only. |
| `Transactions.KeysDistinct` | utils/data_processor.py:26-30 | A statistics dictionary's keys, in insertion order, never repeat. |
| `Transactions.KeysMembers` | utils/data_processor.py:26-30 | A key is in the dictionary exactly when some transaction has that key. |
| `Transactions.KeysFirstSeen` | utils/data_processor.py:26-30 | Keys are in first-seen order: a transaction with key number `j` is preceded by one with key number `i`, for each `i < j`. |
| `Transactions.CountPositive` | utils/data_processor.py:26-33 | A key's transaction count is positive exactly when the key is in the dictionary. |
| `Transactions.CountsAddUp` | utils/data_processor.py:22-33 | The per-key transaction counts add up to the number of transactions. |
| `Transactions.TotalsAddUp` | utils/data_processor.py:22-35 | The per-key totals add up to the total revenue. |
| `Transactions.ProductsOfMembers` | utils/data_processor.py:110-115 | A product is in a customer's set exactly when that customer has a transaction for it. |
| `Transactions.ProductsAbsent` | utils/data_processor.py:106-115 | A customer with no transactions has an empty product set. |
| `Transactions.TotalAbsent` | utils/data_processor.py:26-32 | A key with no transactions has a zero total. |
| `Transactions.QuantityAbsent` | utils/data_processor.py:67-73 | A product with no transactions has a zero quantity. |
| `Transactions.CountOverStep` | utils/data_processor.py:33 | Over distinct keys, one more transaction adds 1 to the count of exactly its own key. |
| `Transactions.TotalOverStep` | utils/data_processor.py:32 | Over distinct keys, one more transaction adds its amount to the total of exactly its own key. |
| `StableSort.SortDesc` | utils/data_processor.py:45-49 | The descending sort returns a permutation of its input with non-increasing keys. |
| `StableSort.InsertDesc` | utils/data_processor.py:45-49 | One insertion step adds exactly the new entry to the sequence. |
| `StableSort.SortDescStable` | utils/data_processor.py:45-49 | Stability: for every key value, the entries with that key come out in the order they went in. |
| `StableSort.SortDescMembers` | utils/data_processor.py:45-49 | The sorted sequence has exactly the entries of the input. |
| `StableSort.SortDescNoDup` | utils/data_processor.py:45-49 | Sorting a sequence without repetitions gives one without repetitions. |
| `StableSort.SortDescDistinctBy` | utils/data_processor.py:45-49 | Entries that differ in a field (their dict key) still differ in it after the sort. |
| `StableSort.SortDescSum` | utils/data_processor.py:45-49 | Sorting does not change a sum over the entries. |
| `StableSort.SortDescCutoff` | utils/data_processor.py:87-90 | Every entry outside the first `m` sorted entries has a key no larger than each of the first `m`. |
| `StableSort.SortDescInPlace` | utils/data_processor.py:87 | The in-place sort of a list leaves the array holding the stable descending sort of its old contents. |
| `StableSort.InsertInPlace` | utils/data_processor.py:87 | One step of the in-place sort inserts the next entry into the sorted prefix and leaves the rest of the array alone. |
| `DataProcessor.Percentage` | utils/data_processor.py:39-42 | With a positive overall total, the percentage times the overall total is 100 times the region's sales, and it lies in 0..100 when the sales do. Otherwise it is 0. |
| `DataProcessor.RegionWiseSalesOf` | utils/data_processor.py:45-49 | What `region_wise_sales` returns: one row per distinct region, a permutation of the first-seen rows, with total sales non-increasing. |
| `DataProcessor.AggregateRegions` | utils/data_processor.py:18-35 | Step 1 of `region_wise_sales` ends with the regions in first-seen order. The dictionary holds exactly those regions, each with its total of `Quantity * UnitPrice` and its number of transactions. The overall total equals the total revenue. |
| `DataProcessor.RegionWiseSales` | utils/data_processor.py:13-51 | `region_wise_sales` returns the per-region rows with their percentages, sorted stably by total sales, highest first. |
| `DataProcessor.RegionWiseSalesContents` | utils/data_processor.py:22-33 | There is one entry per distinct region that occurs and no other. Each entry holds its region's total sales and transaction count, and the count is at least 1. |
| `DataProcessor.RegionWiseSalesSums` | utils/data_processor.py:19-42 | The region totals add up to the overall total, which is the total revenue. The counts add up to the input length. When the overall total is positive, the percentages add up to 100. |
| `DataProcessor.RegionWiseSalesPercentages` | utils/data_processor.py:38-42 | When the overall total is positive, each percentage is `total_sales / overall * 100`. Otherwise every percentage is 0. |
| `DataProcessor.RegionWiseSalesOrder` | utils/data_processor.py:45-49 | Regions are ordered by total sales, highest first. Regions with equal totals keep their first-seen order. |
| `DataProcessor.RegionRowsSums` | utils/data_processor.py:38-42 | Summed over the rows in dictionary order, total sales and counts equal the sums of the per-key totals and counts. |
| `DataProcessor.RegionRowsShares` | utils/data_processor.py:38-42 | The percentages of the rows in dictionary order add up to the share of the sum of their totals. |
| `DataProcessor.TwoRegionExample` | utils/data_processor.py:13-51 | Five widgets at 10.00 in North and three gadgets at 20.00 in South give a total of 110.00. South (60.00) comes before North (50.00), with shares of 60/110 and 50/110 of 100 percent. |
| `DataProcessor.AggregateProducts` | utils/data_processor.py:59-74 | The aggregation loop of `top_selling_products` ends with the products in first-seen order. The dictionary holds exactly those products, each with the sum of its quantities and the sum of its `Quantity * UnitPrice`. |
| `DataProcessor.SliceEnd` | utils/data_processor.py:90 | Where `[:n]` stops on a list of length `len`. It keeps `n` entries when `0 <= n <= len` and all of them when `n > len`. A negative `n` drops `-n` entries from the end, or all entries when `-n > len`. |
| `DataProcessor.TopSellingProductsOf` | utils/data_processor.py:87-90 | What `top_selling_products` returns: a prefix of the quantity ranking, of the length the slice `[:n]` gives, ordered by quantity. |
| `DataProcessor.TopSellingProducts` | utils/data_processor.py:54-90 | `top_selling_products` builds the tuples in dictionary order, sorts them in place by quantity (highest first, stable) and returns the slice `[:n]`. |
| `DataProcessor.TopSellingProductsDefault` | utils/data_processor.py:54 | The call without `n` returns the top five products, or all of them when there are fewer than five. |
| `DataProcessor.TopSellingProductsContents` | utils/data_processor.py:62-90 | The result has `min(n, #distinct products)` entries for `n >= 0`. The names are distinct and occur in the input. Each qty and revenue is the sum over that product's transactions. |
| `DataProcessor.TopSellingProductsOrder` | utils/data_processor.py:87-90 | The result is ordered by qty, highest first. Ties keep first-seen order. Every product left out has a qty no greater than each product returned. |
| `DataProcessor.CustomerEntryStep` | utils/data_processor.py:113-115 | One iteration of the customer loop moves a customer's entry from its value for the first `i` transactions to its value for the first `i + 1`. |
| `DataProcessor.AggregateCustomers` | utils/data_processor.py:98-115 | Step 1 of `customer_analysis` ends with the customers in first-seen order. The dictionary holds exactly those customers, each with their total spent, their number of purchases and the set of products they bought. |
| `DataProcessor.AvgOrder` | utils/data_processor.py:122-125 | With at least one purchase, the average times the purchase count is the total spent. With none, it is 0. |
| `DataProcessor.CustomerAnalysisOf` | utils/data_processor.py:134-139 | What `customer_analysis` returns: one profile per distinct customer, a permutation of the first-seen profiles, with total spent non-increasing. |
| `DataProcessor.CustomerAnalysis` | utils/data_processor.py:93-141 | `customer_analysis` returns the finalized profiles sorted stably by total spent, highest first. |
| `DataProcessor.CustomerAnalysisCustomers` | utils/data_processor.py:101-111 | There is one profile per distinct customer that occurs, and no other. |
| `DataProcessor.CustomerAnalysisProfiles` | utils/data_processor.py:117-132 | Each profile has at least one purchase, so the `0.0` branch is unreachable. `avg_order_value` equals `total_spent / purchase_count`. `products_bought` is exactly the set of products the customer bought. |
| `DataProcessor.CustomerAnalysisOrder` | utils/data_processor.py:134-139 | Customers are ordered by total spent, highest first. Customers with equal totals keep their first-seen order. |

## Left out

- Floating point: amounts, percentages and averages are exact `real`
  numbers. IEEE rounding of the `0.0` accumulators and of the divisions is
  not modelled.
- Fields the engine does not read: the transaction id, date and product id
  are not part of the transaction record.
- The order of `products_bought`: `list(set)` has no defined order. The
  model keeps the set and states membership only.
- `customer_analysis` builds a second dictionary (`final_output`) before
  sorting. The model builds the finalized rows in one list, in the same
  order.
- The default `n = 5` of `top_selling_products` is the constant
  `DefaultTopN`. `TopSellingProducts` takes `n` explicitly, and
  `TopSellingProductsDefault` is the call without `n`.
- `region_wise_sales` writes the percentage into the statistics dictionary
  in place. The model builds a new row per region instead. The rows are the
  same and come in the same order.
- `main.py`, `utils/api_handler.py` and `utils/file_handler.py` are not part
  of this model. They are console I/O, an HTTP request and file reading
  with encoding fallback. The parser, validator, daily trend, peak day, low
  performers, enrichment and report functions that `main.py` calls are not
  part of this model.
