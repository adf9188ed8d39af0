/**
 * Sales transactions and the group-by totals the aggregation engine computes.
 *
 * Each function here is the reference definition of one running total of
 * utils/data_processor.py, written as a recursion over the prefix of the
 * transaction list so that it matches the left-to-right loops of the Python code.
 */
module Transactions {

  /** The fields of one sales transaction that the aggregation engine reads. */
  datatype Transaction = Transaction(
    quantity: int,
    unitPrice: real,
    region: string,
    productName: string,
    customerId: string)

  /** The field a dictionary of per-key statistics is keyed by. */
  datatype Field = RegionField | ProductField | CustomerField

  /** `Quantity * UnitPrice`: what one transaction is worth. */
  function Amount(t: Transaction): real
  {
    t.quantity as real * t.unitPrice
  }

  function KeyOf(t: Transaction, f: Field): string
  {
    match f
    case RegionField => t.region
    case ProductField => t.productName
    case CustomerField => t.customerId
  }

  /**
   * Sum of the amounts of all transactions, adding from the first to the last.
   * No transactions give 0; when no amount is negative, neither is the total.
   */
  function TotalRevenue(txs: seq<Transaction>): (r: real)
    ensures txs == [] ==> r == 0.0
    ensures (forall i :: 0 <= i < |txs| ==> Amount(txs[i]) >= 0.0) ==> r >= 0.0
  {
    if txs == [] then 0.0
    else TotalRevenue(txs[..|txs| - 1]) + Amount(txs[|txs| - 1])
  }

  /** The total revenue of two lists of transactions one after the other. */
  lemma {:induction false} TotalRevenueAppend(a: seq<Transaction>, b: seq<Transaction>)
    ensures TotalRevenue(a + b) == TotalRevenue(a) + TotalRevenue(b)
  {
    if b == [] {
      assert a + b == a;
    } else {
      assert (a + b)[..|a + b| - 1] == a + b[..|b| - 1];
      TotalRevenueAppend(a, b[..|b| - 1]);
    }
  }

  /** The total revenue is the first transaction's amount plus the total revenue of the rest. */
  lemma TotalRevenueCons(txs: seq<Transaction>)
    requires txs != []
    ensures TotalRevenue(txs) == Amount(txs[0]) + TotalRevenue(txs[1..])
  {
    assert txs == [txs[0]] + txs[1..];
    TotalRevenueAppend([txs[0]], txs[1..]);
    assert [txs[0]][..0] == [];
  }

  /** Reading one more transaction adds its amount to the total revenue. */
  lemma TotalRevenueStep(txs: seq<Transaction>, i: nat)
    requires i < |txs|
    ensures TotalRevenue(txs[..i + 1]) == TotalRevenue(txs[..i]) + Amount(txs[i])
  {
    assert txs[..i + 1][..i] == txs[..i];
  }

  /**
   * The keys of a dictionary of statistics filled from `txs`: every key that
   * occurs, once, in the order in which it is first seen.
   */
  function Keys(txs: seq<Transaction>, f: Field): (ks: seq<string>)
    ensures |ks| <= |txs|
  {
    if txs == [] then []
    else
      var seen := Keys(txs[..|txs| - 1], f);
      var k := KeyOf(txs[|txs| - 1], f);
      if k in seen then seen else seen + [k]
  }

  /** The keys are distinct. */
  lemma {:induction false} KeysDistinct(txs: seq<Transaction>, f: Field)
    ensures forall i, j :: 0 <= i < j < |Keys(txs, f)| ==> Keys(txs, f)[i] != Keys(txs, f)[j]
  {
    if txs != [] {
      var seen := Keys(txs[..|txs| - 1], f);
      var k := KeyOf(txs[|txs| - 1], f);
      KeysDistinct(txs[..|txs| - 1], f);
      if k !in seen {
        var ks := seen + [k];
        forall i, j | 0 <= i < j < |ks| ensures ks[i] != ks[j] {
          assert ks[i] == seen[i];
          if j < |seen| {
            assert ks[j] == seen[j] && seen[i] != seen[j];
          } else {
            assert ks[j] == k && seen[i] in seen;
          }
        }
        assert Keys(txs, f) == ks;
      }
    }
  }

  /** The keys are exactly the keys of the transactions. */
  lemma {:induction false} KeysMembers(txs: seq<Transaction>, f: Field)
    ensures forall k :: k in Keys(txs, f) <==> exists t :: t in txs && KeyOf(t, f) == k
  {
    if txs != [] {
      var init, last := txs[..|txs| - 1], txs[|txs| - 1];
      assert txs == init + [last];
      KeysMembers(init, f);
      forall k ensures k in Keys(txs, f) <==> exists t :: t in txs && KeyOf(t, f) == k {
        if k == KeyOf(last, f) {
          assert last in txs;
        } else if k in Keys(init, f) {
          var t :| t in init && KeyOf(t, f) == k;
          assert t in txs;
        } else {
          forall t | t in txs ensures KeyOf(t, f) != k {
            if t != last {
              assert t in init;
            }
          }
        }
      }
    }
  }

  /**
   * The keys are in the order in which they are first seen: wherever key `j`
   * occurs, key `i < j` has already occurred earlier.
   */
  lemma {:induction false} KeysFirstSeen(txs: seq<Transaction>, f: Field, i: nat, j: nat, b: nat)
    requires i < j < |Keys(txs, f)| && b < |txs| && KeyOf(txs[b], f) == Keys(txs, f)[j]
    ensures exists a :: 0 <= a < b && KeyOf(txs[a], f) == Keys(txs, f)[i]
  {
    var init, last := txs[..|txs| - 1], txs[|txs| - 1];
    var seen := Keys(init, f);
    KeysMembers(init, f);
    if KeyOf(last, f) in seen {
      assert Keys(txs, f) == seen;
      if b == |txs| - 1 {
        var t :| t in init && KeyOf(t, f) == seen[j];
        var b' :| 0 <= b' < |init| && init[b'] == t;
        KeysFirstSeen(init, f, i, j, b');
        var a :| 0 <= a < b' && KeyOf(init[a], f) == seen[i];
        assert txs[a] == init[a];
      } else {
        assert txs[b] == init[b];
        KeysFirstSeen(init, f, i, j, b);
        var a :| 0 <= a < b && KeyOf(init[a], f) == seen[i];
        assert txs[a] == init[a];
      }
    } else {
      var ks := seen + [KeyOf(last, f)];
      assert Keys(txs, f) == ks;
      assert ks[i] == seen[i];
      if j == |seen| {
        assert KeyOf(txs[b], f) !in seen;
        assert b == |txs| - 1;
        assert seen[i] in seen;
        var t :| t in init && KeyOf(t, f) == seen[i];
        var a :| 0 <= a < |init| && init[a] == t;
        assert txs[a] == init[a];
      } else {
        assert ks[j] == seen[j];
        assert b < |txs| - 1;
        assert txs[b] == init[b];
        KeysFirstSeen(init, f, i, j, b);
        var a :| 0 <= a < b && KeyOf(init[a], f) == seen[i];
        assert txs[a] == init[a];
      }
    }
  }

  /** The number of transactions whose key is `k`; never more than there are transactions. */
  function Count(txs: seq<Transaction>, f: Field, k: string): (n: nat)
    ensures n <= |txs|
  {
    if txs == [] then 0
    else Count(txs[..|txs| - 1], f, k) + (if KeyOf(txs[|txs| - 1], f) == k then 1 else 0)
  }

  /**
   * The sum of the amounts of the transactions whose key is `k`. When no
   * amount is negative, it lies between 0 and the total revenue.
   */
  function Total(txs: seq<Transaction>, f: Field, k: string): (r: real)
    ensures (forall i :: 0 <= i < |txs| ==> Amount(txs[i]) >= 0.0) ==> 0.0 <= r <= TotalRevenue(txs)
  {
    if txs == [] then 0.0
    else Total(txs[..|txs| - 1], f, k) + (if KeyOf(txs[|txs| - 1], f) == k then Amount(txs[|txs| - 1]) else 0.0)
  }

  /** The sum of the quantities of the transactions whose key is `k`; not negative when no quantity is. */
  function Quantity(txs: seq<Transaction>, f: Field, k: string): (r: int)
    ensures (forall i :: 0 <= i < |txs| ==> txs[i].quantity >= 0) ==> r >= 0
  {
    if txs == [] then 0
    else Quantity(txs[..|txs| - 1], f, k) + (if KeyOf(txs[|txs| - 1], f) == k then txs[|txs| - 1].quantity else 0)
  }

  /**
   * The names of the products customer `c` bought: never more distinct
   * products than the customer has purchases.
   */
  function ProductsOf(txs: seq<Transaction>, c: string): (ps: set<string>)
    ensures |ps| <= Count(txs, CustomerField, c)
  {
    if txs == [] then {}
    else
      var last := txs[|txs| - 1];
      var before := ProductsOf(txs[..|txs| - 1], c);
      if last.customerId == c then
        assert |before + {last.productName}| <= |before| + 1 by {
          if last.productName in before {
            assert before + {last.productName} == before;
          }
        }
        before + {last.productName}
      else before
  }

  /** A product is in the set exactly when the customer has a transaction for it. */
  lemma {:induction false} ProductsOfMembers(txs: seq<Transaction>, c: string)
    ensures forall p :: p in ProductsOf(txs, c) <==> exists t :: t in txs && t.customerId == c && t.productName == p
  {
    if txs != [] {
      var init, last := txs[..|txs| - 1], txs[|txs| - 1];
      assert txs == init + [last];
      ProductsOfMembers(init, c);
      forall p ensures p in ProductsOf(txs, c) <==> exists t :: t in txs && t.customerId == c && t.productName == p {
        if last.customerId == c && last.productName == p {
          assert last in txs;
        } else if p in ProductsOf(init, c) {
          var t :| t in init && t.customerId == c && t.productName == p;
          assert t in txs;
        } else {
          forall t | t in txs && t.customerId == c ensures t.productName != p {
            if t != last {
              assert t in init;
            }
          }
        }
      }
    }
  }

  /** A customer who does not occur bought nothing. */
  lemma {:induction false} ProductsAbsent(txs: seq<Transaction>, c: string)
    requires c !in Keys(txs, CustomerField)
    ensures ProductsOf(txs, c) == {}
  {
    if txs != [] {
      ProductsAbsent(txs[..|txs| - 1], c);
    }
  }

  /** Reading one more transaction appends its key to the keys if the key is new. */
  lemma KeysStep(txs: seq<Transaction>, i: nat, f: Field)
    requires i < |txs|
    ensures var k := KeyOf(txs[i], f); var seen := Keys(txs[..i], f);
      Keys(txs[..i + 1], f) == if k in seen then seen else seen + [k]
  {
    assert txs[..i + 1][..i] == txs[..i];
  }

  /** Reading one more transaction changes only the statistics of its own key. */
  lemma StatsStep(txs: seq<Transaction>, i: nat, f: Field, k: string)
    requires i < |txs|
    ensures var mine := KeyOf(txs[i], f) == k;
      && Count(txs[..i + 1], f, k) == Count(txs[..i], f, k) + (if mine then 1 else 0)
      && Total(txs[..i + 1], f, k) == Total(txs[..i], f, k) + (if mine then Amount(txs[i]) else 0.0)
      && Quantity(txs[..i + 1], f, k) == Quantity(txs[..i], f, k) + (if mine then txs[i].quantity else 0)
      && ProductsOf(txs[..i + 1], k) == ProductsOf(txs[..i], k) + (if txs[i].customerId == k then {txs[i].productName} else {})
  {
    assert txs[..i + 1][..i] == txs[..i];
  }

  /** A key has transactions exactly when it is one of the keys. */
  lemma {:induction false} CountPositive(txs: seq<Transaction>, f: Field, k: string)
    ensures Count(txs, f, k) > 0 <==> k in Keys(txs, f)
  {
    if txs != [] {
      CountPositive(txs[..|txs| - 1], f, k);
    }
  }

  /** A key that does not occur has a zero total. */
  lemma {:induction false} TotalAbsent(txs: seq<Transaction>, f: Field, k: string)
    requires k !in Keys(txs, f)
    ensures Total(txs, f, k) == 0.0
  {
    if txs != [] {
      TotalAbsent(txs[..|txs| - 1], f, k);
    }
  }

  /** A key that does not occur has a zero quantity. */
  lemma {:induction false} QuantityAbsent(txs: seq<Transaction>, f: Field, k: string)
    requires k !in Keys(txs, f)
    ensures Quantity(txs, f, k) == 0
  {
    if txs != [] {
      QuantityAbsent(txs[..|txs| - 1], f, k);
    }
  }

  /** Sum of `Count` over the keys `ks`. */
  function CountOver(txs: seq<Transaction>, f: Field, ks: seq<string>): int
  {
    if ks == [] then 0
    else CountOver(txs, f, ks[..|ks| - 1]) + Count(txs, f, ks[|ks| - 1])
  }

  /** Sum of `Total` over the keys `ks`. */
  function TotalOver(txs: seq<Transaction>, f: Field, ks: seq<string>): real
  {
    if ks == [] then 0.0
    else TotalOver(txs, f, ks[..|ks| - 1]) + Total(txs, f, ks[|ks| - 1])
  }

  /** One more transaction adds one to the count of exactly one key. */
  lemma {:induction false} CountOverStep(txs: seq<Transaction>, t: Transaction, f: Field, ks: seq<string>)
    requires forall i, j :: 0 <= i < j < |ks| ==> ks[i] != ks[j]
    ensures CountOver(txs + [t], f, ks) == CountOver(txs, f, ks) + (if KeyOf(t, f) in ks then 1 else 0)
  {
    assert (txs + [t])[..|txs|] == txs;
    if ks != [] {
      var init := ks[..|ks| - 1];
      assert ks == init + [ks[|ks| - 1]];
      CountOverStep(txs, t, f, init);
    }
  }

  /** One more transaction adds its amount to the total of exactly one key. */
  lemma {:induction false} TotalOverStep(txs: seq<Transaction>, t: Transaction, f: Field, ks: seq<string>)
    requires forall i, j :: 0 <= i < j < |ks| ==> ks[i] != ks[j]
    ensures TotalOver(txs + [t], f, ks) == TotalOver(txs, f, ks) + (if KeyOf(t, f) in ks then Amount(t) else 0.0)
  {
    assert (txs + [t])[..|txs|] == txs;
    if ks != [] {
      var init := ks[..|ks| - 1];
      assert ks == init + [ks[|ks| - 1]];
      TotalOverStep(txs, t, f, init);
    }
  }

  /** The per-key counts add up to the number of transactions. */
  lemma {:induction false} CountsAddUp(txs: seq<Transaction>, f: Field)
    ensures CountOver(txs, f, Keys(txs, f)) == |txs|
  {
    if txs != [] {
      var init, last := txs[..|txs| - 1], txs[|txs| - 1];
      assert txs == init + [last];
      var seen := Keys(init, f);
      KeysDistinct(init, f);
      CountsAddUp(init, f);
      CountOverStep(init, last, f, seen);
      if KeyOf(last, f) !in seen {
        var ks := seen + [KeyOf(last, f)];
        assert ks[..|ks| - 1] == seen;
        CountPositive(init, f, KeyOf(last, f));
      }
    }
  }

  /** The per-key totals add up to the total revenue. */
  lemma {:induction false} TotalsAddUp(txs: seq<Transaction>, f: Field)
    ensures TotalOver(txs, f, Keys(txs, f)) == TotalRevenue(txs)
  {
    if txs != [] {
      var init, last := txs[..|txs| - 1], txs[|txs| - 1];
      assert txs == init + [last];
      var seen := Keys(init, f);
      KeysDistinct(init, f);
      TotalsAddUp(init, f);
      TotalOverStep(init, last, f, seen);
      if KeyOf(last, f) !in seen {
        var ks := seen + [KeyOf(last, f)];
        assert ks[..|ks| - 1] == seen;
        TotalAbsent(init, f, KeyOf(last, f));
      }
    }
  }
}
