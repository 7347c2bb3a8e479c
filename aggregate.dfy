/** The aggregations behind the KPI cards and the two charts of app.py:
    per-bucket counts (`render_kpis`, `chart_buckets`) and the bucket x risk
    cross-tabulation of `chart_stack`, all over fixed category orders and
    zero-filled. */
module Aggregate {
  import opened Seqs
  import opened Text
  import opened Records

  const BucketOrder: seq<string> := ["Expired", "0-30 days", "31-60 days", "61-90 days", "90+ days"]
  const RiskOrder: seq<string> := ["High", "Medium", "Low", "Unknown"]

  predicate Distinct<K(==)>(s: seq<K>)
  {
    forall i, j :: 0 <= i < j < |s| ==> s[i] != s[j]
  }

  // ---------------------------------------------------------------------------
  // value_counts().reindex(order, fill_value=0)
  // ---------------------------------------------------------------------------

  /** How often `k` occurs in `xs`. */
  function Count<K(==)>(xs: seq<K>, k: K): (n: nat)
    ensures n == multiset(xs)[k]
  {
    if xs == [] then 0
    else
      assert xs == [xs[0]] + xs[1..];
      (if xs[0] == k then 1 else 0) + Count(xs[1..], k)
  }

  /** One entry per key of `order`, in that order, holding how often the key
      occurs in `xs`; keys that never occur get 0, values not in `order`
      are dropped. */
  function Tally<K(==)>(order: seq<K>, xs: seq<K>): (t: seq<(K, nat)>)
    ensures |t| == |order|
    ensures forall i :: 0 <= i < |order| ==> t[i] == (order[i], multiset(xs)[order[i]])
  {
    if order == [] then []
    else [(order[0], Count(xs, order[0]))] + Tally(order[1..], xs)
  }

  /** The sum of the counts. */
  function Total<K>(t: seq<(K, nat)>): nat
  {
    if t == [] then 0 else t[0].1 + Total(t[1..])
  }

  function InOrder<K(==)>(order: seq<K>): K -> bool
  {
    (x: K) => x in order
  }

  lemma {:induction false} TallyStep<K>(order: seq<K>, x: K, rest: seq<K>)
    requires Distinct(order)
    ensures Total(Tally(order, [x] + rest)) == Total(Tally(order, rest)) + (if x in order then 1 else 0)
  {
    if order != [] {
      assert ([x] + rest)[1..] == rest;
      assert Distinct(order[1..]);
      TallyStep(order[1..], x, rest);
      assert x in order <==> x == order[0] || x in order[1..];
      if x == order[0] {
        assert x !in order[1..];
      }
    }
  }

  /** With distinct keys, the counts add up to the number of entries whose
      value is one of the keys. */
  lemma {:induction false} TallyTotal<K>(order: seq<K>, xs: seq<K>)
    requires Distinct(order)
    ensures Total(Tally(order, xs)) == |Select(xs, InOrder(order))|
  {
    if xs == [] {
      TallyEmpty(order);
    } else {
      TallyTotal(order, xs[1..]);
      assert xs == [xs[0]] + xs[1..];
      TallyStep(order, xs[0], xs[1..]);
    }
  }

  lemma {:induction false} TallyEmpty<K>(order: seq<K>)
    ensures Total(Tally(order, [])) == 0
  {
    if order != [] {
      TallyEmpty(order[1..]);
    }
  }

  // ---------------------------------------------------------------------------
  // Per-bucket counts
  // ---------------------------------------------------------------------------

  function BucketOf(r: Record): string
  {
    r.expiryBucket
  }

  /** `df["expiry_bucket"].value_counts().reindex(BUCKET_ORDER, fill_value=0)` */
  function BucketCounts(rows: seq<Record>): (t: seq<(string, nat)>)
    ensures |t| == |BucketOrder| == 5
    ensures forall i :: 0 <= i < 5 ==> t[i].0 == BucketOrder[i]
    ensures forall i :: 0 <= i < 5 ==> t[i].1 == multiset(MapSeq(rows, BucketOf))[BucketOrder[i]]
  {
    Tally(BucketOrder, MapSeq(rows, BucketOf))
  }

  predicate HasCanonicalBucket(r: Record)
  {
    r.expiryBucket in BucketOrder
  }

  /** The bucket counts add up to the number of rows whose bucket is one of
      the five. */
  lemma BucketCountsTotal(rows: seq<Record>)
    ensures Total(BucketCounts(rows)) == |Select(rows, HasCanonicalBucket)|
  {
    TallyTotal(BucketOrder, MapSeq(rows, BucketOf));
    SelectMapLength(rows, BucketOf, InOrder(BucketOrder), HasCanonicalBucket);
  }

  /** When every row's bucket is canonical, every row is counted once. */
  lemma BucketCountsCoverAll(rows: seq<Record>)
    requires forall k :: 0 <= k < |rows| ==> rows[k].expiryBucket in BucketOrder
    ensures Total(BucketCounts(rows)) == |rows|
  {
    BucketCountsTotal(rows);
    SelectAll(rows, HasCanonicalBucket);
  }

  // ---------------------------------------------------------------------------
  // The full cross product of two category orders
  // ---------------------------------------------------------------------------

  /** `pd.MultiIndex.from_product([xs, ys])`: pairs, first component slowest. */
  function Product<A, B>(xs: seq<A>, ys: seq<B>): (r: seq<(A, B)>)
    ensures |r| == |xs| * |ys|
  {
    if xs == [] then []
    else seq(|ys|, j requires 0 <= j < |ys| => (xs[0], ys[j])) + Product(xs[1..], ys)
  }

  lemma {:induction false} ProductAt<A, B>(xs: seq<A>, ys: seq<B>, i: int, j: int)
    requires 0 <= i < |xs| && 0 <= j < |ys|
    ensures i * |ys| + j < |Product(xs, ys)|
    ensures Product(xs, ys)[i * |ys| + j] == (xs[i], ys[j])
  {
    if i > 0 {
      ProductAt(xs[1..], ys, i - 1, j);
      assert i * |ys| + j == |ys| + ((i - 1) * |ys| + j);
    }
  }

  lemma {:induction false} ProductMembers<A, B>(xs: seq<A>, ys: seq<B>)
    ensures forall p :: p in Product(xs, ys) <==> p.0 in xs && p.1 in ys
  {
    if xs != [] {
      ProductMembers(xs[1..], ys);
      var block := seq(|ys|, j requires 0 <= j < |ys| => (xs[0], ys[j]));
      forall p ensures p in block <==> p.0 == xs[0] && p.1 in ys {
        if p.0 == xs[0] && p.1 in ys {
          var j :| 0 <= j < |ys| && ys[j] == p.1;
          assert block[j] == p;
        }
      }
      assert forall a :: a in xs <==> a == xs[0] || a in xs[1..];
    }
  }

  lemma {:induction false} ProductDistinct<A, B>(xs: seq<A>, ys: seq<B>)
    requires Distinct(xs) && Distinct(ys)
    ensures Distinct(Product(xs, ys))
  {
    if xs != [] {
      assert Distinct(xs[1..]);
      ProductDistinct(xs[1..], ys);
      ProductMembers(xs[1..], ys);
      var block := seq(|ys|, j requires 0 <= j < |ys| => (xs[0], ys[j]));
      var tail := Product(xs[1..], ys);
      assert xs[0] !in xs[1..];
      forall i, j | 0 <= i < j < |block + tail| ensures (block + tail)[i] != (block + tail)[j] {
        if j >= |block| && i < |block| {
          assert tail[j - |block|] in tail;
        }
      }
    }
  }

  // ---------------------------------------------------------------------------
  // The bucket x risk cross-tabulation
  // ---------------------------------------------------------------------------

  function CellOf(r: Record): (string, string)
  {
    (r.expiryBucket, r.riskRating)
  }

  /** `df.groupby(["expiry_bucket", "risk_rating"]).size()` reindexed on the
      full product `BUCKET_ORDER x RISK_ORDER` with `fill_value=0`. */
  function CrossTab(rows: seq<Record>): (t: seq<((string, string), nat)>)
    ensures |t| == |BucketOrder| * |RiskOrder| == 20
    ensures forall i, j :: 0 <= i < 5 && 0 <= j < 4 ==>
              t[i * 4 + j] == ((BucketOrder[i], RiskOrder[j]), multiset(MapSeq(rows, CellOf))[(BucketOrder[i], RiskOrder[j])])
  {
    var t := Tally(Product(BucketOrder, RiskOrder), MapSeq(rows, CellOf));
    forall i, j | 0 <= i < 5 && 0 <= j < 4
      ensures t[i * 4 + j] == ((BucketOrder[i], RiskOrder[j]), multiset(MapSeq(rows, CellOf))[(BucketOrder[i], RiskOrder[j])])
    {
      ProductAt(BucketOrder, RiskOrder, i, j);
    }
    t
  }

  predicate IsCanonical(r: Record)
  {
    r.expiryBucket in BucketOrder && r.riskRating in RiskOrder
  }

  /** The cells add up to the number of rows whose bucket and risk are both
      canonical; a row with another risk (say "Critical") is in no cell. */
  lemma CrossTabTotal(rows: seq<Record>)
    ensures Total(CrossTab(rows)) == |Select(rows, IsCanonical)|
  {
    var cells := Product(BucketOrder, RiskOrder);
    ProductDistinct(BucketOrder, RiskOrder);
    ProductMembers(BucketOrder, RiskOrder);
    TallyTotal(cells, MapSeq(rows, CellOf));
    forall k | 0 <= k < |rows| ensures IsCanonical(rows[k]) == InOrder(cells)(CellOf(rows[k])) {
      assert CellOf(rows[k]) in cells <==> rows[k].expiryBucket in BucketOrder && rows[k].riskRating in RiskOrder;
    }
    SelectMapLength(rows, CellOf, InOrder(cells), IsCanonical);
  }

  // ---------------------------------------------------------------------------
  // The chart's matrix: grouped.pivot(...).reindex(BUCKET_ORDER)
  // ---------------------------------------------------------------------------

  /** `pivot` lays the risk ratings out as columns in sorted label order. */
  const PivotColumns: seq<string> := ["High", "Low", "Medium", "Unknown"]

  lemma PivotColumnsAreSortedRisks()
    ensures PivotColumns == SortedDistinct(RiskOrder)
  {
    assert Less("High", "Low") && Less("Low", "Medium") && Less("Medium", "Unknown");
    LessTransitive("High", "Low", "Medium");
    LessTransitive("High", "Medium", "Unknown");
    LessTransitive("Low", "Medium", "Unknown");
    assert StrictlySorted(PivotColumns);
    SortedUnique(PivotColumns, SortedDistinct(RiskOrder));
  }

  /** The count stored under key `k`, or 0. */
  function Lookup<K(==)>(t: seq<(K, nat)>, k: K): nat
  {
    if t == [] then 0 else if t[0].0 == k then t[0].1 else Lookup(t[1..], k)
  }

  lemma {:induction false} LookupTally<K>(order: seq<K>, xs: seq<K>, k: K)
    requires k in order
    ensures Lookup(Tally(order, xs), k) == multiset(xs)[k]
  {
    if order[0] != k {
      LookupTally(order[1..], xs, k);
    }
  }

  /** The grouped count of one (bucket, risk) pair of the product. */
  function GroupedCount(rows: seq<Record>, cell: (string, string)): (n: nat)
    requires cell.0 in BucketOrder && cell.1 in RiskOrder
    ensures n == multiset(MapSeq(rows, CellOf))[cell]
  {
    ProductMembers(BucketOrder, RiskOrder);
    LookupTally(Product(BucketOrder, RiskOrder), MapSeq(rows, CellOf), cell);
    Lookup(Tally(Product(BucketOrder, RiskOrder), MapSeq(rows, CellOf)), cell)
  }

  function PivotRow(rows: seq<Record>, bucket: string): (r: seq<nat>)
    requires bucket in BucketOrder
    ensures |r| == 4
    ensures forall j :: 0 <= j < 4 ==> r[j] == multiset(MapSeq(rows, CellOf))[(bucket, PivotColumns[j])]
  {
    seq(4, j requires 0 <= j < 4 => GroupedCount(rows, (bucket, PivotColumns[j])))
  }

  /** Rows in BUCKET_ORDER, columns in `PivotColumns`, one count per cell. */
  function Pivot(rows: seq<Record>): (m: seq<seq<nat>>)
    ensures |m| == 5 && forall i :: 0 <= i < 5 ==> |m[i]| == 4
    ensures forall i, j :: 0 <= i < 5 && 0 <= j < 4 ==>
              m[i][j] == multiset(MapSeq(rows, CellOf))[(BucketOrder[i], PivotColumns[j])]
  {
    seq(5, i requires 0 <= i < 5 => PivotRow(rows, BucketOrder[i]))
  }
}
