/** Totals per group: the dictionary that `expense_tracker.py` fills row by
    row, and pandas' `df.groupby(col)["Amount"].sum()`, both modelled as a
    sequence of buckets, one per key, in the order the grouping produces
    them. */
module Aggregate {
  import opened Text
  import opened Ledger
  import opened Sorting

  /** One group: its key and the sum of the amounts under it. */
  datatype Bucket = Bucket(key: string, total: real)

  /** A key and an amount, one per row, in stored order. */
  datatype Entry = Entry(key: string, amount: real)

  // ---------------------------------------------------------------------
  // Buckets as a dictionary
  // ---------------------------------------------------------------------

  /** No key occurs twice. */
  predicate DistinctKeys(bs: seq<Bucket>)
  {
    forall i, j :: 0 <= i < j < |bs| ==> bs[i].key != bs[j].key
  }

  function KeySet(bs: seq<Bucket>): set<string>
  {
    set b | b in bs :: b.key
  }

  /** The sum of the totals of all buckets. */
  function SumTotals(bs: seq<Bucket>): real
  {
    if bs == [] then 0.0 else SumTotals(bs[..|bs| - 1]) + bs[|bs| - 1].total
  }

  /** The position of the bucket for `k`, or `|bs|` when there is none. */
  function FindKey(bs: seq<Bucket>, k: string): (i: nat)
    ensures i <= |bs|
    ensures i < |bs| ==> bs[i].key == k
    ensures forall j :: 0 <= j < i ==> bs[j].key != k
  {
    if bs == [] then 0 else if bs[0].key == k then 0 else 1 + FindKey(bs[1..], k)
  }

  /** `totals.get(k, 0)`. */
  function Lookup(bs: seq<Bucket>, k: string): (v: real)
    ensures k !in KeySet(bs) ==> v == 0.0
  {
    var i := FindKey(bs, k);
    if i < |bs| then bs[i].total
    else
      assert forall b :: b in bs ==> b.key != k;
      0.0
  }

  /** In a dictionary every bucket is the one its key finds. */
  lemma LookupDistinct(bs: seq<Bucket>, i: nat)
    requires DistinctKeys(bs) && i < |bs|
    ensures Lookup(bs, bs[i].key) == bs[i].total
  {
    var j := FindKey(bs, bs[i].key);
    assert j == i;
  }

  lemma {:induction false} SumTotalsUpdate(bs: seq<Bucket>, i: nat, b: Bucket)
    requires i < |bs|
    ensures SumTotals(bs[i := b]) == SumTotals(bs) - bs[i].total + b.total
  {
    var n := |bs| - 1;
    if i < n {
      SumTotalsUpdate(bs[..n], i, b);
      assert bs[i := b][..n] == bs[..n][i := b];
    } else {
      assert bs[i := b][..n] == bs[..n];
    }
  }

  /** `totals[k] = totals.get(k, 0) + amount`: the bucket for `k` grows by
      `amount`, or a new bucket for `k` is added at the end. */
  function Accumulate(bs: seq<Bucket>, k: string, amount: real): seq<Bucket>
  {
    var i := FindKey(bs, k);
    if i < |bs| then bs[i := Bucket(k, bs[i].total + amount)] else bs + [Bucket(k, 0.0 + amount)]
  }

  /** Accumulating adds `k` to the keys, keeps the keys distinct, adds
      `amount` to the value of `k` and to the sum of the totals, and leaves
      every other key's value alone. */
  lemma AccumulateFacts(bs: seq<Bucket>, k: string, amount: real)
    ensures KeySet(Accumulate(bs, k, amount)) == KeySet(bs) + {k}
    ensures DistinctKeys(bs) ==> DistinctKeys(Accumulate(bs, k, amount))
    ensures Lookup(Accumulate(bs, k, amount), k) == Lookup(bs, k) + amount
    ensures forall k' :: k' != k ==> Lookup(Accumulate(bs, k, amount), k') == Lookup(bs, k')
    ensures SumTotals(Accumulate(bs, k, amount)) == SumTotals(bs) + amount
  {
    var i := FindKey(bs, k);
    var r := Accumulate(bs, k, amount);
    if i < |bs| {
      UpdateFacts(bs, i, k, amount, r);
    } else {
      AppendFacts(bs, k, amount, r);
    }
  }

  lemma UpdateFacts(bs: seq<Bucket>, i: nat, k: string, amount: real, r: seq<Bucket>)
    requires i < |bs| && FindKey(bs, k) == i
    requires r == bs[i := Bucket(k, bs[i].total + amount)]
    ensures KeySet(r) == KeySet(bs) + {k}
    ensures DistinctKeys(bs) ==> DistinctKeys(r)
    ensures Lookup(r, k) == Lookup(bs, k) + amount
    ensures forall k' :: k' != k ==> Lookup(r, k') == Lookup(bs, k')
    ensures SumTotals(r) == SumTotals(bs) + amount
  {
    SumTotalsUpdate(bs, i, Bucket(k, bs[i].total + amount));
    UpdateKeys(bs, i, k, r);
    UpdateLookups(bs, i, k, amount, r);
  }

  /** Replacing the bucket of `k` keeps the key at every position. */
  lemma UpdateKeys(bs: seq<Bucket>, i: nat, k: string, r: seq<Bucket>)
    requires i < |bs| && bs[i].key == k
    requires |r| == |bs| && r[i].key == k && forall j :: 0 <= j < |bs| && j != i ==> r[j] == bs[j]
    ensures KeySet(r) == KeySet(bs) + {k}
    ensures DistinctKeys(bs) ==> DistinctKeys(r)
  {
    forall b | b in bs ensures b.key in KeySet(r) {
      var j :| 0 <= j < |bs| && bs[j] == b;
      assert r[j].key == b.key;
    }
    forall b | b in r ensures b.key in KeySet(bs) {
      var j :| 0 <= j < |r| && r[j] == b;
      assert b.key == bs[j].key;
    }
  }

  lemma UpdateLookups(bs: seq<Bucket>, i: nat, k: string, amount: real, r: seq<Bucket>)
    requires i < |bs| && FindKey(bs, k) == i
    requires r == bs[i := Bucket(k, bs[i].total + amount)]
    ensures Lookup(r, k) == Lookup(bs, k) + amount
    ensures forall k' :: k' != k ==> Lookup(r, k') == Lookup(bs, k')
  {
    FindKeySameKeys(bs, r, k);
    forall k' | k' != k ensures Lookup(r, k') == Lookup(bs, k') {
      FindKeySameKeys(bs, r, k');
    }
  }

  lemma {:induction false} FindKeySameKeys(a: seq<Bucket>, b: seq<Bucket>, k: string)
    requires |a| == |b| && forall j :: 0 <= j < |a| ==> a[j].key == b[j].key
    ensures FindKey(a, k) == FindKey(b, k)
  {
    if a != [] {
      FindKeySameKeys(a[1..], b[1..], k);
    }
  }

  lemma AppendFacts(bs: seq<Bucket>, k: string, amount: real, r: seq<Bucket>)
    requires FindKey(bs, k) == |bs|
    requires r == bs + [Bucket(k, 0.0 + amount)]
    ensures KeySet(r) == KeySet(bs) + {k}
    ensures DistinctKeys(bs) ==> DistinctKeys(r)
    ensures Lookup(r, k) == Lookup(bs, k) + amount
    ensures forall k' :: k' != k ==> Lookup(r, k') == Lookup(bs, k')
    ensures SumTotals(r) == SumTotals(bs) + amount
  {
    var b := Bucket(k, 0.0 + amount);
    assert r[..|r| - 1] == bs;
    FindKeyAppend(bs, b, k);
    forall k' | k' != k ensures Lookup(r, k') == Lookup(bs, k') {
      FindKeyAppend(bs, b, k');
    }
  }

  lemma {:induction false} FindKeyAppend(bs: seq<Bucket>, b: Bucket, k: string)
    ensures FindKey(bs + [b], k)
         == if FindKey(bs, k) < |bs| then FindKey(bs, k) else if b.key == k then |bs| else |bs| + 1
  {
    if bs != [] {
      assert (bs + [b])[1..] == bs[1..] + [b];
      FindKeyAppend(bs[1..], b, k);
    }
  }

  // ---------------------------------------------------------------------
  // Grouping
  // ---------------------------------------------------------------------

  /** The total of the amounts whose key is `k`. */
  function KeySum(es: seq<Entry>, k: string): real
  {
    if es == [] then 0.0
    else KeySum(es[..|es| - 1], k) + (if es[|es| - 1].key == k then es[|es| - 1].amount else 0.0)
  }

  /** The total of all amounts. */
  function EntrySum(es: seq<Entry>): real
  {
    if es == [] then 0.0 else EntrySum(es[..|es| - 1]) + es[|es| - 1].amount
  }

  function EntryKeys(es: seq<Entry>): set<string>
  {
    set e | e in es :: e.key
  }

  /** The buckets that accumulating the entries one by one builds, keys in
      order of first occurrence. */
  function GroupSums(es: seq<Entry>): (r: seq<Bucket>)
    ensures DistinctKeys(r)
    ensures KeySet(r) == EntryKeys(es)
  {
    if es == [] then []
    else
      var init, last := es[..|es| - 1], es[|es| - 1];
      assert es == init + [last];
      assert EntryKeys(es) == EntryKeys(init) + {last.key};
      AccumulateFacts(GroupSums(init), last.key, last.amount);
      Accumulate(GroupSums(init), last.key, last.amount)
  }

  /** Every key's bucket holds the sum of that key's amounts, and the
      buckets together hold the sum of all amounts: each entry lands in
      exactly one bucket. */
  lemma {:induction false} GroupSumsTotals(es: seq<Entry>)
    ensures forall k :: Lookup(GroupSums(es), k) == KeySum(es, k)
    ensures SumTotals(GroupSums(es)) == EntrySum(es)
  {
    if es != [] {
      var init, last := es[..|es| - 1], es[|es| - 1];
      GroupSumsTotals(init);
      AccumulateFacts(GroupSums(init), last.key, last.amount);
    }
  }

  /** The entries of the rows for a grouping: each row's key and amount. */
  function Entries(rs: seq<Record>, g: Grouping): (es: seq<Entry>)
    ensures |es| == |rs|
  {
    if rs == [] then []
    else Entries(rs[..|rs| - 1], g) + [Entry(KeyOf(g, rs[|rs| - 1]), rs[|rs| - 1].amount)]
  }

  /** The entries of all rows but the last, then the last row's entry. */
  lemma EntriesSnoc(rs: seq<Record>, g: Grouping)
    requires rs != []
    ensures Entries(rs, g)[..|rs| - 1] == Entries(rs[..|rs| - 1], g)
    ensures Entries(rs, g)[|rs| - 1] == Entry(KeyOf(g, rs[|rs| - 1]), rs[|rs| - 1].amount)
  {
  }

  lemma {:induction false} EntriesSum(rs: seq<Record>, g: Grouping)
    ensures EntrySum(Entries(rs, g)) == SumAmounts(rs)
  {
    if rs != [] {
      EntriesSum(rs[..|rs| - 1], g);
      EntriesSnoc(rs, g);
    }
  }

  lemma {:induction false} EntriesKeys(rs: seq<Record>, g: Grouping)
    ensures EntryKeys(Entries(rs, g)) == set r | r in rs :: KeyOf(g, r)
  {
    if rs != [] {
      var init, last := rs[..|rs| - 1], rs[|rs| - 1];
      EntriesKeys(init, g);
      EntriesSnoc(rs, g);
      var es := Entries(rs, g);
      assert es == Entries(init, g) + [Entry(KeyOf(g, last), last.amount)];
      EntryKeysSnoc(Entries(init, g), Entry(KeyOf(g, last), last.amount));
      RowKeysSnoc(rs, g);
    }
  }

  lemma EntryKeysSnoc(es: seq<Entry>, e: Entry)
    ensures EntryKeys(es + [e]) == EntryKeys(es) + {e.key}
  {
  }

  lemma RowKeysSnoc(rs: seq<Record>, g: Grouping)
    requires rs != []
    ensures (set r | r in rs :: KeyOf(g, r))
         == (set r | r in rs[..|rs| - 1] :: KeyOf(g, r)) + {KeyOf(g, rs[|rs| - 1])}
  {
    assert rs == rs[..|rs| - 1] + [rs[|rs| - 1]];
  }

  lemma {:induction false} EntriesKeySum(rs: seq<Record>, g: Grouping, k: string)
    ensures KeySum(Entries(rs, g), k) == SumAmounts(Select(rs, KeyIs(g, k)))
  {
    if rs != [] {
      var init, last := rs[..|rs| - 1], rs[|rs| - 1];
      EntriesKeySum(init, g, k);
      EntriesSnoc(rs, g);
      var kept := Select(init, KeyIs(g, k));
      if KeyOf(g, last) == k {
        assert Select(rs, KeyIs(g, k)) == kept + [last];
        SumAmountsSnoc(kept, last);
      } else {
        assert Select(rs, KeyIs(g, k)) == kept + [];
        assert kept + [] == kept;
      }
    }
  }

  /** Totals per group of the rows, keys in order of first occurrence. */
  function Totals(rs: seq<Record>, g: Grouping): seq<Bucket>
  {
    GroupSums(Entries(rs, g))
  }

  /** Grouping one more row accumulates that row into the totals so far:
      the dictionary loop and the grouping build the same buckets. */
  lemma TotalsStep(rs: seq<Record>, i: nat, g: Grouping)
    requires i < |rs|
    ensures Totals(rs[..i + 1], g) == Accumulate(Totals(rs[..i], g), KeyOf(g, rs[i]), rs[i].amount)
  {
    assert rs[..i + 1][..i] == rs[..i];
    EntriesSnoc(rs[..i + 1], g);
  }

  /** The grouping is a partition of the rows: one bucket per key that
      occurs and no other, each holding the sum of its rows' amounts, and
      the buckets adding up to the sum of all amounts. */
  lemma TotalsCorrect(rs: seq<Record>, g: Grouping)
    ensures DistinctKeys(Totals(rs, g))
    ensures KeySet(Totals(rs, g)) == set r | r in rs :: KeyOf(g, r)
    ensures forall b :: b in Totals(rs, g) ==> b.total == SumAmounts(Select(rs, KeyIs(g, b.key)))
    ensures forall k :: Lookup(Totals(rs, g), k) == SumAmounts(Select(rs, KeyIs(g, k)))
    ensures SumTotals(Totals(rs, g)) == SumAmounts(rs)
  {
    var bs := Totals(rs, g);
    EntriesSum(rs, g);
    EntriesKeys(rs, g);
    forall k ensures KeySum(Entries(rs, g), k) == SumAmounts(Select(rs, KeyIs(g, k))) {
      EntriesKeySum(rs, g, k);
    }
    GroupSumsTotals(Entries(rs, g));
    forall b | b in bs ensures b.total == SumAmounts(Select(rs, KeyIs(g, b.key))) {
      var i :| 0 <= i < |bs| && bs[i] == b;
      LookupDistinct(bs, i);
    }
  }

  // ---------------------------------------------------------------------
  // Orders on buckets
  // ---------------------------------------------------------------------

  /** Ascending key: the order of a pandas groupby result. */
  predicate KeyLe(a: Bucket, b: Bucket)
  {
    LexLe(a.key, b.key)
  }

  /** Descending total: `sort_values(ascending=False)`. */
  predicate TotalGe(a: Bucket, b: Bucket)
  {
    a.total >= b.total
  }

  lemma KeyLeTotalPreorder()
    ensures TotalPreorder(KeyLe)
  {
    forall a: Bucket, b: Bucket ensures KeyLe(a, b) || KeyLe(b, a) {
      LexLeTotal(a.key, b.key);
    }
    forall a: Bucket, b: Bucket, c: Bucket | KeyLe(a, b) && KeyLe(b, c) ensures KeyLe(a, c) {
      LexLeTransitive(a.key, b.key, c.key);
    }
  }

  lemma TotalGeTotalPreorder()
    ensures TotalPreorder(TotalGe)
  {
  }

  lemma {:induction false} InsertDistinct(x: Bucket, s: seq<Bucket>, le: (Bucket, Bucket) -> bool)
    requires DistinctKeys(s) && x.key !in KeySet(s)
    ensures DistinctKeys(Insert(x, s, le))
  {
    if s == [] {
    } else if le(x, s[0]) {
      forall j | 0 <= j < |s| ensures s[j].key != x.key {
        assert s[j] in s;
      }
      DistinctCons(x, s);
    } else {
      var rest := Insert(x, s[1..], le);
      TailDistinct(s);
      InsertDistinct(x, s[1..], le);
      forall j | 0 <= j < |rest| ensures rest[j].key != s[0].key {
        assert rest[j] in multiset(rest);
        if rest[j] != x {
          assert rest[j] in multiset(s[1..]);
          LaterKey(rest[j], s);
        } else {
          assert s[0] in s;
        }
      }
      DistinctCons(s[0], rest);
    }
  }

  /** A bucket whose key no other bucket has can go in front. */
  lemma DistinctCons(b: Bucket, rest: seq<Bucket>)
    requires DistinctKeys(rest) && forall j :: 0 <= j < |rest| ==> rest[j].key != b.key
    ensures DistinctKeys([b] + rest)
  {
    var r := [b] + rest;
    forall i, j | 0 <= i < j < |r| ensures r[i].key != r[j].key {
      if i > 0 {
        assert r[i] == rest[i - 1] && r[j] == rest[j - 1];
      }
    }
  }

  /** Without its first bucket a dictionary is still one, over fewer keys. */
  lemma TailDistinct(s: seq<Bucket>)
    requires DistinctKeys(s) && s != []
    ensures DistinctKeys(s[1..]) && KeySet(s[1..]) <= KeySet(s)
  {
    forall b | b in s[1..] ensures b in s { }
  }

  /** In a dictionary no later bucket has the first bucket's key. */
  lemma LaterKey(b: Bucket, s: seq<Bucket>)
    requires DistinctKeys(s) && s != [] && b in s[1..]
    ensures b.key != s[0].key
  {
    var k :| 0 <= k < |s[1..]| && s[1..][k] == b;
    assert s[k + 1] == b;
  }

  /** Sorting buckets keeps them a dictionary over the same keys with the
      same buckets. */
  lemma {:induction false} SortedBuckets(bs: seq<Bucket>, le: (Bucket, Bucket) -> bool)
    requires DistinctKeys(bs)
    ensures DistinctKeys(SortBy(bs, le))
    ensures forall b :: b in SortBy(bs, le) <==> b in bs
    ensures KeySet(SortBy(bs, le)) == KeySet(bs)
  {
    var r := SortBy(bs, le);
    assert forall b :: b in r <==> b in bs by {
      forall b ensures b in r <==> b in bs {
        assert b in r <==> b in multiset(r);
        assert b in bs <==> b in multiset(bs);
      }
    }
    if bs != [] {
      var rest := SortBy(bs[1..], le);
      assert DistinctKeys(bs[1..]);
      SortedBuckets(bs[1..], le);
      assert bs[0].key !in KeySet(rest);
      InsertDistinct(bs[0], rest, le);
    }
  }

  lemma {:induction false} SumTotalsCons(x: Bucket, s: seq<Bucket>)
    ensures SumTotals([x] + s) == x.total + SumTotals(s)
  {
    if s != [] {
      assert ([x] + s)[..|s|] == [x] + s[..|s| - 1];
      SumTotalsCons(x, s[..|s| - 1]);
    }
  }

  lemma {:induction false} InsertSum(x: Bucket, s: seq<Bucket>, le: (Bucket, Bucket) -> bool)
    ensures SumTotals(Insert(x, s, le)) == x.total + SumTotals(s)
  {
    if s == [] {
      SumTotalsCons(x, s);
    } else if le(x, s[0]) {
      SumTotalsCons(x, s);
    } else {
      InsertSum(x, s[1..], le);
      SumTotalsCons(s[0], Insert(x, s[1..], le));
      SumTotalsCons(s[0], s[1..]);
      assert s == [s[0]] + s[1..];
    }
  }

  /** Sorting the buckets keeps the sum of their totals. */
  lemma {:induction false} SortBySum(s: seq<Bucket>, le: (Bucket, Bucket) -> bool)
    ensures SumTotals(SortBy(s, le)) == SumTotals(s)
  {
    if s != [] {
      SortBySum(s[1..], le);
      InsertSum(s[0], SortBy(s[1..], le), le);
      SumTotalsCons(s[0], s[1..]);
      assert s == [s[0]] + s[1..];
    }
  }

  /** The groupby result of pandas: one bucket per key, keys ascending. */
  function GroupBy(rs: seq<Record>, g: Grouping): seq<Bucket>
  {
    SortBy(Totals(rs, g), KeyLe)
  }

  /** `df.groupby(col)["Amount"].sum()`: distinct keys in ascending order,
      exactly the keys of the rows, each with the sum of its rows. */
  lemma GroupByCorrect(rs: seq<Record>, g: Grouping)
    ensures DistinctKeys(GroupBy(rs, g))
    ensures Sorted(GroupBy(rs, g), KeyLe)
    ensures KeySet(GroupBy(rs, g)) == set r | r in rs :: KeyOf(g, r)
    ensures forall b :: b in GroupBy(rs, g) ==> b.total == SumAmounts(Select(rs, KeyIs(g, b.key)))
  {
    TotalsCorrect(rs, g);
    SortedBuckets(Totals(rs, g), KeyLe);
    KeyLeTotalPreorder();
    SortBySorted(Totals(rs, g), KeyLe);
  }

  /** `groupby(col)["Amount"].sum().sort_values(ascending=False)`. */
  function ByTotalDescending(rs: seq<Record>, g: Grouping): seq<Bucket>
  {
    SortBy(GroupBy(rs, g), TotalGe)
  }

  /** The same buckets as the groupby, largest total first. */
  lemma ByTotalDescendingCorrect(rs: seq<Record>, g: Grouping)
    ensures DistinctKeys(ByTotalDescending(rs, g))
    ensures Sorted(ByTotalDescending(rs, g), TotalGe)
    ensures forall b :: b in ByTotalDescending(rs, g) <==> b in GroupBy(rs, g)
    ensures KeySet(ByTotalDescending(rs, g)) == set r | r in rs :: KeyOf(g, r)
    ensures forall b :: b in ByTotalDescending(rs, g) ==> b.total == SumAmounts(Select(rs, KeyIs(g, b.key)))
  {
    GroupByCorrect(rs, g);
    SortedBuckets(GroupBy(rs, g), TotalGe);
    TotalGeTotalPreorder();
    SortBySorted(GroupBy(rs, g), TotalGe);
  }

  // ---------------------------------------------------------------------
  // Maxima
  // ---------------------------------------------------------------------

  /** `Series.idxmax()` position: the first bucket with the largest total. */
  function TopIndex(bs: seq<Bucket>): (i: nat)
    requires bs != []
    ensures i < |bs|
    ensures forall j :: 0 <= j < |bs| ==> bs[j].total <= bs[i].total
    ensures forall j :: 0 <= j < i ==> bs[j].total < bs[i].total
  {
    if |bs| == 1 then 0
    else
      var i := TopIndex(bs[..|bs| - 1]);
      if bs[|bs| - 1].total > bs[i].total then |bs| - 1 else i
  }

  /** The largest text in Python's `str` order: `max` of a column. */
  function MaxText(ks: seq<string>): (m: string)
    requires ks != []
    ensures m in ks
    ensures forall k :: k in ks ==> LexLe(k, m)
  {
    if |ks| == 1 then
      LexLeReflexive(ks[0]);
      ks[0]
    else
      var m := MaxText(ks[..|ks| - 1]);
      var last := ks[|ks| - 1];
      assert ks == ks[..|ks| - 1] + [last];
      LexLeTotal(m, last);
      if LexLe(m, last) then
        assert forall k :: k in ks[..|ks| - 1] ==> LexLe(k, last) by {
          forall k | k in ks[..|ks| - 1] ensures LexLe(k, last) {
            LexLeTransitive(k, m, last);
          }
        }
        LexLeReflexive(last);
        last
      else
        m
  }
}
