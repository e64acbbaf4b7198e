/** The expense ledger: the rows of the expense file, in stored order, each
    with the four columns Date, Category, Amount and Description. The
    operations here are the ones the scripts apply to the rows they read:
    the sum of the Amount column, boolean-mask selections, removal of the
    first row that a mask selects, and `head`/`tail`. */
module Ledger {
  import opened Wrappers
  import opened Amounts
  import opened Dates

  /** One row of the expense file. The date is kept as the text the file
      holds; the scripts that validate it do so before writing. */
  datatype Record = Record(date: string, category: string, amount: real, description: string)

  // ---------------------------------------------------------------------
  // Sums
  // ---------------------------------------------------------------------

  /** `df["Amount"].sum()`: the amounts added in stored order. */
  function SumAmounts(rs: seq<Record>): real
  {
    if rs == [] then 0.0 else SumAmounts(rs[..|rs| - 1]) + rs[|rs| - 1].amount
  }

  /** The sum of a concatenation is the sum of the parts. */
  lemma {:induction false} SumAmountsAppend(a: seq<Record>, b: seq<Record>)
    ensures SumAmounts(a + b) == SumAmounts(a) + SumAmounts(b)
  {
    if b == [] {
      assert a + b == a;
    } else {
      assert (a + b)[..|a + b| - 1] == a + b[..|b| - 1];
      SumAmountsAppend(a, b[..|b| - 1]);
    }
  }

  /** One more row adds its amount. */
  lemma SumAmountsSnoc(rs: seq<Record>, x: Record)
    ensures SumAmounts(rs + [x]) == SumAmounts(rs) + x.amount
  {
    assert (rs + [x])[..|rs|] == rs;
  }

  /** The sum is the same for any order of the same rows. */
  lemma {:induction false} SumAmountsPermutation(a: seq<Record>, b: seq<Record>)
    requires multiset(a) == multiset(b)
    ensures SumAmounts(a) == SumAmounts(b)
    decreases |a|
  {
    if a != [] {
      var x := a[|a| - 1];
      assert x in multiset(b);
      var i :| 0 <= i < |b| && b[i] == x;
      var a', b' := a[..|a| - 1], RemoveAt(b, i);
      assert a == a' + [x];
      RemoveAtEffect(b, i);
      assert multiset(a) == multiset(a') + multiset{x};
      calc {
        multiset(a');
        multiset(a) - multiset{x};
        multiset(b) - multiset{x};
        multiset(b');
      }
      SumAmountsPermutation(a', b');
    }
  }

  // ---------------------------------------------------------------------
  // Selections
  // ---------------------------------------------------------------------

  /** The two columns the scripts group by: the Category, and the
      year-month period of the Date (`df["Date"].dt.to_period("M")`). */
  datatype Grouping = ByCategory | ByMonth

  /** Every date of the file is a date, so `parse_dates` makes the column
      one of dates; otherwise it stays text and the scripts that group by
      month fail. */
  predicate AllDatesParse(rs: seq<Record>)
  {
    forall r :: r in rs ==> ParseYMD(r.date).Some?
  }

  /** The group a row falls in. A date that is not a date has no period;
      the scripts that group by month fail on such a file before grouping,
      so its key here is never compared. */
  function KeyOf(g: Grouping, r: Record): string
  {
    match g
    case ByCategory => r.category
    case ByMonth => match MonthOf(r.date) { case Some(m) => m case None => "" }
  }

  /** When every date parses, the month keys of the rows are their periods. */
  lemma MonthKeySet(rs: seq<Record>)
    requires forall r :: r in rs ==> MonthOf(r.date).Some?
    ensures (set r | r in rs :: KeyOf(ByMonth, r)) == (set r | r in rs :: MonthOf(r.date).value)
  {
  }

  /** The boolean masks the scripts build: rows of one group, rows that
      differ from a given row in some column, and the negation of a mask. */
  datatype Mask = KeyIs(grouping: Grouping, key: string) | Differs(row: Record) | Not(inner: Mask)

  predicate Keeps(m: Mask, r: Record)
  {
    match m
    case KeyIs(g, k) => KeyOf(g, r) == k
    case Differs(row) => r != row
    case Not(inner) => !Keeps(inner, r)
  }

  /** `df[mask]`: the rows the mask keeps, in stored order. */
  function Select(rs: seq<Record>, m: Mask): (r: seq<Record>)
    ensures |r| <= |rs|
    ensures forall x :: x in r <==> x in rs && Keeps(m, x)
  {
    if rs == [] then []
    else
      var last := rs[|rs| - 1];
      assert rs == rs[..|rs| - 1] + [last];
      Select(rs[..|rs| - 1], m) + (if Keeps(m, last) then [last] else [])
  }

  /** A selection of a concatenation is the concatenation of the
      selections, so the selected rows keep their stored order. */
  lemma {:induction false} SelectAppend(a: seq<Record>, b: seq<Record>, m: Mask)
    ensures Select(a + b, m) == Select(a, m) + Select(b, m)
  {
    if b == [] {
      assert a + b == a;
    } else {
      var init, last := b[..|b| - 1], b[|b| - 1];
      SelectAppend(a, init, m);
      InitOfAppend(a, b, init);
      SelectLast(a + b, a + init, last, m);
      SelectLast(b, init, last, m);
      ConcatAssoc(Select(a, m), Select(init, m), if Keeps(m, last) then [last] else []);
    }
  }

  lemma ConcatAssoc(x: seq<Record>, y: seq<Record>, z: seq<Record>)
    ensures x + y + z == x + (y + z)
  {
  }

  lemma InitOfAppend(a: seq<Record>, b: seq<Record>, init: seq<Record>)
    requires b != [] && init == b[..|b| - 1]
    ensures (a + b)[..|a + b| - 1] == a + init && (a + b)[|a + b| - 1] == b[|b| - 1]
  {
  }

  /** The last row is kept or dropped after the rows before it. */
  lemma SelectLast(rs: seq<Record>, init: seq<Record>, last: Record, m: Mask)
    requires rs != [] && init == rs[..|rs| - 1] && last == rs[|rs| - 1]
    ensures Select(rs, m) == Select(init, m) + (if Keeps(m, last) then [last] else [])
  {
  }

  /** Each row is kept or dropped with its multiplicity. */
  lemma {:induction false} SelectMultiset(rs: seq<Record>, m: Mask)
    ensures forall x :: multiset(Select(rs, m))[x] == if Keeps(m, x) then multiset(rs)[x] else 0
  {
    if rs != [] {
      var init, last := rs[..|rs| - 1], rs[|rs| - 1];
      assert rs == init + [last];
      SelectMultiset(init, m);
    }
  }

  /** The rows a mask keeps and the rows it drops sum to the whole. */
  lemma {:induction false} SelectPartition(rs: seq<Record>, m: Mask)
    ensures SumAmounts(Select(rs, m)) + SumAmounts(Select(rs, Not(m))) == SumAmounts(rs)
  {
    if rs != [] {
      var init, last := rs[..|rs| - 1], rs[|rs| - 1];
      SelectPartition(init, m);
      SumAmountsAppend(Select(init, m), if Keeps(m, last) then [last] else []);
      SumAmountsAppend(Select(init, Not(m)), if Keeps(Not(m), last) then [last] else []);
      assert SumAmounts([last]) == last.amount by {
        assert [last][..0] == [];
      }
    }
  }

  /** `df[df["Category"] == c]`: exact comparison, so "Food" and "food"
      are different categories. */
  function FilterCategory(rs: seq<Record>, c: string): (r: seq<Record>)
    ensures forall x :: x in r <==> x in rs && x.category == c
  {
    Select(rs, KeyIs(ByCategory, c))
  }

  // ---------------------------------------------------------------------
  // Removing rows
  // ---------------------------------------------------------------------

  /** The mask of the delete handlers: the same date, category and
      description, and the same amount after `round(·, 2)` on both sides. */
  predicate MatchesRounded(r: Record, k: Record)
  {
    r.date == k.date && r.category == k.category && Round2(r.amount) == Round2(k.amount)
    && r.description == k.description
  }

  /** `df[mask].index[0]`: the position of the first matching row, if any. */
  function FirstMatch(rs: seq<Record>, k: Record): (i: Option<nat>)
    ensures i.Some? ==> i.value < |rs| && MatchesRounded(rs[i.value], k)
    ensures i.Some? ==> forall j :: 0 <= j < i.value ==> !MatchesRounded(rs[j], k)
    ensures i.None? <==> forall j :: 0 <= j < |rs| ==> !MatchesRounded(rs[j], k)
  {
    if rs == [] then None
    else if MatchesRounded(rs[0], k) then Some(0)
    else
      match FirstMatch(rs[1..], k)
      case Some(j) => Some(j + 1)
      case None => None
  }

  /** `df.drop(i)`: every row but the one at `i`, in order. */
  function RemoveAt(rs: seq<Record>, i: nat): (r: seq<Record>)
    requires i < |rs|
    ensures |r| == |rs| - 1
  {
    rs[..i] + rs[i + 1..]
  }

  /** Dropping a row removes exactly that row, once, and its amount from
      the total. */
  lemma RemoveAtEffect(rs: seq<Record>, i: nat)
    requires i < |rs|
    ensures multiset(RemoveAt(rs, i)) + multiset{rs[i]} == multiset(rs)
    ensures SumAmounts(RemoveAt(rs, i)) == SumAmounts(rs) - rs[i].amount
  {
    var before, after := rs[..i], rs[i + 1..];
    RemoveAtSplit(rs, i, before, after);
    assert multiset(RemoveAt(rs, i)) == multiset(before) + multiset(after);
    assert multiset(rs) == multiset(before) + multiset([rs[i]] + after);
    SumAmountsSplit(before, rs[i], after);
  }

  lemma RemoveAtSplit(rs: seq<Record>, i: nat, before: seq<Record>, after: seq<Record>)
    requires i < |rs| && before == rs[..i] && after == rs[i + 1..]
    ensures rs == before + ([rs[i]] + after)
    ensures RemoveAt(rs, i) == before + after
  {
  }

  lemma SumAmountsSplit(before: seq<Record>, x: Record, after: seq<Record>)
    ensures SumAmounts(before + ([x] + after)) == SumAmounts(before + after) + x.amount
  {
    SumAmountsAppend(before, [x] + after);
    SumAmountsAppend([x], after);
    SumAmountsAppend(before, after);
    assert SumAmounts([x]) == x.amount by {
      assert [x][..0] == [];
    }
  }

  /** `df[~mask]` for the exact mask of all four columns: every row equal to
      `k` goes, every other row stays in order. */
  function RemoveAll(rs: seq<Record>, k: Record): (r: seq<Record>)
    ensures k !in r
    ensures forall x :: x != k ==> (x in r <==> x in rs)
  {
    Select(rs, Differs(k))
  }

  /** Removing every copy of `k` leaves all other rows with their
      multiplicity, and removing again changes nothing. */
  lemma RemoveAllEffect(rs: seq<Record>, k: Record)
    ensures multiset(RemoveAll(rs, k)) == multiset(rs)[k := 0]
    ensures RemoveAll(RemoveAll(rs, k), k) == RemoveAll(rs, k)
  {
    SelectMultiset(rs, Differs(k));
    RemoveAllUnchanged(RemoveAll(rs, k), k);
  }

  lemma {:induction false} RemoveAllUnchanged(rs: seq<Record>, k: Record)
    requires k !in rs
    ensures RemoveAll(rs, k) == rs
  {
    if rs != [] {
      RemoveAllUnchanged(rs[..|rs| - 1], k);
      assert rs == rs[..|rs| - 1] + [rs[|rs| - 1]];
    }
  }

  // ---------------------------------------------------------------------
  // head and tail
  // ---------------------------------------------------------------------

  /** `df.head(n)`: the first `n` rows, or all of them when there are fewer. */
  function Head(rs: seq<Record>, n: nat): (r: seq<Record>)
    ensures |r| == if n < |rs| then n else |rs|
    ensures r <= rs
  {
    if n < |rs| then rs[..n] else rs
  }

  /** The first rows are some of the rows. */
  lemma HeadMultiset(rs: seq<Record>, n: nat)
    ensures multiset(Head(rs, n)) <= multiset(rs)
  {
    var h := Head(rs, n);
    assert rs == h + rs[|h|..];
  }

  /** `df.tail(n)`: the last `n` rows in stored order, or all of them. */
  function Tail(rs: seq<Record>, n: nat): (r: seq<Record>)
    ensures |r| == if n < |rs| then n else |rs|
    ensures forall j :: 0 <= j < |r| ==> r[j] == rs[|rs| - |r| + j]
  {
    if n < |rs| then rs[|rs| - n..] else rs
  }
}
