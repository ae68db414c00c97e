/** The report helpers: `filterByMonthRange` and `monthlyAggregate`.

    The two month inputs are `YYYY-MM` strings, with "" standing for an
    empty input. A record's missing date is the empty string. */
module Reports {
  import opened Ledger
  import opened TextOrder

  /** The filter's `ok` test. The lower bound is the first day of the `from`
      month and the upper bound day 31 of the `to` month; both compare as
      strings, and a record without a date is never kept. */
  predicate InRange(d: string, fromMonth: string, toMonth: string)
  {
    && d != ""
    && (fromMonth == "" || !Less(d, fromMonth + "-01"))
    && (toMonth == "" || !Less(toMonth + "-31", d))
  }

  /** The window is an interval of the string order: a date between two kept
      dates is kept too. */
  lemma InRangeConvex(lo: string, d: string, hi: string, fromMonth: string, toMonth: string)
    requires InRange(lo, fromMonth, toMonth) && InRange(hi, fromMonth, toMonth)
    requires !Less(d, lo) && !Less(hi, d)
    ensures InRange(d, fromMonth, toMonth)
  {
    if d != lo {
      LessTotal(d, lo);
      if fromMonth != "" && Less(d, fromMonth + "-01") {
        LessTransitive(lo, d, fromMonth + "-01");
      }
    }
    if d != hi {
      LessTotal(d, hi);
      if toMonth != "" && Less(toMonth + "-31", d) {
        LessTransitive(toMonth + "-31", d, hi);
      }
    }
  }

  /** A `YYYY-MM-DD` date: ten characters, a dash before the day, and a day
      from "01" to "31". */
  predicate WellFormedDate(d: string)
  {
    |d| == 10 && d[7] == '-' && !Less(d[8..], "01") && !Less("31", d[8..])
  }

  /** For a well-formed date and month bounds of seven characters, the test
      keeps exactly the dates whose month lies between the bounds, both
      included. */
  lemma MonthWindow(d: string, fromMonth: string, toMonth: string)
    requires WellFormedDate(d)
    requires fromMonth == "" || |fromMonth| == 7
    requires toMonth == "" || |toMonth| == 7
    ensures InRange(d, fromMonth, toMonth) <==>
      (fromMonth == "" || !Less(d[..7], fromMonth)) && (toMonth == "" || !Less(toMonth, d[..7]))
  {
    var month, tail := d[..7], d[7..];
    assert d == month + tail;
    assert tail[1..] == d[8..];
    if fromMonth != "" {
      LessOfConcat(month, fromMonth, tail, "-01");
      assert "-01"[1..] == "01";
    }
    if toMonth != "" {
      LessOfConcat(toMonth, month, "-31", tail);
      assert "-31"[1..] == "31";
    }
  }

  /** The records `filterByMonthRange` keeps, in their original order. */
  function FilterByMonthRange(all: seq<Expense>, fromMonth: string, toMonth: string): (r: seq<Expense>)
    ensures forall x :: multiset(r)[x] == if InRange(x.date, fromMonth, toMonth) then multiset(all)[x] else 0
    ensures |r| <= |all|
  {
    if |all| == 0 then []
    else
      var rest := FilterByMonthRange(all[1..], fromMonth, toMonth);
      assert all == [all[0]] + all[1..];
      if InRange(all[0].date, fromMonth, toMonth) then [all[0]] + rest else rest
  }

  /** The filter keeps order: filtering a concatenation filters each part
      in turn. With `FilterOne` this pins the result down completely. */
  lemma {:induction false} FilterKeepsOrder(a: seq<Expense>, b: seq<Expense>, fromMonth: string, toMonth: string)
    ensures FilterByMonthRange(a + b, fromMonth, toMonth)
            == FilterByMonthRange(a, fromMonth, toMonth) + FilterByMonthRange(b, fromMonth, toMonth)
  {
    if |a| > 0 {
      var x, rest := a[0], a[1..];
      assert a == [x] + rest;
      assert a + b == [x] + (rest + b);
      FilterKeepsOrder(rest, b, fromMonth, toMonth);
      FilterCons(x, rest, fromMonth, toMonth);
      FilterCons(x, rest + b, fromMonth, toMonth);
    } else {
      assert a + b == b;
    }
  }

  /** Filtering one record followed by others. */
  lemma FilterCons(x: Expense, rest: seq<Expense>, fromMonth: string, toMonth: string)
    ensures FilterByMonthRange([x] + rest, fromMonth, toMonth)
            == (if InRange(x.date, fromMonth, toMonth) then [x] else []) + FilterByMonthRange(rest, fromMonth, toMonth)
  {
    assert ([x] + rest)[0] == x && ([x] + rest)[1..] == rest;
  }

  /** A single record is kept exactly when its date passes the test. */
  lemma FilterOne(x: Expense, fromMonth: string, toMonth: string)
    ensures FilterByMonthRange([x], fromMonth, toMonth)
            == if InRange(x.date, fromMonth, toMonth) then [x] else []
  {
    assert [x][1..] == [];
  }

  /** With well-formed dates, every kept record is dated in a month between
      the bounds, and every record dated in such a month is kept. */
  lemma FilteredMonths(all: seq<Expense>, fromMonth: string, toMonth: string, x: Expense)
    requires x in all && WellFormedDate(x.date)
    requires fromMonth == "" || |fromMonth| == 7
    requires toMonth == "" || |toMonth| == 7
    ensures x in FilterByMonthRange(all, fromMonth, toMonth) <==>
      (fromMonth == "" || !Less(x.date[..7], fromMonth)) && (toMonth == "" || !Less(toMonth, x.date[..7]))
  {
    var r := FilterByMonthRange(all, fromMonth, toMonth);
    MonthWindow(x.date, fromMonth, toMonth);
    assert x in r <==> multiset(r)[x] > 0;
    assert multiset(all)[x] > 0;
  }

  /** `date.slice(0, 7)`: the `YYYY-MM` part, or the whole date when shorter. */
  function MonthOf(d: string): (r: string)
    ensures |r| == if |d| < 7 then |d| else 7
    ensures r <= d
  {
    if |d| <= 7 then d else d[..7]
  }

  /** The key a record is grouped under in the monthly chart. */
  function MonthKey(t: Expense): string
  {
    MonthOf(t.date)
  }

  /** The month of every record, in record order. */
  function MonthKeys(txns: seq<Expense>): (r: seq<string>)
    ensures |r| == |txns|
    ensures forall i :: 0 <= i < |txns| ==> r[i] == MonthKey(txns[i])
  {
    if |txns| == 0 then [] else [MonthKey(txns[0])] + MonthKeys(txns[1..])
  }

  /** The `forEach` that adds each record's amount to its month. */
  function Tally(m: map<string, real>, txns: seq<Expense>): map<string, real>
    decreases |txns|
  {
    if |txns| == 0 then m
    else
      var k := MonthKey(txns[0]);
      Tally(m[k := Get(m, k) + txns[0].amount], txns[1..])
  }

  /** Tallying adds the months of the records as keys and adds to each key
      the amounts of its own records. */
  lemma {:induction false} TallyClosedForm(m: map<string, real>, txns: seq<Expense>)
    ensures forall k :: k in Tally(m, txns) <==> k in m || k in MonthKeys(txns)
    ensures forall k :: k in Tally(m, txns) ==> Tally(m, txns)[k] == Get(m, k) + GroupSum(txns, MonthKey, k)
    decreases |txns|
  {
    if |txns| > 0 {
      var k := MonthKey(txns[0]);
      var m' := m[k := Get(m, k) + txns[0].amount];
      TallyClosedForm(m', txns[1..]);
      assert MonthKeys(txns) == [k] + MonthKeys(txns[1..]);
    }
  }

  /** What `monthlyAggregate` returns, less the range label. */
  datatype Aggregate = Aggregate(monthly: map<string, real>, labels: seq<string>)

  /** `monthlyAggregate`: the kept records summed per month, and the months
      sorted. */
  function MonthlyAggregate(all: seq<Expense>, fromMonth: string, toMonth: string): (r: Aggregate)
    ensures var kept := FilterByMonthRange(all, fromMonth, toMonth);
      && (forall k :: k in r.monthly <==> k in MonthKeys(kept))
      && (forall k :: k in r.monthly ==> r.monthly[k] == GroupSum(kept, MonthKey, k))
      && (forall k :: k in r.labels <==> k in r.monthly)
      && Ascending(r.labels)
  {
    var kept := FilterByMonthRange(all, fromMonth, toMonth);
    var monthly := Tally(map[], kept);
    TallyClosedForm(map[], kept);
    var labels := Sort(Dedup(MonthKeys(kept)));
    Aggregate(monthly, labels)
  }

  /** The chart's bars add up to the total of the kept records: every kept
      record lands in exactly one month. */
  lemma MonthlyTotal(all: seq<Expense>, fromMonth: string, toMonth: string)
    ensures var r := MonthlyAggregate(all, fromMonth, toMonth);
      SumAt(r.monthly, r.labels) == Total(FilterByMonthRange(all, fromMonth, toMonth))
  {
    var r := MonthlyAggregate(all, fromMonth, toMonth);
    var kept := FilterByMonthRange(all, fromMonth, toMonth);
    SumAtGroups(r.monthly, kept, MonthKey, r.labels);
    AscendingDistinct(r.labels);
    SumGroupsIsSumIn(kept, MonthKey, r.labels);
    MonthsCovered(kept, r.labels);
    SumInAll(kept, MonthKey, set k | k in r.labels);
  }

  lemma MonthsCovered(kept: seq<Expense>, labels: seq<string>)
    requires forall k :: k in labels <==> k in MonthKeys(kept)
    ensures forall t :: t in kept ==> MonthKey(t) in (set k | k in labels)
  {
    forall t | t in kept ensures MonthKey(t) in (set k | k in labels) {
      var i :| 0 <= i < |kept| && kept[i] == t;
      assert MonthKeys(kept)[i] == MonthKey(t);
    }
  }

  /** Reading group sums out of a map that holds them. */
  lemma {:induction false} SumAtGroups(m: map<string, real>, txns: seq<Expense>, key: Expense -> string, ks: seq<string>)
    requires forall k :: k in ks ==> k in m && m[k] == GroupSum(txns, key, k)
    ensures SumAt(m, ks) == SumGroups(txns, key, ks)
  {
    if |ks| > 0 {
      assert ks[0] in ks;
      SumAtGroups(m, txns, key, ks[1..]);
    }
  }

  /** The labels are the one ascending listing of the months: they do not
      depend on the order in which the months first appeared. */
  lemma LabelsDetermined(all: seq<Expense>, fromMonth: string, toMonth: string, s: seq<string>)
    requires Ascending(s)
    requires forall k :: k in s <==> k in MonthlyAggregate(all, fromMonth, toMonth).monthly
    ensures s == MonthlyAggregate(all, fromMonth, toMonth).labels
  {
    AscendingUnique(s, MonthlyAggregate(all, fromMonth, toMonth).labels);
  }
}
