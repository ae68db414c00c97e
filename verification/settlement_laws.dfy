/** What the settlement as a whole promises: who takes part in a transfer,
    what is left open when the plan ends, when there is nothing to pay, and
    how the balances add up. */
module SettlementLaws {
  import opened Ledger
  import opened Balances
  import opened Settlement

  /** Every transfer goes from a founder whose balance is below -Eps to a
      different founder whose balance is above Eps. */
  lemma SettlementParties(txns: seq<Expense>, founders: seq<string>, t: Transfer)
    requires t in ComputeSettlement(txns, founders).transfers
    ensures var r := ComputeSettlement(txns, founders);
      && t.from in founders && t.to in founders
      && r.balances[t.from] < -Eps && r.balances[t.to] > Eps
      && t.from != t.to
  {
    SettlementUnfold(txns, founders);
    PlanParties(BalanceMap(txns, founders), Dedup(founders), t);
  }

  lemma PlanParties(m: map<string, real>, ks: seq<string>, t: Transfer)
    requires Distinct(ks)
    requires forall k :: k in m <==> k in ks
    requires t in Plan(Entries(m, ks))
    ensures t.from in m && m[t.from] < -Eps
    ensures t.to in m && m[t.to] > Eps
  {
    TransferCounted(Plan(Entries(m, ks)), t);
    PlanConserves(m, ks, t.from);
    PlanConserves(m, ks, t.to);
  }

  /** When the plan ends, one side is settled to within Eps: every debtor has
      paid all but at most Eps of its deficit, or every creditor has received
      all but at most Eps of its surplus. */
  lemma SettlementSettlesOneSide(txns: seq<Expense>, founders: seq<string>)
    ensures var r := ComputeSettlement(txns, founders);
      || (forall n :: n in r.balances && r.balances[n] < -Eps ==>
            -r.balances[n] - PaidOut(r.transfers, n) <= Eps)
      || (forall n :: n in r.balances && r.balances[n] > Eps ==>
            r.balances[n] - PaidIn(r.transfers, n) <= Eps)
  {
    SettlementUnfold(txns, founders);
    PlanSettlesOneSide(BalanceMap(txns, founders), Dedup(founders));
  }

  lemma PlanSettlesOneSide(m: map<string, real>, ks: seq<string>)
    requires Distinct(ks)
    requires forall k :: k in m <==> k in ks
    ensures var ts := Plan(Entries(m, ks));
      || (forall n :: n in m && m[n] < -Eps ==> -m[n] - PaidOut(ts, n) <= Eps)
      || (forall n :: n in m && m[n] > Eps ==> m[n] - PaidIn(ts, n) <= Eps)
  {
    var bals := Entries(m, ks);
    var sides := Partition(bals);
    var ds, cs := SortDesc(sides.debtors), SortDesc(sides.creditors);
    var ts := Plan(bals);
    SidesOpen(bals);
    EntriesDistinct(m, ks);
    PartitionSeparates(bals);
    SortKeepsDistinctNames(sides.debtors);
    SortKeepsDistinctNames(sides.creditors);
    GreedySettlesOneSide(ds, cs);
    assert ts == Greedy(ds, cs);
    if DebtorsSettled(ds, ts) {
      forall n | n in m && m[n] < -Eps ensures -m[n] - PaidOut(ts, n) <= Eps {
        SidesOwed(m, ks, n);
      }
    } else {
      forall n | n in m && m[n] > Eps ensures m[n] - PaidIn(ts, n) <= Eps {
        SidesOwed(m, ks, n);
      }
    }
  }

  /** There is no transfer exactly when no founder is below -Eps or none is
      above Eps. */
  lemma SettlementQuiet(txns: seq<Expense>, founders: seq<string>)
    ensures var r := ComputeSettlement(txns, founders);
      r.transfers == [] <==>
        (forall k :: k in r.balances ==> r.balances[k] >= -Eps)
        || (forall k :: k in r.balances ==> r.balances[k] <= Eps)
  {
    SettlementUnfold(txns, founders);
    var m, ks := BalanceMap(txns, founders), Dedup(founders);
    var bals := Entries(m, ks);
    PlanEmpty(bals);
    forall e | e in bals ensures e.name in m && e.amt == m[e.name] {
      EntriesHas(m, ks, e);
    }
    forall k | k in m ensures Entry(k, m[k]) in bals {
      EntriesHas(m, ks, Entry(k, m[k]));
    }
  }

  /** The balances, each founder counted once, add up to minus what payers
      outside the founders paid, and to zero when every payer is a founder. */
  lemma SettlementZeroSum(txns: seq<Expense>, founders: seq<string>)
    requires |founders| > 0
    ensures var r := ComputeSettlement(txns, founders);
      SumAt(r.balances, Dedup(founders)) == SumIn(txns, Payer, set f | f in founders) - r.total
    ensures (forall t :: t in txns ==> t.paidBy in founders) ==>
      SumAt(ComputeSettlement(txns, founders).balances, Dedup(founders)) == 0.0
  {
    SettlementUnfold(txns, founders);
    BalancesSum(txns, founders);
    if forall t :: t in txns ==> t.paidBy in founders {
      ZeroSum(txns, founders);
    }
  }

  /** Without records nothing is spent, every balance is zero and nobody pays. */
  lemma NoRecords(founders: seq<string>)
    ensures var r := ComputeSettlement([], founders);
      && r.total == 0.0 && r.perHead == 0.0
      && (forall k :: k in r.balances ==> r.balances[k] == 0.0)
      && r.transfers == []
  {
    SettlementUnfold([], founders);
    NoRecordBalances(founders);
    SettlementQuiet([], founders);
  }

  lemma NoRecordBalances(founders: seq<string>)
    ensures PerHead(0.0, |founders|) == 0.0
    ensures forall k :: k in BalanceMap([], founders) ==> BalanceMap([], founders)[k] == 0.0
  {
    var m := BalanceMap([], founders);
    assert PerHead(0.0, |founders|) == 0.0 by {
      if |founders| > 0 {
        assert 0.0 / (|founders| as real) == 0.0;
      }
    }
    forall k | k in m ensures m[k] == 0.0 {
      ShareOfNothing(Occurrences(founders, k));
    }
  }

  /** A founder on its own never pays anyone, and when it paid every record
      its balance is exactly zero. */
  lemma SingleFounder(txns: seq<Expense>, founders: seq<string>)
    requires |founders| > 0
    requires forall f :: f in founders ==> f == founders[0]
    ensures ComputeSettlement(txns, founders).transfers == []
    ensures (forall t :: t in txns ==> t.paidBy == founders[0]) ==>
      ComputeSettlement(txns, founders).balances[founders[0]] == 0.0
  {
    var f := founders[0];
    var r := ComputeSettlement(txns, founders);
    assert f in founders;
    SettlementQuiet(txns, founders);
    if r.balances[f] < -Eps {
      assert forall k :: k in r.balances ==> r.balances[k] <= Eps;
    }
    if forall t :: t in txns ==> t.paidBy == f {
      OccurrencesAll(founders, f);
      GroupSumAll(txns, Payer, f);
      ShareOfPerHead(Total(txns), |founders|);
    }
  }

  /** When no record was paid by a founder (and no amount is negative), every
      founder ends at or below zero and nobody is paid. */
  lemma NoKnownPayer(txns: seq<Expense>, founders: seq<string>)
    requires forall t :: t in txns ==> t.paidBy !in founders && t.amount >= 0.0
    ensures var r := ComputeSettlement(txns, founders);
      && (forall k :: k in r.balances ==> r.balances[k] <= 0.0)
      && r.transfers == []
  {
    var r := ComputeSettlement(txns, founders);
    TotalNonNegative(txns);
    forall k | k in r.balances ensures r.balances[k] <= 0.0 {
      GroupSumAbsent(txns, Payer, k);
      ShareNonNegative(Occurrences(founders, k), r.perHead);
    }
    SettlementQuiet(txns, founders);
  }

  /** The sum of all transfer amounts. */
  function Volume(ts: seq<Transfer>): real
  {
    if |ts| == 0 then 0.0 else ts[0].amount + Volume(ts[1..])
  }

  /** What the parties `ns` pay, added up. */
  function SumPaidOut(ts: seq<Transfer>, ns: seq<string>): real
  {
    if |ns| == 0 then 0.0 else PaidOut(ts, ns[0]) + SumPaidOut(ts, ns[1..])
  }

  /** What the parties `ns` receive, added up. */
  function SumPaidIn(ts: seq<Transfer>, ns: seq<string>): real
  {
    if |ns| == 0 then 0.0 else PaidIn(ts, ns[0]) + SumPaidIn(ts, ns[1..])
  }

  /** Splitting off the first transfer from the payments of `ns`. */
  lemma {:induction false} SumPaidSplit(ts: seq<Transfer>, ns: seq<string>)
    requires |ts| > 0
    ensures SumPaidOut(ts, ns) ==
      Share(Occurrences(ns, ts[0].from), ts[0].amount) + SumPaidOut(ts[1..], ns)
    ensures SumPaidIn(ts, ns) ==
      Share(Occurrences(ns, ts[0].to), ts[0].amount) + SumPaidIn(ts[1..], ns)
  {
    if |ns| > 0 {
      SumPaidSplit(ts, ns[1..]);
    }
  }

  /** When every payer and payee is listed once in `ns`, the parties pay out
      and receive the same amount: the plan's whole volume. */
  lemma {:induction false} PaidTotalsAgree(ts: seq<Transfer>, ns: seq<string>)
    requires Distinct(ns)
    requires forall t :: t in ts ==> t.from in ns && t.to in ns
    ensures SumPaidOut(ts, ns) == Volume(ts)
    ensures SumPaidIn(ts, ns) == Volume(ts)
  {
    if |ts| == 0 {
      SumPaidOfNothing(ts, ns);
    } else {
      assert ts[0] in ts;
      assert forall t :: t in ts[1..] ==> t in ts;
      SumPaidSplit(ts, ns);
      OccurrencesOfDistinct(ns, ts[0].from);
      OccurrencesOfDistinct(ns, ts[0].to);
      PaidTotalsAgree(ts[1..], ns);
    }
  }

  lemma {:induction false} SumPaidOfNothing(ts: seq<Transfer>, ns: seq<string>)
    requires |ts| == 0
    ensures SumPaidOut(ts, ns) == 0.0 && SumPaidIn(ts, ns) == 0.0
  {
    if |ns| > 0 {
      SumPaidOfNothing(ts, ns[1..]);
    }
  }

  /** Over the founders, what the plan makes them pay equals what it makes
      them receive. */
  lemma SettlementVolume(txns: seq<Expense>, founders: seq<string>)
    ensures var r := ComputeSettlement(txns, founders);
      && SumPaidOut(r.transfers, Dedup(founders)) == Volume(r.transfers)
      && SumPaidIn(r.transfers, Dedup(founders)) == Volume(r.transfers)
  {
    var r := ComputeSettlement(txns, founders);
    forall t | t in r.transfers ensures t.from in Dedup(founders) && t.to in Dedup(founders) {
      SettlementParties(txns, founders, t);
    }
    PaidTotalsAgree(r.transfers, Dedup(founders));
  }
}
