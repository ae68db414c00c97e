/** Totals, the equal share and per-founder balances: the first half of
    `computeSettlement` and the figures `renderSummary` shows.

    The original keeps balances in a plain object keyed by founder name. Here
    that object is a `map<string, real>` built by the same three passes (seed
    every founder with 0, credit each record to its payer, charge each founder
    the equal share), and `Entries` lists it in the object's key order. */
module Balances {
  import opened Ledger

  /** One `[name, value]` pair of an object's entries; the settlement also uses
      it for its `{name, amt}` debtor and creditor records. */
  datatype Entry = Entry(name: string, amt: real)

  /** The equal share of `total` among `count` founders, 0 when there are none. */
  function PerHead(total: real, count: nat): (h: real)
    ensures count > 0 ==> h * (count as real) == total
    ensures count == 0 ==> h == 0.0
    ensures total >= 0.0 ==> h >= 0.0
  {
    if count > 0 then total / (count as real) else 0.0
  }

  /** `n` copies of the share `h` added up: what a founder listed `n` times is
      charged. Kept apart from `n * h` so that the proofs stay linear. */
  function Share(n: nat, h: real): real
  {
    if n == 0 then 0.0 else h + Share(n - 1, h)
  }

  lemma {:induction false} ShareIsProduct(n: nat, h: real)
    ensures Share(n, h) == (n as real) * h
  {
    if n > 0 {
      ShareIsProduct(n - 1, h);
    }
  }

  /** Charging every one of `n > 0` founders the equal share recovers the total. */
  lemma ShareOfPerHead(total: real, n: nat)
    requires n > 0
    ensures Share(n, PerHead(total, n)) == total
  {
    ShareIsProduct(n, PerHead(total, n));
  }

  lemma {:induction false} ShareOfNothing(n: nat)
    ensures Share(n, 0.0) == 0.0
  {
    if n > 0 {
      ShareOfNothing(n - 1);
    }
  }

  lemma {:induction false} ShareNonNegative(n: nat, h: real)
    requires h >= 0.0
    ensures Share(n, h) >= 0.0
  {
    if n > 0 {
      ShareNonNegative(n - 1, h);
    }
  }

  lemma {:induction false} ShareAdd(a: nat, b: nat, h: real)
    ensures Share(a + b, h) == Share(a, h) + Share(b, h)
  {
    if a > 0 {
      ShareAdd(a - 1, b, h);
    }
  }

  /** `Object.fromEntries(founders.map(f => [f, 0]))`: one key per founder,
      each set to 0. */
  function Zeroes(founders: seq<string>): (m: map<string, real>)
    ensures forall k :: k in m <==> k in founders
    ensures forall k :: k in m ==> m[k] == 0.0
  {
    if |founders| == 0 then map[]
    else
      assert forall k :: k in founders <==> k == founders[0] || k in founders[1..] by {
        assert founders == [founders[0]] + founders[1..];
      }
      Zeroes(founders[1..])[founders[0] := 0.0]
  }

  /** The `forEach` over the records: a record is credited to its payer only
      when the payer already has a key, so unknown payers create no key. */
  function Credit(m: map<string, real>, txns: seq<Expense>): (r: map<string, real>)
    ensures r.Keys == m.Keys
  {
    if |txns| == 0 then m
    else
      var t := txns[0];
      Credit(if t.paidBy in m then m[t.paidBy := m[t.paidBy] + t.amount] else m, txns[1..])
  }

  /** The `forEach` over the founders: each occurrence of a founder subtracts
      the equal share once more. */
  function Charge(m: map<string, real>, founders: seq<string>, perHead: real): map<string, real>
    decreases |founders|
  {
    if |founders| == 0 then m
    else Charge(m[founders[0] := Get(m, founders[0]) - perHead], founders[1..], perHead)
  }

  /** Crediting keeps the key set and adds each key's own records to it. */
  lemma {:induction false} CreditClosedForm(m: map<string, real>, txns: seq<Expense>)
    ensures Credit(m, txns).Keys == m.Keys
    ensures forall k :: k in m ==> Credit(m, txns)[k] == m[k] + GroupSum(txns, Payer, k)
  {
    if |txns| > 0 {
      var t := txns[0];
      var m' := if t.paidBy in m then m[t.paidBy := m[t.paidBy] + t.amount] else m;
      CreditClosedForm(m', txns[1..]);
    }
  }

  /** Charging adds the founders as keys and lowers each by its number of
      occurrences times the share; other keys are left alone. */
  lemma {:induction false} ChargeClosedForm(m: map<string, real>, founders: seq<string>, perHead: real)
    ensures forall k :: k in Charge(m, founders, perHead) <==> k in m || k in founders
    ensures forall k :: k in founders ==>
      Charge(m, founders, perHead)[k] == Get(m, k) - Share(Occurrences(founders, k), perHead)
    ensures forall k :: k in m && k !in founders ==> Charge(m, founders, perHead)[k] == m[k]
    decreases |founders|
  {
    if |founders| > 0 {
      var f := founders[0];
      if f !in founders[1..] {
        OccurrencesAbsent(founders[1..], f);
      }
      var m' := m[f := Get(m, f) - perHead];
      ChargeClosedForm(m', founders[1..], perHead);
      assert forall k :: k in founders <==> k == f || k in founders[1..] by {
        assert founders == [f] + founders[1..];
      }
    }
  }

  /** `paidTotals` of `renderSummary`: what each founder paid. */
  function PaidTotals(txns: seq<Expense>, founders: seq<string>): (m: map<string, real>)
    ensures forall k :: k in m <==> k in founders
    ensures forall k :: k in m ==> m[k] == GroupSum(txns, Payer, k)
  {
    CreditClosedForm(Zeroes(founders), txns);
    Credit(Zeroes(founders), txns)
  }

  /** The `balances` object of `computeSettlement`. */
  function BalanceMap(txns: seq<Expense>, founders: seq<string>): (m: map<string, real>)
    ensures forall k :: k in m <==> k in founders
    ensures forall k :: k in m ==>
      m[k] == GroupSum(txns, Payer, k)
              - Share(Occurrences(founders, k), PerHead(Total(txns), |founders|))
  {
    var paid := PaidTotals(txns, founders);
    var h := PerHead(Total(txns), |founders|);
    ChargeClosedForm(paid, founders, h);
    Charge(paid, founders, h)
  }

  /** `Object.entries(m)` for an object whose keys were inserted in the order `ks`. */
  function Entries(m: map<string, real>, ks: seq<string>): (r: seq<Entry>)
    requires forall k :: k in ks ==> k in m
    ensures |r| == |ks|
    ensures forall i :: 0 <= i < |r| ==> r[i] == Entry(ks[i], m[ks[i]])
  {
    if |ks| == 0 then [] else [Entry(ks[0], m[ks[0]])] + Entries(m, ks[1..])
  }

  /** The balances of the keys `ks` add up to what those keys paid less the
      shares they were charged. */
  lemma {:induction false} SumBalancesSplit(txns: seq<Expense>, founders: seq<string>, h: real,
                                            m: map<string, real>, ks: seq<string>)
    requires forall k :: k in ks ==> k in m
    requires forall k :: k in m ==>
      m[k] == GroupSum(txns, Payer, k) - Share(Occurrences(founders, k), h)
    ensures SumAt(m, ks) == SumGroups(txns, Payer, ks) - Share(SumOccurrences(founders, ks), h)
  {
    if |ks| > 0 {
      assert ks[0] in ks;
      SumBalancesSplit(txns, founders, h, m, ks[1..]);
      ShareAdd(Occurrences(founders, ks[0]), SumOccurrences(founders, ks[1..]), h);
    }
  }

  /** The balances, each founder counted once, add up to minus what payers
      outside the founders paid:
      every founder pays its share of the whole total, but only founders'
      payments are credited back. */
  lemma BalancesSum(txns: seq<Expense>, founders: seq<string>)
    requires |founders| > 0
    ensures SumAt(BalanceMap(txns, founders), Dedup(founders)) ==
      SumIn(txns, Payer, set f | f in founders) - Total(txns)
  {
    var ks := Dedup(founders);
    var h := PerHead(Total(txns), |founders|);
    var m := BalanceMap(txns, founders);
    SumBalancesSplit(txns, founders, h, m, ks);
    SumGroupsIsSumIn(txns, Payer, ks);
    assert (set k | k in ks) == (set f | f in founders);
    SumOccurrencesIsLength(founders, ks);
    ShareOfPerHead(Total(txns), |founders|);
  }

  /** With at least one founder and every record paid by a founder, the
      balances sum to exactly zero. */
  lemma ZeroSum(txns: seq<Expense>, founders: seq<string>)
    requires |founders| > 0
    requires forall t :: t in txns ==> t.paidBy in founders
    ensures SumAt(BalanceMap(txns, founders), Dedup(founders)) == 0.0
  {
    BalancesSum(txns, founders);
    SumInAll(txns, Payer, set f | f in founders);
  }

  /** The net column `renderSummary` shows, `paidTotals[name] - perHead`, is the
      settlement balance when no founder is listed twice. */
  lemma SummaryNetIsBalance(txns: seq<Expense>, founders: seq<string>, name: string)
    requires Distinct(founders)
    requires name in founders
    ensures Get(PaidTotals(txns, founders), name) - PerHead(Total(txns), |founders|)
            == BalanceMap(txns, founders)[name]
  {
    var h := PerHead(Total(txns), |founders|);
    OccurrencesOfDistinct(founders, name);
    assert Share(1, h) == h;
    assert BalanceMap(txns, founders)[name] == GroupSum(txns, Payer, name) - h;
  }
}
