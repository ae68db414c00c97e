/** Worked examples of the settlement on small inputs. */
module Scenarios {
  import opened Ledger
  import opened Balances
  import opened Settlement
  import opened SettlementLaws

  /** Three founders; A paid 300 and B paid 150. The share is 150, so A is
      owed 150, B is even and C owes 150: one transfer from C to A. */
  lemma ThreeFounders()
    ensures var r := ComputeSettlement(
        [Expense(300.0, "A", "", ""), Expense(150.0, "B", "", "")], ["A", "B", "C"]);
      && r.total == 450.0 && r.perHead == 150.0
      && r.balances == map["A" := 150.0, "B" := 0.0, "C" := -150.0]
      && r.transfers == [Transfer("C", "A", 150.0)]
  {
    var txns := [Expense(300.0, "A", "", ""), Expense(150.0, "B", "", "")];
    var founders := ["A", "B", "C"];
    SettlementUnfold(txns, founders);
    ThreeFoundersShare();
    ThreeFoundersBalances(txns, founders);
    DedupOfThree(founders);
    var m := map["A" := 150.0, "B" := 0.0, "C" := -150.0];
    var bals := Entries(m, founders);
    EntriesOfThree(m, founders, bals);
    PartitionOfThree(bals);
    var ds, cs := [Entry("C", 150.0)], [Entry("A", 150.0)];
    assert SortDesc(ds) == ds && SortDesc(cs) == cs;
    assert Greedy(ds, cs) == [Transfer("C", "A", 150.0)] + Greedy([], []);
  }

  lemma ThreeFoundersShare()
    ensures var txns := [Expense(300.0, "A", "", ""), Expense(150.0, "B", "", "")];
      Total(txns) == 450.0 && PerHead(Total(txns), 3) == 150.0
  {
    assert 450.0 / 3.0 == 150.0;
  }

  lemma ThreeFoundersBalances(txns: seq<Expense>, founders: seq<string>)
    requires txns == [Expense(300.0, "A", "", ""), Expense(150.0, "B", "", "")]
    requires founders == ["A", "B", "C"]
    ensures BalanceMap(txns, founders) == map["A" := 150.0, "B" := 0.0, "C" := -150.0]
  {
    var t1, t2 := txns[0], txns[1];
    assert txns == [t1, t2];
    ThreeFoundersShare();
    TwoRecords(t1, t2, "A");
    TwoRecords(t1, t2, "B");
    TwoRecords(t1, t2, "C");
    assert "A"[0] != "B"[0] && "A"[0] != "C"[0] && "B"[0] != "C"[0];
    BalancesOfThree(txns, founders, 150.0, 300.0, 150.0, 0.0);
  }

  /** The sum keyed `k` over two records. */
  lemma TwoRecords(t1: Expense, t2: Expense, k: string)
    ensures GroupSum([t1, t2], Payer, k)
            == (if t1.paidBy == k then t1.amount else 0.0) + (if t2.paidBy == k then t2.amount else 0.0)
  {
    assert [t1, t2][1..] == [t2];
    OneRecord(t2, k);
  }

  /** The balances of founders A, B and C from what each paid and the share. */
  lemma BalancesOfThree(txns: seq<Expense>, founders: seq<string>, h: real, a: real, b: real, c: real)
    requires founders == ["A", "B", "C"]
    requires PerHead(Total(txns), 3) == h
    requires GroupSum(txns, Payer, "A") == a
    requires GroupSum(txns, Payer, "B") == b
    requires GroupSum(txns, Payer, "C") == c
    ensures BalanceMap(txns, founders) == map["A" := a - h, "B" := b - h, "C" := c - h]
  {
    var m := BalanceMap(txns, founders);
    assert |founders| == 3;
    OccurrencesOfThree(founders);
    assert Share(1, h) == h;
    InThree(founders);
    assert "A" in founders && "B" in founders && "C" in founders;
    assert m["A"] == a - h && m["B"] == b - h && m["C"] == c - h;
    MapOfThree(m, a - h, b - h, c - h);
  }

  lemma OccurrencesOfThree(s: seq<string>)
    requires s == ["A", "B", "C"]
    ensures Occurrences(s, "A") == 1 && Occurrences(s, "B") == 1 && Occurrences(s, "C") == 1
  {
    assert Distinct(s) by {
      assert "A"[0] != "B"[0] && "A"[0] != "C"[0] && "B"[0] != "C"[0];
    }
    OccurrencesOfDistinct(s, "A");
    OccurrencesOfDistinct(s, "B");
    OccurrencesOfDistinct(s, "C");
    assert s[0] == "A" && s[1] == "B" && s[2] == "C";
  }

  lemma InThree(s: seq<string>)
    requires |s| == 3
    ensures forall k :: k in s <==> k == s[0] || k == s[1] || k == s[2]
  {
    assert s == [s[0], s[1], s[2]];
  }

  lemma DedupOfThree(s: seq<string>)
    requires s == ["A", "B", "C"]
    ensures Dedup(s) == s
  {
    assert Distinct(s) by {
      assert "A"[0] != "B"[0] && "A"[0] != "C"[0] && "B"[0] != "C"[0];
    }
    DedupOfDistinct(s);
  }

  lemma EntriesOfThree(m: map<string, real>, ks: seq<string>, bals: seq<Entry>)
    requires m == map["A" := 150.0, "B" := 0.0, "C" := -150.0]
    requires ks == ["A", "B", "C"]
    requires bals == Entries(m, ks)
    ensures bals == [Entry("A", 150.0), Entry("B", 0.0), Entry("C", -150.0)]
  {
    assert bals[0] == Entry("A", 150.0) && bals[1] == Entry("B", 0.0) && bals[2] == Entry("C", -150.0);
  }

  lemma PartitionOfThree(bals: seq<Entry>)
    requires bals == [Entry("A", 150.0), Entry("B", 0.0), Entry("C", -150.0)]
    ensures Partition(bals) == Sides([Entry("C", 150.0)], [Entry("A", 150.0)])
  {
    assert bals[1..] == [Entry("B", 0.0), Entry("C", -150.0)];
    assert bals[1..][1..] == [Entry("C", -150.0)];
    assert Partition([Entry("C", -150.0)]) == Sides([Entry("C", 150.0)], []);
    assert Partition(bals[1..]) == Sides([Entry("C", 150.0)], []);
  }

  lemma MapOfThree(m: map<string, real>, a: real, b: real, c: real)
    requires forall k :: k in m <==> k == "A" || k == "B" || k == "C"
    requires m["A"] == a && m["B"] == b && m["C"] == c
    ensures m == map["A" := a, "B" := b, "C" := c]
  {
  }

  /** Two founders and one record of 100 paid by a name that is no founder:
      the payment counts toward the total but is credited to nobody, so both
      founders owe 50, nobody is owed anything and there is no transfer. */
  lemma UnknownPayer()
    ensures var r := ComputeSettlement([Expense(100.0, "Ghost", "", "")], ["A", "B"]);
      && r.total == 100.0 && r.perHead == 50.0
      && r.balances == map["A" := -50.0, "B" := -50.0]
      && r.transfers == []
  {
    var txns := [Expense(100.0, "Ghost", "", "")];
    var founders := ["A", "B"];
    SettlementUnfold(txns, founders);
    UnknownPayerBalances();
    SettlementQuiet(txns, founders);
    var m := map["A" := -50.0, "B" := -50.0];
    assert forall k :: k in m ==> m[k] <= Eps;
  }

  lemma UnknownPayerBalances()
    ensures var txns := [Expense(100.0, "Ghost", "", "")];
      && Total(txns) == 100.0 && PerHead(Total(txns), 2) == 50.0
      && BalanceMap(txns, ["A", "B"]) == map["A" := -50.0, "B" := -50.0]
  {
    var txns := [Expense(100.0, "Ghost", "", "")];
    var founders := ["A", "B"];
    var m := BalanceMap(txns, founders);
    assert Total(txns) == 100.0;
    assert 100.0 / 2.0 == 50.0;
    assert Share(1, 50.0) == 50.0;
    assert Occurrences(founders, "A") == 1 && Occurrences(founders, "B") == 1;
    assert GroupSum(txns, Payer, "A") == 0.0 && GroupSum(txns, Payer, "B") == 0.0;
    assert founders == [founders[0], founders[1]];
    MapOfTwo(m, -50.0, -50.0);
  }

  /** One cent paid by A among three founders. A is owed two thirds of a
      cent, more than Eps, while B and C each owe a third of a cent, within
      Eps: there is no debtor, so no transfer is planned and A stays owed. */
  lemma ResidualBeyondEps()
    ensures var r := ComputeSettlement([Expense(0.01, "A", "", "")], ["A", "B", "C"]);
      && r.balances["A"] > Eps
      && r.transfers == []
  {
    var m := map["A" := 0.02 / 3.0, "B" := -0.01 / 3.0, "C" := -0.01 / 3.0];
    ResidualBalances([Expense(0.01, "A", "", "")], ["A", "B", "C"]);
    assert 0.02 / 3.0 > Eps && -0.01 / 3.0 >= -Eps;
    NoDebtorOfThree(m, 0.02 / 3.0, -0.01 / 3.0, -0.01 / 3.0);
    NoDebtorSettles([Expense(0.01, "A", "", "")], ["A", "B", "C"], m);
  }

  lemma NoDebtorOfThree(m: map<string, real>, a: real, b: real, c: real)
    requires m == map["A" := a, "B" := b, "C" := c]
    requires a >= -Eps && b >= -Eps && c >= -Eps
    ensures forall k :: k in m ==> m[k] >= -Eps
  {
  }

  /** Balances that leave nobody below -Eps give an empty plan. */
  lemma NoDebtorSettles(txns: seq<Expense>, founders: seq<string>, m: map<string, real>)
    requires BalanceMap(txns, founders) == m
    requires forall k :: k in m ==> m[k] >= -Eps
    ensures ComputeSettlement(txns, founders).balances == m
    ensures ComputeSettlement(txns, founders).transfers == []
  {
    SettlementUnfold(txns, founders);
    SettlementQuiet(txns, founders);
  }

  lemma ResidualBalances(txns: seq<Expense>, founders: seq<string>)
    requires txns == [Expense(0.01, "A", "", "")]
    requires founders == ["A", "B", "C"]
    ensures BalanceMap(txns, founders) == map["A" := 0.02 / 3.0, "B" := -0.01 / 3.0, "C" := -0.01 / 3.0]
  {
    var t := txns[0];
    var h := 0.01 / 3.0;
    OneRecord(t, "A");
    OneRecord(t, "B");
    OneRecord(t, "C");
    assert "A"[0] != "B"[0] && "A"[0] != "C"[0];
    assert PerHead(0.01, 3) == h;
    BalancesOfThree([t], founders, h, 0.01, 0.0, 0.0);
    assert 0.01 - h == 0.02 / 3.0 && 0.0 - h == -0.01 / 3.0;
  }

  /** The sums over a single record. */
  lemma OneRecord(t: Expense, k: string)
    ensures Total([t]) == t.amount
    ensures GroupSum([t], Payer, k) == if t.paidBy == k then t.amount else 0.0
  {
    assert [t][1..] == [];
  }

  lemma MapOfTwo(m: map<string, real>, a: real, b: real)
    requires forall k :: k in m <==> k == "A" || k == "B"
    requires m["A"] == a && m["B"] == b
    ensures m == map["A" := a, "B" := b]
  {
  }
}
