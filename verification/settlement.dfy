/** The settlement engine `computeSettlement`: balances against the equal
    share, then a greedy plan of debtor-to-creditor transfers.

    The plan is built in three steps over the balance entries: split them
    into debtors (balance below -Eps, recorded with the positive deficit) and
    creditors (balance above Eps), sort each side by amount, largest first,
    and walk both sides with two cursors, paying the smaller of the two
    current amounts and moving past every party left within Eps of zero. */
module Settlement {
  import opened Ledger
  import opened Balances

  /** Balances within this distance of zero count as settled. */
  const Eps: real := 0.005

  /** One payment of the plan. */
  datatype Transfer = Transfer(from: string, to: string, amount: real)

  /** The two sides of the plan, each entry holding the amount still open. */
  datatype Sides = Sides(debtors: seq<Entry>, creditors: seq<Entry>)

  /** What `computeSettlement` returns. */
  datatype Settlement = Settlement(total: real, perHead: real, balances: map<string, real>, transfers: seq<Transfer>)

  function Names(s: seq<Entry>): set<string>
  {
    set e | e in s :: e.name
  }

  predicate DistinctNames(s: seq<Entry>)
  {
    forall i, j :: 0 <= i < j < |s| ==> s[i].name != s[j].name
  }

  /** Every entry is more than Eps away from settled. */
  predicate AllOpen(s: seq<Entry>)
  {
    forall e :: e in s ==> e.amt > Eps
  }

  predicate SortedDesc(s: seq<Entry>)
  {
    forall i, j :: 0 <= i < j < |s| ==> s[i].amt >= s[j].amt
  }

  /** Sum of the open amounts of the entries named `n`. */
  function Owed(s: seq<Entry>, n: string): real
  {
    if |s| == 0 then 0.0 else (if s[0].name == n then s[0].amt else 0.0) + Owed(s[1..], n)
  }

  /** What `n` pays in total over the transfers `ts`. */
  function PaidOut(ts: seq<Transfer>, n: string): real
  {
    if |ts| == 0 then 0.0 else (if ts[0].from == n then ts[0].amount else 0.0) + PaidOut(ts[1..], n)
  }

  /** What `n` receives in total over the transfers `ts`. */
  function PaidIn(ts: seq<Transfer>, n: string): real
  {
    if |ts| == 0 then 0.0 else (if ts[0].to == n then ts[0].amount else 0.0) + PaidIn(ts[1..], n)
  }

  lemma TailDistinct(s: seq<Entry>)
    requires |s| > 0 && DistinctNames(s)
    ensures DistinctNames(s[1..])
  {
    var rest := s[1..];
    forall i, j | 0 <= i < j < |rest| ensures rest[i].name != rest[j].name {
      assert rest[i] == s[i + 1] && rest[j] == s[j + 1];
    }
  }

  lemma FirstNameAbsent(s: seq<Entry>)
    requires |s| > 0 && DistinctNames(s)
    ensures s[0].name !in Names(s[1..])
  {
    forall x | x in s[1..] ensures x.name != s[0].name {
      var k :| 0 <= k < |s[1..]| && s[1..][k] == x;
      assert s[k + 1] == x;
    }
  }

  lemma ConsDistinct(x: Entry, s: seq<Entry>)
    requires DistinctNames(s) && x.name !in Names(s)
    ensures DistinctNames([x] + s)
  {
    var r := [x] + s;
    forall i, j | 0 <= i < j < |r| ensures r[i].name != r[j].name {
      if i == 0 {
        assert r[j] in s;
      } else {
        assert r[i] == s[i - 1] && r[j] == s[j - 1];
      }
    }
  }

  /** The pass over the balance entries that fills `debtors` and `creditors`:
      a balance below -Eps becomes a debtor owing its negation, one above Eps a
      creditor, and one within Eps of zero neither. */
  function Partition(bals: seq<Entry>): (r: Sides)
    ensures forall e :: e in r.debtors ==> e.amt > Eps && Entry(e.name, -e.amt) in bals
    ensures forall e :: e in r.creditors ==> e.amt > Eps && e in bals
    ensures forall e :: e in bals && e.amt < -Eps ==> Entry(e.name, -e.amt) in r.debtors
    ensures forall e :: e in bals && e.amt > Eps ==> e in r.creditors
    ensures |r.debtors| + |r.creditors| <= |bals|
  {
    if |bals| == 0 then Sides([], [])
    else
      var e := bals[0];
      var rest := Partition(bals[1..]);
      assert forall x :: x in bals <==> x == e || x in bals[1..] by {
        assert bals == [e] + bals[1..];
      }
      if e.amt < -Eps then Sides([Entry(e.name, -e.amt)] + rest.debtors, rest.creditors)
      else if e.amt > Eps then Sides(rest.debtors, [e] + rest.creditors)
      else rest
  }

  /** With repeat-free names in the balances, the two sides are repeat-free
      and share no name. */
  lemma {:induction false} PartitionSeparates(bals: seq<Entry>)
    requires DistinctNames(bals)
    ensures DistinctNames(Partition(bals).debtors) && DistinctNames(Partition(bals).creditors)
    ensures Names(Partition(bals).debtors) !! Names(Partition(bals).creditors)
  {
    if |bals| > 0 {
      var e := bals[0];
      var rest := Partition(bals[1..]);
      TailDistinct(bals);
      PartitionSeparates(bals[1..]);
      FirstNameAbsent(bals);
      PartitionNames(bals[1..]);
      if e.amt < -Eps {
        var d := Entry(e.name, -e.amt);
        assert Partition(bals) == Sides([d] + rest.debtors, rest.creditors);
        SeparatedCons(d, rest.debtors, rest.creditors);
      } else if e.amt > Eps {
        assert Partition(bals) == Sides(rest.debtors, [e] + rest.creditors);
        SeparatedCons(e, rest.creditors, rest.debtors);
      } else {
        assert Partition(bals) == rest;
      }
    }
  }

  /** Adding an entry with a new name in front of one of two separated
      sides keeps them separated. */
  lemma SeparatedCons(x: Entry, a: seq<Entry>, b: seq<Entry>)
    requires DistinctNames(a) && DistinctNames(b) && Names(a) !! Names(b)
    requires x.name !in Names(a) && x.name !in Names(b)
    ensures DistinctNames([x] + a) && Names([x] + a) !! Names(b)
  {
    ConsDistinct(x, a);
    assert Names([x] + a) == {x.name} + Names(a);
  }

  /** Both sides carry only names from the balances. */
  lemma PartitionNames(bals: seq<Entry>)
    ensures Names(Partition(bals).debtors) <= Names(bals)
    ensures Names(Partition(bals).creditors) <= Names(bals)
  {
    var sides := Partition(bals);
    forall x | x in sides.debtors ensures x.name in Names(bals) {
      assert Entry(x.name, -x.amt) in bals;
    }
  }

  /** Places `x` in front of the first entry whose amount is not larger, so
      that among equal amounts the earlier entry stays first. */
  function Insert(x: Entry, s: seq<Entry>): (r: seq<Entry>)
    requires SortedDesc(s)
    ensures SortedDesc(r)
    ensures multiset(r) == multiset(s) + multiset{x}
    ensures forall e :: e in r <==> e == x || e in s
    ensures |r| == |s| + 1
  {
    if |s| == 0 || s[0].amt <= x.amt then
      assert forall e :: e in [x] + s <==> e == x || e in s;
      [x] + s
    else
      var tail := Insert(x, s[1..]);
      assert s == [s[0]] + s[1..];
      assert forall e :: e in tail ==> e.amt <= s[0].amt;
      [s[0]] + tail
  }

  /** The stable descending sort `list.sort((a, b) => b.amt - a.amt)`. */
  function SortDesc(s: seq<Entry>): (r: seq<Entry>)
    ensures SortedDesc(r)
    ensures multiset(r) == multiset(s)
    ensures forall e :: e in r <==> e in s
    ensures |r| == |s|
  {
    if |s| == 0 then []
    else
      assert s == [s[0]] + s[1..];
      Insert(s[0], SortDesc(s[1..]))
  }

  /** Sorting keeps the names repeat-free. */
  lemma {:induction false} SortKeepsDistinctNames(s: seq<Entry>)
    requires DistinctNames(s)
    ensures DistinctNames(SortDesc(s))
  {
    if |s| > 0 {
      TailDistinct(s);
      FirstNameAbsent(s);
      SortKeepsDistinctNames(s[1..]);
      assert Names(SortDesc(s[1..])) == Names(s[1..]);
      InsertKeepsDistinctNames(s[0], SortDesc(s[1..]));
    }
  }

  lemma {:induction false} InsertKeepsDistinctNames(x: Entry, s: seq<Entry>)
    requires SortedDesc(s)
    requires DistinctNames(s)
    requires x.name !in Names(s)
    ensures DistinctNames(Insert(x, s))
    decreases |s|
  {
    if |s| == 0 || s[0].amt <= x.amt {
      ConsDistinct(x, s);
    } else {
      var rest := s[1..];
      TailDistinct(s);
      FirstNameAbsent(s);
      assert Names(rest) <= Names(s) by {
        assert forall e :: e in rest ==> e in s;
      }
      InsertKeepsDistinctNames(x, rest);
      var tail := Insert(x, rest);
      assert Names(tail) == Names(rest) + {x.name};
      ConsDistinct(s[0], tail);
    }
  }

  /** `Math.min`. */
  function Min(a: real, b: real): (r: real)
    ensures r <= a && r <= b
    ensures r == a || r == b
  {
    if a <= b then a else b
  }

  /** One side after the current party paid or received `pay`: it stays
      current with the rest open, or the cursor moves past it once no more
      than Eps is open. */
  function Advance(ds: seq<Entry>, pay: real): seq<Entry>
    requires |ds| > 0
  {
    if ds[0].amt - pay <= Eps then ds[1..] else [Entry(ds[0].name, ds[0].amt - pay)] + ds[1..]
  }

  /** The greedy matching loop. The current debtor `ds[0]` pays the current
      creditor `cs[0]` the smaller of their open amounts; each of the two
      stays current only while more than Eps of it remains open. */
  function Greedy(ds: seq<Entry>, cs: seq<Entry>): (r: seq<Transfer>)
    requires AllOpen(ds) && AllOpen(cs)
    ensures |ds| == 0 || |cs| == 0 ==> r == []
    ensures |ds| > 0 && |cs| > 0 ==> 1 <= |r| <= |ds| + |cs| - 1
    ensures forall t :: t in r ==> t.amount > Eps
    decreases |ds| + |cs|
  {
    if |ds| == 0 || |cs| == 0 then []
    else
      var d, c := ds[0], cs[0];
      var pay := Min(d.amt, c.amt);
      var ds', cs' := Advance(ds, pay), Advance(cs, pay);
      [Transfer(d.name, c.name, pay)] + Greedy(ds', cs')
  }

  lemma {:induction false} OwedStep(ds: seq<Entry>, pay: real, n: string)
    requires |ds| > 0
    ensures ds[0].amt - pay <= Eps ==>
      Owed(ds, n) == (if ds[0].name == n then ds[0].amt else 0.0) + Owed(ds[1..], n)
    ensures ds[0].amt - pay > Eps ==>
      Owed(Advance(ds, pay), n) == Owed(ds, n) - (if ds[0].name == n then pay else 0.0)
  {
    var e := Entry(ds[0].name, ds[0].amt - pay);
    assert ([e] + ds[1..])[1..] == ds[1..];
  }

  /** Nobody pays or receives more than was open for them. */
  lemma {:induction false} GreedyBounded(ds: seq<Entry>, cs: seq<Entry>)
    requires AllOpen(ds) && AllOpen(cs)
    ensures forall n :: 0.0 <= PaidOut(Greedy(ds, cs), n) <= Owed(ds, n)
    ensures forall n :: 0.0 <= PaidIn(Greedy(ds, cs), n) <= Owed(cs, n)
    decreases |ds| + |cs|
  {
    if |ds| == 0 || |cs| == 0 {
      forall n ensures Owed(ds, n) >= 0.0 && Owed(cs, n) >= 0.0 {
        OwedNonNegative(ds, n);
        OwedNonNegative(cs, n);
      }
    } else {
      var d, c := ds[0], cs[0];
      var pay := Min(d.amt, c.amt);
      var ds' := Advance(ds, pay);
      var cs' := Advance(cs, pay);
      GreedyBounded(ds', cs');
      var r := Greedy(ds, cs);
      assert r == [Transfer(d.name, c.name, pay)] + Greedy(ds', cs');
      assert r[1..] == Greedy(ds', cs');
      forall n
        ensures 0.0 <= PaidOut(r, n) <= Owed(ds, n)
        ensures 0.0 <= PaidIn(r, n) <= Owed(cs, n)
      {
        OwedStep(ds, pay, n);
        OwedStep(cs, pay, n);
        OwedNonNegative(ds[1..], n);
        OwedNonNegative(cs[1..], n);
      }
    }
  }

  lemma {:induction false} OwedNonNegative(s: seq<Entry>, n: string)
    requires AllOpen(s)
    ensures Owed(s, n) >= 0.0
  {
    if |s| > 0 {
      assert s[0] in s;
      assert forall e :: e in s[1..] ==> e in s;
      OwedNonNegative(s[1..], n);
    }
  }

  lemma {:induction false} OwedAbsent(s: seq<Entry>, n: string)
    requires n !in Names(s)
    ensures Owed(s, n) == 0.0
  {
    if |s| > 0 {
      assert s[0] in s;
      assert forall e :: e in s[1..] ==> e in s;
      OwedAbsent(s[1..], n);
    }
  }

  /** With repeat-free names, what is open for a party is its own entry's amount. */
  lemma {:induction false} OwedOfDistinct(s: seq<Entry>, e: Entry)
    requires DistinctNames(s)
    requires e in s
    ensures Owed(s, e.name) == e.amt
  {
    var rest := s[1..];
    assert DistinctNames(rest) by {
      forall i, j | 0 <= i < j < |rest| ensures rest[i].name != rest[j].name {
        assert rest[i] == s[i + 1] && rest[j] == s[j + 1];
      }
    }
    if s[0] == e {
      assert e.name !in Names(rest) by {
        forall x | x in rest ensures x.name != e.name {
          var k :| 0 <= k < |rest| && rest[k] == x;
          assert s[k + 1] == x;
        }
      }
      OwedAbsent(rest, e.name);
    } else {
      assert e in rest by {
        assert s == [s[0]] + rest;
      }
      assert s[0].name != e.name by {
        var k :| 0 <= k < |rest| && rest[k] == e;
        assert s[k + 1] == e;
      }
      OwedOfDistinct(rest, e);
    }
  }

  /** Every debtor has paid all but at most Eps of what was open for it. */
  ghost predicate DebtorsSettled(ds: seq<Entry>, ts: seq<Transfer>)
  {
    forall n :: Owed(ds, n) - PaidOut(ts, n) <= Eps
  }

  /** Every creditor has received all but at most Eps of what was open for it. */
  ghost predicate CreditorsSettled(cs: seq<Entry>, ts: seq<Transfer>)
  {
    forall n :: Owed(cs, n) - PaidIn(ts, n) <= Eps
  }

  /** When the loop stops, one whole side is settled to within Eps: either
      every debtor has paid all but at most Eps of its deficit, or every
      creditor has received all but at most Eps of its surplus. */
  lemma {:induction false} GreedySettlesOneSide(ds: seq<Entry>, cs: seq<Entry>)
    requires AllOpen(ds) && AllOpen(cs)
    requires DistinctNames(ds) && DistinctNames(cs)
    ensures DebtorsSettled(ds, Greedy(ds, cs)) || CreditorsSettled(cs, Greedy(ds, cs))
    decreases |ds| + |cs|
  {
    if |ds| == 0 {
      assert DebtorsSettled(ds, Greedy(ds, cs));
    } else if |cs| == 0 {
      assert CreditorsSettled(cs, Greedy(ds, cs));
    } else {
      var pay := Min(ds[0].amt, cs[0].amt);
      NextKeepsDistinct(ds, pay);
      NextKeepsDistinct(cs, pay);
      var ds', cs' := Advance(ds, pay), Advance(cs, pay);
      GreedySettlesOneSide(ds', cs');
      if DebtorsSettled(ds', Greedy(ds', cs')) {
        DebtorStep(ds, cs, pay);
      } else {
        CreditorStep(ds, cs, pay);
      }
    }
  }

  /** If the rest of the plan settles every debtor, so does the whole plan. */
  lemma DebtorStep(ds: seq<Entry>, cs: seq<Entry>, pay: real)
    requires AllOpen(ds) && AllOpen(cs) && DistinctNames(ds)
    requires |ds| > 0 && |cs| > 0
    requires pay == Min(ds[0].amt, cs[0].amt)
    requires DebtorsSettled(Advance(ds, pay), Greedy(Advance(ds, pay), Advance(cs, pay)))
    ensures DebtorsSettled(ds, Greedy(ds, cs))
  {
    var ds', cs' := Advance(ds, pay), Advance(cs, pay);
    AdvanceOpen(ds, pay);
    AdvanceOpen(cs, pay);
    GreedyBounded(ds', cs');
    var r, r' := Greedy(ds, cs), Greedy(ds', cs');
    GreedyUnfold(ds, cs);
    assert r[1..] == r';
    forall n ensures Owed(ds, n) - PaidOut(r, n) <= Eps {
      SideStepSettled(ds, pay, n, PaidOut(r', n), PaidOut(r, n));
    }
  }

  /** If the rest of the plan settles every creditor, so does the whole plan. */
  lemma CreditorStep(ds: seq<Entry>, cs: seq<Entry>, pay: real)
    requires AllOpen(ds) && AllOpen(cs) && DistinctNames(cs)
    requires |ds| > 0 && |cs| > 0
    requires pay == Min(ds[0].amt, cs[0].amt)
    requires CreditorsSettled(Advance(cs, pay), Greedy(Advance(ds, pay), Advance(cs, pay)))
    ensures CreditorsSettled(cs, Greedy(ds, cs))
  {
    var ds', cs' := Advance(ds, pay), Advance(cs, pay);
    AdvanceOpen(ds, pay);
    AdvanceOpen(cs, pay);
    GreedyBounded(ds', cs');
    var r, r' := Greedy(ds, cs), Greedy(ds', cs');
    GreedyUnfold(ds, cs);
    assert r[1..] == r';
    forall n ensures Owed(cs, n) - PaidIn(r, n) <= Eps {
      SideStepSettled(cs, pay, n, PaidIn(r', n), PaidIn(r, n));
    }
  }

  /** One step of the loop keeps a party settled to within Eps: `outRest` is
      what it pays over the rest of the plan, `out` over the whole plan. */
  lemma SideStepSettled(s: seq<Entry>, pay: real, n: string, outRest: real, out: real)
    requires |s| > 0 && DistinctNames(s)
    requires pay <= s[0].amt
    requires out == (if s[0].name == n then pay else 0.0) + outRest
    requires 0.0 <= outRest
    requires Owed(Advance(s, pay), n) - outRest <= Eps
    ensures Owed(s, n) - out <= Eps
  {
    OwedStep(s, pay, n);
    if n == s[0].name && s[0].amt - pay <= Eps {
      FirstNameAbsent(s);
      OwedAbsent(s[1..], n);
    }
  }

  /** The first step of the plan, written out. */
  lemma GreedyUnfold(ds: seq<Entry>, cs: seq<Entry>)
    requires AllOpen(ds) && AllOpen(cs)
    requires |ds| > 0 && |cs| > 0
    ensures var pay := Min(ds[0].amt, cs[0].amt);
      Greedy(ds, cs) == [Transfer(ds[0].name, cs[0].name, pay)] + Greedy(Advance(ds, pay), Advance(cs, pay))
  {
  }

  lemma AdvanceOpen(s: seq<Entry>, pay: real)
    requires |s| > 0 && AllOpen(s)
    ensures AllOpen(Advance(s, pay))
  {
    assert forall e :: e in s[1..] ==> e in s;
  }

  lemma NextKeepsDistinct(s: seq<Entry>, pay: real)
    requires |s| > 0
    requires AllOpen(s) && DistinctNames(s)
    requires pay <= s[0].amt
    ensures AllOpen(Advance(s, pay)) && DistinctNames(Advance(s, pay))
  {
    var rest := s[1..];
    AdvanceOpen(s, pay);
    TailDistinct(s);
    if s[0].amt - pay > Eps {
      FirstNameAbsent(s);
      ConsDistinct(Entry(s[0].name, s[0].amt - pay), rest);
    }
  }

  /** Lowering the current entry in place and moving the cursor past it when
      no more than Eps is left is `Advance` on the suffix from the cursor. */
  lemma AdvanceInPlace(s: seq<Entry>, i: nat, pay: real, s': seq<Entry>, i': nat)
    requires i < |s|
    requires s' == s[i := Entry(s[i].name, s[i].amt - pay)]
    requires i' == if s'[i].amt <= Eps then i + 1 else i
    ensures s'[i'..] == Advance(s[i..], pay)
  {
    if i' == i {
      assert s'[i'..] == [Entry(s[i].name, s[i].amt - pay)] + s[i + 1..];
    } else {
      assert s'[i'..] == s[i + 1..];
    }
  }

  /** One pass of the loop body: the first transfer of the plan from the
      cursors, with both sides lowered in place and the cursors moved. */
  lemma LoopStep(ds: seq<Entry>, i: nat, cs: seq<Entry>, j: nat,
                 ds': seq<Entry>, i': nat, cs': seq<Entry>, j': nat)
    requires i < |ds| && j < |cs|
    requires AllOpen(ds[i..]) && AllOpen(cs[j..])
    requires var pay := Min(ds[i].amt, cs[j].amt);
      && ds' == ds[i := Entry(ds[i].name, ds[i].amt - pay)]
      && cs' == cs[j := Entry(cs[j].name, cs[j].amt - pay)]
      && i' == (if ds'[i].amt <= Eps then i + 1 else i)
      && j' == (if cs'[j].amt <= Eps then j + 1 else j)
    ensures |ds'| == |ds| && |cs'| == |cs| && i' <= |ds'| && j' <= |cs'|
    ensures AllOpen(ds'[i'..]) && AllOpen(cs'[j'..])
    ensures Greedy(ds[i..], cs[j..]) ==
      [Transfer(ds[i].name, cs[j].name, Min(ds[i].amt, cs[j].amt))] + Greedy(ds'[i'..], cs'[j'..])
  {
    var pay := Min(ds[i].amt, cs[j].amt);
    GreedyUnfold(ds[i..], cs[j..]);
    AdvanceOpen(ds[i..], pay);
    AdvanceOpen(cs[j..], pay);
    AdvanceInPlace(ds, i, pay, ds', i');
    AdvanceInPlace(cs, j, pay, cs', j');
  }

  /** The body of the loop: the current debtor pays the current creditor the
      smaller of their open amounts, both are lowered in place, and each
      cursor moves on once no more than Eps is left at it. At least one
      cursor moves. */
  method MatchStep(ds: seq<Entry>, i: nat, cs: seq<Entry>, j: nat)
    returns (ds': seq<Entry>, i': nat, cs': seq<Entry>, j': nat, t: Transfer)
    requires i < |ds| && j < |cs|
    requires AllOpen(ds[i..]) && AllOpen(cs[j..])
    ensures |ds'| == |ds| && |cs'| == |cs|
    ensures i <= i' <= |ds'| && j <= j' <= |cs'| && (i < i' || j < j')
    ensures AllOpen(ds'[i'..]) && AllOpen(cs'[j'..])
    ensures Greedy(ds[i..], cs[j..]) == [t] + Greedy(ds'[i'..], cs'[j'..])
  {
    var pay := Min(ds[i].amt, cs[j].amt);
    t := Transfer(ds[i].name, cs[j].name, pay);
    ds' := ds[i := Entry(ds[i].name, ds[i].amt - pay)];
    cs' := cs[j := Entry(cs[j].name, cs[j].amt - pay)];
    i', j' := i, j;
    if ds'[i].amt <= Eps {
      i' := i + 1;
    }
    if cs'[j].amt <= Eps {
      j' := j + 1;
    }
    LoopStep(ds, i, cs, j, ds', i', cs', j');
  }

  /** The source's `while` loop with its two cursors, updating the open
      amounts in place; it yields exactly the plan `Greedy` describes. */
  method MatchLoop(debtors: seq<Entry>, creditors: seq<Entry>) returns (transfers: seq<Transfer>)
    requires AllOpen(debtors) && AllOpen(creditors)
    ensures transfers == Greedy(debtors, creditors)
    ensures forall t :: t in transfers ==> t.amount > Eps
  {
    var ds, cs := debtors, creditors;
    var i, j := 0, 0;
    transfers := [];
    while i < |ds| && j < |cs|
      invariant |ds| == |debtors| && |cs| == |creditors|
      invariant 0 <= i <= |ds| && 0 <= j <= |cs|
      invariant AllOpen(ds[i..]) && AllOpen(cs[j..])
      invariant transfers + Greedy(ds[i..], cs[j..]) == Greedy(debtors, creditors)
      decreases |ds| - i + |cs| - j
    {
      var t;
      ds, i, cs, j, t := MatchStep(ds, i, cs, j);
      assert transfers + [t] + Greedy(ds[i..], cs[j..]) == transfers + ([t] + Greedy(ds[i..], cs[j..]));
      transfers := transfers + [t];
    }
    assert Greedy(ds[i..], cs[j..]) == [];
    assert transfers + [] == transfers;
  }

  /** The plan over the balance entries: partition, sort both sides and
      match. */
  function Plan(bals: seq<Entry>): (r: seq<Transfer>)
    ensures forall t :: t in r ==> t.amount > Eps
    ensures r == [] || |r| < |bals|
  {
    var sides := Partition(bals);
    SidesOpen(bals);
    Greedy(SortDesc(sides.debtors), SortDesc(sides.creditors))
  }

  lemma SidesOpen(bals: seq<Entry>)
    ensures AllOpen(SortDesc(Partition(bals).debtors)) && AllOpen(SortDesc(Partition(bals).creditors))
    ensures |SortDesc(Partition(bals).debtors)| + |SortDesc(Partition(bals).creditors)| <= |bals|
  {
  }

  /** `computeSettlement(txns, founders)`. */
  function ComputeSettlement(txns: seq<Expense>, founders: seq<string>): (r: Settlement)
    ensures r.total == Total(txns)
    ensures |founders| > 0 ==> Share(|founders|, r.perHead) == r.total
    ensures |founders| == 0 ==> r.perHead == 0.0
    ensures forall k :: k in r.balances <==> k in founders
    ensures forall k :: k in r.balances ==>
      r.balances[k] == GroupSum(txns, Payer, k) - Share(Occurrences(founders, k), r.perHead)
    ensures forall t :: t in r.transfers ==> t.amount > Eps
    ensures r.transfers == [] || |r.transfers| < |Dedup(founders)|
  {
    var total := Total(txns);
    var perHead := PerHead(total, |founders|);
    var balances := BalanceMap(txns, founders);
    if |founders| > 0 then
      ShareOfPerHead(total, |founders|);
      Settlement(total, perHead, balances, Plan(Entries(balances, Dedup(founders))))
    else
      Settlement(total, perHead, balances, Plan(Entries(balances, Dedup(founders))))
  }

  /** An entry of `Entries(m, ks)` is a key of `ks` with its value. */
  lemma EntriesHas(m: map<string, real>, ks: seq<string>, e: Entry)
    requires forall k :: k in ks ==> k in m
    ensures e in Entries(m, ks) <==> e.name in ks && e.amt == m[e.name]
  {
    var bals := Entries(m, ks);
    if e.name in ks && e.amt == m[e.name] {
      var i :| 0 <= i < |ks| && ks[i] == e.name;
      assert bals[i] == e;
    }
  }

  lemma EntriesDistinct(m: map<string, real>, ks: seq<string>)
    requires forall k :: k in ks ==> k in m
    requires Distinct(ks)
    ensures DistinctNames(Entries(m, ks))
  {
  }

  /** What is open for `n` on each sorted side, read off the balances: a
      debtor owes its deficit, a creditor is owed its surplus, anyone else
      is on neither side. */
  lemma SidesOwed(m: map<string, real>, ks: seq<string>, n: string)
    requires Distinct(ks)
    requires forall k :: k in m <==> k in ks
    ensures var sides := Partition(Entries(m, ks));
      && Owed(SortDesc(sides.debtors), n) == (if n in m && m[n] < -Eps then -m[n] else 0.0)
      && Owed(SortDesc(sides.creditors), n) == (if n in m && m[n] > Eps then m[n] else 0.0)
  {
    EntriesDistinct(m, ks);
    PartitionSeparates(Entries(m, ks));
    DebtorOwed(m, ks, n);
    CreditorOwed(m, ks, n);
  }

  lemma DebtorOwed(m: map<string, real>, ks: seq<string>, n: string)
    requires forall k :: k in m <==> k in ks
    requires DistinctNames(Partition(Entries(m, ks)).debtors)
    ensures Owed(SortDesc(Partition(Entries(m, ks)).debtors), n)
            == (if n in m && m[n] < -Eps then -m[n] else 0.0)
  {
    var bals := Entries(m, ks);
    var debtors := Partition(bals).debtors;
    SortKeepsDistinctNames(debtors);
    EntriesHold(m, ks);
    DebtorsOwed(m, bals, debtors, SortDesc(debtors), n);
  }

  lemma CreditorOwed(m: map<string, real>, ks: seq<string>, n: string)
    requires forall k :: k in m <==> k in ks
    requires DistinctNames(Partition(Entries(m, ks)).creditors)
    ensures Owed(SortDesc(Partition(Entries(m, ks)).creditors), n)
            == (if n in m && m[n] > Eps then m[n] else 0.0)
  {
    var bals := Entries(m, ks);
    var creditors := Partition(bals).creditors;
    SortKeepsDistinctNames(creditors);
    EntriesHold(m, ks);
    CreditorsOwed(m, bals, creditors, SortDesc(creditors), n);
  }

  /** The entries of a map listed over its own keys are exactly its pairs. */
  lemma EntriesHold(m: map<string, real>, ks: seq<string>)
    requires forall k :: k in m <==> k in ks
    ensures forall e :: e in Entries(m, ks) <==> e.name in m && e.amt == m[e.name]
  {
    forall e {
      EntriesHas(m, ks, e);
    }
  }

  /** What a debtor side built from the pairs of `m` owes `n`. */
  lemma DebtorsOwed(m: map<string, real>, bals: seq<Entry>, debtors: seq<Entry>, ds: seq<Entry>, n: string)
    requires forall e :: e in bals <==> e.name in m && e.amt == m[e.name]
    requires forall e :: e in debtors ==> e.amt > Eps && Entry(e.name, -e.amt) in bals
    requires forall e :: e in bals && e.amt < -Eps ==> Entry(e.name, -e.amt) in debtors
    requires forall e :: e in ds <==> e in debtors
    requires DistinctNames(ds)
    ensures Owed(ds, n) == if n in m && m[n] < -Eps then -m[n] else 0.0
  {
    if n in m && m[n] < -Eps {
      assert Entry(n, m[n]) in bals;
      assert Entry(n, -m[n]) in ds;
      OwedOfDistinct(ds, Entry(n, -m[n]));
    } else {
      assert n !in Names(ds) by {
        forall e | e in ds ensures e.name != n {
          assert Entry(e.name, -e.amt) in bals;
        }
      }
      OwedAbsent(ds, n);
    }
  }

  /** What a creditor side built from the pairs of `m` is owed by `n`. */
  lemma CreditorsOwed(m: map<string, real>, bals: seq<Entry>, creditors: seq<Entry>, cs: seq<Entry>, n: string)
    requires forall e :: e in bals <==> e.name in m && e.amt == m[e.name]
    requires forall e :: e in creditors ==> e.amt > Eps && e in bals
    requires forall e :: e in bals && e.amt > Eps ==> e in creditors
    requires forall e :: e in cs <==> e in creditors
    requires DistinctNames(cs)
    ensures Owed(cs, n) == if n in m && m[n] > Eps then m[n] else 0.0
  {
    if n in m && m[n] > Eps {
      assert Entry(n, m[n]) in bals;
      assert Entry(n, m[n]) in cs;
      OwedOfDistinct(cs, Entry(n, m[n]));
    } else {
      assert n !in Names(cs) by {
        forall e | e in cs ensures e.name != n {
          assert e in bals;
        }
      }
      OwedAbsent(cs, n);
    }
  }

  /** A transfer in a plan of positive transfers is part of what its payer
      pays and its payee receives. */
  lemma {:induction false} TransferCounted(ts: seq<Transfer>, t: Transfer)
    requires forall x :: x in ts ==> x.amount > 0.0
    requires t in ts
    ensures PaidOut(ts, t.from) >= t.amount
    ensures PaidIn(ts, t.to) >= t.amount
  {
    if ts[0] != t {
      assert t in ts[1..];
      TransferCounted(ts[1..], t);
    }
    PaidNonNegative(ts[1..], t.from, t.to);
  }

  lemma {:induction false} PaidNonNegative(ts: seq<Transfer>, a: string, b: string)
    requires forall x :: x in ts ==> x.amount > 0.0
    ensures PaidOut(ts, a) >= 0.0 && PaidIn(ts, b) >= 0.0
  {
    if |ts| > 0 {
      assert ts[0] in ts;
      PaidNonNegative(ts[1..], a, b);
    }
  }

  /** Conservation per party: a debtor pays at most its deficit and receives
      nothing, a creditor receives at most its surplus and pays nothing, and
      a founder within Eps of zero, or a name that is no founder, takes no
      part in any transfer. */
  lemma SettlementConserves(txns: seq<Expense>, founders: seq<string>, n: string)
    ensures var r := ComputeSettlement(txns, founders);
      && (n in r.balances && r.balances[n] < -Eps ==> PaidOut(r.transfers, n) <= -r.balances[n])
      && (n in r.balances && r.balances[n] > Eps ==> PaidIn(r.transfers, n) <= r.balances[n])
      && (n !in r.balances || r.balances[n] >= -Eps ==> PaidOut(r.transfers, n) == 0.0)
      && (n !in r.balances || r.balances[n] <= Eps ==> PaidIn(r.transfers, n) == 0.0)
  {
    SettlementUnfold(txns, founders);
    PlanConserves(BalanceMap(txns, founders), Dedup(founders), n);
  }

  /** The settlement's balances and plan, named. */
  lemma SettlementUnfold(txns: seq<Expense>, founders: seq<string>)
    ensures var m := BalanceMap(txns, founders);
      && ComputeSettlement(txns, founders).perHead == PerHead(Total(txns), |founders|)
      && ComputeSettlement(txns, founders).balances == m
      && ComputeSettlement(txns, founders).transfers == Plan(Entries(m, Dedup(founders)))
      && (forall k :: k in m <==> k in Dedup(founders))
  {
  }

  /** `SettlementConserves` for any balance map listed in a repeat-free key order. */
  lemma PlanConserves(m: map<string, real>, ks: seq<string>, n: string)
    requires Distinct(ks)
    requires forall k :: k in m <==> k in ks
    ensures var ts := Plan(Entries(m, ks));
      && (n in m && m[n] < -Eps ==> PaidOut(ts, n) <= -m[n])
      && (n in m && m[n] > Eps ==> PaidIn(ts, n) <= m[n])
      && (n !in m || m[n] >= -Eps ==> PaidOut(ts, n) == 0.0)
      && (n !in m || m[n] <= Eps ==> PaidIn(ts, n) == 0.0)
  {
    var bals := Entries(m, ks);
    var sides := Partition(bals);
    var ds, cs := SortDesc(sides.debtors), SortDesc(sides.creditors);
    SidesOpen(bals);
    SidesOwed(m, ks, n);
    assert Plan(bals) == Greedy(ds, cs);
    GreedyConserves(m, ds, cs, n);
  }

  /** The greedy plan between two sides that owe and are owed what `m` says of `n`. */
  lemma GreedyConserves(m: map<string, real>, ds: seq<Entry>, cs: seq<Entry>, n: string)
    requires AllOpen(ds) && AllOpen(cs)
    requires Owed(ds, n) == (if n in m && m[n] < -Eps then -m[n] else 0.0)
    requires Owed(cs, n) == (if n in m && m[n] > Eps then m[n] else 0.0)
    ensures var ts := Greedy(ds, cs);
      && (n in m && m[n] < -Eps ==> PaidOut(ts, n) <= -m[n])
      && (n in m && m[n] > Eps ==> PaidIn(ts, n) <= m[n])
      && (n !in m || m[n] >= -Eps ==> PaidOut(ts, n) == 0.0)
      && (n !in m || m[n] <= Eps ==> PaidIn(ts, n) == 0.0)
  {
    GreedyBounded(ds, cs);
  }

  /** The plan is empty exactly when no balance is below -Eps or none is
      above Eps: as long as there is a debtor and a creditor, someone pays. */
  lemma PlanEmpty(bals: seq<Entry>)
    ensures Plan(bals) == [] <==>
      (forall e :: e in bals ==> e.amt >= -Eps) || (forall e :: e in bals ==> e.amt <= Eps)
  {
    var sides := Partition(bals);
    SidesOpen(bals);
    if exists e :: e in bals && e.amt < -Eps {
      var e :| e in bals && e.amt < -Eps;
      assert Entry(e.name, -e.amt) in SortDesc(sides.debtors);
    } else {
      NoDebtors(bals);
    }
    if exists e :: e in bals && e.amt > Eps {
      var e :| e in bals && e.amt > Eps;
      assert e in SortDesc(sides.creditors);
    } else {
      NoCreditors(bals);
    }
  }

  /** Without a balance below -Eps there are no debtors. */
  lemma {:induction false} NoDebtors(bals: seq<Entry>)
    requires forall e :: e in bals ==> e.amt >= -Eps
    ensures Partition(bals).debtors == []
  {
    if |bals| > 0 {
      assert bals[0] in bals;
      assert forall e :: e in bals[1..] ==> e in bals;
      NoDebtors(bals[1..]);
    }
  }

  /** Without a balance above Eps there are no creditors. */
  lemma {:induction false} NoCreditors(bals: seq<Entry>)
    requires forall e :: e in bals ==> e.amt <= Eps
    ensures Partition(bals).creditors == []
  {
    if |bals| > 0 {
      assert bals[0] in bals;
      assert forall e :: e in bals[1..] ==> e in bals;
      NoCreditors(bals[1..]);
    }
  }
}
