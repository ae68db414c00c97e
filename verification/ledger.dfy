/** Expense records and the sums the ledger takes over them.

    Amounts are exact reals: the floating-point `Number(...)` coercion of the
    original is not modelled. */
module Ledger {

  /** One expense record as the settlement and report code reads it. */
  datatype Expense = Expense(amount: real, paidBy: string, date: string, description: string)

  /** The key a record is grouped under for per-founder attribution. */
  function Payer(t: Expense): string
  {
    t.paidBy
  }

  /** Sum of every amount, the `reduce` that computes `total`. */
  function Total(txns: seq<Expense>): real
  {
    if |txns| == 0 then 0.0 else txns[0].amount + Total(txns[1..])
  }

  /** The total of two lists of records read one after the other. */
  lemma {:induction false} TotalConcat(a: seq<Expense>, b: seq<Expense>)
    ensures Total(a + b) == Total(a) + Total(b)
  {
    if |a| > 0 {
      assert (a + b)[0] == a[0] && (a + b)[1..] == a[1..] + b;
      TotalConcat(a[1..], b);
    } else {
      assert a + b == b;
    }
  }

  /** Sum of the amounts of the records whose key is `k`. */
  function GroupSum(txns: seq<Expense>, key: Expense -> string, k: string): real
  {
    if |txns| == 0 then 0.0
    else (if key(txns[0]) == k then txns[0].amount else 0.0) + GroupSum(txns[1..], key, k)
  }

  /** Sum of the amounts of the records whose key lies in `ks`. */
  function SumIn(txns: seq<Expense>, key: Expense -> string, ks: set<string>): real
  {
    if |txns| == 0 then 0.0
    else (if key(txns[0]) in ks then txns[0].amount else 0.0) + SumIn(txns[1..], key, ks)
  }

  /** The group sums of the keys `ks`, added up in the order of `ks`. */
  function SumGroups(txns: seq<Expense>, key: Expense -> string, ks: seq<string>): real
  {
    if |ks| == 0 then 0.0 else GroupSum(txns, key, ks[0]) + SumGroups(txns, key, ks[1..])
  }

  /** `m[k] || 0`: a missing key reads as 0. */
  function Get(m: map<string, real>, k: string): real
  {
    if k in m then m[k] else 0.0
  }

  /** The values of `m` at the keys `ks`, added up. */
  function SumAt(m: map<string, real>, ks: seq<string>): real
  {
    if |ks| == 0 then 0.0 else Get(m, ks[0]) + SumAt(m, ks[1..])
  }

  /** Number of times `x` occurs in `s`. */
  function Occurrences<T(==)>(s: seq<T>, x: T): nat
  {
    if |s| == 0 then 0 else (if s[0] == x then 1 else 0) + Occurrences(s[1..], x)
  }

  lemma {:induction false} OccurrencesAbsent<T>(s: seq<T>, x: T)
    requires x !in s
    ensures Occurrences(s, x) == 0
  {
    if |s| > 0 {
      assert s[0] in s;
      assert forall y :: y in s[1..] ==> y in s;
      OccurrencesAbsent(s[1..], x);
    }
  }

  predicate Distinct<T(==)>(s: seq<T>)
  {
    forall i, j :: 0 <= i < j < |s| ==> s[i] != s[j]
  }

  /** The elements of `s` without repeats, in order of first occurrence:
      the key order of an object built by inserting the elements of `s`. */
  function Dedup(s: seq<string>): (r: seq<string>)
    ensures Distinct(r)
    ensures forall x :: x in r <==> x in s
    ensures |r| <= |s|
  {
    if |s| == 0 then []
    else
      var d := Dedup(s[..|s| - 1]);
      var last := s[|s| - 1];
      assert forall x :: x in s <==> x in s[..|s| - 1] || x == last;
      if last in d then d else d + [last]
  }

  /** Splitting off one key: the records keyed in `ks + {k}` sum to those keyed `k`
      plus those keyed in `ks`. */
  lemma {:induction false} SumInAddKey(txns: seq<Expense>, key: Expense -> string, k: string, ks: set<string>)
    requires k !in ks
    ensures SumIn(txns, key, ks + {k}) == GroupSum(txns, key, k) + SumIn(txns, key, ks)
  {
    if |txns| > 0 {
      SumInAddKey(txns[1..], key, k, ks);
    }
  }

  /** Adding up the group sums of distinct keys counts each record whose key is
      among them exactly once. */
  lemma {:induction false} SumGroupsIsSumIn(txns: seq<Expense>, key: Expense -> string, ks: seq<string>)
    requires Distinct(ks)
    ensures SumGroups(txns, key, ks) == SumIn(txns, key, set k | k in ks)
  {
    if |ks| == 0 {
      assert (set k | k in ks) == {};
      SumInNone(txns, key);
    } else {
      var rest := ks[1..];
      assert Distinct(rest) by {
        forall i, j | 0 <= i < j < |rest| ensures rest[i] != rest[j] {
          assert rest[i] == ks[i + 1] && rest[j] == ks[j + 1];
        }
      }
      SumGroupsIsSumIn(txns, key, rest);
      assert ks[0] !in rest by {
        forall i | 0 <= i < |rest| ensures rest[i] != ks[0] {
          assert rest[i] == ks[i + 1];
        }
      }
      assert (set k | k in ks) == (set k | k in rest) + {ks[0]} by {
        assert ks == [ks[0]] + rest;
      }
      SumInAddKey(txns, key, ks[0], set k | k in rest);
    }
  }

  lemma {:induction false} SumInNone(txns: seq<Expense>, key: Expense -> string)
    ensures SumIn(txns, key, {}) == 0.0
  {
    if |txns| > 0 {
      SumInNone(txns[1..], key);
    }
  }

  /** When every record's key lies in `ks`, the records keyed in `ks` are all of them. */
  lemma {:induction false} SumInAll(txns: seq<Expense>, key: Expense -> string, ks: set<string>)
    requires forall t :: t in txns ==> key(t) in ks
    ensures SumIn(txns, key, ks) == Total(txns)
  {
    if |txns| > 0 {
      assert txns[0] in txns;
      SumInAll(txns[1..], key, ks);
    }
  }

  /** Sum of the occurrence counts of `fs` over keys `ks`. */
  function SumOccurrences<T(==)>(fs: seq<T>, ks: seq<T>): nat
  {
    if |ks| == 0 then 0 else Occurrences(fs, ks[0]) + SumOccurrences(fs, ks[1..])
  }

  lemma {:induction false} SumOccurrencesSplit<T>(fs: seq<T>, ks: seq<T>)
    requires |fs| > 0
    ensures SumOccurrences(fs, ks) == Occurrences(ks, fs[0]) + SumOccurrences(fs[1..], ks)
  {
    if |ks| > 0 {
      SumOccurrencesSplit(fs, ks[1..]);
    }
  }

  lemma {:induction false} OccurrencesOfDistinct<T>(ks: seq<T>, x: T)
    requires Distinct(ks)
    ensures Occurrences(ks, x) == if x in ks then 1 else 0
  {
    if |ks| > 0 {
      var rest := ks[1..];
      assert Distinct(rest) by {
        forall i, j | 0 <= i < j < |rest| ensures rest[i] != rest[j] {
          assert rest[i] == ks[i + 1] && rest[j] == ks[j + 1];
        }
      }
      OccurrencesOfDistinct(rest, x);
      if ks[0] == x {
        assert x !in rest by {
          forall i | 0 <= i < |rest| ensures rest[i] != x {
            assert rest[i] == ks[i + 1];
          }
        }
      }
      assert ks == [ks[0]] + rest;
    }
  }

  /** Every element of `fs` is counted once when occurrences are summed over a
      repeat-free list of keys that covers `fs`. */
  lemma {:induction false} SumOccurrencesIsLength<T>(fs: seq<T>, ks: seq<T>)
    requires Distinct(ks)
    requires forall x :: x in fs ==> x in ks
    ensures SumOccurrences(fs, ks) == |fs|
  {
    if |fs| == 0 {
      SumOccurrencesOfEmpty(fs, ks);
    } else {
      assert fs[0] in fs;
      SumOccurrencesSplit(fs, ks);
      OccurrencesOfDistinct(ks, fs[0]);
      SumOccurrencesIsLength(fs[1..], ks);
    }
  }

  lemma {:induction false} SumOccurrencesOfEmpty<T>(fs: seq<T>, ks: seq<T>)
    requires |fs| == 0
    ensures SumOccurrences(fs, ks) == 0
  {
    if |ks| > 0 {
      SumOccurrencesOfEmpty(fs, ks[1..]);
    }
  }

  /** When every record's key is `k`, the records keyed `k` are all of them. */
  lemma {:induction false} GroupSumAll(txns: seq<Expense>, key: Expense -> string, k: string)
    requires forall t :: t in txns ==> key(t) == k
    ensures GroupSum(txns, key, k) == Total(txns)
  {
    if |txns| > 0 {
      assert txns[0] in txns;
      assert forall t :: t in txns[1..] ==> t in txns;
      GroupSumAll(txns[1..], key, k);
    }
  }

  /** A key no record carries has nothing grouped under it. */
  lemma {:induction false} GroupSumAbsent(txns: seq<Expense>, key: Expense -> string, k: string)
    requires forall t :: t in txns ==> key(t) != k
    ensures GroupSum(txns, key, k) == 0.0
  {
    if |txns| > 0 {
      assert txns[0] in txns;
      assert forall t :: t in txns[1..] ==> t in txns;
      GroupSumAbsent(txns[1..], key, k);
    }
  }

  lemma {:induction false} TotalNonNegative(txns: seq<Expense>)
    requires forall t :: t in txns ==> t.amount >= 0.0
    ensures Total(txns) >= 0.0
  {
    if |txns| > 0 {
      assert txns[0] in txns;
      assert forall t :: t in txns[1..] ==> t in txns;
      TotalNonNegative(txns[1..]);
    }
  }

  /** A sequence made only of `x` holds `x` once per position. */
  lemma {:induction false} OccurrencesAll<T>(s: seq<T>, x: T)
    requires forall y :: y in s ==> y == x
    ensures Occurrences(s, x) == |s|
  {
    if |s| > 0 {
      assert s[0] in s;
      assert forall y :: y in s[1..] ==> y in s;
      OccurrencesAll(s[1..], x);
    }
  }

  /** A list without repeats is its own list of first occurrences. */
  lemma {:induction false} DedupOfDistinct(s: seq<string>)
    requires Distinct(s)
    ensures Dedup(s) == s
  {
    if |s| > 0 {
      var init := s[..|s| - 1];
      assert Distinct(init) by {
        forall i, j | 0 <= i < j < |init| ensures init[i] != init[j] {
          assert init[i] == s[i] && init[j] == s[j];
        }
      }
      DedupOfDistinct(init);
      assert s[|s| - 1] !in init by {
        forall i | 0 <= i < |init| ensures init[i] != s[|s| - 1] {
          assert init[i] == s[i];
        }
      }
      assert init + [s[|s| - 1]] == s;
    }
  }

  /** Position of the first occurrence of `x` in `s`. */
  function FirstIndex(s: seq<string>, x: string): (i: nat)
    requires x in s
    ensures i < |s| && s[i] == x
    ensures forall k :: 0 <= k < i ==> s[k] != x
  {
    if s[0] == x then 0 else 1 + FirstIndex(s[1..], x)
  }

  /** Dropping the last element does not move a first occurrence that lies before it. */
  lemma FirstIndexOfInit(s: seq<string>, x: string)
    requires |s| > 0 && x in s[..|s| - 1]
    ensures FirstIndex(s, x) == FirstIndex(s[..|s| - 1], x)
  {
    var init := s[..|s| - 1];
    var i, j := FirstIndex(s, x), FirstIndex(init, x);
    assert init[j] == s[j];
    assert i <= j;
    assert init[i] == s[i];
  }

  /** `Dedup` lists the elements in the order of their first occurrences. */
  lemma {:induction false} DedupFirstOrder(s: seq<string>)
    ensures forall i, j :: 0 <= i < j < |Dedup(s)| ==>
      FirstIndex(s, Dedup(s)[i]) < FirstIndex(s, Dedup(s)[j])
  {
    if |s| > 0 {
      var init := s[..|s| - 1];
      var last := s[|s| - 1];
      var d := Dedup(init);
      DedupFirstOrder(init);
      forall y | y in d ensures FirstIndex(s, y) == FirstIndex(init, y) && FirstIndex(init, y) < |s| - 1 {
        FirstIndexOfInit(s, y);
      }
      if last !in d {
        assert last !in init;
        assert FirstIndex(s, last) == |s| - 1;
        assert Dedup(s) == d + [last];
      } else {
        assert Dedup(s) == d;
      }
    }
  }
}
