# Expense settlement: a Dafny model

This project models the pure core of a small shared-expense ledger for a
fixed, ordered list of founders. The ledger stores expense records. Each
record has an amount, the name of its payer, a date and a description.
The model covers these parts of the program:

- **Settlement** (`computeSettlement`):
  - the total of all records and the equal share per founder;
  - each founder's balance, which is what they paid minus the share;
  - a plan of transfers. Founders owing more than ε = 0.005 are matched
    greedily with founders owed more than ε.
- **Summary figures** (`renderSummary`): the total, the share, what each
  founder paid and each founder's net amount.
- **Month filter** (`filterByMonthRange`): keeps the records whose date
  falls between two optional `YYYY-MM` bounds.
- **Monthly aggregate** (`monthlyAggregate`): per-month sums of the kept
  records, with the months sorted.
- **CSV export**: quotes each field and joins the fields and rows.
- **`escapeHtml`**.

Amounts are exact `real`s and ε is exactly `0.005`. Strings are `seq<char>`.
The files are:

- `ledger.dfy`: records, sums over them and the key order of an object
  built from a list.
- `balances.dfy`: total, share, the balance map and the summary figures.
- `settlement.dfy`: the partition, the descending sort, the greedy
  matching and `computeSettlement`. The matching is modelled twice:
  - `Greedy` is a recursive reference;
  - `MatchLoop` is the two-cursor loop with in-place updates, proved equal
    to `Greedy`.
- `settlement_laws.dfy`: what the whole settlement promises.
- `scenarios.dfy`: worked examples.
- `text_order.dfy`: JavaScript's string `<` and the default array sort.
- `reports.dfy`: the month filter and the monthly aggregate.
- `csv.dfy`: the CSV quoting, together with a parser the quoting is
  proved against.
- `html.dfy`: `escapeHtml`, together with its inverse.

Founders may be listed more than once, as in the source. The balance
object then has one key per distinct name, in first-occurrence order.
Each occurrence charges that name the share again: the share is charged
once per occurrence, and the divisor is the length of the list. The
model keeps this behaviour rather than ruling it out.

## Model

| member | source | states |
|---|---|---|
| Balances.PerHead | app.js:220 | with at least one founder, the share times the founder count is the total; with none, the share is 0 (there is no division by zero) |
| Balances.ShareOfPerHead | app.js:219-220 | charging every one of n > 0 founders the share adds up to the total again |
| Balances.Zeroes | app.js:221 | the seed object has exactly the founders as keys, each at 0 |
| Ledger.TotalConcat | app.js:219 | the total of two lists of records read one after the other is the sum of their totals |
| Balances.Credit | app.js:222-225 | the crediting pass never adds or removes a key, so a payer who is not a founder gets no entry |
| Balances.CreditClosedForm | app.js:222-225 | `Credit`: crediting records keeps the key set, so a payer who is not a founder creates no key; each key gains exactly the amounts of the records it paid |
| Balances.ChargeClosedForm | app.js:226 | `Charge`: charging adds the founders as keys; each founder loses the share once per occurrence in the list; other keys are untouched |
| Balances.PaidTotals | app.js:187-188 | the summary's paid totals have exactly the founders as keys; each is the sum of the records that founder paid |
| Balances.BalanceMap | app.js:221-226 | one balance per founder: what the founder paid minus the share times the founder's occurrences |
| Balances.Entries | app.js:229 | the object's entries in key order, one `[name, value]` pair per key |
| Balances.BalancesSum | app.js:219-226 | the balances, each founder counted once, sum to what founders paid minus the total, which is minus what non-founders paid |
| Balances.ZeroSum | app.js:219-226 | with at least one founder, and with every record paid by a founder, the balances sum to exactly 0 |
| Balances.SummaryNetIsBalance | app.js:193 | when no founder is listed twice, the summary's net figure equals that founder's settlement balance |
| Ledger.Dedup | app.js:221 | the keys of an object built from a list have no repeats and are exactly the list's elements |
| Ledger.DedupFirstOrder | app.js:221 | the keys come in the order of their first occurrences in the list, which is the order `Object.entries` later lists them in |
| Ledger.DedupOfDistinct | app.js:221 | a founder list without repeats gives the object's keys in the same order |
| Settlement.Partition | app.js:228-232 | every debtor holds the negation of a balance below -ε; every creditor holds a balance above ε; every such balance is on its side; a balance within ε is on neither side; together the sides are no longer than the balance list |
| Settlement.PartitionSeparates | app.js:228-232 | with distinct names, no name is both a debtor and a creditor, and neither side repeats a name |
| Settlement.SortDesc | app.js:233 | the result is sorted by amount, largest first, and is a permutation of the input |
| Settlement.Greedy | app.js:235-243 | if either side is empty there is no transfer; otherwise there are between 1 and (debtors + creditors - 1) transfers; every amount is above ε |
| Settlement.MatchLoop | app.js:235-243 | the two-cursor loop, which updates amounts in place, terminates and emits exactly the plan `Greedy` describes, every amount above ε |
| Settlement.Min | app.js:238 | `Math.min`: the result is at most both arguments and is one of them |
| Settlement.AdvanceInPlace | app.js:240-242 | lowering the current entry in place and moving the cursor past it once at most ε remains is the same as `Advance` on the rest of the side |
| Settlement.MatchStep | app.js:238-242 | one pass of the loop body emits one transfer, advances at least one cursor, leaves every open entry above ε, and the transfer is the first step of `Greedy` on what was left |
| Settlement.GreedyBounded | app.js:238-242 | no party pays out more than its debt, and none receives more than its surplus |
| Settlement.GreedySettlesOneSide | app.js:237-243 | when the loop stops, either every debtor has paid all but at most ε of its debt, or every creditor has received all but at most ε of its surplus |
| Settlement.Plan | app.js:228-243 | every planned amount is above ε; the plan is empty or shorter than the balance list |
| Settlement.PlanEmpty | app.js:228-237 | the plan is empty exactly when no balance is below -ε or no balance is above ε |
| Settlement.ComputeSettlement | app.js:218-245 | the total is the sum of all amounts; the share times the founder count is the total (0 with no founders); the balances are keyed by exactly the founders, each as in `BalanceMap`; every transfer is above ε; there are fewer transfers than distinct founders |
| Settlement.SettlementConserves | app.js:238-240 | a founder owing more than ε pays at most its debt; a founder owed more than ε receives at most its surplus; a founder within ε, or anyone who is not a founder, neither pays nor receives |
| SettlementLaws.SettlementParties | app.js:229-239 | every transfer goes from a founder whose balance is below -ε to a different founder whose balance is above ε |
| SettlementLaws.SettlementSettlesOneSide | app.js:237-243 | after the plan, either every indebted founder is within ε of even, or every founder in credit is |
| SettlementLaws.SettlementQuiet | app.js:228-237 | there is no transfer exactly when no balance is below -ε or no balance is above ε |
| SettlementLaws.SettlementZeroSum | app.js:219-226 | with at least one founder, the balances sum to what founders paid minus the total; the sum is 0 when every payer is a founder |
| SettlementLaws.NoRecords | app.js:219-226 | with no records: total 0, share 0, every balance 0 and no transfer |
| SettlementLaws.SingleFounder | app.js:219-243 | a founder listed alone (once or several times) never takes part in a transfer; if that founder paid every record, the balance is exactly 0 |
| SettlementLaws.NoKnownPayer | app.js:221-232 | if no record was paid by a founder and no amount is negative, every balance is at most 0 and nobody is paid |
| SettlementLaws.PaidTotalsAgree | app.js:239-240 | over a repeat-free list of all parties, what they pay out and what they receive both equal the plan's total volume |
| SettlementLaws.SettlementVolume | app.js:239-240 | over the founders, the settlement's paid-out total equals its paid-in total |
| Scenarios.ThreeFounders | app.js:218-245 | founders A, B, C, with A paying 300 and B paying 150: total 450, share 150, balances +150, 0 and -150, one transfer of 150 from C to A |
| Scenarios.UnknownPayer | app.js:221-226 | founders A and B, with 100 paid by a non-founder: share 50, both balances -50, no transfer |
| Scenarios.ResidualBeyondEps | app.js:228-243 | founders A, B, C, with A paying 0.01: A stays owed more than ε and no transfer is planned |
| TextOrder.LessTransitive | app.js:293-294 | string `<` (`Less`) is transitive |
| TextOrder.LessTotal | app.js:293-294 | two different strings are ordered one way or the other by string `<` |
| TextOrder.LessOfConcat | app.js:293-294 | for strings that start with parts of one length, the first parts decide unless they are equal, and then the rest decides |
| TextOrder.Sort | app.js:310 | the default sort of distinct keys is strictly ascending and holds exactly the same keys |
| TextOrder.AscendingUnique | app.js:310 | two strictly ascending lists with the same elements are equal |
| Reports.InRangeConvex | app.js:291-296 | the `ok` test (`InRange`) keeps an interval of the string order: a date between two kept dates is kept |
| Reports.MonthWindow | app.js:289-296 | for a well-formed `YYYY-MM-DD` date and `YYYY-MM` bounds, the filter keeps the date exactly when its month lies between the bounds, inclusive; a missing bound is no bound |
| Reports.FilterByMonthRange | app.js:287-297 | each record is kept, with all its copies, exactly when its date passes the test; others are dropped |
| Reports.FilterKeepsOrder | app.js:297 | filtering a concatenation filters each part in turn, so kept records stay in their original order |
| Reports.FilterOne | app.js:297 | a single record is kept exactly when its date passes the test |
| Reports.FilteredMonths | app.js:287-297 | a record with a well-formed date is kept exactly when its month lies between the bounds |
| Reports.MonthOf | app.js:306 | the month key is the prefix of the date of length 7, or the whole date when it is shorter |
| Reports.TallyClosedForm | app.js:305-309 | `Tally`: the per-month object gains exactly the records' months as keys, and each month gains the amounts of its own records |
| Reports.MonthlyAggregate | app.js:302-311 | the months are exactly those of the kept records; each month holds the sum of its kept records; the labels are exactly the months, strictly ascending |
| Reports.MonthlyTotal | app.js:305-310 | the per-month sums, read along the labels, add up to the total of the kept records |
| Reports.LabelsDetermined | app.js:310 | any strictly ascending listing of the months is the labels list, so the labels do not depend on the order months were met |
| Csv.DoubleQuotes | app.js:262 | doubling never shortens a field, and a field without quotes is unchanged |
| Csv.QuoteField | app.js:262 | a written field starts and ends with a quote |
| Csv.ReadQuotedField | app.js:262 | the doubled text plus its closing quote reads back as the original field, leaving what follows |
| Csv.ParseOneRow | app.js:262 | one row of quoted fields joined by commas (`JoinFields`) reads back as that row |
| Csv.CsvRoundTrip | app.js:262 | `JoinRows`: joining rows of fields with commas and newlines reads back as the same rows, provided every row has a field |
| Csv.FlattenLinesOneLine | app.js:260 | a description with line breaks turned into spaces holds no line break |
| Csv.ExportRoundTrip | app.js:259-262 | `ExportCsv` and `RecordRow`: the export reads back as the header, then per record in order its date, its description on one line, its payer and its amount text |
| Html.EscapeChar | app.js:324 | each of the five special characters becomes a reference that starts with `&` and ends with `;`; any other character is kept |
| Html.EscapeHtml | app.js:323-325 | the result contains no `<`, `>`, `"` or `'`; it is never shorter; text without special characters is unchanged |
| Html.EscapeRoundTrip | app.js:323-325 | unescaping the five references gives back the original text |

## Left out

- Firebase set-up, sign-in, Firestore reads and writes, and the live subscription are backend I/O.
- The DOM is not modelled: table and list rendering, form handling, edit buttons and colour classes.
- The editor check against a global e-mail, and dates produced from the clock.
- Chart drawing and the file download are browser and foreign-library calls.
- `Number(...)` coercion is not modelled. Neither is NaN: line 219 lets NaN into the total, line 224 guards against it, and line 307 turns it into 0. Amounts are exact reals, so none of these cases arise.
- Floating-point rounding is not modelled: `/` is exact division.
- `toFixed(2)` is not modelled. The amount column of the CSV is a function supplied by the caller (`amountText`), and the figures shown on screen are not modelled.
- Object key order in JavaScript lists integer-like keys first, such as a founder named `"7"`. `Entries` lists keys in insertion order instead. This changes only the order in which equal amounts are paired, never the balances.
- Inherited object properties are not modelled. In the source, a payer named after one, such as `"toString"`, passes the `!== undefined` test. Map lookups have no such names.
- JavaScript compares strings by UTF-16 code units. `TextOrder.Less` compares characters by code point. The two differ only for characters outside the Basic Multilingual Plane.
- The `rangeText` label of the filter is only used in a file name and a chart title.
- Settlement.SortDesc: stability is not stated. Entries with equal amounts keep their relative order, and that is what decides which pairs meet first. Only the order and the permutation are proved.
- The write-side check that amounts are positive (app.js:79) is not assumed. Only `NoKnownPayer` needs non-negative amounts, and it requires them.

## What the settlement does not do

The model follows the code, and the code lacks three properties a reader
might expect of a settlement.

- **The plan does not bring every balance within ε.** A balance within ε
  is left out of both sides, so a founder can stay owed more than ε with
  nobody left to pay them. `Scenarios.ResidualBeyondEps` gives such a case
  (app.js:228-243). Only one side is sure to settle: either every debtor
  or every creditor ends within ε (`SettlementLaws.SettlementSettlesOneSide`).
- **The balances need not sum to zero.** A payment is credited only to a
  payer who is a founder (app.js:222-225), so the sum is minus what
  non-founders paid (`SettlementLaws.SettlementZeroSum`,
  `Scenarios.UnknownPayer`).
- **A lone founder's balance need not be 0.** It is 0 only when that
  founder paid every record (`SettlementLaws.SingleFounder`). A lone
  founder never takes part in a transfer in any case.
