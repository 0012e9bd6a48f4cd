/** The two allocations of packages/db/src/random-seed.ts: a document's tax over its lines, with the
    remainder on the last one, and payable invoices over payment runs. Amounts are cents. */
module SeedAllocation {
  import opened Decimals
  import opened Sequences
  import Sorting

  // ---------------------------------------------------------------- tax over lines

  function Cents(x: int): int {
    x
  }

  function Sum(s: seq<int>): int {
    SumBy(Cents, s, |s|)
  }

  /** A line's proportional share of the tax; a document without value counts as one cent. */
  function Share(lineTotal: int, tax: int, documentTotal: int): real {
    (lineTotal * tax) as real / (if documentTotal > 1 then documentTotal else 1) as real
  }

  /** Every line but the last gets its share, rounded; the last one gets what is left. */
  predicate Allocates(lineTotals: seq<nat>, tax: nat, documentTotal: nat, taxes: seq<int>) {
    && |taxes| == |lineTotals| && (|taxes| > 0 ==> Sum(taxes) == tax)
    && forall i :: 0 <= i < |taxes| - 1 ==> taxes[i] == RoundHalfUp(Share(lineTotals[i], tax, documentTotal))
  }

  method AllocateTax(lineTotals: seq<nat>, tax: nat, documentTotal: nat) returns (taxes: seq<int>)
    ensures Allocates(lineTotals, tax, documentTotal, taxes)
  {
    taxes := [];
    var allocatedTaxCents := 0;
    for line := 0 to |lineTotals|
      invariant |taxes| == line && allocatedTaxCents == Sum(taxes)
      invariant forall i :: 0 <= i < line && i < |lineTotals| - 1 ==>
                  taxes[i] == RoundHalfUp(Share(lineTotals[i], tax, documentTotal))
      invariant line == |lineTotals| > 0 ==> allocatedTaxCents == tax
    {
      var lineTaxCents := if line == |lineTotals| - 1 then tax - allocatedTaxCents
                          else RoundHalfUp(Share(lineTotals[line], tax, documentTotal));
      allocatedTaxCents := allocatedTaxCents + lineTaxCents;
      SumOneMore(taxes, lineTaxCents);
      taxes := taxes + [lineTaxCents];
    }
  }

  lemma {:induction false} SumOneMore(s: seq<int>, x: int)
    ensures Sum(s + [x]) == Sum(s) + x
  {
    SumByConcat(Cents, s, [x], 1);
    assert SumBy(Cents, [x], 1) == SumBy(Cents, [x], 0) + x;
  }

  function SharesTo(lineTotals: seq<int>, tax: int, documentTotal: int, n: nat): real
    requires n <= |lineTotals|
  {
    if n == 0 then 0.0 else SharesTo(lineTotals, tax, documentTotal, n - 1) + Share(lineTotals[n - 1], tax, documentTotal)
  }

  lemma {:induction false} ShareAdds(a: int, b: int, c: int, tax: int, documentTotal: int)
    requires c == a + b
    ensures Share(c, tax, documentTotal) == Share(a, tax, documentTotal) + Share(b, tax, documentTotal)
  {
  }

  lemma {:induction false} SharesOfSum(lineTotals: seq<int>, tax: int, documentTotal: int, n: nat)
    requires n <= |lineTotals|
    ensures SharesTo(lineTotals, tax, documentTotal, n) == Share(SumBy(Cents, lineTotals, n), tax, documentTotal)
  {
    if n > 0 {
      SharesOfSum(lineTotals, tax, documentTotal, n - 1);
      ShareAdds(SumBy(Cents, lineTotals, n - 1), lineTotals[n - 1], SumBy(Cents, lineTotals, n), tax, documentTotal);
    }
  }

  lemma {:induction false} WholeShare(tax: int, documentTotal: int)
    requires documentTotal > 0 || (documentTotal == 0 && tax == 0)
    ensures Share(documentTotal, tax, documentTotal) == tax as real
  {
  }

  lemma {:induction false} RoundingAddsUp(lineTotals: seq<int>, tax: int, documentTotal: int, taxes: seq<int>, n: nat)
    requires n <= |taxes| == |lineTotals|
    requires forall i :: 0 <= i < n ==> taxes[i] == RoundHalfUp(Share(lineTotals[i], tax, documentTotal))
    ensures var off := SumBy(Cents, taxes, n) as real - SharesTo(lineTotals, tax, documentTotal, n);
            -0.5 * n as real <= off <= 0.5 * n as real
  {
    hide Share, RoundHalfUp;
    if n > 0 {
      RoundingAddsUp(lineTotals, tax, documentTotal, taxes, n - 1);
      RoundHalfUpNearest(Share(lineTotals[n - 1], tax, documentTotal));
    }
  }

  /** The allocation adds up to the tax; every line but the last is within half a cent of its share, and
      the last one within half a cent for each of the other lines. */
  lemma {:induction false} AllocationIsFair(lineTotals: seq<nat>, tax: nat, documentTotal: nat, taxes: seq<int>)
    requires Allocates(lineTotals, tax, documentTotal, taxes) && |taxes| > 0
    requires Sum(lineTotals) == documentTotal && (documentTotal > 0 || tax == 0)
    ensures forall i :: 0 <= i < |taxes| - 1 ==>
              -0.5 <= taxes[i] as real - Share(lineTotals[i], tax, documentTotal) <= 0.5
    ensures var n, last := |taxes|, |taxes| - 1;
            -0.5 * last as real <= taxes[last] as real - Share(lineTotals[last], tax, documentTotal) <= 0.5 * last as real
  {
    hide Share, RoundHalfUp;
    forall i | 0 <= i < |taxes| - 1
      ensures -0.5 <= taxes[i] as real - Share(lineTotals[i], tax, documentTotal) <= 0.5
    {
      RoundHalfUpNearest(Share(lineTotals[i], tax, documentTotal));
    }
    var last := |taxes| - 1;
    RoundingAddsUp(lineTotals, tax, documentTotal, taxes, last);
    SharesOfSum(lineTotals, tax, documentTotal, last + 1);
    WholeShare(tax, documentTotal);
    assert SumBy(Cents, taxes, last + 1) == SumBy(Cents, taxes, last) + taxes[last];
  }

  /** The rounded shares of the first n lines. */
  function RoundedShares(lineTotals: seq<nat>, tax: nat, documentTotal: nat): (r: seq<int>)
    ensures |r| == |lineTotals|
  {
    seq(|lineTotals|, i requires 0 <= i < |lineTotals| => RoundHalfUp(Share(lineTotals[i], tax, documentTotal)))
  }

  /** The last line is not negative exactly when the rounded shares of the others do not exceed the tax. */
  lemma {:induction false} LastLineIsNonNegativeExactlyWhen(
      lineTotals: seq<nat>, tax: nat, documentTotal: nat, taxes: seq<int>)
    requires Allocates(lineTotals, tax, documentTotal, taxes) && |taxes| > 0
    ensures taxes[|taxes| - 1] >= 0
            <==> SumBy(Cents, RoundedShares(lineTotals, tax, documentTotal), |taxes| - 1) <= tax
  {
    hide Share, RoundHalfUp;
    SumByPrefix(Cents, taxes, RoundedShares(lineTotals, tax, documentTotal), |taxes| - 1);
  }

  lemma {:induction false} ShareIsNonNegative(lineTotal: nat, tax: nat, documentTotal: nat)
    ensures Share(lineTotal, tax, documentTotal) >= 0.0
  {
    assert lineTotal * tax >= 0;
  }

  /** No line is negative when the last one's share is at least half a cent for each other line. */
  lemma {:induction false} LargeLastShareIsEnough(lineTotals: seq<nat>, tax: nat, documentTotal: nat, taxes: seq<int>)
    requires Allocates(lineTotals, tax, documentTotal, taxes) && |taxes| > 0
    requires Sum(lineTotals) == documentTotal && (documentTotal > 0 || tax == 0)
    requires Share(lineTotals[|taxes| - 1], tax, documentTotal) >= 0.5 * (|taxes| - 1) as real
    ensures forall i :: 0 <= i < |taxes| ==> taxes[i] >= 0
  {
    hide Share;
    AllocationIsFair(lineTotals, tax, documentTotal, taxes);
    forall i | 0 <= i < |taxes| - 1
      ensures taxes[i] >= 0
    {
      ShareIsNonNegative(lineTotals[i], tax, documentTotal);
    }
  }

  /** A tax of at least a given fraction of the document gives every line that fraction. */
  lemma {:induction false} ShareAtLeast(lineTotal: nat, tax: nat, documentTotal: nat, fraction: real)
    requires documentTotal > 0 && tax as real >= fraction * documentTotal as real
    ensures Share(lineTotal, tax, documentTotal) >= fraction * lineTotal as real
  {
    var t, x, total := lineTotal as real, tax as real, documentTotal as real;
    assert t * x >= t * (fraction * total);
    assert t * (fraction * total) == (fraction * t) * total;
    assert (lineTotal * tax) as real == t * x;
  }

  lemma {:induction false} SumAtLeast(lineTotals: seq<int>, n: nat, least: nat)
    requires n <= |lineTotals| && forall i :: 0 <= i < |lineTotals| ==> lineTotals[i] >= least
    ensures SumBy(Cents, lineTotals, n) >= if n > 0 then least else 0
  {
    if n > 0 {
      SumAtLeast(lineTotals, n - 1, least);
    }
  }

  lemma {:induction false} TaxAtLeast(total: int, rate: real, tax: int)
    requires total >= 1250 && (rate == 0.0 || rate == 0.0825 || rate == 0.2)
    requires tax as real > total as real * rate - 0.5 && tax >= 0
    ensures tax as real >= (if rate == 0.0 then 0.0 else 0.08) * total as real
  {
    if rate == 0.0825 {
      assert total as real * rate == 0.0825 * total as real;
    } else if rate == 0.2 {
      assert total as real * rate == 0.2 * total as real;
    }
  }

  /** What the generator makes: up to three lines of at least 12.50 each, at one of three tax rates. There
      no line's tax is negative. */
  lemma {:induction false} GeneratedTaxesAreNonNegative(lineTotals: seq<nat>, rate: real, tax: nat, taxes: seq<int>)
    requires 0 < |lineTotals| <= 3 && forall i :: 0 <= i < |lineTotals| ==> lineTotals[i] >= 1250
    requires rate == 0.0 || rate == 0.0825 || rate == 0.2
    requires Sum(lineTotals) >= 0 && tax == RoundHalfUp(Sum(lineTotals) as real * rate)
    requires Allocates(lineTotals, tax, Sum(lineTotals), taxes)
    ensures forall i :: 0 <= i < |taxes| ==> taxes[i] >= 0
  {
    hide Share, Allocates;
    var total, last := Sum(lineTotals), lineTotals[|lineTotals| - 1];
    SumAtLeast(lineTotals, |lineTotals|, 1250);
    var fraction := if rate == 0.0 then 0.0 else 0.08;
    RoundHalfUpNearest(total as real * rate);
    TaxAtLeast(total, rate, tax);
    ShareAtLeast(last, tax, total, fraction);
    if rate == 0.0 {
      NoTaxNoShares(lineTotals, total, taxes);
    } else {
      assert fraction * last as real >= 1.0;
      SameLength(lineTotals, tax, total, taxes);
      LargeLastShareIsEnough(lineTotals, tax, total, taxes);
    }
  }

  lemma {:induction false} SameLength(lineTotals: seq<nat>, tax: nat, documentTotal: nat, taxes: seq<int>)
    requires Allocates(lineTotals, tax, documentTotal, taxes)
    ensures |taxes| == |lineTotals|
  {
  }

  lemma {:induction false} NoTaxNoShares(lineTotals: seq<nat>, documentTotal: nat, taxes: seq<int>)
    requires Allocates(lineTotals, 0, documentTotal, taxes)
    ensures forall i :: 0 <= i < |taxes| ==> taxes[i] == 0
  {
    forall i | 0 <= i < |taxes| - 1
      ensures taxes[i] == 0
    {
      assert Share(lineTotals[i], 0, documentTotal) == 0.0;
    }
    if |taxes| > 0 {
      AllZero(taxes, |taxes| - 1);
    }
  }

  lemma {:induction false} AllZero(taxes: seq<int>, n: nat)
    requires n <= |taxes| && forall i :: 0 <= i < n ==> taxes[i] == 0
    ensures SumBy(Cents, taxes, n) == 0
  {
    if n > 0 {
      AllZero(taxes, n - 1);
    }
  }

  // ---------------------------------------------------------------- invoices over payment runs

  const RUN_SIZE: nat := 20

  datatype Status = Paid | Approved | Open

  /** An invoice and its total in base currency. */
  datatype Invoice = Invoice(index: int, id: string, status: Status, baseCents: int)

  datatype Run = Run(invoices: seq<Invoice>, total: int, paid: bool)

  function PayableTo(invoices: seq<Invoice>, n: nat): seq<Invoice>
    requires n <= |invoices|
  {
    if n == 0 then []
    else PayableTo(invoices, n - 1) + if invoices[n - 1].status.Open? then [] else [invoices[n - 1]]
  }

  function PaidOrder(invoice: Invoice): int {
    if invoice.status.Paid? then 0 else 1
  }

  predicate NotAfter(a: Invoice, b: Invoice) {
    if PaidOrder(a) != PaidOrder(b) then PaidOrder(a) < PaidOrder(b) else a.index <= b.index
  }

  function Payable(invoices: seq<Invoice>): seq<Invoice> {
    Sorting.Sort(NotAfter, PayableTo(invoices, |invoices|))
  }

  function BaseCents(invoice: Invoice): int {
    invoice.baseCents
  }

  function Total(invoices: seq<Invoice>): int {
    SumBy(BaseCents, invoices, |invoices|)
  }

  predicate AllPaid(invoices: seq<Invoice>) {
    forall i :: 0 <= i < |invoices| ==> invoices[i].status.Paid?
  }

  /** The invoices of the first n runs, one run after the other. */
  function FlatTo(runs: seq<Run>, n: nat): seq<Invoice>
    requires n <= |runs|
  {
    if n == 0 then [] else FlatTo(runs, n - 1) + runs[n - 1].invoices
  }

  predicate IsRun(run: Run) {
    && 0 < |run.invoices| <= RUN_SIZE && run.total == Total(run.invoices)
    && (run.paid <==> AllPaid(run.invoices))
  }

  method CreateRun(runInvoices: seq<Invoice>) returns (run: Run)
    requires 0 < |runInvoices| <= RUN_SIZE
    ensures IsRun(run) && run.invoices == runInvoices
  {
    var total := 0;
    for i := 0 to |runInvoices|
      invariant total == SumBy(BaseCents, runInvoices, i)
    {
      total := total + runInvoices[i].baseCents;
    }
    var paid := forall i :: 0 <= i < |runInvoices| ==> runInvoices[i].status.Paid?;
    run := Run(runInvoices, total, paid);
  }

  /** Spreads the payable invoices over runs of twenty. */
  method CreatePaymentRuns(invoices: seq<Invoice>) returns (runs: seq<Run>)
    ensures FlatTo(runs, |runs|) == Payable(invoices)
    ensures forall r :: 0 <= r < |runs| ==> IsRun(runs[r]) && (r < |runs| - 1 ==> |runs[r].invoices| == 20)
  {
    hide IsRun, Payable;
    var payable := Payable(invoices);
    var runCount := (|payable| + RUN_SIZE - 1) / RUN_SIZE;
    runs := [];
    assert payable[..0] == [];
    for index := 0 to runCount
      invariant |runs| == index && FlatTo(runs, index) == payable[..Least(index * RUN_SIZE, |payable|)]
      invariant forall r :: 0 <= r < index ==> IsRun(runs[r]) && (r < runCount - 1 ==> |runs[r].invoices| == RUN_SIZE)
    {
      var from, to := index * RUN_SIZE, Least((index + 1) * RUN_SIZE, |payable|);
      var run := CreateRun(payable[from..to]);
      FlatOfPrefix(runs + [run], runs, index);
      assert payable[..from] + payable[from..to] == payable[..to];
      runs := runs + [run];
    }
    assert payable[..|payable|] == payable;
  }

  function Least(a: int, b: int): int {
    if a < b then a else b
  }

  lemma {:induction false} FlatOfPrefix(a: seq<Run>, b: seq<Run>, n: nat)
    requires n <= |a| && n <= |b| && forall i :: 0 <= i < n ==> a[i] == b[i]
    ensures FlatTo(a, n) == FlatTo(b, n)
  {
    if n > 0 {
      FlatOfPrefix(a, b, n - 1);
    }
  }

  function RunTotal(run: Run): int {
    run.total
  }

  /** No cent is lost or paid twice: the totals of the runs add up to the total of their invoices. */
  lemma {:induction false} RunTotalsAddUp(runs: seq<Run>, n: nat)
    requires n <= |runs| && forall r :: 0 <= r < |runs| ==> IsRun(runs[r])
    ensures SumBy(RunTotal, runs, n) == Total(FlatTo(runs, n))
  {
    if n > 0 {
      RunTotalsAddUp(runs, n - 1);
      SumByConcat(BaseCents, FlatTo(runs, n - 1), runs[n - 1].invoices, |runs[n - 1].invoices|);
    }
  }

  lemma {:induction false} PayableOccurs(invoices: seq<Invoice>, n: nat, invoice: Invoice)
    requires n <= |invoices|
    ensures multiset(PayableTo(invoices, n))[invoice]
         == if invoice.status == Paid || invoice.status == Approved then multiset(invoices[..n])[invoice] else 0
  {
    if n > 0 {
      PayableOccurs(invoices, n - 1, invoice);
      assert invoices[..n] == invoices[..n - 1] + [invoices[n - 1]];
    }
  }

  lemma {:induction false} PayableInOrder(invoices: seq<Invoice>)
    ensures Sorting.InOrder(NotAfter, Payable(invoices))
    ensures multiset(Payable(invoices)) == multiset(PayableTo(invoices, |invoices|))
  {
    assert Sorting.IsOrder(NotAfter);
    if |invoices| > 0 {
      Sorting.SortIsStable(NotAfter, PayableTo(invoices, |invoices|), invoices[0]);
    }
  }

  /** The payable invoices are the paid and the approved ones, each as often as it occurs, the paid ones first
      and either kind by index. */
  lemma {:induction false} PayableIsSorted(invoices: seq<Invoice>, invoice: Invoice)
    ensures multiset(Payable(invoices))[invoice]
         == if invoice.status == Paid || invoice.status == Approved then multiset(invoices)[invoice] else 0
    ensures forall i, j :: 0 <= i < j < |Payable(invoices)| ==>
              var (a, b) := (Payable(invoices)[i], Payable(invoices)[j]);
              (b.status == Paid ==> a.status == Paid) && ((a.status == Paid <==> b.status == Paid) ==> a.index <= b.index)
  {
    PayableInOrder(invoices);
    hide Payable;
    PayableOccurs(invoices, |invoices|, invoice);
    assert invoices[..|invoices|] == invoices;
    assert forall i, j :: 0 <= i < j < |Payable(invoices)| ==> NotAfter(Payable(invoices)[i], Payable(invoices)[j]);
  }

  /** Where the invoices of a run lie among all of them. */
  lemma {:induction false} PlaceInFlat(runs: seq<Run>, r: nat, k: nat, n: nat)
    requires r < n <= |runs| && k < |runs[r].invoices|
    ensures |FlatTo(runs, r)| + k < |FlatTo(runs, n)| && FlatTo(runs, n)[|FlatTo(runs, r)| + k] == runs[r].invoices[k]
    ensures |FlatTo(runs, r + 1)| <= |FlatTo(runs, n)|
  {
    if r < n - 1 {
      PlaceInFlat(runs, r, k, n - 1);
    }
  }

  lemma {:induction false} PaidComeFirst(invoices: seq<Invoice>)
    ensures forall i, j :: 0 <= i < j < |Payable(invoices)| && Payable(invoices)[j].status.Paid?
              ==> Payable(invoices)[i].status.Paid?
  {
    PayableInOrder(invoices);
    hide Payable;
    var payable := Payable(invoices);
    assert forall i, j :: 0 <= i < j < |payable| ==> NotAfter(payable[i], payable[j]);
  }

  predicate Mixed(run: Run) {
    && (exists i :: 0 <= i < |run.invoices| && run.invoices[i].status.Paid?)
    && exists i :: 0 <= i < |run.invoices| && !run.invoices[i].status.Paid?
  }

  /** Since paid invoices come first, at most one run has both paid and unpaid ones. */
  lemma {:induction false} AtMostOneMixedRun(invoices: seq<Invoice>, runs: seq<Run>, r: nat, s: nat)
    requires FlatTo(runs, |runs|) == Payable(invoices) && r < |runs| && s < |runs| && Mixed(runs[r]) && Mixed(runs[s])
    ensures r == s
  {
    hide Payable;
    if r > s {
      AtMostOneMixedRun(invoices, runs, s, r);
    } else if r < s {
      PaidComeFirst(invoices);
      var unpaid :| 0 <= unpaid < |runs[r].invoices| && !runs[r].invoices[unpaid].status.Paid?;
      var paid :| 0 <= paid < |runs[s].invoices| && runs[s].invoices[paid].status.Paid?;
      PlaceInFlat(runs, r, unpaid, |runs|);
      PlaceInFlat(runs, s, paid, |runs|);
      PlaceInFlat(runs, r, unpaid, s);
    }
  }
}
