// Two readings of one list of payment rows: the signed ledger, where a confirmed charge adds and a
// linked refund subtracts, and the allocation, which takes each charge's refunds off that charge
// and keeps what is left.
module PaymentLedger {
  import opened Options

  datatype Status = Confirmed | Refunded | OtherStatus(text: string)

  datatype PaymentType = Charge | Refund | OtherType(text: string)

  datatype Means =
    | Cash | CreditCard | DebitCard | MealVoucher | Voucher | PixManual | PixIntegrated | InternalCredit
    | Courtesy | Invoiced
    | OtherMeans(name: string)

  // A row without a payment type is a charge.
  datatype Row = Row(
    id: Option<string>, paymentId: Option<string>, amountCents: int, status: Status,
    paymentType: Option<PaymentType>, originalPaymentId: Option<string>, means: Means)

  datatype Allocation = Allocation(payment: Row, amountCents: int)

  function Abs(x: int): nat {
    if x < 0 then -x else x
  }

  /** A missing or empty identifier links nothing. */
  predicate Present(id: Option<string>) {
    id.Some? && id.value != ""
  }

  predicate IsRefund(row: Row) {
    row.paymentType == Some(Refund) && row.status.Refunded? && Present(row.originalPaymentId)
  }

  predicate IsCharge(row: Row) {
    (row.paymentType == None || row.paymentType == Some(Charge)) && row.status.Confirmed?
  }

  /** The identifier refunds refer to; an empty `id` is taken, and then links nothing. */
  function ChargeId(row: Row): Option<string> {
    var id := if row.id.Some? then row.id else row.paymentId;
    if Present(id) then id else None
  }

  function DeltaCents(row: Row): int {
    if IsRefund(row) then 0 - Abs(row.amountCents) else if IsCharge(row) then Abs(row.amountCents) else 0
  }

  function NetPaymentCents(rows: seq<Row>): int {
    if rows == [] then 0 else NetPaymentCents(rows[..|rows| - 1]) + DeltaCents(rows[|rows| - 1])
  }

  // ---- the allocation -----------------------------------------------------------------

  /** The refunds linked to one identifier. */
  function RefundsOf(rows: seq<Row>, id: string): nat {
    if rows == [] then 0
    else
      var last := rows[|rows| - 1];
      RefundsOf(rows[..|rows| - 1], id)
      + (if IsRefund(last) && last.originalPaymentId == Some(id) then Abs(last.amountCents) else 0)
  }

  function RefundedOn(rows: seq<Row>, charge: Row): nat {
    if ChargeId(charge).Some? then RefundsOf(rows, ChargeId(charge).value) else 0
  }

  function Remaining(rows: seq<Row>, charge: Row): nat {
    var left := Abs(charge.amountCents) - RefundedOn(rows, charge);
    if left > 0 then left else 0
  }

  /** The allocations of the charges among `some`, with all the refunds in `rows`. */
  function Allocate(rows: seq<Row>, some: seq<Row>): seq<Allocation> {
    if some == [] then []
    else
      var last := some[|some| - 1];
      Allocate(rows, some[..|some| - 1])
      + (if IsCharge(last) && Remaining(rows, last) > 0 then [Allocation(last, Remaining(rows, last))] else [])
  }

  function TotalCents(allocations: seq<Allocation>): int {
    if allocations == [] then 0
    else TotalCents(allocations[..|allocations| - 1]) + allocations[|allocations| - 1].amountCents
  }

  lemma OneMoreAllocation(allocations: seq<Allocation>, a: Allocation)
    ensures TotalCents(allocations + [a]) == TotalCents(allocations) + a.amountCents
  {
  }

  function AllocatedCents(rows: seq<Row>): int {
    TotalCents(Allocate(rows, rows))
  }

  ghost predicate Collected(refunds: map<string, int>, rows: seq<Row>) {
    forall id :: (if id in refunds then refunds[id] else 0) == RefundsOf(rows, id)
  }

  /** The first loop: refunds collected by the charge they refer to. */
  method CollectRefunds(rows: seq<Row>) returns (refunds: map<string, int>)
    ensures Collected(refunds, rows)
  {
    refunds := map[];
    var i := 0;
    while i < |rows|
      invariant i <= |rows|
      invariant Collected(refunds, rows[..i])
    {
      var row := rows[i];
      assert rows[..i + 1][..i] == rows[..i];
      if IsRefund(row) {
        var id := row.originalPaymentId.value;
        refunds := refunds[id := (if id in refunds then refunds[id] else 0) + Abs(row.amountCents)];
      }
      i := i + 1;
    }
    assert rows[..i] == rows;
  }

  function Left(refunds: map<string, int>, row: Row): int {
    var id := ChargeId(row);
    Abs(row.amountCents) - (if id.Some? && id.value in refunds then refunds[id.value] else 0)
  }

  lemma LeftIsRemaining(refunds: map<string, int>, rows: seq<Row>, row: Row)
    requires Collected(refunds, rows)
    ensures Remaining(rows, row) == if Left(refunds, row) > 0 then Left(refunds, row) else 0
  {
  }

  lemma {:induction false} AllocationsAreCharges(rows: seq<Row>, some: seq<Row>)
    ensures forall a :: a in Allocate(rows, some) ==>
              a.payment in some && IsCharge(a.payment) && 0 < a.amountCents <= Abs(a.payment.amountCents)
    decreases |some|
  {
    if some != [] {
      AllocationsAreCharges(rows, some[..|some| - 1]);
    }
  }

  /** The second pass: each confirmed charge that has something left, in the order of the rows. */
  method SummarizeNetChargeAllocations(rows: seq<Row>) returns (allocations: seq<Allocation>, totalCents: int)
    ensures allocations == Allocate(rows, rows) && totalCents == AllocatedCents(rows)
    ensures forall a :: a in allocations ==>
            a.payment in rows && IsCharge(a.payment) && 0 < a.amountCents <= Abs(a.payment.amountCents)
  {
    AllocationsAreCharges(rows, rows);
    var refunds := CollectRefunds(rows);
    allocations, totalCents := [], 0;
    var i := 0;
    while i < |rows|
      invariant i <= |rows|
      invariant allocations == Allocate(rows, rows[..i]) && totalCents == TotalCents(allocations)
    {
      var row := rows[i];
      assert rows[..i + 1][..i] == rows[..i];
      LeftIsRemaining(refunds, rows, row);
      if IsCharge(row) && Left(refunds, row) > 0 {
        OneMoreAllocation(allocations, Allocation(row, Left(refunds, row)));
        allocations, totalCents := allocations + [Allocation(row, Left(refunds, row))], totalCents + Left(refunds, row);
      }
      i := i + 1;
    }
    assert rows[..i] == rows;
  }

  // ---- conservation -------------------------------------------------------------------

  function ChargesCents(rows: seq<Row>): nat {
    if rows == [] then 0
    else
      ChargesCents(rows[..|rows| - 1])
      + (if IsCharge(rows[|rows| - 1]) then Abs(rows[|rows| - 1].amountCents) else 0)
  }

  function RefundsCents(rows: seq<Row>): nat {
    if rows == [] then 0
    else
      RefundsCents(rows[..|rows| - 1])
      + (if IsRefund(rows[|rows| - 1]) then Abs(rows[|rows| - 1].amountCents) else 0)
  }

  /** Refunds beyond what a charge was worth, summed over the charges of `some`. */
  function OverRefunded(rows: seq<Row>, some: seq<Row>): nat {
    if some == [] then 0
    else OverRefunded(rows, some[..|some| - 1]) + OverRefund(rows, some[|some| - 1])
  }

  function OverRefund(rows: seq<Row>, row: Row): nat {
    if IsCharge(row) && RefundedOn(rows, row) > Abs(row.amountCents)
    then RefundedOn(rows, row) - Abs(row.amountCents) else 0
  }

  predicate HasId(row: Row, id: string) {
    IsCharge(row) && ChargeId(row) == Some(id)
  }

  /** How many confirmed charges an identifier names. */
  function ChargesNamed(rows: seq<Row>, id: string): nat {
    if rows == [] then 0 else ChargesNamed(rows[..|rows| - 1], id) + (if HasId(rows[|rows| - 1], id) then 1 else 0)
  }

  /** What the allocation takes off charges, before stopping at zero. */
  function TakenOff(rows: seq<Row>, some: seq<Row>): nat {
    if some == [] then 0
    else
      TakenOff(rows, some[..|some| - 1])
      + (if IsCharge(some[|some| - 1]) then RefundedOn(rows, some[|some| - 1]) else 0)
  }

  /** The same, refund by refund: each counts once for every charge it names. */
  function Charged(some: seq<Row>, rows: seq<Row>): int {
    if some == [] then 0
    else Charged(some[..|some| - 1], rows) + ChargedOnce(some[|some| - 1], rows)
  }

  function ChargedOnce(row: Row, rows: seq<Row>): int {
    if IsRefund(row) then Abs(row.amountCents) * ChargesNamed(rows, row.originalPaymentId.value) else 0
  }

  lemma {:induction false} LedgerSplits(rows: seq<Row>)
    ensures NetPaymentCents(rows) == ChargesCents(rows) - RefundsCents(rows)
    decreases |rows|
  {
    if rows != [] {
      LedgerSplits(rows[..|rows| - 1]);
    }
  }

  lemma {:induction false} AllocatedSplits(rows: seq<Row>, some: seq<Row>)
    ensures TotalCents(Allocate(rows, some)) == ChargesCents(some) - TakenOff(rows, some) + OverRefunded(rows, some)
    decreases |some|
  {
    if some != [] {
      var init, last := some[..|some| - 1], some[|some| - 1];
      AllocatedSplits(rows, init);
      var before := Allocate(rows, init);
      OneMoreAllocation(before, Allocation(last, Remaining(rows, last)));
      assert before + [] == before;
    }
  }

  lemma {:induction false} OneMoreCharge(some: seq<Row>, rows: seq<Row>)
    requires rows != []
    ensures var last := rows[|rows| - 1];
            Charged(some, rows) ==
              Charged(some, rows[..|rows| - 1]) + (if IsCharge(last) then RefundedOn(some, last) else 0)
    decreases |some|
  {
    if some != [] {
      OneMoreCharge(some[..|some| - 1], rows);
      var refund, init, last := some[|some| - 1], rows[..|rows| - 1], rows[|rows| - 1];
      if IsRefund(refund) {
        Distribute(Abs(refund.amountCents), ChargesNamed(init, refund.originalPaymentId.value));
      }
    }
  }

  lemma Distribute(a: int, n: int)
    ensures a * (n + 1) == a * n + a
  {
  }

  /** Summing over charges the refunds that name them, or over refunds the charges they name. */
  lemma {:induction false} DoubleCounting(rows: seq<Row>, some: seq<Row>)
    ensures TakenOff(rows, some) == Charged(rows, some)
    decreases |some|
  {
    if some == [] {
      NoCharges(rows);
    } else {
      DoubleCounting(rows, some[..|some| - 1]);
      OneMoreCharge(rows, some);
    }
  }

  lemma {:induction false} NoCharges(rows: seq<Row>)
    ensures Charged(rows, []) == 0
    decreases |rows|
  {
    if rows != [] {
      NoCharges(rows[..|rows| - 1]);
    }
  }

  /** Exactly, for any rows: the allocation exceeds the ledger by what refunds took beyond a charge's
      worth, less what was taken more than once, plus what was never taken. */
  lemma ExactDifference(rows: seq<Row>)
    ensures AllocatedCents(rows) - NetPaymentCents(rows) ==
            OverRefunded(rows, rows) + RefundsCents(rows) - Charged(rows, rows)
  {
    LedgerSplits(rows);
    AllocatedSplits(rows, rows);
    DoubleCounting(rows, rows);
  }

  // ---- distinct charges ---------------------------------------------------------------

  /** No two confirmed charges have the same identifier. */
  ghost predicate DistinctCharges(rows: seq<Row>) {
    forall i, j, id :: 0 <= i < j < |rows| && HasId(rows[i], id) ==> !HasId(rows[j], id)
  }

  /** Refunds that name no confirmed charge. */
  function OrphanedCents(some: seq<Row>, rows: seq<Row>): nat {
    if some == [] then 0
    else OrphanedCents(some[..|some| - 1], rows) + Orphaned(some[|some| - 1], rows)
  }

  function Orphaned(row: Row, rows: seq<Row>): nat {
    if IsRefund(row) && ChargesNamed(rows, row.originalPaymentId.value) == 0 then Abs(row.amountCents) else 0
  }

  lemma {:induction false} NamedAtMostOnce(rows: seq<Row>, id: string)
    requires DistinctCharges(rows)
    ensures ChargesNamed(rows, id) <= 1
    ensures ChargesNamed(rows, id) == 0 <==> forall i :: 0 <= i < |rows| ==> !HasId(rows[i], id)
    decreases |rows|
  {
    if rows != [] {
      var init := rows[..|rows| - 1];
      assert DistinctCharges(init);
      NamedAtMostOnce(init, id);
      if HasId(rows[|rows| - 1], id) {
        assert forall i :: 0 <= i < |init| ==> init[i] == rows[i] && !HasId(rows[i], id);
      }
    }
  }

  lemma {:induction false} OrphansAreTheRest(some: seq<Row>, rows: seq<Row>)
    requires DistinctCharges(rows)
    ensures RefundsCents(some) - Charged(some, rows) == OrphanedCents(some, rows)
    decreases |some|
  {
    if some != [] {
      OrphansAreTheRest(some[..|some| - 1], rows);
      var last := some[|some| - 1];
      if IsRefund(last) {
        NamedAtMostOnce(rows, last.originalPaymentId.value);
      }
    }
  }

  /** With distinct charges the two readings differ by over-refunds and orphaned refunds only. */
  lemma Conservation(rows: seq<Row>)
    requires DistinctCharges(rows)
    ensures AllocatedCents(rows) == NetPaymentCents(rows) + OverRefunded(rows, rows) + OrphanedCents(rows, rows)
    ensures NetPaymentCents(rows) <= AllocatedCents(rows) <= ChargesCents(rows)
  {
    ExactDifference(rows);
    OrphansAreTheRest(rows, rows);
    AllocatedSplits(rows, rows);
    AtMostTheCharges(rows, rows);
  }

  lemma {:induction false} AtMostTheCharges(rows: seq<Row>, some: seq<Row>)
    ensures OverRefunded(rows, some) <= TakenOff(rows, some)
    decreases |some|
  {
    if some != [] {
      AtMostTheCharges(rows, some[..|some| - 1]);
    }
  }

  lemma {:induction false} NoneOver(rows: seq<Row>, some: seq<Row>)
    ensures OverRefunded(rows, some) == 0 <==>
            forall i :: 0 <= i < |some| && IsCharge(some[i]) ==> RefundedOn(rows, some[i]) <= Abs(some[i].amountCents)
    decreases |some|
  {
    if some != [] {
      var init := some[..|some| - 1];
      NoneOver(rows, init);
      assert forall i :: 0 <= i < |init| ==> init[i] == some[i];
    }
  }

  lemma {:induction false} NoneOrphaned(some: seq<Row>, rows: seq<Row>)
    ensures OrphanedCents(some, rows) == 0 <==> forall i :: 0 <= i < |some| ==> Orphaned(some[i], rows) == 0
    decreases |some|
  {
    if some != [] {
      var init := some[..|some| - 1];
      NoneOrphaned(init, rows);
      assert forall i :: 0 <= i < |init| ==> init[i] == some[i];
    }
  }

  /** They agree exactly when no charge is refunded beyond its worth and every refund of a positive
      amount names a confirmed charge. */
  lemma AgreeIff(rows: seq<Row>)
    requires DistinctCharges(rows)
    ensures AllocatedCents(rows) == NetPaymentCents(rows) <==>
            && (forall i :: 0 <= i < |rows| && IsCharge(rows[i]) ==>
                RefundedOn(rows, rows[i]) <= Abs(rows[i].amountCents))
            && (forall i :: 0 <= i < |rows| && IsRefund(rows[i]) && rows[i].amountCents != 0 ==>
                  exists j :: 0 <= j < |rows| && HasId(rows[j], rows[i].originalPaymentId.value))
  {
    Conservation(rows);
    NoneOver(rows, rows);
    NoneOrphaned(rows, rows);
    forall i | 0 <= i < |rows| && IsRefund(rows[i])
      ensures Orphaned(rows[i], rows) == 0 <==>
              rows[i].amountCents == 0 || exists j :: 0 <= j < |rows| && HasId(rows[j], rows[i].originalPaymentId.value)
    {
      NamedAtMostOnce(rows, rows[i].originalPaymentId.value);
    }
  }

  /** Two confirmed charges under one identifier: the same refund is taken off both, and the
      allocation falls below the ledger. */
  lemma SharedIdentifierLosesMoney(a: Row, b: Row, refund: Row, id: string)
    requires HasId(a, id) && HasId(b, id) && IsRefund(refund) && refund.originalPaymentId == Some(id)
    requires 0 < Abs(refund.amountCents) <= Abs(a.amountCents) && Abs(refund.amountCents) <= Abs(b.amountCents)
    ensures AllocatedCents([a, b, refund]) == NetPaymentCents([a, b, refund]) - Abs(refund.amountCents)
  {
    var rows := [a, b, refund];
    assert rows[..2] == [a, b] && [a, b][..1] == [a] && [a][..0] == [];
    assert RefundsOf(rows, id) == RefundsOf(rows[..2], id) + Abs(refund.amountCents);
    assert RefundsOf([a, b], id) == RefundsOf([a], id) == RefundsOf([], id) == 0;
    assert RefundedOn(rows, a) == RefundedOn(rows, b) == Abs(refund.amountCents);
    LedgerSplits(rows);
    AllocatedSplits(rows, rows);
    assert RefundsCents([a, b]) == RefundsCents([a]) == RefundsCents([]) == 0;
    assert TakenOff(rows, [a]) == TakenOff(rows, []) + Abs(refund.amountCents);
    assert TakenOff(rows, [a, b]) == TakenOff(rows, [a]) + Abs(refund.amountCents);
    assert TakenOff(rows, rows) == TakenOff(rows, [a, b]);
    assert OverRefunded(rows, [a]) == OverRefunded(rows, []) == 0;
    assert OverRefunded(rows, [a, b]) == OverRefunded(rows, [a]);
    assert OverRefunded(rows, rows) == OverRefunded(rows, [a, b]);
  }
}
