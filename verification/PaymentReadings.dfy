// Which rows the ledger counts, written out, and its third reading, the one the database makes.
module PaymentReadings {
  import opened Options
  import opened PaymentLedger

  // ---- the rows that count ------------------------------------------------------------

  ghost predicate CountsAsCharge(row: Row) {
    row.status == Confirmed && (row.paymentType == None || row.paymentType == Some(Charge))
  }

  ghost predicate CountsAsRefund(row: Row) {
    row.status == Refunded && row.paymentType == Some(Refund)
    && row.originalPaymentId.Some? && row.originalPaymentId.value != ""
  }

  /** Refunds name a charge by its identifier, or by its payment's if it has none; an empty one names
      nothing. */
  ghost predicate GoesBy(row: Row, id: string) {
    id != "" && (row.id == Some(id) || (row.id == None && row.paymentId == Some(id)))
  }

  ghost function Cents(row: Row): nat {
    if row.amountCents < 0 then 0 - row.amountCents else row.amountCents
  }

  lemma RowCounts(row: Row, id: string)
    ensures IsCharge(row) <==> CountsAsCharge(row)
    ensures IsRefund(row) <==> CountsAsRefund(row)
    ensures ChargeId(row) == Some(id) <==> GoesBy(row, id)
    ensures !(CountsAsCharge(row) && CountsAsRefund(row))
  {
  }

  /** One more row moves the ledger up by a charge and down by a refund, whatever the amount's sign, and
      not at all otherwise. */
  lemma OneMoreRow(rows: seq<Row>, row: Row)
    ensures NetPaymentCents(rows + [row]) == NetPaymentCents(rows)
            + (if CountsAsCharge(row) then Cents(row) else 0) - (if CountsAsRefund(row) then Cents(row) else 0)
  {
    RowCounts(row, "");
  }

  /** One more row adds to the refunds of an identifier what it refunds of it. */
  lemma OneMoreRefund(rows: seq<Row>, row: Row, id: string)
    ensures RefundsOf(rows + [row], id) == RefundsOf(rows, id)
            + (if CountsAsRefund(row) && row.originalPaymentId == Some(id) then Cents(row) else 0)
  {
    RowCounts(row, id);
  }

  // ---- when the two readings agree ----------------------------------------------------

  /** No identifier names two charges. */
  ghost predicate NamedApart(rows: seq<Row>) {
    forall i, j, id :: 0 <= i < j < |rows| && CountsAsCharge(rows[i]) && CountsAsCharge(rows[j]) ==>
      !(GoesBy(rows[i], id) && GoesBy(rows[j], id))
  }

  /** No charge is refunded beyond its worth. */
  ghost predicate NoneRefundedBeyond(rows: seq<Row>) {
    forall i, id :: 0 <= i < |rows| && CountsAsCharge(rows[i]) && GoesBy(rows[i], id) ==>
      RefundsOf(rows, id) <= Cents(rows[i])
  }

  /** Every refund of something names a charge. */
  ghost predicate AllRefundsLinked(rows: seq<Row>) {
    forall i :: 0 <= i < |rows| && CountsAsRefund(rows[i]) && rows[i].amountCents != 0 ==>
      exists j :: 0 <= j < |rows| && CountsAsCharge(rows[j]) && GoesBy(rows[j], rows[i].originalPaymentId.value)
  }

  lemma NamedApartIff(rows: seq<Row>)
    ensures DistinctCharges(rows) <==> NamedApart(rows)
  {
    forall i, id | 0 <= i < |rows| ensures HasId(rows[i], id) <==> CountsAsCharge(rows[i]) && GoesBy(rows[i], id) {
      RowCounts(rows[i], id);
    }
  }

  lemma WithinWorthIff(rows: seq<Row>, row: Row)
    requires CountsAsCharge(row)
    ensures RefundedOn(rows, row) <= Abs(row.amountCents) <==>
            forall id :: GoesBy(row, id) ==> RefundsOf(rows, id) <= Cents(row)
  {
    forall id ensures ChargeId(row) == Some(id) <==> GoesBy(row, id) {
      RowCounts(row, id);
    }
    if ChargeId(row).Some? {
      assert GoesBy(row, ChargeId(row).value);
    }
  }

  lemma LinkedIff(rows: seq<Row>, row: Row)
    requires CountsAsRefund(row)
    ensures (exists j :: 0 <= j < |rows| && HasId(rows[j], row.originalPaymentId.value)) <==>
            exists j :: 0 <= j < |rows| && CountsAsCharge(rows[j]) && GoesBy(rows[j], row.originalPaymentId.value)
  {
    forall j | 0 <= j < |rows|
      ensures HasId(rows[j], row.originalPaymentId.value) <==>
              CountsAsCharge(rows[j]) && GoesBy(rows[j], row.originalPaymentId.value)
    {
      RowCounts(rows[j], row.originalPaymentId.value);
    }
  }

  lemma RowsCount(rows: seq<Row>)
    ensures forall i :: 0 <= i < |rows| ==> (IsCharge(rows[i]) <==> CountsAsCharge(rows[i]))
    ensures forall i :: 0 <= i < |rows| ==> (IsRefund(rows[i]) <==> CountsAsRefund(rows[i]))
  {
    forall i | 0 <= i < |rows|
      ensures (IsCharge(rows[i]) <==> CountsAsCharge(rows[i])) && (IsRefund(rows[i]) <==> CountsAsRefund(rows[i]))
    {
      RowCounts(rows[i], "");
    }
  }

  /** For charges named apart, the allocated total is the ledger's net exactly when no charge is refunded
      beyond its worth and every refund of something names a charge. */
  lemma TotalsAgreeIff(rows: seq<Row>)
    requires NamedApart(rows)
    ensures AllocatedCents(rows) == NetPaymentCents(rows) <==> NoneRefundedBeyond(rows) && AllRefundsLinked(rows)
  {
    NamedApartIff(rows);
    RowsCount(rows);
    AgreeIff(rows);
    forall i | 0 <= i < |rows| && CountsAsCharge(rows[i])
      ensures RefundedOn(rows, rows[i]) <= Abs(rows[i].amountCents) <==>
              forall id :: GoesBy(rows[i], id) ==> RefundsOf(rows, id) <= Cents(rows[i])
    {
      WithinWorthIff(rows, rows[i]);
    }
    forall i | 0 <= i < |rows| && CountsAsRefund(rows[i])
      ensures (exists j :: 0 <= j < |rows| && HasId(rows[j], rows[i].originalPaymentId.value)) <==>
              exists j :: 0 <= j < |rows| && CountsAsCharge(rows[j])
                          && GoesBy(rows[j], rows[i].originalPaymentId.value)
    {
      LinkedIff(rows, rows[i]);
    }
  }

  // ---- the database's reading ---------------------------------------------------------

  /** The database's own case distinction: a row without a type is no charge to it, and a refund is linked
      as soon as its link is not null. */
  function SqlDeltaCents(row: Row): int {
    if row.paymentType == Some(Refund) && row.status.Refunded? && row.originalPaymentId != None
    then 0 - Abs(row.amountCents)
    else if row.paymentType == Some(Charge) && row.status.Confirmed? then Abs(row.amountCents)
    else 0
  }

  function SqlNetCents(rows: seq<Row>): int {
    if rows == [] then 0 else SqlNetCents(rows[..|rows| - 1]) + SqlDeltaCents(rows[|rows| - 1])
  }

  /** The rows the two read differently: a confirmed one without a type, and a refund whose link is empty. */
  ghost predicate IsReadApart(row: Row) {
    || (row.paymentType == None && row.status == Confirmed)
    || (row.paymentType == Some(Refund) && row.status == Refunded
        && row.originalPaymentId.Some? && row.originalPaymentId.value == "")
  }

  lemma {:induction false} TheDatabaseReadsNoMore(rows: seq<Row>)
    ensures SqlNetCents(rows) <= NetPaymentCents(rows)
    ensures SqlNetCents(rows) == NetPaymentCents(rows) <==>
            forall i :: 0 <= i < |rows| && IsReadApart(rows[i]) ==> rows[i].amountCents == 0
    decreases |rows|
  {
    if rows != [] {
      var init, last := rows[..|rows| - 1], rows[|rows| - 1];
      TheDatabaseReadsNoMore(init);
      assert SqlDeltaCents(last) <= DeltaCents(last);
      assert SqlDeltaCents(last) == DeltaCents(last) <==> (IsReadApart(last) ==> last.amountCents == 0);
      assert forall i :: 0 <= i < |init| ==> init[i] == rows[i];
    }
  }
}
