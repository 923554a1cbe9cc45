// The payment block of a consumer invoice: what each allocation paid and the change given back, as
// amounts in text.
module NfcePayments {
  import opened Decimals
  import opened PaymentLedger

  datatype Result<T> = Ok(value: T) | NotCovered

  datatype Detail = Detail(code: string, amount: string)

  datatype PaymentBlock = PaymentBlock(details: seq<Detail>, change: string)

  function CodeOf(means: Means): string {
    match means
    case Cash => "01"
    case CreditCard => "03"
    case DebitCard => "04"
    case MealVoucher => "10"
    case PixManual => "17"
    case PixIntegrated => "17"
    case Courtesy => "90"
    case _ => "99"
  }

  // ---- amounts as text ----------------------------------------------------------------

  /** Reais with two decimals, the sign in front. */
  function Money(cents: int): string {
    if cents < 0 then "-" + Unsigned(0 - cents) else Unsigned(cents)
  }

  function Unsigned(cents: nat): string {
    Decimal(cents / 100) + "." + (Decimal(cents / 10 % 10) + Decimal(cents % 10))
  }

  /** The amount a reader of the text gets, in cents. */
  function ReadMoney(s: string): int {
    if |s| > 0 && s[0] == '-' then 0 - ReadUnsigned(s[1..]) else ReadUnsigned(s)
  }

  function ReadUnsigned(s: string): int {
    if |s| < 3 then 0 else 100 * Value(s[..|s| - 3]) + Value(s[|s| - 2..])
  }

  lemma UnsignedReads(cents: nat)
    ensures ReadUnsigned(Unsigned(cents)) == cents
    ensures Unsigned(cents) != "" && Unsigned(cents)[0] != '-'
  {
    var whole, tens, units := Decimal(cents / 100), Decimal(cents / 10 % 10), Decimal(cents % 10);
    var s := whole + "." + (tens + units);
    DecimalReads(cents / 100);
    DecimalReads(cents / 10 % 10);
    DecimalReads(cents % 10);
    OneDigit(cents / 10 % 10);
    OneDigit(cents % 10);
    ValueConcat(tens, units);
    assert s[..|s| - 3] == whole && s[|s| - 2..] == tens + units;
    TwoDigits(cents);
  }

  lemma TwoDigits(cents: nat)
    ensures 100 * (cents / 100) + 10 * (cents / 10 % 10) + cents % 10 == cents
  {
    var tens := cents / 10;
    assert cents == 10 * tens + cents % 10;
    assert tens == 10 * (tens / 10) + tens % 10;
    assert tens / 10 == cents / 100;
  }

  /** An amount written is the amount read. */
  lemma MoneyReads(cents: int)
    ensures ReadMoney(Money(cents)) == cents
  {
    if cents < 0 {
      UnsignedReads(0 - cents);
      assert ("-" + Unsigned(0 - cents))[1..] == Unsigned(0 - cents);
    } else {
      UnsignedReads(cents);
    }
  }

  // ---- the block ----------------------------------------------------------------------

  function PaymentDetails(allocations: seq<Allocation>): (details: seq<Detail>)
    ensures |details| == |allocations|
  {
    seq(|allocations|, i requires 0 <= i < |allocations| =>
      Detail(CodeOf(allocations[i].payment.means), Money(allocations[i].amountCents)))
  }

  function Change(paid: int, total: int): int {
    if paid > total then paid - total else 0
  }

  function BuildPayments(rows: seq<Row>, orderTotalCents: int): Result<PaymentBlock> {
    var allocations := Allocate(rows, rows);
    var paid := TotalCents(allocations);
    if paid < orderTotalCents then NotCovered
    else Ok(PaymentBlock(PaymentDetails(allocations), Money(Change(paid, orderTotalCents))))
  }

  /** What a reader adds up. */
  function ReadTotal(details: seq<Detail>): int {
    if details == [] then 0 else ReadTotal(details[..|details| - 1]) + ReadMoney(details[|details| - 1].amount)
  }

  lemma {:induction false} DetailsAddUp(allocations: seq<Allocation>)
    ensures ReadTotal(PaymentDetails(allocations)) == TotalCents(allocations)
    decreases |allocations|
  {
    if allocations != [] {
      var n := |allocations| - 1;
      DetailsAddUp(allocations[..n]);
      assert PaymentDetails(allocations)[..n] == PaymentDetails(allocations[..n]);
      MoneyReads(allocations[n].amountCents);
    }
  }

  lemma DetailsArePositive(allocations: seq<Allocation>)
    requires forall i :: 0 <= i < |allocations| ==> allocations[i].amountCents > 0
    ensures forall i :: 0 <= i < |allocations| ==> ReadMoney(PaymentDetails(allocations)[i].amount) > 0
  {
    forall i | 0 <= i < |allocations| ensures ReadMoney(PaymentDetails(allocations)[i].amount) > 0 {
      MoneyReads(allocations[i].amountCents);
    }
  }

  /** In every block produced, payments less change are the order's total, to the cent, as read from
      the text; the change is never negative and every payment is positive. */
  lemma PaymentsLessChangeIsTheTotal(rows: seq<Row>, orderTotalCents: int, block: PaymentBlock)
    requires BuildPayments(rows, orderTotalCents) == Ok(block)
    ensures ReadTotal(block.details) - ReadMoney(block.change) == orderTotalCents
    ensures ReadMoney(block.change) >= 0
    ensures forall i :: 0 <= i < |block.details| ==> ReadMoney(block.details[i].amount) > 0
  {
    var allocations := Allocate(rows, rows);
    DetailsAddUp(allocations);
    MoneyReads(Change(TotalCents(allocations), orderTotalCents));
    AllocationsAreCharges(rows, rows);
    DetailsArePositive(allocations);
  }

  /** When a block is produced, in terms of the ledger: the net paid must cover the order, but
      over-refunds and orphaned refunds do not count against it. */
  lemma CoveredIff(rows: seq<Row>, orderTotalCents: int)
    requires DistinctCharges(rows)
    ensures BuildPayments(rows, orderTotalCents).Ok? <==>
            orderTotalCents <= NetPaymentCents(rows) + OverRefunded(rows, rows) + OrphanedCents(rows, rows)
    ensures NetPaymentCents(rows) >= orderTotalCents ==> BuildPayments(rows, orderTotalCents).Ok?
  {
    Conservation(rows);
  }

  // ---- the block, written out ---------------------------------------------------------

  /** The code under which a means of payment is declared; a voucher, internal credit, an invoice and any
      other means are declared as other. */
  ghost predicate DeclaredAs(means: Means, code: string) {
    match means
    case Cash => code == "01"
    case CreditCard => code == "03"
    case DebitCard => code == "04"
    case MealVoucher => code == "10"
    case PixManual => code == "17"
    case PixIntegrated => code == "17"
    case Courtesy => code == "90"
    case Voucher => code == "99"
    case InternalCredit => code == "99"
    case Invoiced => code == "99"
    case OtherMeans(_) => code == "99"
  }

  /** Digits, a point and two digits, behind a minus sign if the amount is negative. */
  ghost predicate IsAmount(s: string, negative: bool) {
    var digits := if negative && s != "" then s[1..] else s;
    && (negative ==> s != "" && s[0] == '-')
    && |digits| >= 4 && digits[|digits| - 3] == '.'
    && forall i :: 0 <= i < |digits| && i != |digits| - 3 ==> '0' <= digits[i] <= '9'
  }

  lemma UnsignedIsAmount(cents: nat)
    ensures IsAmount(Unsigned(cents), false)
  {
    DecimalReads(cents / 100);
    DecimalReads(cents / 10 % 10);
    DecimalReads(cents % 10);
    OneDigit(cents / 10 % 10);
    OneDigit(cents % 10);
  }

  lemma MoneyIsAmount(cents: int)
    ensures IsAmount(Money(cents), cents < 0)
  {
    if cents < 0 {
      UnsignedIsAmount(0 - cents);
      assert ("-" + Unsigned(0 - cents))[1..] == Unsigned(0 - cents);
    } else {
      UnsignedIsAmount(cents);
    }
  }

  /** Each detail of a block declares one allocation, in order: the means it was paid by and, as a decimal
      amount, what is left of it. */
  lemma DetailsDeclareTheAllocations(rows: seq<Row>, orderTotalCents: int, block: PaymentBlock, i: nat)
    requires BuildPayments(rows, orderTotalCents) == Ok(block)
    ensures |block.details| == |Allocate(rows, rows)|
    ensures i < |block.details| ==>
              && DeclaredAs(Allocate(rows, rows)[i].payment.means, block.details[i].code)
              && IsAmount(block.details[i].amount, false)
              && ReadMoney(block.details[i].amount) == Allocate(rows, rows)[i].amountCents
  {
    if i < |block.details| {
      var allocation := Allocate(rows, rows)[i];
      AllocationsAreCharges(rows, rows);
      assert allocation in Allocate(rows, rows);
      MoneyReads(allocation.amountCents);
      MoneyIsAmount(allocation.amountCents);
    }
  }

  /** The change is a decimal amount: what is allocated beyond the order's total, or nothing. */
  lemma ChangeIsTheRest(rows: seq<Row>, orderTotalCents: int, block: PaymentBlock)
    requires BuildPayments(rows, orderTotalCents) == Ok(block)
    ensures IsAmount(block.change, false) && ReadMoney(block.change) == AllocatedCents(rows) - orderTotalCents
  {
    var change := Change(AllocatedCents(rows), orderTotalCents);
    MoneyReads(change);
    MoneyIsAmount(change);
  }
}
