/**
 Billing rows and the status machine of one billing record.
 The functions say what one operation does to a row; `RecordEntity` is the mutable
 object the service loads, and each of its methods is proved against its function.
 Money is integer cents, dates are integer day numbers.
 */
module Billing {
  import opened Wrappers
  import LateFee

  datatype Status = Pending | PartiallyPaid | Paid | Overdue | WrittenOff

  predicate Terminal(s: Status) { s == Paid || s == WrittenOff }

  predicate Unpaid(s: Status) { s in {Pending, PartiallyPaid, Overdue} }

  /** The table of legal status changes. */
  function ValidTransitions(s: Status): set<Status> {
    match s
    case Pending => {Overdue, PartiallyPaid, Paid}
    case PartiallyPaid => {Paid, Overdue, WrittenOff}
    case Overdue => {PartiallyPaid, Paid, WrittenOff}
    case Paid => {}
    case WrittenOff => {}
  }

  /** Exactly one of a flat amount and a percentage; the table constraint makes this a sum. */
  datatype FeeTerms = Flat(cents: nat) | Percent(hundredths: nat)

  datatype Lease = Lease(contractId: nat, monthlyRent: int, dueDay: int, fee: FeeTerms, graceDays: int, startDate: int)

  predicate LeaseOk(l: Lease) {
    && l.monthlyRent > 0 && 1 <= l.dueDay <= 31 && l.graceDays >= 0
    && (l.fee.Flat? ==> l.fee.cents > 0)
    && (l.fee.Percent? ==> 0 < l.fee.hundredths <= 10000)
  }

  datatype BillingRecord = BillingRecord(
    leaseId: nat, periodStart: int, periodEnd: int, dueDate: int, amountDue: int,
    lateFeeApplied: bool, lateFeeCharged: Option<int>, overpaid: Option<int>, status: Status)

  /** The check constraints of the billing_records table. */
  predicate RecordOk(r: BillingRecord) {
    && r.amountDue > 0
    && (r.lateFeeCharged.Some? ==> r.lateFeeCharged.value > 0)
    && (r.overpaid.Some? ==> r.overpaid.value > 0)
    && (r.lateFeeApplied <==> r.lateFeeCharged.Some?)
    && r.periodEnd > r.periodStart && r.dueDate >= r.periodStart
  }

  datatype Error =
    | NotFound | InvalidTransition | AlreadyGenerated | CorrectionNotAllowed
    | AlreadyVoided | ConstraintViolated | PayloadRejected | NotLongTerm

  datatype Result<+T> = Ok(value: T) | Err(error: Error)

  function TotalOwed(r: BillingRecord): int {
    r.amountDue + r.lateFeeCharged.GetOr(0)
  }

  function Transition(r: BillingRecord, s: Status): Result<BillingRecord> {
    if s in ValidTransitions(r.status) then Ok(r.(status := s)) else Err(InvalidTransition)
  }

  function FeeFor(r: BillingRecord, l: Lease): int {
    match l.fee
    case Flat(cents) => cents
    case Percent(h) => if r.amountDue >= 0 then LateFee.PercentFee(r.amountDue, h) else 0
  }

  /** The record is open and the date is past its due date plus the grace period. */
  predicate PastDue(r: BillingRecord, l: Lease, asOf: int) {
    r.status in {Pending, PartiallyPaid} && asOf > r.dueDate + l.graceDays
  }

  /** Overdue evaluation: flush refuses a row that breaks a check constraint. */
  function Evaluate(r: BillingRecord, l: Lease, asOf: int): Result<BillingRecord> {
    if !PastDue(r, l, asOf) then Ok(r)
    else
      match Transition(r, Overdue)
      case Err(e) => Err(e)
      case Ok(late) =>
        var charged := if late.lateFeeApplied then late
                       else late.(lateFeeCharged := Some(FeeFor(late, l)), lateFeeApplied := true);
        if RecordOk(charged) then Ok(charged) else Err(ConstraintViolated)
  }

  /** Status from the cumulative non-voided payments; a surplus is kept on a paid record. */
  function ApplyPayment(r: BillingRecord, paid: int): Result<BillingRecord> {
    var target := if paid >= TotalOwed(r) then Paid else PartiallyPaid;
    var moved := if Terminal(r.status) || target == r.status then Ok(r) else Transition(r, target);
    if moved.Ok? && moved.value.status == Paid then
      Ok(moved.value.(overpaid := if paid > TotalOwed(r) then Some(paid - TotalOwed(r)) else None))
    else moved
  }

  /** One loaded row: an object whose methods assign its fields in place. */
  class RecordEntity {
    const key: BillingRecord
    var lateFeeApplied: bool
    var lateFeeCharged: Option<int>
    var overpaid: Option<int>
    var status: Status

    /** The row this object would be flushed as. */
    function Row(): BillingRecord
      reads this
    {
      key.(lateFeeApplied := lateFeeApplied, lateFeeCharged := lateFeeCharged, overpaid := overpaid, status := status)
    }

    constructor (row: BillingRecord)
      ensures Row() == row
    {
      key := row;
      lateFeeApplied, lateFeeCharged := row.lateFeeApplied, row.lateFeeCharged;
      overpaid, status := row.overpaid, row.status;
    }

    method DoTransition(newStatus: Status) returns (ok: bool)
      modifies this`status
      ensures ok <==> newStatus in ValidTransitions(old(status))
      ensures status == if ok then newStatus else old(status)
      ensures ok ==> Transition(old(Row()), newStatus) == Ok(Row())
      ensures !ok ==> Transition(old(Row()), newStatus) == Err(InvalidTransition)
    {
      ok := newStatus in ValidTransitions(status);
      if ok {
        status := newStatus;
      }
    }

    /** Assigns fields in place; the flush at the end is what can still refuse the row. */
    method DoEvaluate(l: Lease, asOf: int) returns (e: Option<Error>)
      modifies this
      ensures e == None ==> Evaluate(old(Row()), l, asOf) == Ok(Row())
      ensures e.Some? ==> Evaluate(old(Row()), l, asOf) == Err(e.value)
    {
      if status != Pending && status != PartiallyPaid {
        return None;
      }
      var cutoff := key.dueDate + l.graceDays;
      if asOf <= cutoff {
        return None;
      }
      var ok := DoTransition(Overdue);
      if !ok {
        return Some(InvalidTransition);
      }
      if !lateFeeApplied {
        var fee := FeeFor(Row(), l);
        lateFeeCharged := Some(fee);
        lateFeeApplied := true;
      }
      e := if RecordOk(Row()) then None else Some(ConstraintViolated);
    }

    method DoApplyPayment(paid: int) returns (e: Option<Error>)
      modifies this
      ensures e == None ==> ApplyPayment(old(Row()), paid) == Ok(Row())
      ensures e.Some? ==> ApplyPayment(old(Row()), paid) == Err(e.value)
    {
      var totalDue := TotalOwed(Row());
      var excess := paid - totalDue;
      if status != Paid && status != WrittenOff {
        var target := if paid >= totalDue then Paid else PartiallyPaid;
        if target != status {
          var ok := DoTransition(target);
          if !ok {
            return Some(InvalidTransition);
          }
        }
      }
      if status == Paid {
        overpaid := if excess > 0 then Some(excess) else None;
      }
      e := None;
    }
  }

  // ----- what one operation on one record can do -----

  /**
   The whole table: from an open status to any other but back to pending, and never straight from pending to
   written off.
   */
  lemma TableMeaning(s: Status, s': Status)
    ensures s' in ValidTransitions(s) <==>
              s in {Pending, PartiallyPaid, Overdue} && s' != s && s' != Pending && !(s == Pending && s' == WrittenOff)
  {}

  /** Overdue evaluation never fails on the transition; it fails exactly when a first fee rounds to nothing. */
  lemma EvaluateFails(r: BillingRecord, l: Lease, asOf: int)
    requires RecordOk(r) && LeaseOk(l)
    ensures Evaluate(r, l, asOf).Err? <==>
              PastDue(r, l, asOf) && !r.lateFeeApplied && l.fee.Percent? && r.amountDue * l.fee.hundredths <= 5000
    ensures Evaluate(r, l, asOf).Err? ==> Evaluate(r, l, asOf).error == ConstraintViolated
    ensures Evaluate(r, l, asOf).Ok? ==> RecordOk(Evaluate(r, l, asOf).value)
  {
    if l.fee.Percent? {
      LateFee.PercentFeePositive(r.amountDue, l.fee.hundredths);
    }
  }

  /**
   An evaluation that is not refused changes a record exactly when it is pending or partly paid and the date is
   past its due date by more than the grace days; it then is overdue, and a fee it already has is kept.
   */
  lemma EvaluateChanges(r: BillingRecord, l: Lease, asOf: int)
    requires RecordOk(r) && LeaseOk(l) && Evaluate(r, l, asOf).Ok?
    ensures var r' := Evaluate(r, l, asOf).value;
            && (r' != r <==> r.status in {Pending, PartiallyPaid} && r.dueDate + l.graceDays < asOf)
            && (r' != r ==> r'.status == Overdue && r'.lateFeeApplied)
            && (r' != r && r.lateFeeApplied ==> r' == r.(status := Overdue))
  {}

  /** What a first late fee is: the flat amount, or the percentage rounded half to even and never above the rent. */
  lemma FirstLateFee(r: BillingRecord, l: Lease, asOf: int)
    requires RecordOk(r) && LeaseOk(l) && PastDue(r, l, asOf) && !r.lateFeeApplied
    requires Evaluate(r, l, asOf).Ok?
    ensures var r' := Evaluate(r, l, asOf).value;
            && r' == r.(status := Overdue, lateFeeApplied := true, lateFeeCharged := r'.lateFeeCharged)
            && r'.lateFeeCharged.Some?
            && match l.fee
               case Flat(cents) => r'.lateFeeCharged.value == cents
               case Percent(h) =>
                 && LateFee.IsHalfEven(r.amountDue * h, 10000, r'.lateFeeCharged.value)
                 && 0 < r'.lateFeeCharged.value <= r.amountDue
  {
    match l.fee
    case Flat(_) =>
    case Percent(h) =>
      LateFee.RoundHalfEvenMeaning(r.amountDue * h, 10000, LateFee.PercentFee(r.amountDue, h));
      LateFee.PercentFeeWithinRent(r.amountDue, h);
  }

  /** A payment never fails on a transition: it closes an open record exactly when it covers it. */
  lemma ApplyPaymentTotal(r: BillingRecord, paid: int)
    requires RecordOk(r)
    ensures ApplyPayment(r, paid).Ok?
    ensures var r' := ApplyPayment(r, paid).value;
            && RecordOk(r') && TotalOwed(r') == TotalOwed(r)
            && (Terminal(r.status) ==> r'.status == r.status)
            && (!Terminal(r.status) ==>
                  r'.status in {Paid, PartiallyPaid} && (r'.status == Paid <==> paid >= TotalOwed(r)))
            && r'.overpaid == (if r'.status != Paid then r.overpaid
                               else if paid > TotalOwed(r) then Some(paid - TotalOwed(r)) else None)
            && r' == r.(status := r'.status, overpaid := r'.overpaid)
  {
    var target := if paid >= TotalOwed(r) then Paid else PartiallyPaid;
    assert Terminal(r.status) || target == r.status || target in ValidTransitions(r.status);
  }
}
