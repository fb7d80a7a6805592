/** Late fees and bills over whole runs: charged once, never shrinking, frozen at the end. */
module FeeHistory {
  import opened Wrappers
  import opened Billing
  import opened Books

  /** What any run may do to a record: identity kept, a settled bill frozen. */
  ghost predicate Settles(r: BillingRecord, r': BillingRecord) {
    && SameKey(r, r')
    && (Terminal(r.status) ==>
          r'.status == r.status && r'.lateFeeApplied == r.lateFeeApplied && r'.lateFeeCharged == r.lateFeeCharged)
    && (r.status != Pending ==> r'.status != Pending)
  }

  lemma StepSettles(b: Books, op: Op, rec: nat)
    requires rec < |b.records|
    ensures rec < |Step(b, op).records| && Settles(b.records[rec], Step(b, op).records[rec])
  {}

  lemma EvaluateMoves(b: Books, target: nat, asOf: int, rec: nat)
    requires rec < |b.records|
    ensures var b' := Step(b, EvaluateOverdue(target, asOf));
            && rec < |b'.records|
            && (b'.records[rec] != b.records[rec] ==>
                  && rec == target && b'.records[rec].status == Overdue
                  && b.records[rec].status in {Pending, PartiallyPaid})
  {}

  lemma PaymentMoves(b: Books, op: Op, rec: nat)
    requires Valid(b) && rec < |b.records| && op.CreatePayment?
    ensures var b' := Step(b, op);
            && rec < |b'.records|
            && (b'.records[rec].status != b.records[rec].status ==>
                  && op.link == Some(rec) && b'.records[rec].status in {Paid, PartiallyPaid}
                  && b'.records[rec].status in ValidTransitions(b.records[rec].status))
  {
    if op.link == Some(rec) && TxOf(b, op).Commit? {
      assert RecordOk(b.records[rec]);
      CreatePaymentResult(b, op.contractId, rec, op.amount, op.status);
      ApplyPaymentTotal(b.records[rec], PaidOn(b, rec) + if op.status == Voided then 0 else op.amount);
    }
  }

  lemma OthersMove(b: Books, op: Op, rec: nat)
    requires rec < |b.records| && !op.CreatePayment? && !op.EvaluateOverdue?
    ensures var b' := Step(b, op);
            && rec < |b'.records|
            && (b'.records[rec].status != b.records[rec].status ==>
                  && op == WriteOff(rec) && b'.records[rec].status == WrittenOff
                  && WrittenOff in ValidTransitions(b.records[rec].status))
  {}

  /** A record's status moves only along the table, and each status is entered by one kind of operation. */
  lemma StepMovesAlongTable(b: Books, op: Op, rec: nat)
    requires Valid(b) && rec < |b.records| && rec < |Step(b, op).records|
    requires Step(b, op).records[rec].status != b.records[rec].status
    ensures var was, now := b.records[rec].status, Step(b, op).records[rec].status;
            && now in ValidTransitions(was)
            && (now == WrittenOff <==> op == WriteOff(rec))
            && (now == Overdue <==> op.EvaluateOverdue? && op.record == rec)
            && (now in {Paid, PartiallyPaid} <==> op.CreatePayment? && op.link == Some(rec))
  {
    if op.CreatePayment? {
      PaymentMoves(b, op, rec);
    } else if op.EvaluateOverdue? {
      EvaluateMoves(b, op.record, op.asOf, rec);
    } else {
      OthersMove(b, op, rec);
    }
  }

  /** Over every run of every operation: paid and written off are final and their total owed is frozen. */
  lemma {:induction false} RunSettles(b: Books, ops: seq<Op>, rec: nat)
    requires rec < |b.records|
    ensures rec < |Run(b, ops).records| && Settles(b.records[rec], Run(b, ops).records[rec])
    ensures Terminal(b.records[rec].status) ==> TotalOwed(Run(b, ops).records[rec]) == TotalOwed(b.records[rec])
    decreases ops
  {
    if ops == [] {
    } else {
      StepSettles(b, ops[0], rec);
      RunSettles(Step(b, ops[0]), ops[1..], rec);
    }
  }

  /** How many steps of the run change what is owed on the record. */
  function Growths(b: Books, ops: seq<Op>, rec: nat): nat
    requires rec < |b.records|
    decreases ops
  {
    if ops == [] then 0
    else
      StepSettles(b, ops[0], rec);
      var b' := Step(b, ops[0]);
      (if TotalOwed(b'.records[rec]) != TotalOwed(b.records[rec]) then 1 else 0) + Growths(b', ops[1..], rec)
  }

  predicate Corrects(op: Op, rec: nat) {
    op.CorrectFee? && op.disputed == rec
  }

  /** A fee appears only where there was none, and then the bill grows; an applied fee stays applied. */
  predicate ChargesOnce(r: BillingRecord, r': BillingRecord) {
    && (r'.lateFeeCharged != r.lateFeeCharged ==>
          !r.lateFeeApplied && r'.lateFeeApplied && TotalOwed(r') > TotalOwed(r))
    && (r.lateFeeApplied ==> r'.lateFeeApplied)
  }

  lemma EvaluateChargesOnce(b: Books, target: nat, asOf: int, rec: nat)
    requires Valid(b) && rec < |b.records|
    ensures var b' := Step(b, EvaluateOverdue(target, asOf));
            rec < |b'.records| && ChargesOnce(b.records[rec], b'.records[rec])
  {
    assert RecordOk(b.records[rec]);
    if target == rec {
      EvaluateFails(b.records[rec], b.leases[b.records[rec].leaseId], asOf);
    }
  }

  lemma PaymentChargesOnce(b: Books, op: Op, rec: nat)
    requires Valid(b) && rec < |b.records| && op.CreatePayment?
    ensures rec < |Step(b, op).records| && ChargesOnce(b.records[rec], Step(b, op).records[rec])
  {
    if op.link == Some(rec) && TxOf(b, op).Commit? {
      assert RecordOk(b.records[rec]);
      CreatePaymentResult(b, op.contractId, rec, op.amount, op.status);
      ApplyPaymentTotal(b.records[rec], PaidOn(b, rec) + if op.status == Voided then 0 else op.amount);
    }
  }

  lemma OthersChargeNothing(b: Books, op: Op, rec: nat)
    requires rec < |b.records| && !Corrects(op, rec) && !op.EvaluateOverdue? && !op.CreatePayment?
    ensures rec < |Step(b, op).records|
    ensures var r, r' := b.records[rec], Step(b, op).records[rec];
            r'.lateFeeApplied == r.lateFeeApplied && r'.lateFeeCharged == r.lateFeeCharged
  {}

  lemma StepChargesOnce(b: Books, op: Op, rec: nat)
    requires Valid(b) && rec < |b.records| && !Corrects(op, rec)
    ensures rec < |Step(b, op).records| && ChargesOnce(b.records[rec], Step(b, op).records[rec])
  {
    if op.EvaluateOverdue? {
      EvaluateChargesOnce(b, op.record, op.asOf, rec);
    } else if op.CreatePayment? {
      PaymentChargesOnce(b, op, rec);
    } else {
      OthersChargeNothing(b, op, rec);
    }
  }

  /**
   Unless its own fee is corrected, a record is charged a fee at most once: through any cycle of overdue and
   partly paid and any edit of the lease's terms, a charged fee keeps its amount and the bill grows in at most
   one step.
   */
  lemma {:induction false} ChargedAtMostOnce(b: Books, ops: seq<Op>, rec: nat)
    requires Valid(b) && rec < |b.records|
    requires forall op | op in ops :: !Corrects(op, rec)
    ensures rec < |Run(b, ops).records|
    ensures var r, r' := b.records[rec], Run(b, ops).records[rec];
            && (r.lateFeeApplied ==> r'.lateFeeApplied && r'.lateFeeCharged == r.lateFeeCharged)
            && TotalOwed(r') >= TotalOwed(r)
            && Growths(b, ops, rec) == (if TotalOwed(r') != TotalOwed(r) then 1 else 0)
            && (TotalOwed(r') != TotalOwed(r) ==> !r.lateFeeApplied && r'.lateFeeApplied)
    decreases ops
  {
    if ops == [] {
    } else {
      assert ops[0] in ops;
      StepKeepsValid(b, ops[0]);
      StepSettles(b, ops[0], rec);
      StepChargesOnce(b, ops[0], rec);
      assert RecordOk(b.records[rec]) && RecordOk(Step(b, ops[0]).records[rec]);
      ChargedAtMostOnce(Step(b, ops[0]), ops[1..], rec);
    }
  }
}
