/**
 Does a record's status agree with the payments linked to it? Which operations keep the
 agreement, exactly when the others do, and what the dashboard totals add up to.
 */
module Agreement {
  import opened Wrappers
  import opened Billing
  import opened Books

  /** Only the surplus over a paid bill is kept as a credit. */
  function Surplus(r: BillingRecord, paid: int): Option<int> {
    if r.status == Paid && paid > TotalOwed(r) then Some(paid - TotalOwed(r)) else None
  }

  /** What survives every operation but those that edit payment history. */
  predicate PaidIsCovered(r: BillingRecord, paid: int) {
    && (r.status == Paid ==> paid >= TotalOwed(r))
    && (r.status == Pending ==> paid == 0)
    && r.overpaid == Surplus(r, paid)
  }

  predicate Agrees(r: BillingRecord, paid: int) {
    && PaidIsCovered(r, paid)
    && (r.status != WrittenOff && paid >= TotalOwed(r) ==> r.status == Paid)
  }

  predicate CoveredOn(b: Books, rec: nat) {
    rec < |b.records| && PaidIsCovered(b.records[rec], PaidOn(b, rec))
  }

  predicate AgreesOn(b: Books, rec: nat) {
    rec < |b.records| && Agrees(b.records[rec], PaidOn(b, rec))
  }

  ghost predicate Covered(b: Books) {
    forall rec: nat | rec < |b.records| :: CoveredOn(b, rec)
  }

  ghost predicate Agreed(b: Books) {
    forall rec: nat | rec < |b.records| :: AgreesOn(b, rec)
  }

  /** Operations that leave recorded payments alone. */
  predicate KeepsHistory(op: Op) {
    !op.UpdatePayment? && !op.VoidAndCorrect? && !op.DeletePayment?
  }

  predicate Agreeing(op: Op) {
    KeepsHistory(op) && !op.CorrectFee?
  }

  // ----- one operation and one record -----

  lemma SamePayments(b: Books, b': Books)
    requires b'.payments == b.payments && b'.nextPayment == b.nextPayment
    ensures forall rec :: PaidOn(b', rec) == PaidOn(b, rec)
  {}

  lemma OtherRecordsUntouched(b: Books, p: Payment, rec: nat)
    requires p.recordId != Some(rec)
    ensures PaidOn(Insert(b, p), rec) == PaidOn(b, rec)
  {
    PaidSumShift(b.payments, Insert(b, p).payments, b.nextPayment, b.nextPayment, rec);
  }

  lemma LinkedPaymentAgrees(b: Books, contractId: nat, rec: nat, amount: int, status: PaymentStatus)
    requires Valid(b) && amount > 0 && contractId in b.contracts && LinkResolves(b, contractId, rec)
    requires CoveredOn(b, rec)
    ensures AgreesOn(Step(b, CreatePayment(contractId, Some(rec), amount, status)), rec)
  {
    var p := Payment(contractId, Some(rec), amount, status, None);
    CreatePaymentResult(b, contractId, rec, amount, status);
    ApplyPaymentTotal(b.records[rec], PaidOn(Insert(b, p), rec));
    SamePayments(Insert(b, p), Step(b, CreatePayment(contractId, Some(rec), amount, status)));
  }

  lemma OtherPaymentKeeps(b: Books, op: Op, rec: nat)
    requires Valid(b) && op.CreatePayment? && op.link != Some(rec) && rec < |b.records|
    ensures var b' := Step(b, op);
            rec < |b'.records| && b'.records[rec] == b.records[rec] && PaidOn(b', rec) == PaidOn(b, rec)
  {
    if TxOf(b, op).Commit? {
      var p := Payment(op.contractId, op.link, op.amount, op.status, None);
      OtherRecordsUntouched(b, p, rec);
      SamePayments(Insert(b, p), Step(b, op));
    }
  }

  lemma CreatePaymentAgrees(b: Books, op: Op, rec: nat)
    requires Valid(b) && op.CreatePayment? && CoveredOn(b, rec)
    ensures CoveredOn(Step(b, op), rec)
    ensures AgreesOn(b, rec) || (op.link == Some(rec) && TxOf(b, op).Commit?) ==> AgreesOn(Step(b, op), rec)
  {
    if TxOf(b, op).Commit? {
      if op.link == Some(rec) {
        LinkedPaymentAgrees(b, op.contractId, rec, op.amount, op.status);
      } else {
        OtherPaymentKeeps(b, op, rec);
      }
    }
  }

  /** Overdue evaluation touches open records only and never lowers a bill. */
  lemma EvaluateAgrees(r: BillingRecord, l: Lease, asOf: int, paid: int)
    requires RecordOk(r) && Evaluate(r, l, asOf).Ok?
    ensures PaidIsCovered(r, paid) ==> PaidIsCovered(Evaluate(r, l, asOf).value, paid)
    ensures Agrees(r, paid) ==> Agrees(Evaluate(r, l, asOf).value, paid)
  {}

  lemma EvaluateStepAgrees(b: Books, op: Op, rec: nat)
    requires Valid(b) && op.EvaluateOverdue? && rec < |b.records|
    ensures CoveredOn(b, rec) ==> CoveredOn(Step(b, op), rec)
    ensures AgreesOn(b, rec) ==> AgreesOn(Step(b, op), rec)
  {
    SamePayments(b, Step(b, op));
    if op.record == rec && TxOf(b, op).Commit? {
      assert RecordOk(b.records[rec]);
      EvaluateAgrees(b.records[rec], b.leases[b.records[rec].leaseId], op.asOf, PaidOn(b, rec));
    }
  }

  lemma WriteOffAgrees(b: Books, op: Op, rec: nat)
    requires op.WriteOff? && rec < |b.records|
    ensures CoveredOn(b, rec) ==> CoveredOn(Step(b, op), rec)
    ensures AgreesOn(b, rec) ==> AgreesOn(Step(b, op), rec)
  {
    SamePayments(b, Step(b, op));
  }

  /** Of open records only the fee changes; it stays covered, and agrees iff the corrected bill is not covered. */
  lemma CorrectFeeAgrees(b: Books, op: Op, rec: nat)
    requires op.CorrectFee? && CoveredOn(b, rec)
    ensures CoveredOn(Step(b, op), rec)
    ensures AgreesOn(b, rec) ==>
              (AgreesOn(Step(b, op), rec) <==>
                 (op.disputed == rec && TxOf(b, op).Commit? ==>
                    PaidOn(b, rec) < b.records[rec].amountDue + op.charged.GetOr(0)))
  {
    SamePayments(b, Step(b, op));
  }

  lemma LeaseStepAgrees(b: Books, op: Op, rec: nat)
    requires (op.AddLease? || op.EditLease? || op.Generate?) && rec < |b.records|
    ensures var b' := Step(b, op);
            rec < |b'.records| && b'.records[rec] == b.records[rec] && PaidOn(b', rec) == PaidOn(b, rec)
  {
    SamePayments(b, Step(b, op));
  }

  lemma StepAgreesOn(b: Books, op: Op, rec: nat)
    requires Valid(b) && KeepsHistory(op) && rec < |b.records|
    ensures CoveredOn(b, rec) ==> CoveredOn(Step(b, op), rec)
    ensures AgreesOn(b, rec) && Agreeing(op) ==> AgreesOn(Step(b, op), rec)
  {
    if op.AddLease? || op.EditLease? || op.Generate? { LeaseStepAgrees(b, op, rec); }
    else if op.EvaluateOverdue? { EvaluateStepAgrees(b, op, rec); }
    else if op.WriteOff? { WriteOffAgrees(b, op, rec); }
    else if CoveredOn(b, rec) {
      if op.CreatePayment? { CreatePaymentAgrees(b, op, rec); } else { CorrectFeeAgrees(b, op, rec); }
    }
  }

  // ----- runs keep the agreement -----

  lemma UnbilledUnpaid(b: Books)
    requires PaymentsOk(b, b.payments, b.nextPayment)
    ensures PaidOn(b, |b.records|) == 0
  {
    forall id | id in b.payments ensures b.payments[id].recordId != Some(|b.records|) {
      assert PaymentOk(b, b.payments[id]);
    }
    PaidSumUnlinked(b.payments, b.nextPayment, |b.records|);
  }

  /** A record is born agreeing: nobody can have paid for it yet. */
  lemma NewRecordAgrees(b: Books, l: nat)
    requires Valid(b) && l < |b.leases|
    ensures |Step(b, Generate(l)).records| == |b.records| + 1 && AgreesOn(Step(b, Generate(l)), |b.records|)
  {
    GenerateCommits(b, l);
    SamePayments(b, Step(b, Generate(l)));
    UnbilledUnpaid(b);
  }

  lemma RecordsGrow(b: Books, op: Op)
    requires Valid(b)
    ensures var n := |Step(b, op).records|;
            && |b.records| <= n
            && forall rec: nat | |b.records| <= rec < n :: CoveredOn(Step(b, op), rec) && AgreesOn(Step(b, op), rec)
  {
    if op.Generate? && op.billed < |b.leases| {
      NewRecordAgrees(b, op.billed);
    }
  }

  lemma StepAgrees(b: Books, op: Op)
    requires Valid(b) && KeepsHistory(op)
    ensures Covered(b) ==> Covered(Step(b, op))
    ensures Agreed(b) && Agreeing(op) ==> Agreed(Step(b, op))
  {
    RecordsGrow(b, op);
    forall rec: nat | rec < |b.records|
      ensures CoveredOn(b, rec) ==> CoveredOn(Step(b, op), rec)
      ensures AgreesOn(b, rec) && Agreeing(op) ==> AgreesOn(Step(b, op), rec)
    {
      StepAgreesOn(b, op, rec);
    }
  }

  /**
   Billing agreement over every run that leaves payment history and fees alone: an open or paid
   record is paid exactly when its linked payments cover it, a pending record has none, and the
   stored surplus is exactly the excess of a paid record.
   */
  lemma {:induction false} RunsAgree(b: Books, ops: seq<Op>)
    requires Valid(b) && Agreed(b)
    requires forall op | op in ops :: Agreeing(op)
    ensures Agreed(Run(b, ops))
    decreases ops
  {
    if ops == [] {
    } else {
      assert ops[0] in ops;
      StepKeepsValid(b, ops[0]);
      StepAgrees(b, ops[0]);
      RunsAgree(Step(b, ops[0]), ops[1..]);
    }
  }

  /** With fee corrections in the run, a paid record is still covered, its surplus still exact. */
  lemma {:induction false} RunsStayCovered(b: Books, ops: seq<Op>)
    requires Valid(b) && Covered(b)
    requires forall op | op in ops :: KeepsHistory(op)
    ensures Covered(Run(b, ops))
    decreases ops
  {
    if ops == [] {
    } else {
      assert ops[0] in ops;
      StepKeepsValid(b, ops[0]);
      StepAgrees(b, ops[0]);
      RunsStayCovered(Step(b, ops[0]), ops[1..]);
    }
  }

  // ----- exactly when the other operations keep the agreement -----

  /** A fee correction loses the agreement exactly when what is already paid covers the corrected bill. */
  lemma CorrectFeeExact(b: Books, rec: nat, applied: bool, charged: Option<int>)
    requires Valid(b) && Agreed(b)
    requires CorrectFeeTx(b, rec, applied, charged).Commit?
    ensures Agreed(Step(b, CorrectFee(rec, applied, charged)))
            <==> PaidOn(b, rec) < b.records[rec].amountDue + charged.GetOr(0)
  {
    var op := CorrectFee(rec, applied, charged);
    forall k: nat | k < |b.records|
      ensures AgreesOn(Step(b, op), k) <==> (k == rec ==> PaidOn(b, rec) < b.records[rec].amountDue + charged.GetOr(0))
    {
      assert AgreesOn(b, k);
      CorrectFeeAgrees(b, op, k);
    }
    assert Agreed(Step(b, op)) ==> AgreesOn(Step(b, op), rec);
  }

  const TERMS := Lease(0, 10000, 5, Flat(2000), 0, 0)

  const BILLED: seq<Op> := [AddLease(TERMS), Generate(0)]

  lemma BilledAgrees()
    ensures var b := OPENING.(leases := [TERMS], records := [FirstBillOf(TERMS)]);
            Run(OPENING, BILLED) == b && Valid(b) && Agreed(b)
  {
    OpeningValid();
    FirstBill(TERMS);
    RunKeepsValid(OPENING, BILLED);
    RunsAgree(OPENING, BILLED);
  }

  const FINED := FirstBillOf(TERMS).(status := Overdue, lateFeeApplied := true, lateFeeCharged := Some(2000))

  lemma FinedAgrees()
    ensures var b := OPENING.(leases := [TERMS], records := [FINED]);
            Run(OPENING, BILLED + [EvaluateOverdue(0, 6)]) == b && Valid(b) && Agreed(b)
  {
    BilledAgrees();
    var late := EvaluateOverdue(0, 6);
    RunAppend(OPENING, BILLED, [late]);
    RunOne(Run(OPENING, BILLED), late);
    RunKeepsValid(OPENING, BILLED + [late]);
    RunsAgree(OPENING, BILLED + [late]);
  }

  /** What a payment of 100.00 in full makes of the first record. */
  lemma FirstPayment(r: BillingRecord)
    requires var b := OPENING.(leases := [TERMS], records := [r]); Valid(b) && Agreed(b)
    ensures var b := OPENING.(leases := [TERMS], records := [r]);
            var b' := Step(b, CreatePayment(0, Some(0), 10000, PaymentPaid));
            && Valid(b') && Agreed(b') && PaidOn(b', 0) == 10000 && ApplyPayment(r, 10000).Ok?
            && b'.records == [ApplyPayment(r, 10000).value]
            && b'.payments == map[0 := Payment(0, Some(0), 10000, PaymentPaid, None)]
  {
    var b, pay := OPENING.(leases := [TERMS], records := [r]), CreatePayment(0, Some(0), 10000, PaymentPaid);
    assert PaidOn(b, 0) == 0;
    CreatePaymentResult(b, 0, 0, 10000, PaymentPaid);
    SamePayments(Insert(b, Payment(0, Some(0), 10000, PaymentPaid, None)), Step(b, pay));
    StepKeepsValid(b, pay);
    StepAgrees(b, pay);
  }

  /** It happens: a rent of 100.00 gets a late fee of 20.00, is paid 100.00, and then the fee is waived. */
  lemma WaivedFeeLosesAgreement()
    ensures var b := Run(OPENING, BILLED + [EvaluateOverdue(0, 6)] + [CreatePayment(0, Some(0), 10000, PaymentPaid)]);
            && Valid(b) && Agreed(b)
            && CorrectFeeTx(b, 0, false, None).Commit? && !Agreed(Step(b, CorrectFee(0, false, None)))
  {
    var pay := CreatePayment(0, Some(0), 10000, PaymentPaid);
    FinedAgrees();
    FirstPayment(FINED);
    RunAppend(OPENING, BILLED + [EvaluateOverdue(0, 6)], [pay]);
    RunOne(Run(OPENING, BILLED + [EvaluateOverdue(0, 6)]), pay);
    var b := Run(OPENING, BILLED + [EvaluateOverdue(0, 6)] + [pay]);
    assert b.records == [FINED.(status := PartiallyPaid)];
    CorrectFeeExact(b, 0, false, None);
  }

  /** The next payment linked to the record repairs it. */
  lemma NextPaymentRepairs(b: Books, ops: seq<Op>, contractId: nat, rec: nat, amount: int, status: PaymentStatus)
    requires Valid(b) && Covered(b) && forall op | op in ops :: KeepsHistory(op)
    requires CreatePaymentTx(Run(b, ops), contractId, Some(rec), amount, status).Commit?
    ensures var b' := Step(Run(b, ops), CreatePayment(contractId, Some(rec), amount, status));
            Agrees(b'.records[rec], PaidOn(b', rec))
  {
    RunKeepsValid(b, ops);
    RunsStayCovered(b, ops);
    CreatePaymentAgrees(Run(b, ops), CreatePayment(contractId, Some(rec), amount, status), rec);
  }

  function Target(op: Op): nat
    requires !KeepsHistory(op)
  {
    match op
    case UpdatePayment(id, _, _) => id
    case VoidAndCorrect(id, _, _) => id
    case DeletePayment(id) => id
  }

  /** The amount the edited row contributes afterwards. */
  function NewShare(p: Payment, op: Op): int
    requires !KeepsHistory(op)
  {
    if op.UpdatePayment? then op.newAmount.GetOr(p.amount) else 0
  }

  /**
   Checkable before the call: the row counts for nothing, its record is written off, a paid record keeps
   the same amount, or an open record stays uncovered.
   */
  predicate EditHarmless(b: Books, op: Op)
    requires !KeepsHistory(op)
  {
    var id := Target(op);
    id in b.payments ==>
      var p := b.payments[id];
      p.recordId.Some? && p.recordId.value < |b.records| && p.status != Voided ==>
        var r := b.records[p.recordId.value];
        || r.status == WrittenOff
        || (r.status == Paid && NewShare(p, op) == p.amount)
        || (r.status != Paid && PaidOn(b, p.recordId.value) - p.amount + NewShare(p, op) < TotalOwed(r))
  }

  lemma RewriteShifts(b: Books, id: nat, q: Payment, rec: nat)
    requires id in b.payments && id < b.nextPayment && q.recordId == b.payments[id].recordId
    ensures var p := b.payments[id];
            PaidOn(b.(payments := b.payments[id := q]), rec) == PaidOn(b, rec) +
              if p.recordId != Some(rec) then 0
              else (if q.status == Voided then 0 else q.amount) - if p.status == Voided then 0 else p.amount
  {
    PaidSumShift(b.payments, b.payments[id := q], b.nextPayment, id, rec);
  }

  lemma DeleteShifts(b: Books, id: nat, rec: nat)
    requires id in b.payments && id < b.nextPayment
    ensures var p := b.payments[id];
            PaidOn(b.(payments := b.payments - {id}), rec) == PaidOn(b, rec) -
              if p.recordId == Some(rec) && p.status != Voided then p.amount else 0
  {
    PaidSumShift(b.payments, b.payments - {id}, b.nextPayment, id, rec);
  }

  lemma CorrectShifts(b: Books, id: nat, amount: int, status: PaymentStatus, rec: nat)
    requires Valid(b) && VoidAndCorrectTx(b, id, amount, status).Commit?
    ensures var p := b.payments[id];
            PaidOn(Step(b, VoidAndCorrect(id, amount, status)), rec) == PaidOn(b, rec) -
              if p.recordId == Some(rec) && p.status != Voided then p.amount else 0
  {
    var p := b.payments[id];
    var correction := Payment(p.contractId, None, amount, status, Some(id));
    OtherRecordsUntouched(b, correction, rec);
    RewriteShifts(Insert(b, correction), id, p.(status := Voided), rec);
  }

  lemma EditShifts(b: Books, op: Op, rec: nat)
    requires Valid(b) && !KeepsHistory(op) && TxOf(b, op).Commit?
    ensures var p := b.payments[Target(op)];
            PaidOn(Step(b, op), rec) == PaidOn(b, rec) +
              if p.recordId == Some(rec) && p.status != Voided then NewShare(p, op) - p.amount else 0
  {
    match op
    case UpdatePayment(id, _, _) => RewriteShifts(b, id, Step(b, op).payments[id], rec);
    case VoidAndCorrect(id, amount, status) => CorrectShifts(b, id, amount, status, rec);
    case DeletePayment(id) => DeleteShifts(b, id, rec);
  }

  /** What a live linked payment says of its record: not pending, and at least its amount received. */
  lemma LivePaymentCounts(b: Books, id: nat, rec: nat)
    requires Valid(b) && AgreesOn(b, rec) && id in b.payments
    requires b.payments[id].recordId == Some(rec) && b.payments[id].status != Voided
    ensures PaidOn(b, rec) >= b.payments[id].amount > 0 && b.records[rec].status != Pending
  {
    assert PaymentOk(b, b.payments[id]);
    forall k | k in b.payments ensures b.payments[k].amount > 0 { assert PaymentOk(b, b.payments[k]); }
    PaidSumNonnegative(b.payments, b.nextPayment, rec);
    assert Contribution(b.payments, id, rec) == b.payments[id].amount;
  }

  lemma ShiftAgrees(r: BillingRecord, paid: int, delta: int)
    requires Agrees(r, paid) && r.status != Pending
    ensures Agrees(r, paid + delta) <==>
              || r.status == WrittenOff || (r.status == Paid && delta == 0)
              || (r.status != Paid && paid + delta < TotalOwed(r))
  {}

  /** An edited payment concerns its own record only, and keeps that one's agreement iff it is harmless. */
  lemma PaymentEditOn(b: Books, op: Op, rec: nat)
    requires Valid(b) && AgreesOn(b, rec)
    requires !KeepsHistory(op) && TxOf(b, op).Commit?
    ensures Step(b, op).records == b.records
    ensures AgreesOn(Step(b, op), rec) <==> (b.payments[Target(op)].recordId == Some(rec) ==> EditHarmless(b, op))
  {
    var p := b.payments[Target(op)];
    EditShifts(b, op, rec);
    if p.recordId == Some(rec) && p.status != Voided {
      LivePaymentCounts(b, Target(op), rec);
      ShiftAgrees(b.records[rec], PaidOn(b, rec), NewShare(p, op) - p.amount);
    }
  }

  /** Updating, voiding or deleting a payment keeps the agreement if and only if it is harmless. */
  lemma PaymentEditExact(b: Books, op: Op)
    requires Valid(b) && Agreed(b)
    requires !KeepsHistory(op) && TxOf(b, op).Commit?
    ensures Agreed(Step(b, op)) <==> EditHarmless(b, op)
  {
    var p, b' := b.payments[Target(op)], Step(b, op);
    forall rec: nat | rec < |b.records|
      ensures AgreesOn(b', rec) <==> (p.recordId == Some(rec) ==> EditHarmless(b, op))
      ensures b'.records == b.records
    {
      assert AgreesOn(b, rec);
      PaymentEditOn(b, op, rec);
    }
    if p.recordId.Some? {
      assert PaymentOk(b, p);
      assert Agreed(b') ==> AgreesOn(b', p.recordId.value);
    }
  }

  // ----- all ten operations -----

  /** Checkable before the call: what this operation does to fees or recorded payments loses nothing. */
  predicate Harmless(b: Books, op: Op) {
    TxOf(b, op).Commit? ==>
      if op.CorrectFee? then PaidOn(b, op.disputed) < b.records[op.disputed].amountDue + op.charged.GetOr(0)
      else KeepsHistory(op) || EditHarmless(b, op)
  }

  /** The record whose bill is corrected, or whose payment is edited. */
  function Concerns(b: Books, op: Op): Option<nat> {
    if op.CorrectFee? then Some(op.disputed)
    else if KeepsHistory(op) || Target(op) !in b.payments then None
    else b.payments[Target(op)].recordId
  }

  /** Every operation keeps a record's agreement iff it concerns another record or is harmless. */
  lemma StepExactOn(b: Books, op: Op, rec: nat)
    requires Valid(b) && AgreesOn(b, rec)
    ensures AgreesOn(Step(b, op), rec) <==> (Concerns(b, op) == Some(rec) ==> Harmless(b, op))
  {
    if TxOf(b, op).Commit? {
      if op.CorrectFee? { CorrectFeeAgrees(b, op, rec); }
      else if KeepsHistory(op) { StepAgreesOn(b, op, rec); }
      else { PaymentEditOn(b, op, rec); }
    }
  }

  predicate HarmlessRun(b: Books, ops: seq<Op>, rec: nat)
    decreases ops
  {
    || ops == []
    || ((Concerns(b, ops[0]) == Some(rec) ==> Harmless(b, ops[0])) && HarmlessRun(Step(b, ops[0]), ops[1..], rec))
  }

  /** Over any run of all ten operations a record keeps agreeing, whatever is done to other records, harmless or not. */
  lemma {:induction false} RunAgreesOn(b: Books, ops: seq<Op>, rec: nat)
    requires Valid(b) && AgreesOn(b, rec) && HarmlessRun(b, ops, rec)
    ensures AgreesOn(Run(b, ops), rec)
    decreases ops
  {
    if ops == [] {
    } else {
      StepKeepsValid(b, ops[0]);
      StepExactOn(b, ops[0], rec);
      RunAgreesOn(Step(b, ops[0]), ops[1..], rec);
    }
  }

  /** Every operation keeps the agreement of all records if and only if it is harmless. */
  lemma StepAgreesExactly(b: Books, op: Op)
    requires Valid(b) && Agreed(b)
    ensures Agreed(Step(b, op)) <==> Harmless(b, op)
  {
    var b' := Step(b, op);
    RecordsGrow(b, op);
    forall rec: nat | rec < |b.records|
      ensures AgreesOn(b', rec) <==> (Concerns(b, op) == Some(rec) ==> Harmless(b, op))
    {
      assert AgreesOn(b, rec);
      StepExactOn(b, op, rec);
    }
    if !Harmless(b, op) {
      assert Concerns(b, op).Some? && Concerns(b, op).value < |b.records|;
      assert !AgreesOn(b', Concerns(b, op).value);
    }
  }

  predicate AllHarmless(b: Books, ops: seq<Op>)
    decreases ops
  {
    ops == [] || (Harmless(b, ops[0]) && AllHarmless(Step(b, ops[0]), ops[1..]))
  }

  /** Hence all records, those billed on the way included. */
  lemma {:induction false} HarmlessRunsAgree(b: Books, ops: seq<Op>)
    requires Valid(b) && Agreed(b) && AllHarmless(b, ops)
    ensures Agreed(Run(b, ops))
    decreases ops
  {
    if ops == [] {
    } else {
      StepKeepsValid(b, ops[0]);
      StepAgreesExactly(b, ops[0]);
      HarmlessRunsAgree(Step(b, ops[0]), ops[1..]);
    }
  }

  /** Runs that leave payment history and fees alone need no condition. */
  lemma {:induction false} AgreeingRunsHarmless(b: Books, ops: seq<Op>)
    requires forall op | op in ops :: Agreeing(op)
    ensures AllHarmless(b, ops)
    decreases ops
  {
    if ops == [] {
    } else {
      assert ops[0] in ops;
      AgreeingRunsHarmless(Step(b, ops[0]), ops[1..]);
    }
  }

  /** It happens: a bill is paid in full, and then its payment is cut, voided or deleted. */
  lemma EditedPaymentLosesAgreement(op: Op)
    requires op in {UpdatePayment(0, Some(9999), None), VoidAndCorrect(0, 10000, PaymentPaid), DeletePayment(0)}
    ensures var b := Run(OPENING, BILLED + [CreatePayment(0, Some(0), 10000, PaymentPaid)]);
            && Valid(b) && Agreed(b) && |b.records| == 1 && b.records[0].status == Paid
            && TxOf(b, op).Commit? && !Agreed(Step(b, op))
  {
    var pay := CreatePayment(0, Some(0), 10000, PaymentPaid);
    BilledAgrees();
    FirstPayment(FirstBillOf(TERMS));
    RunAppend(OPENING, BILLED, [pay]);
    RunOne(Run(OPENING, BILLED), pay);
    var b := Run(OPENING, BILLED + [pay]);
    assert b.records == [FirstBillOf(TERMS).(status := Paid)];
    PaymentEditExact(b, op);
  }

  // ----- the dashboard totals -----

  /** One pass over the payments, grouped by record: a missing key means nothing paid. */
  function GroupedSum(ps: map<nat, Payment>, n: nat, ids: set<nat>): map<nat, int> {
    if n == 0 then map[]
    else
      var m := GroupedSum(ps, n - 1, ids);
      var id := n - 1;
      if id in ps && ps[id].recordId.Some? && ps[id].recordId.value in ids && ps[id].status != Voided then
        var rec := ps[id].recordId.value;
        m[rec := (if rec in m then m[rec] else 0) + ps[id].amount]
      else m
  }

  function Looked(m: map<nat, int>, rec: nat): int {
    if rec in m then m[rec] else 0
  }

  /** The grouped query and the per-record filtered sum are the same figures. */
  lemma {:induction false} GroupedSumIsPaidSum(ps: map<nat, Payment>, n: nat, ids: set<nat>)
    ensures GroupedSum(ps, n, ids).Keys <= ids
    ensures forall rec | rec in ids :: Looked(GroupedSum(ps, n, ids), rec) == PaidSum(ps, n, rec)
  {
    if n == 0 {
    } else {
      GroupedSumIsPaidSum(ps, n - 1, ids);
    }
  }

  function Remaining(r: BillingRecord, paid: int): int {
    if TotalOwed(r) - paid > 0 then TotalOwed(r) - paid else 0
  }

  /** The least that still has to be paid: never negative, and nothing exactly when the bill is covered. */
  lemma RemainingMeaning(r: BillingRecord, paid: int, more: int)
    ensures var owed := r.amountDue + r.lateFeeCharged.GetOr(0);
            && Remaining(r, paid) >= 0 && paid + Remaining(r, paid) >= owed
            && (more >= 0 && paid + more >= owed ==> Remaining(r, paid) <= more)
  {}

  function SumOutstanding(rs: seq<BillingRecord>): int {
    if rs == [] then 0
    else
      var r := rs[|rs| - 1];
      SumOutstanding(rs[..|rs| - 1]) + if Unpaid(r.status) then TotalOwed(r) else 0
  }

  lemma {:induction false} OutstandingShift(rs: seq<BillingRecord>, rec: nat, r: BillingRecord)
    requires rec < |rs|
    ensures SumOutstanding(rs[rec := r]) ==
            SumOutstanding(rs)
            - (if Unpaid(rs[rec].status) then TotalOwed(rs[rec]) else 0) + if Unpaid(r.status) then TotalOwed(r) else 0
  {
    if rec == |rs| - 1 {
      assert rs[rec := r][..|rs| - 1] == rs[..|rs| - 1];
    } else {
      assert rs[rec := r][..|rs| - 1] == rs[..|rs| - 1][rec := r];
      OutstandingShift(rs[..|rs| - 1], rec, r);
    }
  }

  function SumCredits(rs: seq<BillingRecord>): int {
    if rs == [] then 0 else SumCredits(rs[..|rs| - 1]) + rs[|rs| - 1].overpaid.GetOr(0)
  }

  function SettledBills(rs: seq<BillingRecord>): int {
    if rs == [] then 0
    else
      var r := rs[|rs| - 1];
      SettledBills(rs[..|rs| - 1]) + if r.status == Paid then TotalOwed(r) else 0
  }

  /** Remaining balances of the unpaid among the first m records. */
  function SumRemaining(b: Books, m: nat): int
    requires m <= |b.records|
  {
    if m == 0 then 0
    else SumRemaining(b, m - 1) +
         if Unpaid(b.records[m - 1].status) then Remaining(b.records[m - 1], PaidOn(b, m - 1)) else 0
  }

  /** Money received: the live payment rows below n that are linked to a record not written off. */
  function Received(rs: seq<BillingRecord>, ps: map<nat, Payment>, n: nat): int {
    if n == 0 then 0
    else Received(rs, ps, n - 1) +
         if n - 1 in ps && ps[n - 1].recordId.Some? && ps[n - 1].recordId.value < |rs|
            && rs[ps[n - 1].recordId.value].status != WrittenOff && ps[n - 1].status != Voided
         then ps[n - 1].amount else 0
  }

  function ReceivedByRecord(rs: seq<BillingRecord>, ps: map<nat, Payment>, n: nat, m: nat): int
    requires m <= |rs|
  {
    if m == 0 then 0
    else ReceivedByRecord(rs, ps, n, m - 1) + if rs[m - 1].status != WrittenOff then PaidSum(ps, n, m - 1) else 0
  }

  lemma {:induction false} OneMoreRow(rs: seq<BillingRecord>, ps: map<nat, Payment>, n: nat, m: nat)
    requires m <= |rs| && n > 0
    ensures ReceivedByRecord(rs, ps, n, m) == ReceivedByRecord(rs, ps, n - 1, m) +
              if n - 1 in ps && ps[n - 1].recordId.Some? && ps[n - 1].recordId.value < m
                 && rs[ps[n - 1].recordId.value].status != WrittenOff && ps[n - 1].status != Voided
              then ps[n - 1].amount else 0
  {
    if m == 0 {
    } else {
      OneMoreRow(rs, ps, n, m - 1);
    }
  }

  lemma {:induction false} NothingReceivedYet(rs: seq<BillingRecord>, ps: map<nat, Payment>, m: nat)
    requires m <= |rs|
    ensures ReceivedByRecord(rs, ps, 0, m) == 0
  {
    if m == 0 {
    } else {
      NothingReceivedYet(rs, ps, m - 1);
    }
  }

  /** Adding up payment rows or adding up records gives the same money. */
  lemma {:induction false} ReceivedEitherWay(rs: seq<BillingRecord>, ps: map<nat, Payment>, n: nat)
    ensures Received(rs, ps, n) == ReceivedByRecord(rs, ps, n, |rs|)
  {
    if n == 0 {
      NothingReceivedYet(rs, ps, |rs|);
    } else {
      ReceivedEitherWay(rs, ps, n - 1);
      OneMoreRow(rs, ps, n, |rs|);
    }
  }

  lemma {:induction false} ConservationUpTo(b: Books, m: nat)
    requires Agreed(b) && m <= |b.records|
    ensures var rs := b.records[..m];
            ReceivedByRecord(b.records, b.payments, b.nextPayment, m)
            == SettledBills(rs) + SumCredits(rs) + SumOutstanding(rs) - SumRemaining(b, m)
  {
    if m == 0 {
    } else {
      ConservationUpTo(b, m - 1);
      assert b.records[..m][..m - 1] == b.records[..m - 1];
      assert AgreesOn(b, m - 1);
    }
  }

  /**
   Conservation over every harmless run: all money received on records not written off is exactly the
   settled bills, plus the credits, plus what the outstanding bills have already been paid down by.
   */
  lemma PortfolioConservation(b: Books, ops: seq<Op>)
    requires Valid(b) && Agreed(b) && AllHarmless(b, ops)
    ensures var b' := Run(b, ops);
            Received(b'.records, b'.payments, b'.nextPayment)
            == SettledBills(b'.records) + SumCredits(b'.records)
               + (SumOutstanding(b'.records) - SumRemaining(b', |b'.records|))
  {
    HarmlessRunsAgree(b, ops);
    var b' := Run(b, ops);
    ReceivedEitherWay(b'.records, b'.payments, b'.nextPayment);
    ConservationUpTo(b', |b'.records|);
    assert b'.records[..|b'.records|] == b'.records;
  }
}
