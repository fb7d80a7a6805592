/**
 The ledger as one value: leases, billing records and payments, and the transaction each
 service operation runs on it. A transaction commits the new books or aborts with an error
 and changes nothing (the request's session is rolled back).
 */
module Books {
  import opened Wrappers
  import opened Billing
  import Periods

  /** Every status but Voided counts towards the bill. */
  datatype PaymentStatus = PaymentPaid | PaymentPending | Voided | Refunded

  datatype Payment = Payment(
    contractId: nat, recordId: Option<nat>, amount: int, status: PaymentStatus, corrects: Option<nat>)

  datatype RentalType = LongTerm | ShortTerm

  /** Rows are numbered in order of creation; deleted payments leave a gap. */
  datatype Books = Books(
    contracts: map<nat, RentalType>, leases: seq<Lease>, records: seq<BillingRecord>,
    payments: map<nat, Payment>, nextPayment: nat)

  ghost predicate AllChained(leases: seq<Lease>, records: seq<BillingRecord>) {
    forall l | 0 <= l < |leases| :: Periods.Chained(records, l, leases[l])
  }

  predicate IsLongTerm(contracts: map<nat, RentalType>, contractId: nat) {
    contractId in contracts && contracts[contractId] == LongTerm
  }

  predicate LeasesOk(contracts: map<nat, RentalType>, leases: seq<Lease>) {
    && (forall i | 0 <= i < |leases| :: LeaseOk(leases[i]) && IsLongTerm(contracts, leases[i].contractId))
    && (forall i, j | 0 <= i < j < |leases| :: leases[i].contractId != leases[j].contractId)
  }

  predicate RecordsOk(leases: seq<Lease>, records: seq<BillingRecord>) {
    forall i | 0 <= i < |records| :: RecordOk(records[i]) && records[i].leaseId < |leases|
  }

  /** The record exists, belongs to an existing lease, and that lease is the contract's. */
  predicate LinkResolves(b: Books, contractId: nat, rec: nat) {
    && rec < |b.records| && b.records[rec].leaseId < |b.leases|
    && b.leases[b.records[rec].leaseId].contractId == contractId
  }

  /** A linked payment belongs to the contract its record is billed under. */
  predicate PaymentOk(b: Books, p: Payment) {
    && p.amount > 0 && p.contractId in b.contracts
    && (p.recordId.Some? ==> LinkResolves(b, p.contractId, p.recordId.value))
  }

  predicate PaymentsOk(b: Books, ps: map<nat, Payment>, n: nat) {
    forall id | id in ps :: id < n && PaymentOk(b, ps[id])
  }

  ghost predicate Valid(b: Books) {
    && LeasesOk(b.contracts, b.leases)
    && RecordsOk(b.leases, b.records)
    && PaymentsOk(b, b.payments, b.nextPayment)
    && AllChained(b.leases, b.records)
  }

  // ----- sums over payments -----

  /** What one payment row adds to a record: its amount when linked and not voided. */
  function Contribution(ps: map<nat, Payment>, id: nat, rec: nat): int {
    if id in ps && ps[id].recordId == Some(rec) && ps[id].status != Voided then ps[id].amount else 0
  }

  /** Cumulative non-voided payments on a record, over the rows numbered below n. */
  function PaidSum(ps: map<nat, Payment>, n: nat, rec: nat): int {
    if n == 0 then 0 else PaidSum(ps, n - 1, rec) + Contribution(ps, n - 1, rec)
  }

  function PaidOn(b: Books, rec: nat): int {
    PaidSum(b.payments, b.nextPayment, rec)
  }

  /** Changing one row changes the sum by the change of that row's contribution. */
  lemma {:induction false} PaidSumShift(ps: map<nat, Payment>, ps': map<nat, Payment>, n: nat, id: nat, rec: nat)
    requires forall k | 0 <= k < n && k != id :: Contribution(ps', k, rec) == Contribution(ps, k, rec)
    ensures PaidSum(ps', n, rec) ==
            PaidSum(ps, n, rec) + if id < n then Contribution(ps', id, rec) - Contribution(ps, id, rec) else 0
  {
    if n == 0 {
    } else {
      PaidSumShift(ps, ps', n - 1, id, rec);
    }
  }

  lemma {:induction false} PaidSumNonnegative(ps: map<nat, Payment>, n: nat, rec: nat)
    requires forall id | id in ps :: ps[id].amount > 0
    ensures PaidSum(ps, n, rec) >= 0
    ensures forall id | 0 <= id < n :: Contribution(ps, id, rec) <= PaidSum(ps, n, rec)
  {
    if n == 0 {
    } else {
      PaidSumNonnegative(ps, n - 1, rec);
    }
  }

  /** Payments can only be linked to records that exist. */
  lemma {:induction false} PaidSumUnlinked(ps: map<nat, Payment>, n: nat, rec: nat)
    requires forall id | id in ps :: ps[id].recordId != Some(rec)
    ensures PaidSum(ps, n, rec) == 0
  {
    if n == 0 {
    } else {
      PaidSumUnlinked(ps, n - 1, rec);
    }
  }

  // ----- transactions -----

  datatype Tx = Commit(books: Books) | Abort(error: Error)

  function After(b: Books, tx: Tx): Books {
    if tx.Commit? then tx.books else b
  }

  function AddLeaseTx(b: Books, l: Lease): Tx {
    if !LeaseOk(l) then Abort(PayloadRejected)
    else if l.contractId !in b.contracts then Abort(NotFound)
    else if b.contracts[l.contractId] != LongTerm then Abort(NotLongTerm)
    else if exists x | x in b.leases :: x.contractId == l.contractId then Abort(ConstraintViolated)
    else Commit(b.(leases := b.leases + [l]))
  }

  /** Lease terms may change at any time, its contract never. */
  function EditLeaseTx(b: Books, id: nat, l: Lease): Tx {
    if id >= |b.leases| then Abort(NotFound)
    else if !LeaseOk(l) || l.contractId != b.leases[id].contractId then Abort(PayloadRejected)
    else Commit(b.(leases := b.leases[id := l]))
  }

  function GenerateTx(b: Books, leaseId: nat): Tx {
    if leaseId >= |b.leases| then Abort(NotFound)
    else
      var c := Periods.Candidate(b.records, leaseId, b.leases[leaseId]);
      if Periods.Taken(b.records, leaseId, c.periodStart) then Abort(AlreadyGenerated)
      else if !RecordOk(c) then Abort(ConstraintViolated)
      else Commit(b.(records := b.records + [c]))
  }

  /** The rewritten record row is flushed only if the operation on it succeeded. */
  function StoreRecord(b: Books, rec: nat, result: Result<BillingRecord>): Tx
    requires rec < |b.records|
  {
    match result
    case Ok(r) => Commit(b.(records := b.records[rec := r]))
    case Err(e) => Abort(e)
  }

  function EvaluateTx(b: Books, rec: nat, asOf: int): Tx {
    if rec >= |b.records| || b.records[rec].leaseId >= |b.leases| then Abort(NotFound)
    else StoreRecord(b, rec, Evaluate(b.records[rec], b.leases[b.records[rec].leaseId], asOf))
  }

  function WriteOffTx(b: Books, rec: nat): Tx {
    if rec >= |b.records| || b.records[rec].leaseId >= |b.leases| then Abort(NotFound)
    else StoreRecord(b, rec, Transition(b.records[rec], WrittenOff))
  }

  function CorrectFeeTx(b: Books, rec: nat, applied: bool, charged: Option<int>): Tx {
    if (charged.Some? && charged.value <= 0) || applied != charged.Some? then Abort(PayloadRejected)
    else if rec >= |b.records| || b.records[rec].leaseId >= |b.leases| then Abort(NotFound)
    else
      var r := b.records[rec];
      if Terminal(r.status) then Abort(CorrectionNotAllowed)
      else StoreRecord(b, rec, Ok(r.(lateFeeApplied := applied, lateFeeCharged := charged)))
  }

  function Insert(b: Books, p: Payment): Books {
    b.(payments := b.payments[b.nextPayment := p], nextPayment := b.nextPayment + 1)
  }

  function CreatePaymentTx(b: Books, contractId: nat, rec: Option<nat>, amount: int, status: PaymentStatus): Tx {
    if amount <= 0 then Abort(PayloadRejected)
    else if contractId !in b.contracts then Abort(NotFound)
    else if rec.Some? && !LinkResolves(b, contractId, rec.value) then Abort(NotFound)
    else
      var b' := Insert(b, Payment(contractId, rec, amount, status, None));
      if rec == None then Commit(b')
      else StoreRecord(b', rec.value, ApplyPayment(b.records[rec.value], PaidOn(b', rec.value)))
  }

  function UpdatePaymentTx(b: Books, id: nat, amount: Option<int>, status: Option<PaymentStatus>): Tx {
    if (amount.Some? && amount.value <= 0) || status == Some(Voided) then Abort(PayloadRejected)
    else if id !in b.payments || b.payments[id].contractId !in b.contracts then Abort(NotFound)
    else
      var p := b.payments[id];
      if p.status == Voided then Abort(AlreadyVoided)
      else
        var p' := p.(amount := amount.GetOr(p.amount), status := status.GetOr(p.status));
        Commit(b.(payments := b.payments[id := p']))
  }

  /** Append-only correction: a new row pointing at the original, which is then voided. */
  function VoidAndCorrectTx(b: Books, id: nat, amount: int, status: PaymentStatus): Tx {
    if amount <= 0 || status == Voided then Abort(PayloadRejected)
    else if id !in b.payments || b.payments[id].contractId !in b.contracts then Abort(NotFound)
    else
      var p := b.payments[id];
      if p.status == Voided then Abort(AlreadyVoided)
      else
        var b' := Insert(b, Payment(p.contractId, None, amount, status, Some(id)));
        Commit(b'.(payments := b'.payments[id := p.(status := Voided)]))
  }

  predicate Referenced(ps: map<nat, Payment>, id: nat) {
    exists k | k in ps :: ps[k].corrects == Some(id)
  }

  function DeletePaymentTx(b: Books, id: nat): Tx {
    if id !in b.payments || b.payments[id].contractId !in b.contracts then Abort(NotFound)
    else if Referenced(b.payments, id) then Abort(ConstraintViolated)
    else Commit(b.(payments := b.payments - {id}))
  }

  // ----- serial runs -----

  datatype Op =
    | AddLease(lease: Lease)
    | EditLease(leaseId: nat, terms: Lease)
    | Generate(billed: nat)
    | CreatePayment(contractId: nat, link: Option<nat>, amount: int, status: PaymentStatus)
    | UpdatePayment(payment: nat, newAmount: Option<int>, newStatus: Option<PaymentStatus>)
    | VoidAndCorrect(original: nat, corrected: int, correctedStatus: PaymentStatus)
    | DeletePayment(gone: nat)
    | EvaluateOverdue(record: nat, asOf: int)
    | WriteOff(bad: nat)
    | CorrectFee(disputed: nat, applied: bool, charged: Option<int>)

  function TxOf(b: Books, op: Op): Tx {
    match op
    case AddLease(l) => AddLeaseTx(b, l)
    case EditLease(id, l) => EditLeaseTx(b, id, l)
    case Generate(l) => GenerateTx(b, l)
    case CreatePayment(c, rec, amount, status) => CreatePaymentTx(b, c, rec, amount, status)
    case UpdatePayment(id, amount, status) => UpdatePaymentTx(b, id, amount, status)
    case VoidAndCorrect(id, amount, status) => VoidAndCorrectTx(b, id, amount, status)
    case DeletePayment(id) => DeletePaymentTx(b, id)
    case EvaluateOverdue(rec, asOf) => EvaluateTx(b, rec, asOf)
    case WriteOff(rec) => WriteOffTx(b, rec)
    case CorrectFee(rec, applied, charged) => CorrectFeeTx(b, rec, applied, charged)
  }

  function Step(b: Books, op: Op): Books {
    After(b, TxOf(b, op))
  }

  function Run(b: Books, ops: seq<Op>): Books
    decreases ops
  {
    if ops == [] then b else Run(Step(b, ops[0]), ops[1..])
  }

  // ----- every operation keeps the tables well-formed -----

  /** What no operation on an existing record ever rewrites. */
  predicate SameKey(r: BillingRecord, r': BillingRecord) {
    && r'.leaseId == r.leaseId && r'.periodStart == r.periodStart && r'.periodEnd == r.periodEnd
    && r'.dueDate == r.dueDate && r'.amountDue == r.amountDue
  }

  lemma {:induction false} RowsOfSameKeys(rs: seq<BillingRecord>, rs': seq<BillingRecord>, l: nat)
    requires |rs| == |rs'| && forall i | 0 <= i < |rs| :: SameKey(rs[i], rs'[i])
    ensures var a, b := Periods.RowsOf(rs, l), Periods.RowsOf(rs', l);
            |a| == |b| && forall k | 0 <= k < |a| :: SameKey(a[k], b[k])
  {
    if rs == [] {
    } else {
      RowsOfSameKeys(rs[..|rs| - 1], rs'[..|rs| - 1], l);
    }
  }

  /** Links are judged by lease ids and lease contracts alone. */
  lemma PaymentsStayOk(b: Books, b': Books, ps: map<nat, Payment>, n: nat)
    requires PaymentsOk(b, ps, n) && b'.contracts == b.contracts
    requires |b.records| <= |b'.records|
    requires forall i | 0 <= i < |b.records| :: b'.records[i].leaseId == b.records[i].leaseId
    requires |b.leases| <= |b'.leases|
    requires forall i | 0 <= i < |b.leases| :: b'.leases[i].contractId == b.leases[i].contractId
    ensures PaymentsOk(b', ps, n)
  {
    forall id | id in ps ensures id < n && PaymentOk(b', ps[id]) {
      assert PaymentOk(b, ps[id]);
    }
  }

  lemma StoreKeepsChains(leases: seq<Lease>, rs: seq<BillingRecord>, rec: nat, r: BillingRecord)
    requires AllChained(leases, rs) && rec < |rs| && SameKey(rs[rec], r)
    ensures AllChained(leases, rs[rec := r])
  {
    forall l | 0 <= l < |leases| ensures Periods.Chained(rs[rec := r], l, leases[l]) {
      RowsOfSameKeys(rs, rs[rec := r], l);
      assert Periods.Chained(rs, l, leases[l]);
    }
  }

  lemma StoreKeepsValid(b: Books, rec: nat, r: BillingRecord)
    requires Valid(b) && rec < |b.records| && SameKey(b.records[rec], r) && RecordOk(r)
    ensures Valid(b.(records := b.records[rec := r]))
  {
    var b' := b.(records := b.records[rec := r]);
    StoreKeepsChains(b.leases, b.records, rec, r);
    PaymentsStayOk(b, b', b.payments, b.nextPayment);
  }

  lemma GenerateKeepsChains(leases: seq<Lease>, rs: seq<BillingRecord>, l: nat)
    requires AllChained(leases, rs) && l < |leases| && LeaseOk(leases[l])
    ensures AllChained(leases, rs + [Periods.Candidate(rs, l, leases[l])])
  {
    var c := Periods.Candidate(rs, l, leases[l]);
    assert Periods.Chained(rs, l, leases[l]);
    Periods.CandidateOnChain(rs, l, leases[l]);
    Periods.InsertKeepsChain(rs, leases[l], c);
    forall k | 0 <= k < |leases| ensures Periods.Chained(rs + [c], k, leases[k]) {
      Periods.RowsOfAppend(rs, c, k);
      assert Periods.Chained(rs, k, leases[k]);
    }
  }

  lemma GenerateCommits(b: Books, l: nat)
    requires Valid(b) && l < |b.leases|
    ensures var c := Periods.Candidate(b.records, l, b.leases[l]);
            GenerateTx(b, l) == Commit(b.(records := b.records + [c])) && RecordOk(c) && c.leaseId == l
  {
    assert LeaseOk(b.leases[l]) && Periods.Chained(b.records, l, b.leases[l]);
    Periods.CandidateOnChain(b.records, l, b.leases[l]);
  }

  lemma AppendKeepsValid(b: Books, c: BillingRecord)
    requires Valid(b) && RecordOk(c) && c.leaseId < |b.leases| && AllChained(b.leases, b.records + [c])
    ensures Valid(b.(records := b.records + [c]))
  {
    PaymentsStayOk(b, b.(records := b.records + [c]), b.payments, b.nextPayment);
  }

  lemma GenerateKeepsValid(b: Books, l: nat)
    requires Valid(b) && l < |b.leases|
    ensures GenerateTx(b, l) == Commit(b.(records := b.records + [Periods.Candidate(b.records, l, b.leases[l])]))
    ensures Valid(GenerateTx(b, l).books)
  {
    var c := Periods.Candidate(b.records, l, b.leases[l]);
    GenerateCommits(b, l);
    GenerateKeepsChains(b.leases, b.records, l);
    AppendKeepsValid(b, c);
  }

  lemma LeaseStepKeepsChains(leases: seq<Lease>, leases': seq<Lease>, rs: seq<BillingRecord>)
    requires AllChained(leases, rs) && RecordsOk(leases, rs) && |leases| <= |leases'|
    ensures AllChained(leases', rs)
  {
    forall l | 0 <= l < |leases'| ensures Periods.Chained(rs, l, leases'[l]) {
      if l < |leases| {
        assert Periods.Chained(rs, l, leases[l]);
      } else {
        Periods.RowsOfNone(rs, l);
      }
    }
  }

  lemma LeasesKeepValid(b: Books, leases: seq<Lease>)
    requires Valid(b) && LeasesOk(b.contracts, leases) && |b.leases| <= |leases|
    requires forall i | 0 <= i < |b.leases| :: leases[i].contractId == b.leases[i].contractId
    ensures Valid(b.(leases := leases))
  {
    LeaseStepKeepsChains(b.leases, leases, b.records);
    PaymentsStayOk(b, b.(leases := leases), b.payments, b.nextPayment);
  }

  lemma AddLeaseKeepsValid(b: Books, l: Lease)
    requires Valid(b) && AddLeaseTx(b, l).Commit?
    ensures Valid(b.(leases := b.leases + [l]))
  {
    var leases := b.leases + [l];
    forall i | 0 <= i < |b.leases| ensures b.leases[i].contractId != l.contractId {
      assert b.leases[i] in b.leases;
    }
    assert LeasesOk(b.contracts, leases);
    LeasesKeepValid(b, leases);
  }

  lemma EditLeaseKeepsValid(b: Books, id: nat, l: Lease)
    requires Valid(b) && EditLeaseTx(b, id, l).Commit?
    ensures Valid(b.(leases := b.leases[id := l]))
  {
    assert LeasesOk(b.contracts, b.leases[id := l]);
    LeasesKeepValid(b, b.leases[id := l]);
  }

  lemma LeaseStepKeepsValid(b: Books, op: Op)
    requires Valid(b) && (op.AddLease? || op.EditLease?)
    ensures Valid(Step(b, op))
  {
    if TxOf(b, op).Commit? {
      if op.AddLease? { AddLeaseKeepsValid(b, op.lease); } else { EditLeaseKeepsValid(b, op.leaseId, op.terms); }
    }
  }

  lemma CreatePaymentResult(b: Books, contractId: nat, rec: nat, amount: int, status: PaymentStatus)
    requires Valid(b) && amount > 0 && contractId in b.contracts && LinkResolves(b, contractId, rec)
    ensures var p := Payment(contractId, Some(rec), amount, status, None);
            var paid := PaidOn(b, rec) + if status == Voided then 0 else amount;
            var r := ApplyPayment(b.records[rec], paid);
            && PaidOn(Insert(b, p), rec) == paid && r.Ok?
            && CreatePaymentTx(b, contractId, Some(rec), amount, status)
               == Commit(Insert(b, p).(records := b.records[rec := r.value]))
  {
    var p := Payment(contractId, Some(rec), amount, status, None);
    PaidSumShift(b.payments, Insert(b, p).payments, b.nextPayment, b.nextPayment, rec);
    assert RecordOk(b.records[rec]);
    ApplyPaymentTotal(b.records[rec], PaidOn(Insert(b, p), rec));
  }

  lemma InsertKeepsValid(b: Books, p: Payment)
    requires Valid(b) && PaymentOk(b, p)
    ensures Valid(Insert(b, p))
  {
    PaymentsStayOk(b, Insert(b, p), b.payments, b.nextPayment);
    assert PaymentOk(Insert(b, p), p);
  }

  lemma CreatePaymentKeepsValid(b: Books, op: Op)
    requires Valid(b) && op.CreatePayment?
    ensures Valid(Step(b, op))
  {
    if TxOf(b, op).Commit? {
      var p := Payment(op.contractId, op.link, op.amount, op.status, None);
      InsertKeepsValid(b, p);
      if op.link.Some? {
        var rec := op.link.value;
        CreatePaymentResult(b, op.contractId, rec, op.amount, op.status);
        ApplyPaymentTotal(b.records[rec], PaidOn(Insert(b, p), rec));
        StoreKeepsValid(Insert(b, p), rec, Step(b, op).records[rec]);
      }
    }
  }

  lemma EditPaymentKeepsValid(b: Books, op: Op)
    requires Valid(b) && (op.UpdatePayment? || op.VoidAndCorrect? || op.DeletePayment?)
    ensures Valid(Step(b, op))
  {
    var b' := Step(b, op);
    forall id | id in b'.payments ensures id < b'.nextPayment && PaymentOk(b', b'.payments[id]) {
      assert id in b.payments ==> PaymentOk(b, b.payments[id]);
    }
  }

  lemma RecordStepKeepsValid(b: Books, op: Op)
    requires Valid(b) && (op.EvaluateOverdue? || op.WriteOff? || op.CorrectFee?)
    ensures Valid(Step(b, op))
  {
    var tx := TxOf(b, op);
    if tx.Commit? {
      var rec := if op.EvaluateOverdue? then op.record else if op.WriteOff? then op.bad else op.disputed;
      assert RecordOk(b.records[rec]);
      if op.EvaluateOverdue? {
        EvaluateFails(b.records[rec], b.leases[b.records[rec].leaseId], op.asOf);
      }
      StoreKeepsValid(b, rec, tx.books.records[rec]);
    }
  }

  lemma StepKeepsValid(b: Books, op: Op)
    requires Valid(b)
    ensures Valid(Step(b, op))
  {
    if op.AddLease? || op.EditLease? { LeaseStepKeepsValid(b, op); }
    else if op.Generate? { if op.billed < |b.leases| { GenerateKeepsValid(b, op.billed); } }
    else if op.EvaluateOverdue? || op.WriteOff? || op.CorrectFee? { RecordStepKeepsValid(b, op); }
    else if op.CreatePayment? { CreatePaymentKeepsValid(b, op); }
    else { EditPaymentKeepsValid(b, op); }
  }

  lemma {:induction false} RunKeepsValid(b: Books, ops: seq<Op>)
    requires Valid(b)
    ensures Valid(Run(b, ops))
    decreases ops
  {
    if ops == [] {
    } else {
      StepKeepsValid(b, ops[0]);
      RunKeepsValid(Step(b, ops[0]), ops[1..]);
    }
  }

  lemma NeverConflicts(b: Books, op: Op)
    requires Valid(b)
    ensures TxOf(b, op) != Abort(AlreadyGenerated)
    ensures TxOf(b, op) == Abort(InvalidTransition) ==> op.WriteOff?
    ensures op.Generate? && op.billed < |b.leases| ==> TxOf(b, op).Commit?
  {
    if op.Generate? && op.billed < |b.leases| {
      GenerateKeepsValid(b, op.billed);
    } else if op.CreatePayment? && op.link.Some? && op.amount > 0 && op.contractId in b.contracts
              && LinkResolves(b, op.contractId, op.link.value) {
      CreatePaymentResult(b, op.contractId, op.link.value, op.amount, op.status);
    }
  }

  /**
   Over any serial run of all ten operations, start-date edits included: the tables satisfy their
   constraints, every lease is billed in contiguous periods, generation never finds its period taken,
   and neither a payment nor an overdue evaluation is ever refused by the transition table.
   */
  lemma SerialRunsNeverConflict(b: Books, ops: seq<Op>, op: Op)
    requires Valid(b)
    ensures var b' := Run(b, ops);
            && Valid(b')
            && TxOf(b', op) != Abort(AlreadyGenerated)
            && (TxOf(b', op) == Abort(InvalidTransition) ==> op.WriteOff?)
            && (op.Generate? && op.billed < |b'.leases| ==> TxOf(b', op).Commit?)
  {
    RunKeepsValid(b, ops);
    NeverConflicts(Run(b, ops), op);
  }

  // ----- the smallest runs -----

  /** One long-term contract and nothing else. */
  const OPENING := Books(map[0 := LongTerm], [], [], map[], 0)

  lemma OpeningValid()
    ensures Valid(OPENING)
  {}

  lemma {:induction false} RunAppend(b: Books, first: seq<Op>, more: seq<Op>)
    ensures Run(b, first + more) == Run(Run(b, first), more)
    decreases first
  {
    if first == [] {
      assert first + more == more;
    } else {
      assert (first + more)[1..] == first[1..] + more;
      RunAppend(Step(b, first[0]), first[1..], more);
    }
  }

  lemma RunOne(b: Books, op: Op)
    ensures Run(b, [op]) == Step(b, op)
  {
    assert [op][1..] == [];
  }

  function FirstBillOf(l: Lease): BillingRecord {
    var s := l.startDate;
    BillingRecord(0, s, s + Periods.CYCLE_DAYS, s + l.dueDay, l.monthlyRent, false, None, None, Pending)
  }

  /** Adding the first lease and billing it once. */
  lemma FirstBill(l: Lease)
    requires LeaseOk(l) && l.contractId == 0
    ensures Run(OPENING, [AddLease(l), Generate(0)]) == OPENING.(leases := [l], records := [FirstBillOf(l)])
  {
    var b1 := OPENING.(leases := [l]);
    assert Step(OPENING, AddLease(l)) == b1;
    assert Periods.Latest([], 0) == None;
    assert Step(b1, Generate(0)).records == [FirstBillOf(l)];
    assert [AddLease(l), Generate(0)][1..] == [Generate(0)];
    assert [Generate(0)][1..] == [];
  }
}
