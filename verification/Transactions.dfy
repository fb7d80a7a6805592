/**
 What each billing operation commits, refuses and leaves alone, told by the rows it finds and the rows it
 leaves, and the law of money over all of them.
 */
module Transactions {
  import opened Wrappers
  import opened Billing
  import opened Books
  import opened Agreement
  import opened Corrections
  import LateFee

  // ----- what is accepted -----

  /** The rows an operation asks for exist, and writing it would break no rule of the tables or the status machine. */
  ghost predicate Acceptable(b: Books, op: Op) {
    match op
    case AddLease(l) => LeasesOk(b.contracts, b.leases + [l])
    case EditLease(id, l) =>
      id < |b.leases| && l.contractId == b.leases[id].contractId && LeasesOk(b.contracts, b.leases[id := l])
    case Generate(l) => l < |b.leases|
    case CreatePayment(c, link, amount, status) => PaymentOk(b, Payment(c, link, amount, status, None))
    case UpdatePayment(id, amount, status) =>
      && id in b.payments && b.payments[id].status in {PaymentPaid, PaymentPending, Refunded}
      && amount.GetOr(1) > 0 && status != Some(Voided)
    case VoidAndCorrect(id, amount, status) =>
      && id in b.payments && b.payments[id].status in {PaymentPaid, PaymentPending, Refunded}
      && amount > 0 && status != Voided
    case DeletePayment(id) => id in b.payments && forall k | k in b.payments :: b.payments[k].corrects != Some(id)
    case EvaluateOverdue(rec, asOf) =>
      && rec < |b.records| && b.records[rec].leaseId < |b.leases|
      && var (r, l) := (b.records[rec], b.leases[b.records[rec].leaseId]);
      !(r.status in {Pending, PartiallyPaid} && r.dueDate + l.graceDays < asOf && !r.lateFeeApplied
        && l.fee.Percent? && r.amountDue * l.fee.hundredths <= 5000)
    case WriteOff(rec) => rec < |b.records| && b.records[rec].status in {PartiallyPaid, Overdue}
    case CorrectFee(rec, applied, charged) =>
      && rec < |b.records| && b.records[rec].status in {Pending, PartiallyPaid, Overdue}
      && RecordOk(b.records[rec].(lateFeeApplied := applied, lateFeeCharged := charged))
  }

  lemma LeaseAccepted(b: Books, op: Op)
    requires Valid(b) && (op.AddLease? || op.EditLease?)
    ensures TxOf(b, op).Commit? <==> Acceptable(b, op)
  {
    if op.AddLease? {
      var l, leases := op.lease, b.leases + [op.lease];
      if TxOf(b, op).Commit? {
        forall i | 0 <= i < |b.leases| ensures b.leases[i].contractId != l.contractId {
          assert b.leases[i] in b.leases;
        }
      }
      if LeasesOk(b.contracts, leases) {
        assert leases[|b.leases|] == l;
        forall x | x in b.leases ensures x.contractId != l.contractId {
          var i :| 0 <= i < |b.leases| && b.leases[i] == x;
          assert leases[i].contractId != leases[|b.leases|].contractId;
        }
      }
    } else if op.leaseId < |b.leases| {
      assert b.leases[op.leaseId := op.terms][op.leaseId] == op.terms;
    }
  }

  lemma PaymentAccepted(b: Books, op: Op)
    requires Valid(b) && (op.CreatePayment? || !KeepsHistory(op))
    ensures TxOf(b, op).Commit? <==> Acceptable(b, op)
  {
    if op.CreatePayment? {
      if PaymentOk(b, Payment(op.contractId, op.link, op.amount, op.status, None)) && op.link.Some? {
        CreatePaymentResult(b, op.contractId, op.link.value, op.amount, op.status);
      }
    } else if Target(op) in b.payments {
      assert PaymentOk(b, b.payments[Target(op)]);
    }
  }

  lemma RecordAccepted(b: Books, op: Op)
    requires Valid(b) && (op.EvaluateOverdue? || op.WriteOff? || op.CorrectFee?)
    ensures TxOf(b, op).Commit? <==> Acceptable(b, op)
  {
    var rec := if op.EvaluateOverdue? then op.record else if op.WriteOff? then op.bad else op.disputed;
    if rec < |b.records| {
      assert RecordOk(b.records[rec]) && b.records[rec].leaseId < |b.leases|;
      assert LeaseOk(b.leases[b.records[rec].leaseId]);
      if op.EvaluateOverdue? {
        EvaluateFails(b.records[rec], b.leases[b.records[rec].leaseId], op.asOf);
      }
    }
  }

  /** An operation commits exactly when it is acceptable; refused, it changes nothing. */
  lemma CommitsExactly(b: Books, op: Op)
    requires Valid(b)
    ensures TxOf(b, op).Commit? <==> Acceptable(b, op)
    ensures !Acceptable(b, op) ==> Step(b, op) == b
  {
    if op.AddLease? || op.EditLease? { LeaseAccepted(b, op); }
    else if op.Generate? { if op.billed < |b.leases| { GenerateCommits(b, op.billed); } }
    else if op.CreatePayment? || !KeepsHistory(op) { PaymentAccepted(b, op); }
    else { RecordAccepted(b, op); }
  }

  /** Something the operation names is not there. */
  predicate NamesMissing(b: Books, op: Op) {
    match op
    case AddLease(l) => l.contractId !in b.contracts
    case EditLease(id, _) => id >= |b.leases|
    case Generate(l) => l >= |b.leases|
    case CreatePayment(c, link, _, _) => c !in b.contracts || (link.Some? && !LinkResolves(b, c, link.value))
    case UpdatePayment(id, _, _) => id !in b.payments
    case VoidAndCorrect(id, _, _) => id !in b.payments
    case DeletePayment(id) => id !in b.payments
    case EvaluateOverdue(rec, _) => rec >= |b.records|
    case WriteOff(rec) => rec >= |b.records|
    case CorrectFee(rec, _, _) => rec >= |b.records|
  }

  /** What each refusal tells the caller. */
  lemma RefusalMeans(b: Books, op: Op)
    requires Valid(b) && TxOf(b, op).Abort?
    ensures match TxOf(b, op).error
            case NotFound => NamesMissing(b, op)
            case AlreadyVoided =>
              && (op.UpdatePayment? || op.VoidAndCorrect?)
              && Target(op) in b.payments && b.payments[Target(op)].status == Voided
            case CorrectionNotAllowed =>
              op.CorrectFee? && op.disputed < |b.records| && b.records[op.disputed].status in {Paid, WrittenOff}
            case InvalidTransition =>
              op.WriteOff? && op.bad < |b.records| && b.records[op.bad].status in {Pending, Paid, WrittenOff}
            case NotLongTerm => op.AddLease? && op.lease.contractId in b.contracts && !NamesMissing(b, op)
            case ConstraintViolated => op.AddLease? || op.DeletePayment? || op.EvaluateOverdue?
            case PayloadRejected => !op.Generate? && !op.DeletePayment? && !op.EvaluateOverdue? && !op.WriteOff?
            case AlreadyGenerated => false
  {
    NeverConflicts(b, op);
    if !KeepsHistory(op) {
      if Target(op) in b.payments { assert PaymentOk(b, b.payments[Target(op)]); }
    } else if op.EvaluateOverdue? || op.WriteOff? || op.CorrectFee? {
      var rec := if op.EvaluateOverdue? then op.record else if op.WriteOff? then op.bad else op.disputed;
      if rec < |b.records| {
        assert RecordOk(b.records[rec]) && b.records[rec].leaseId < |b.leases|;
        assert LeaseOk(b.leases[b.records[rec].leaseId]);
        if op.EvaluateOverdue? { EvaluateFails(b.records[rec], b.leases[b.records[rec].leaseId], op.asOf); }
      }
    } else if op.CreatePayment? && op.amount > 0 && !NamesMissing(b, op) && op.link.Some? {
      CreatePaymentResult(b, op.contractId, op.link.value, op.amount, op.status);
    }
  }

  // ----- what is written, and what is not -----

  predicate SameRecordsBut(b: Books, b': Books, rec: Option<nat>) {
    |b'.records| == |b.records| && forall k | 0 <= k < |b.records| && Some(k) != rec :: b'.records[k] == b.records[k]
  }

  ghost predicate SamePaymentsBut(b: Books, b': Books, touched: set<nat>) {
    forall k: nat | k !in touched ::
      (k in b'.payments <==> k in b.payments) && (k in b.payments ==> b'.payments[k] == b.payments[k])
  }

  /**
   A write-off leaves the record as it was but written off, every other row alone, and its bill no longer
   outstanding.
   */
  lemma WriteOffExactly(b: Books, rec: nat)
    requires Valid(b) && Acceptable(b, WriteOff(rec))
    ensures var b' := Step(b, WriteOff(rec));
            && b' == b.(records := b'.records) && SameRecordsBut(b, b', Some(rec))
            && b'.records[rec] == b.records[rec].(status := WrittenOff)
            && SumOutstanding(b'.records) == SumOutstanding(b.records) - TotalOwed(b.records[rec])
  {
    CommitsExactly(b, WriteOff(rec));
    OutstandingShift(b.records, rec, b.records[rec].(status := WrittenOff));
  }

  /** A fee correction writes the two fee columns of one record. */
  lemma CorrectFeeExactly(b: Books, rec: nat, applied: bool, charged: Option<int>)
    requires Valid(b) && Acceptable(b, CorrectFee(rec, applied, charged))
    ensures var b' := Step(b, CorrectFee(rec, applied, charged));
            && b' == b.(records := b'.records) && SameRecordsBut(b, b', Some(rec))
            && b'.records[rec].lateFeeApplied == applied && b'.records[rec].lateFeeCharged == charged
            && b'.records[rec].(lateFeeApplied := b.records[rec].lateFeeApplied,
                                lateFeeCharged := b.records[rec].lateFeeCharged) == b.records[rec]
  {
    CommitsExactly(b, CorrectFee(rec, applied, charged));
  }

  /**
   An evaluation marks one record overdue exactly if it is past due, charges a first fee, and keeps a fee there
   is.
   */
  lemma EvaluateExactly(b: Books, rec: nat, asOf: int)
    requires Valid(b) && Acceptable(b, EvaluateOverdue(rec, asOf))
    ensures var b' := Step(b, EvaluateOverdue(rec, asOf));
            var r, l := b.records[rec], b.leases[b.records[rec].leaseId];
            && b' == b.(records := b'.records) && SameRecordsBut(b, b', Some(rec))
            && if r.status in {Pending, PartiallyPaid} && r.dueDate + l.graceDays < asOf
               then
                 && b'.records[rec].(lateFeeApplied := r.lateFeeApplied, lateFeeCharged := r.lateFeeCharged)
                    == r.(status := Overdue)
                 && b'.records[rec].lateFeeApplied
                 && match (r.lateFeeApplied, l.fee)
                    case (true, _) => b'.records[rec].lateFeeCharged == r.lateFeeCharged
                    case (false, Flat(cents)) => b'.records[rec].lateFeeCharged == Some(cents)
                    case (false, Percent(h)) =>
                      && b'.records[rec].lateFeeCharged.Some?
                      && LateFee.IsHalfEven(r.amountDue * h, 10000, b'.records[rec].lateFeeCharged.value)
               else b'.records[rec] == r
  {
    CommitsExactly(b, EvaluateOverdue(rec, asOf));
    var r, l := b.records[rec], b.leases[b.records[rec].leaseId];
    assert RecordOk(r) && LeaseOk(l);
    EvaluateChanges(r, l, asOf);
    if PastDue(r, l, asOf) && !r.lateFeeApplied { FirstLateFee(r, l, asOf); }
  }

  /** Leases are added and edited, never lost; nothing else moves. */
  lemma LeaseWritten(b: Books, op: Op)
    requires Valid(b) && (op.AddLease? || op.EditLease?) && Acceptable(b, op)
    ensures var b' := Step(b, op);
            && b' == b.(leases := b'.leases)
            && |b'.leases| == |b.leases| + (if op.AddLease? then 1 else 0)
            && b'.leases[if op.AddLease? then |b.leases| else op.leaseId]
               == (if op.AddLease? then op.lease else op.terms)
            && forall k | 0 <= k < |b.leases| && !(op.EditLease? && op.leaseId == k) :: b'.leases[k] == b.leases[k]
  {
    CommitsExactly(b, op);
  }

  /** Every payment operation writes just the rows it names or adds, with just the values asked for. */
  lemma PaymentWritten(b: Books, op: Op)
    requires Valid(b) && (op.CreatePayment? || !KeepsHistory(op)) && Acceptable(b, op)
    ensures var b', n := Step(b, op), b.nextPayment;
            && b'.contracts == b.contracts && b'.leases == b.leases
            && SameRecordsBut(b, b', if op.CreatePayment? then op.link else None)
            && b'.nextPayment == (if op.CreatePayment? || op.VoidAndCorrect? then n + 1 else n)
            && match op
               case CreatePayment(c, link, amount, status) =>
                 && SamePaymentsBut(b, b', {n})
                 && n in b'.payments && b'.payments[n] == Payment(c, link, amount, status, None)
               case UpdatePayment(id, amount, status) =>
                 && SamePaymentsBut(b, b', {id}) && id in b'.payments
                 && b'.payments[id].amount == (if amount.Some? then amount.value else b.payments[id].amount)
                 && b'.payments[id].status == (if status.Some? then status.value else b.payments[id].status)
                 && b'.payments[id].contractId == b.payments[id].contractId
                 && b'.payments[id].recordId == b.payments[id].recordId
                 && b'.payments[id].corrects == b.payments[id].corrects
               case VoidAndCorrect(id, amount, status) =>
                 && SamePaymentsBut(b, b', {id, n}) && id in b'.payments && n in b'.payments
                 && b'.payments[id].(status := b.payments[id].status) == b.payments[id]
                 && b'.payments[id].status == Voided
                 && b'.payments[n] == Payment(b.payments[id].contractId, None, amount, status, Some(id))
               case DeletePayment(id) => SamePaymentsBut(b, b', {id}) && id !in b'.payments
  {
    CommitsExactly(b, op);
    if op.CreatePayment? && op.link.Some? {
      CreatePaymentResult(b, op.contractId, op.link.value, op.amount, op.status);
    } else if op.VoidAndCorrect? {
      assert PaymentOk(b, b.payments[op.original]);
      assert op.original < b.nextPayment;
    }
  }

  /**
   After a correction the one payment of the chain that counts is the new row, with the corrected amount and
   status.
   */
  lemma CorrectedPaymentCounts(b: Books, id: nat, amount: int, status: PaymentStatus, q: nat)
    requires Valid(b) && ChainsOk(b) && Acceptable(b, VoidAndCorrect(id, amount, status))
    requires q in Step(b, VoidAndCorrect(id, amount, status)).payments
    ensures var ps, n := Step(b, VoidAndCorrect(id, amount, status)).payments, b.nextPayment;
            && Linked(ps) && n in ps && id in ps && Root(ps, n) == Root(ps, id)
            && ps[n].amount == amount && ps[n].status == status != Voided
            && (Root(ps, q) == Root(ps, id) && ps[q].status != Voided ==> q == n)
  {
    var op := VoidAndCorrect(id, amount, status);
    PaymentWritten(b, op);
    StepKeepsChains(b, op);
    var ps, n := Step(b, op).payments, b.nextPayment;
    assert ps[n].corrects == Some(id);
    if Root(ps, q) == Root(ps, id) && ps[q].status != Voided {
      OneLivePerChain(ps, n, q);
    }
  }

  // ----- the law of money -----

  /** What a payment row is worth to a contract. */
  function Worth(ps: map<nat, Payment>, id: nat, contract: nat): int {
    if id in ps && ps[id].contractId == contract && ps[id].status != Voided then ps[id].amount else 0
  }

  /** All that is on a contract's account, over the rows numbered below n. */
  function Account(ps: map<nat, Payment>, n: nat, contract: nat): int {
    if n == 0 then 0 else Account(ps, n - 1, contract) + Worth(ps, n - 1, contract)
  }

  function AccountOf(b: Books, contract: nat): int {
    Account(b.payments, b.nextPayment, contract)
  }

  lemma {:induction false} AccountShift(ps: map<nat, Payment>, ps': map<nat, Payment>, n: nat, id: nat, contract: nat)
    requires forall k: nat | k < n && k != id :: Worth(ps', k, contract) == Worth(ps, k, contract)
    ensures Account(ps', n, contract) ==
            Account(ps, n, contract) + if id < n then Worth(ps', id, contract) - Worth(ps, id, contract) else 0
  {
    if n == 0 {
    } else {
      AccountShift(ps, ps', n - 1, id, contract);
    }
  }

  /** What an operation adds to a contract's account, read off the request and the row it names. */
  function Booked(b: Books, op: Op, contract: nat): int {
    match op
    case CreatePayment(c, _, amount, status) => if c == contract && status != Voided then amount else 0
    case UpdatePayment(id, amount, _) =>
      if id in b.payments && b.payments[id].contractId == contract && amount.Some?
      then amount.value - b.payments[id].amount else 0
    case VoidAndCorrect(id, amount, _) =>
      if id in b.payments && b.payments[id].contractId == contract then amount - b.payments[id].amount else 0
    case DeletePayment(id) => -Worth(b.payments, id, contract)
    case _ => 0
  }

  lemma PaymentBooked(b: Books, op: Op, contract: nat)
    requires Valid(b) && op.CreatePayment? && Acceptable(b, op)
    ensures AccountOf(Step(b, op), contract) == AccountOf(b, contract) + Booked(b, op, contract)
  {
    PaymentWritten(b, op);
    var b', n := Step(b, op), b.nextPayment;
    assert n !in b.payments;
    AccountShift(b.payments, b'.payments, n, n, contract);
  }

  lemma EditBooked(b: Books, op: Op, contract: nat)
    requires Valid(b) && (op.UpdatePayment? || op.DeletePayment?) && Acceptable(b, op)
    ensures AccountOf(Step(b, op), contract) == AccountOf(b, contract) + Booked(b, op, contract)
  {
    PaymentWritten(b, op);
    assert Target(op) < b.nextPayment;
    AccountShift(b.payments, Step(b, op).payments, b.nextPayment, Target(op), contract);
  }

  lemma CorrectionBooked(b: Books, op: Op, contract: nat)
    requires Valid(b) && op.VoidAndCorrect? && Acceptable(b, op)
    ensures AccountOf(Step(b, op), contract) == AccountOf(b, contract) + Booked(b, op, contract)
  {
    PaymentWritten(b, op);
    var b', n, id := Step(b, op), b.nextPayment, op.original;
    assert id < n && n !in b.payments;
    AccountShift(b.payments, b'.payments, n, id, contract);
  }

  /** Each committed operation moves a contract's account by what it books on it, and no other account. */
  lemma StepBooks(b: Books, op: Op, contract: nat)
    requires Valid(b) && Acceptable(b, op)
    ensures AccountOf(Step(b, op), contract) == AccountOf(b, contract) + Booked(b, op, contract)
  {
    if op.CreatePayment? {
      PaymentBooked(b, op, contract);
    } else if op.VoidAndCorrect? {
      CorrectionBooked(b, op, contract);
    } else if !KeepsHistory(op) {
      EditBooked(b, op, contract);
    } else {
      assert Step(b, op).payments == b.payments && Step(b, op).nextPayment == b.nextPayment;
    }
  }

  /** All that a run books on a contract; a refused operation books nothing. */
  ghost function AllBooked(b: Books, ops: seq<Op>, contract: nat): int
    decreases ops
  {
    if ops == [] then 0
    else
      (if Acceptable(b, ops[0]) then Booked(b, ops[0], contract) else 0)
      + AllBooked(Step(b, ops[0]), ops[1..], contract)
  }

  /** Over every run of all ten operations a contract's account is what was booked on it. */
  lemma {:induction false} RunBooks(b: Books, ops: seq<Op>, contract: nat)
    requires Valid(b)
    ensures AccountOf(Run(b, ops), contract) == AccountOf(b, contract) + AllBooked(b, ops, contract)
    decreases ops
  {
    if ops == [] {
    } else {
      CommitsExactly(b, ops[0]);
      if Acceptable(b, ops[0]) { StepBooks(b, ops[0], contract); }
      StepKeepsValid(b, ops[0]);
      RunBooks(Step(b, ops[0]), ops[1..], contract);
    }
  }
}
