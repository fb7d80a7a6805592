/**
 The services themselves: mutable tables, one method per operation. An operation loads a row into
 a RecordEntity, changes it in place and stores it back; on an error the session is rolled back.
 Every method is proved equal to its transaction on the value of the tables.
 */
module BillingService {
  import opened Wrappers
  import opened Billing
  import opened Books
  import Agreement
  import Periods
  import Sweep

  datatype Generated = Generated(books: Books, generated: nat, skipped: nat, failure: Option<Error>)

  /** Generating for each listed lease in turn: a taken period is skipped, any other error ends the job. */
  function GenerateLoop(b: Books, leases: seq<nat>): Generated
    decreases leases
  {
    if leases == [] then Generated(b, 0, 0, None)
    else
      match GenerateTx(b, leases[0])
      case Commit(b') => var rest := GenerateLoop(b', leases[1..]); rest.(generated := rest.generated + 1)
      case Abort(AlreadyGenerated) => var rest := GenerateLoop(b, leases[1..]); rest.(skipped := rest.skipped + 1)
      case Abort(e) => Generated(b, 0, 0, Some(e))
  }

  /**
   On any tables, a taken period never ends the job, and every listed lease is counted once, as billed or as
   skipped.
   */
  lemma {:induction false} LoopCounts(b: Books, leases: seq<nat>)
    ensures var g := GenerateLoop(b, leases);
            && g.failure != Some(AlreadyGenerated)
            && (g.failure == None ==> g.generated + g.skipped == |leases|)
            && |g.books.records| == |b.records| + g.generated
            && g.books == b.(records := g.books.records) && b.records <= g.books.records
    decreases leases
  {
    if leases == [] {
    } else {
      LoopCounts(After(b, GenerateTx(b, leases[0])), leases[1..]);
    }
  }

  function Times(leases: seq<nat>, l: nat): nat {
    multiset(leases)[l]
  }

  lemma GenerateOnce(b: Books, x: nat, l: nat)
    requires Valid(b) && x < |b.leases|
    ensures GenerateTx(b, x).Commit?
    ensures var b' := GenerateTx(b, x).books;
            && Valid(b') && b'.leases == b.leases
            && |Periods.RowsOf(b'.records, l)| == |Periods.RowsOf(b.records, l)| + if x == l then 1 else 0
  {
    GenerateKeepsValid(b, x);
    Periods.RowsOfAppend(b.records, Periods.Candidate(b.records, x, b.leases[x]), l);
  }

  lemma TimesHead(leases: seq<nat>, l: nat)
    requires leases != []
    ensures Times(leases, l) == Times(leases[1..], l) + if leases[0] == l then 1 else 0
  {
    assert leases == [leases[0]] + leases[1..];
  }

  /**
   Run serially, the job never skips: every mention of a lease adds exactly its next period, so a second
   run bills every lease again instead of being the no-op the job's documentation expects.
   */
  lemma {:induction false} JobAdvancesEveryLease(b: Books, leases: seq<nat>, l: nat)
    requires Valid(b) && forall i | 0 <= i < |leases| :: leases[i] < |b.leases|
    ensures var g := GenerateLoop(b, leases);
            && g.generated == |leases| && g.skipped == 0 && g.failure == None
            && Valid(g.books) && g.books.leases == b.leases
            && |Periods.RowsOf(g.books.records, l)| == |Periods.RowsOf(b.records, l)| + Times(leases, l)
    decreases leases
  {
    if leases == [] {
    } else {
      GenerateOnce(b, leases[0], l);
      TimesHead(leases, l);
      JobAdvancesEveryLease(GenerateTx(b, leases[0]).books, leases[1..], l);
    }
  }

  class Tables {
    const contracts: map<nat, RentalType>
    var leases: seq<Lease>
    var records: seq<BillingRecord>
    var payments: map<nat, Payment>
    var nextPayment: nat

    function State(): Books
      reads this
    {
      Books(contracts, leases, records, payments, nextPayment)
    }

    constructor (contracts: map<nat, RentalType>)
      ensures State() == Books(contracts, [], [], map[], 0)
    {
      this.contracts := contracts;
      leases, records, payments, nextPayment := [], [], map[], 0;
    }

    method CreateLease(l: Lease) returns (e: Option<Error>)
      modifies this`leases
      ensures var tx := AddLeaseTx(old(State()), l);
              State() == After(old(State()), tx) && (e == if tx.Commit? then None else Some(tx.error))
    {
      if !LeaseOk(l) {
        return Some(PayloadRejected);
      }
      if l.contractId !in contracts {
        return Some(NotFound);
      }
      if contracts[l.contractId] != LongTerm {
        return Some(NotLongTerm);
      }
      if exists x | x in leases :: x.contractId == l.contractId {
        return Some(ConstraintViolated);
      }
      leases := leases + [l];
      e := None;
    }

    method UpdateLease(id: nat, l: Lease) returns (e: Option<Error>)
      modifies this`leases
      ensures var tx := EditLeaseTx(old(State()), id, l);
              State() == After(old(State()), tx) && (e == if tx.Commit? then None else Some(tx.error))
    {
      if id >= |leases| {
        return Some(NotFound);
      }
      if !LeaseOk(l) || l.contractId != leases[id].contractId {
        return Some(PayloadRejected);
      }
      leases := leases[id := l];
      e := None;
    }

    method GenerateBillingRecord(leaseId: nat) returns (e: Option<Error>)
      modifies this`records
      ensures var tx := GenerateTx(old(State()), leaseId);
              State() == After(old(State()), tx) && (e == if tx.Commit? then None else Some(tx.error))
    {
      if leaseId >= |leases| {
        return Some(NotFound);
      }
      var lease := leases[leaseId];
      var latest := Periods.Latest(records, leaseId);
      var periodStart := lease.startDate;
      if latest.Some? {
        periodStart := latest.value.periodEnd + 1;
      }
      var periodEnd := periodStart + Periods.CYCLE_DAYS;
      var dueDate := periodStart + lease.dueDay;
      var row := BillingRecord(leaseId, periodStart, periodEnd, dueDate, lease.monthlyRent, false, None, None, Pending);
      if Periods.Taken(records, leaseId, periodStart) {
        return Some(AlreadyGenerated);
      }
      if !RecordOk(row) {
        return Some(ConstraintViolated);
      }
      records := records + [row];
      e := None;
    }

    method EvaluateOverdue(rec: nat, asOf: int) returns (e: Option<Error>)
      modifies this`records
      ensures var tx := EvaluateTx(old(State()), rec, asOf);
              State() == After(old(State()), tx) && (e == if tx.Commit? then None else Some(tx.error))
    {
      if rec >= |records| || records[rec].leaseId >= |leases| {
        return Some(NotFound);
      }
      var record := new RecordEntity(records[rec]);
      e := record.DoEvaluate(leases[records[rec].leaseId], asOf);
      if e == None {
        records := records[rec := record.Row()];
      }
    }

    method WriteOffRecord(rec: nat) returns (e: Option<Error>)
      modifies this`records
      ensures var tx := WriteOffTx(old(State()), rec);
              State() == After(old(State()), tx) && (e == if tx.Commit? then None else Some(tx.error))
    {
      if rec >= |records| || records[rec].leaseId >= |leases| {
        return Some(NotFound);
      }
      var record := new RecordEntity(records[rec]);
      var ok := record.DoTransition(WrittenOff);
      if !ok {
        return Some(InvalidTransition);
      }
      records := records[rec := record.Row()];
      e := None;
    }

    method CorrectLateFee(rec: nat, applied: bool, charged: Option<int>) returns (e: Option<Error>)
      modifies this`records
      ensures var tx := CorrectFeeTx(old(State()), rec, applied, charged);
              State() == After(old(State()), tx) && (e == if tx.Commit? then None else Some(tx.error))
    {
      if (charged.Some? && charged.value <= 0) || applied != charged.Some? {
        return Some(PayloadRejected);
      }
      if rec >= |records| || records[rec].leaseId >= |leases| {
        return Some(NotFound);
      }
      var record := new RecordEntity(records[rec]);
      if record.status == Paid || record.status == WrittenOff {
        return Some(CorrectionNotAllowed);
      }
      record.lateFeeApplied := applied;
      record.lateFeeCharged := charged;
      records := records[rec := record.Row()];
      e := None;
    }

    method CreatePayment(contractId: nat, rec: Option<nat>, amount: int, status: PaymentStatus)
      returns (e: Option<Error>)
      modifies this`records, this`payments, this`nextPayment
      ensures var tx := CreatePaymentTx(old(State()), contractId, rec, amount, status);
              State() == After(old(State()), tx) && (e == if tx.Commit? then None else Some(tx.error))
    {
      if amount <= 0 {
        return Some(PayloadRejected);
      }
      if contractId !in contracts || (rec.Some? && !LinkResolves(State(), contractId, rec.value)) {
        return Some(NotFound);
      }
      var flushed := payments[nextPayment := Payment(contractId, rec, amount, status, None)];
      if rec.Some? {
        var record := new RecordEntity(records[rec.value]);
        var cumulativePaid := PaidSum(flushed, nextPayment + 1, rec.value);
        e := record.DoApplyPayment(cumulativePaid);
        if e.Some? {
          return;
        }
        records := records[rec.value := record.Row()];
      }
      payments, nextPayment := flushed, nextPayment + 1;
      e := None;
    }

    method UpdatePayment(id: nat, amount: Option<int>, status: Option<PaymentStatus>) returns (e: Option<Error>)
      modifies this`payments
      ensures var tx := UpdatePaymentTx(old(State()), id, amount, status);
              State() == After(old(State()), tx) && (e == if tx.Commit? then None else Some(tx.error))
    {
      if (amount.Some? && amount.value <= 0) || status == Some(Voided) {
        return Some(PayloadRejected);
      }
      if id !in payments || payments[id].contractId !in contracts {
        return Some(NotFound);
      }
      var p := payments[id];
      if p.status == Voided {
        return Some(AlreadyVoided);
      }
      if amount.Some? {
        p := p.(amount := amount.value);
      }
      if status.Some? {
        p := p.(status := status.value);
      }
      payments := payments[id := p];
      e := None;
    }

    method VoidAndCorrectPayment(id: nat, amount: int, status: PaymentStatus) returns (e: Option<Error>)
      modifies this`payments, this`nextPayment
      ensures var tx := VoidAndCorrectTx(old(State()), id, amount, status);
              State() == After(old(State()), tx) && (e == if tx.Commit? then None else Some(tx.error))
    {
      if amount <= 0 || status == Voided {
        return Some(PayloadRejected);
      }
      if id !in payments || payments[id].contractId !in contracts {
        return Some(NotFound);
      }
      var original := payments[id];
      if original.status == Voided {
        return Some(AlreadyVoided);
      }
      payments := payments[nextPayment := Payment(original.contractId, None, amount, status, Some(id))];
      nextPayment := nextPayment + 1;
      payments := payments[id := original.(status := Voided)];
      e := None;
    }

    method DeletePayment(id: nat) returns (e: Option<Error>)
      modifies this`payments
      ensures var tx := DeletePaymentTx(old(State()), id);
              State() == After(old(State()), tx) && (e == if tx.Commit? then None else Some(tx.error))
    {
      if id !in payments || payments[id].contractId !in contracts {
        return Some(NotFound);
      }
      if Referenced(payments, id) {
        return Some(ConstraintViolated);
      }
      payments := payments - {id};
      e := None;
    }

    /** One grouped query, then a loop that gives each listed record its balance, floored at zero. */
    method AttachRemainingBalance(ids: seq<nat>) returns (balances: seq<int>)
      requires forall i | 0 <= i < |ids| :: ids[i] < |records|
      ensures |balances| == |ids|
      ensures forall i | 0 <= i < |ids| ::
                balances[i] == Agreement.Remaining(records[ids[i]], PaidOn(State(), ids[i]))
    {
      balances := [];
      if ids == [] {
        return;
      }
      var wanted := set id | id in ids;
      var paidMap := Agreement.GroupedSum(payments, nextPayment, wanted);
      Agreement.GroupedSumIsPaidSum(payments, nextPayment, wanted);
      for i := 0 to |ids|
        invariant |balances| == i
        invariant forall k | 0 <= k < i :: balances[k] == Agreement.Remaining(records[ids[k]], PaidOn(State(), ids[k]))
      {
        assert ids[i] in wanted;
        var remaining := TotalOwed(records[ids[i]]) - (if ids[i] in paidMap then paidMap[ids[i]] else 0);
        balances := balances + [if remaining > 0 then remaining else 0];
      }
    }

    /** The overdue job over one listing of the unpaid records. */
    method EvaluateOverdueBillingRecords(order: seq<nat>, today: int) returns (evaluated: nat, failure: Option<Error>)
      modifies this`records
      ensures Sweep.SweepLoop(old(State()), order, today) == Sweep.Swept(State(), evaluated, failure)
    {
      evaluated, failure := 0, None;
      ghost var start := State();
      while evaluated < |order|
        invariant evaluated <= |order| && failure == None
        invariant var rest := Sweep.SweepLoop(State(), order[evaluated..], today);
                  Sweep.SweepLoop(start, order, today) == rest.(evaluated := rest.evaluated + evaluated)
      {
        assert order[evaluated..][1..] == order[evaluated + 1..];
        failure := EvaluateOverdue(order[evaluated], today);
        if failure.Some? {
          return;
        }
        evaluated := evaluated + 1;
      }
      assert order[evaluated..] == [];
    }

    /** The generation job over the active leases. */
    method GenerateDueBillingRecords(active: seq<nat>) returns (generated: nat, skipped: nat, failure: Option<Error>)
      modifies this`records
      ensures GenerateLoop(old(State()), active) == Generated(State(), generated, skipped, failure)
    {
      generated, skipped, failure := 0, 0, None;
      for i := 0 to |active|
        invariant failure == None
        invariant var rest := GenerateLoop(State(), active[i..]);
                  GenerateLoop(old(State()), active)
                  == rest.(generated := rest.generated + generated, skipped := rest.skipped + skipped)
      {
        assert active[i..][1..] == active[i + 1..];
        var e := GenerateBillingRecord(active[i]);
        if e == None {
          generated := generated + 1;
        } else if e == Some(AlreadyGenerated) {
          skipped := skipped + 1;
        } else {
          failure := e;
          return;
        }
      }
      assert active[|active|..] == [];
    }
  }
}
