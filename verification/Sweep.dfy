/**
 The daily overdue sweep. Each record is evaluated in its own transaction; an error in one
 ends the job with the earlier ones committed.
 */
module Sweep {
  import opened Wrappers
  import opened Billing
  import opened Books

  datatype Swept = Swept(books: Books, evaluated: nat, failure: Option<Error>)

  /** The loop over the listed records, in the order the query happened to return them. */
  function SweepLoop(b: Books, order: seq<nat>, asOf: int): Swept
    decreases order
  {
    if order == [] then Swept(b, 0, None)
    else
      match EvaluateTx(b, order[0], asOf)
      case Abort(e) => Swept(b, 0, Some(e))
      case Commit(b') =>
        var rest := SweepLoop(b', order[1..], asOf);
        rest.(evaluated := rest.evaluated + 1)
  }

  predicate InRange(b: Books, order: seq<nat>) {
    forall i | 0 <= i < |order| :: order[i] < |b.records|
  }

  predicate Distinct(order: seq<nat>) {
    forall i, j | 0 <= i < j < |order| :: order[i] != order[j]
  }

  /** A listing of the records that are still owed, in any order. */
  ghost predicate Lists(b: Books, order: seq<nat>) {
    && Distinct(order)
    && InRange(b, order)
    && (forall rec | 0 <= rec < |b.records| :: rec in order <==> Unpaid(b.records[rec].status))
  }

  /** What the table and foreign-key constraints guarantee of the rows a sweep reads. */
  ghost predicate Billable(b: Books) {
    forall rec | 0 <= rec < |b.records| ::
      var r := b.records[rec];
      RecordOk(r) && r.leaseId < |b.leases| && LeaseOk(b.leases[r.leaseId])
  }

  function LeaseOf(b: Books, rec: nat): Lease
    requires rec < |b.records| && b.records[rec].leaseId < |b.leases|
  {
    b.leases[b.records[rec].leaseId]
  }

  /** Past due with a percentage fee that rounds to nothing: the row its evaluation would flush is refused. */
  predicate Unchargeable(r: BillingRecord, l: Lease, asOf: int) {
    PastDue(r, l, asOf) && !r.lateFeeApplied && l.fee.Percent? && r.amountDue * l.fee.hundredths <= 5000
  }

  ghost predicate AllChargeable(b: Books, asOf: int)
    requires Billable(b)
  {
    forall rec | 0 <= rec < |b.records| :: !Unchargeable(b.records[rec], LeaseOf(b, rec), asOf)
  }

  /** The record after its own evaluation, if that was not refused. */
  function EvaluatedAlone(r: BillingRecord, l: Lease, asOf: int): BillingRecord {
    match Evaluate(r, l, asOf)
    case Ok(r') => r'
    case Err(_) => r
  }

  /** Every record evaluated on its own, without any order. */
  ghost function SweepAll(b: Books, asOf: int): (b': Books)
    requires Billable(b)
    ensures b' == b.(records := b'.records) && |b'.records| == |b.records|
    ensures forall rec | 0 <= rec < |b.records| ::
              b'.records[rec] == EvaluatedAlone(b.records[rec], LeaseOf(b, rec), asOf)
    ensures Billable(b')
  {
    var rs := seq(|b.records|, rec requires 0 <= rec < |b.records| =>
                    assert Billable(b); EvaluatedAlone(b.records[rec], LeaseOf(b, rec), asOf));
    assert forall rec | 0 <= rec < |rs| :: RecordOk(rs[rec]) && rs[rec].leaseId == b.records[rec].leaseId;
    b.(records := rs)
  }

  lemma EvaluateOne(b: Books, rec: nat, asOf: int)
    requires Billable(b) && rec < |b.records|
    ensures var r, l := b.records[rec], LeaseOf(b, rec);
            EvaluateTx(b, rec, asOf) ==
            if Unchargeable(r, l, asOf) then Abort(ConstraintViolated)
            else Commit(b.(records := b.records[rec := EvaluatedAlone(r, l, asOf)]))
    ensures Billable(After(b, EvaluateTx(b, rec, asOf)))
  {
    EvaluateFails(b.records[rec], LeaseOf(b, rec), asOf);
  }

  /** Records b' is books b with exactly the listed records evaluated. */
  ghost predicate EvaluatedExactly(b: Books, done: seq<nat>, asOf: int, b': Books)
    requires Billable(b)
  {
    && b' == b.(records := b'.records) && |b'.records| == |b.records|
    && forall rec | 0 <= rec < |b.records| ::
         b'.records[rec]
         == if rec in done then EvaluatedAlone(b.records[rec], LeaseOf(b, rec), asOf) else b.records[rec]
  }

  lemma EvaluatedPrepend(b: Books, rec: nat, b1: Books, done: seq<nat>, asOf: int, b': Books)
    requires Billable(b) && rec < |b.records| && rec !in done
    requires b1 == b.(records := b.records[rec := EvaluatedAlone(b.records[rec], LeaseOf(b, rec), asOf)])
    requires Billable(b1) && EvaluatedExactly(b1, done, asOf, b')
    ensures EvaluatedExactly(b, [rec] + done, asOf, b')
  {
    forall k | 0 <= k < |b.records|
      ensures b'.records[k] ==
              if k in [rec] + done then EvaluatedAlone(b.records[k], LeaseOf(b, k), asOf) else b.records[k]
    {
      assert b'.records[k] == if k in done then EvaluatedAlone(b1.records[k], LeaseOf(b1, k), asOf) else b1.records[k];
    }
  }

  /** The loop evaluated exactly the listed records before the first one that cannot be charged. */
  ghost predicate StopsAtFirst(b: Books, order: seq<nat>, asOf: int, s: Swept)
    requires Billable(b) && InRange(b, order)
  {
    && s.evaluated <= |order|
    && EvaluatedExactly(b, order[..s.evaluated], asOf, s.books)
    && (forall i | 0 <= i < s.evaluated :: !Unchargeable(b.records[order[i]], LeaseOf(b, order[i]), asOf))
    && (if s.failure == None then s.evaluated == |order|
        else
          && s.failure == Some(ConstraintViolated) && s.evaluated < |order|
          && Unchargeable(b.records[order[s.evaluated]], LeaseOf(b, order[s.evaluated]), asOf))
  }

  lemma StopsAtFirstPrepend(b: Books, rec: nat, rest: seq<nat>, asOf: int, b1: Books, s: Swept)
    requires Billable(b) && rec < |b.records| && Distinct([rec] + rest) && InRange(b, [rec] + rest)
    requires !Unchargeable(b.records[rec], LeaseOf(b, rec), asOf)
    requires b1 == b.(records := b.records[rec := EvaluatedAlone(b.records[rec], LeaseOf(b, rec), asOf)])
    requires Billable(b1) && InRange(b1, rest) && StopsAtFirst(b1, rest, asOf, s)
    ensures StopsAtFirst(b, [rec] + rest, asOf, s.(evaluated := s.evaluated + 1))
  {
    var order, n := [rec] + rest, s.evaluated;
    assert order[..n + 1] == [rec] + rest[..n];
    forall i | 0 <= i < |rest| ensures rest[i] == order[i + 1] && rest[i] != rec {
      assert order[0] != order[i + 1];
    }
    EvaluatedPrepend(b, rec, b1, rest[..n], asOf, s.books);
    forall i | 0 <= i < n + 1 ensures !Unchargeable(b.records[order[i]], LeaseOf(b, order[i]), asOf) {
      if i > 0 { assert !Unchargeable(b1.records[rest[i - 1]], LeaseOf(b1, rest[i - 1]), asOf); }
    }
  }

  lemma {:induction false} LoopMeaning(b: Books, order: seq<nat>, asOf: int)
    requires Billable(b) && Distinct(order) && InRange(b, order)
    ensures StopsAtFirst(b, order, asOf, SweepLoop(b, order, asOf))
    decreases order
  {
    if order == [] {
    } else {
      var rec, rest := order[0], order[1..];
      assert order == [rec] + rest;
      EvaluateOne(b, rec, asOf);
      if !Unchargeable(b.records[rec], LeaseOf(b, rec), asOf) {
        var b1 := EvaluateTx(b, rec, asOf).books;
        LoopMeaning(b1, rest, asOf);
        StopsAtFirstPrepend(b, rec, rest, asOf, b1, SweepLoop(b1, rest, asOf));
      }
    }
  }

  /** For every listing the sweep runs to its end exactly when every record can be charged; then order is immaterial. */
  lemma SweepOrderIrrelevant(b: Books, order: seq<nat>, asOf: int)
    requires Billable(b) && Lists(b, order)
    ensures var s := SweepLoop(b, order, asOf);
            && (s.failure == None <==> AllChargeable(b, asOf))
            && (s.failure == None ==> s.books == SweepAll(b, asOf) && s.evaluated == |order|)
  {
    LoopMeaning(b, order, asOf);
    var s := SweepLoop(b, order, asOf);
    if s.failure == None {
      assert order[..s.evaluated] == order;
      forall rec | 0 <= rec < |b.records|
        ensures s.books.records[rec] == EvaluatedAlone(b.records[rec], LeaseOf(b, rec), asOf)
        ensures !Unchargeable(b.records[rec], LeaseOf(b, rec), asOf)
      {
        if Unpaid(b.records[rec].status) {
          var i :| 0 <= i < |order| && order[i] == rec;
        }
      }
      assert s.books.records == SweepAll(b, asOf).records;
    }
  }

  /** The dashboard's late payments: still owed and past due date plus grace. */
  predicate Late(r: BillingRecord, l: Lease, today: int) {
    Unpaid(r.status) && r.dueDate + l.graceDays < today
  }

  ghost predicate LateAreOverdue(b: Books, today: int)
    requires Billable(b)
  {
    forall rec | 0 <= rec < |b.records| && Late(b.records[rec], LeaseOf(b, rec), today) ::
      b.records[rec].status == Overdue
  }

  /** A completed sweep changes exactly the records that were late and not yet overdue, and makes those overdue. */
  lemma SweepChangesExactly(b: Books, order: seq<nat>, today: int, rec: nat)
    requires Billable(b) && Lists(b, order) && SweepLoop(b, order, today).failure == None && rec < |b.records|
    ensures var b' := SweepLoop(b, order, today).books;
            var r, l := b.records[rec], LeaseOf(b, rec);
            && |b'.records| == |b.records| && b' == b.(records := b'.records)
            && (b'.records[rec] != r <==> Late(r, l, today) && r.status != Overdue)
            && (b'.records[rec] != r ==> b'.records[rec].status == Overdue)
  {
    SweepOrderIrrelevant(b, order, today);
    EvaluateFails(b.records[rec], LeaseOf(b, rec), today);
    EvaluateChanges(b.records[rec], LeaseOf(b, rec), today);
  }

  /** After the sweep every late record is overdue, if and only if every record could be charged. */
  lemma LateMeansOverdue(b: Books, order: seq<nat>, today: int)
    requires Billable(b) && Lists(b, order)
    ensures var b' := SweepLoop(b, order, today).books;
            Billable(b') && (LateAreOverdue(b', today) <==> AllChargeable(b, today))
  {
    LoopMeaning(b, order, today);
    SweepOrderIrrelevant(b, order, today);
    var s := SweepLoop(b, order, today);
    forall rec | 0 <= rec < |b.records|
      ensures RecordOk(s.books.records[rec]) && s.books.records[rec].leaseId == b.records[rec].leaseId
    {
      assert RecordOk(b.records[rec]);
    }
    if s.failure.Some? {
      var rec := order[s.evaluated];
      assert rec in order && rec !in order[..s.evaluated];
      assert Late(s.books.records[rec], LeaseOf(s.books, rec), today);
    } else {
      forall rec | 0 <= rec < |b.records| && Late(s.books.records[rec], LeaseOf(s.books, rec), today)
        ensures s.books.records[rec].status == Overdue
      {
        EvaluateFails(b.records[rec], LeaseOf(b, rec), today);
      }
    }
  }

  /**
   Such records exist: a rent of 50 cents with a fee of one percent. Once it is past due the job ends in an
   error every day, and the record stays pending although the dashboard lists it as late.
   */
  lemma SmallFeeStopsTheSweep(today: int)
    requires today > 1
    ensures var b := Run(OPENING, [AddLease(Lease(0, 50, 1, Percent(100), 0, 0)), Generate(0)]);
            && Valid(b) && Lists(b, [0]) && SweepLoop(b, [0], today) == Swept(b, 0, Some(ConstraintViolated))
            && Late(b.records[0], LeaseOf(b, 0), today) && b.records[0].status == Pending
  {
    var l := Lease(0, 50, 1, Percent(100), 0, 0);
    OpeningValid();
    FirstBill(l);
    RunKeepsValid(OPENING, [AddLease(l), Generate(0)]);
    var b := OPENING.(leases := [l], records := [FirstBillOf(l)]);
    assert 0 in [0] && b.records[0] == FirstBillOf(l);
    EvaluateOne(b, 0, today);
  }

  function Later(d1: int, d2: int): int {
    if d1 < d2 then d2 else d1
  }

  lemma EvaluateTwice(r: BillingRecord, l: Lease, d1: int, d2: int)
    requires RecordOk(r) && LeaseOk(l)
    requires !Unchargeable(r, l, Later(d1, d2))
    ensures !Unchargeable(r, l, d1) && !Unchargeable(EvaluatedAlone(r, l, d1), l, d2)
    ensures EvaluatedAlone(EvaluatedAlone(r, l, d1), l, d2) == EvaluatedAlone(r, l, Later(d1, d2))
  {
    EvaluateFails(r, l, d1);
    EvaluateFails(r, l, d2);
  }

  /** What the sweep at the later date could not charge, the first or the second sweep cannot either. */
  lemma UnchargeableTwice(r: BillingRecord, l: Lease, d1: int, d2: int)
    requires RecordOk(r) && LeaseOk(l) && Unchargeable(r, l, Later(d1, d2)) && !Unchargeable(r, l, d1)
    ensures Unchargeable(EvaluatedAlone(r, l, d1), l, d2)
  {}

  lemma SweepAllTwice(b: Books, d1: int, d2: int)
    requires Billable(b) && AllChargeable(b, d1)
    ensures AllChargeable(SweepAll(b, d1), d2) <==> AllChargeable(b, Later(d1, d2))
    ensures AllChargeable(b, Later(d1, d2)) ==> SweepAll(SweepAll(b, d1), d2) == SweepAll(b, Later(d1, d2))
  {
    var d, b1 := Later(d1, d2), SweepAll(b, d1);
    forall rec | 0 <= rec < |b.records|
      ensures Unchargeable(b1.records[rec], LeaseOf(b1, rec), d2) <==> Unchargeable(b.records[rec], LeaseOf(b, rec), d)
      ensures !Unchargeable(b.records[rec], LeaseOf(b, rec), d) ==>
                SweepAll(b1, d2).records[rec] == SweepAll(b, d).records[rec]
    {
      var r, l := b.records[rec], LeaseOf(b, rec);
      assert EvaluatedAlone(r, l, d1).leaseId == r.leaseId;
      if Unchargeable(r, l, d) { UnchargeableTwice(r, l, d1, d2); } else { EvaluateTwice(r, l, d1, d2); }
    }
    if AllChargeable(b, d) {
      assert SweepAll(b1, d2).records == SweepAll(b, d).records;
    }
  }

  /**
   Running the job at one date and then at another, whatever order each query returns, gets through exactly
   when one run at the later date would, and then leaves the same books.
   */
  lemma SweepTwice(b: Books, first: seq<nat>, second: seq<nat>, single: seq<nat>, d1: int, d2: int)
    requires Billable(b) && Lists(b, first) && Lists(b, single)
    requires Lists(SweepLoop(b, first, d1).books, second)
    ensures var s1, s := SweepLoop(b, first, d1), SweepLoop(b, single, Later(d1, d2));
            var s2 := SweepLoop(s1.books, second, d2);
            && (s.failure == None <==> s1.failure == None && s2.failure == None)
            && (s.failure == None ==> s2.books == s.books)
  {
    SweepOrderIrrelevant(b, first, d1);
    SweepOrderIrrelevant(b, single, Later(d1, d2));
    if AllChargeable(b, d1) {
      SweepAllTwice(b, d1, d2);
      SweepOrderIrrelevant(SweepAll(b, d1), second, d2);
    } else {
      var rec :| 0 <= rec < |b.records| && Unchargeable(b.records[rec], LeaseOf(b, rec), d1);
      assert Unchargeable(b.records[rec], LeaseOf(b, rec), Later(d1, d2));
    }
  }

  // ----- the sweep among all other operations -----

  function Evaluations(order: seq<nat>, asOf: int): (ops: seq<Op>)
    ensures |ops| == |order| && forall op | op in ops :: op.EvaluateOverdue?
  {
    if order == [] then [] else [EvaluateOverdue(order[0], asOf)] + Evaluations(order[1..], asOf)
  }

  /** The job is a run of evaluations of the records it got to, so it keeps all that runs keep. */
  lemma {:induction false} SweepIsRun(b: Books, order: seq<nat>, asOf: int)
    ensures var s := SweepLoop(b, order, asOf);
            s.evaluated <= |order| && s.books == Run(b, Evaluations(order[..s.evaluated], asOf))
    decreases order
  {
    if order == [] {
    } else {
      var tx := EvaluateTx(b, order[0], asOf);
      if tx.Commit? {
        SweepIsRun(tx.books, order[1..], asOf);
        var n := SweepLoop(tx.books, order[1..], asOf).evaluated;
        assert order[..n + 1][1..] == order[1..][..n];
        assert Evaluations(order[..n + 1], asOf)[1..] == Evaluations(order[1..][..n], asOf);
      }
    }
  }

  /** Over every run of all operations from well-formed books, the job's laws hold and its result is well-formed. */
  lemma RunsSweep(b: Books, ops: seq<Op>, order: seq<nat>, today: int)
    requires Valid(b) && Lists(Run(b, ops), order)
    ensures var b' := Run(b, ops);
            var s := SweepLoop(b', order, today);
            && Billable(b') && Valid(s.books)
            && (s.failure == None <==> AllChargeable(b', today))
            && (LateAreOverdue(s.books, today) <==> AllChargeable(b', today))
  {
    var b' := Run(b, ops);
    RunKeepsValid(b, ops);
    SweepOrderIrrelevant(b', order, today);
    LateMeansOverdue(b', order, today);
    SweepIsRun(b', order, today);
    RunKeepsValid(b', Evaluations(order[..SweepLoop(b', order, today).evaluated], today));
  }
}
