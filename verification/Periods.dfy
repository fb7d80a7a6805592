/**
 Billing periods: how the next one is derived, and what any number of workers that
 interleave "read the latest record" with "insert the candidate" can commit.
 The unique constraint on (lease, period start) is the only coordination there is.
 */
module Periods {
  import opened Wrappers
  import opened Billing

  const CYCLE_DAYS := 30

  /** The record of the lease with the highest period end. */
  function Latest(rs: seq<BillingRecord>, leaseId: nat): (latest: Option<BillingRecord>)
    ensures latest == None ==> forall r | r in rs :: r.leaseId != leaseId
    ensures latest.Some? ==> latest.value in rs && latest.value.leaseId == leaseId
    ensures latest.Some? ==> forall r | r in rs && r.leaseId == leaseId :: r.periodEnd <= latest.value.periodEnd
  {
    if rs == [] then None
    else
      var rest := Latest(rs[..|rs| - 1], leaseId);
      var r := rs[|rs| - 1];
      assert rs == rs[..|rs| - 1] + [r];
      if r.leaseId == leaseId && (rest == None || rest.value.periodEnd < r.periodEnd) then Some(r) else rest
  }

  /** The row a worker would insert, from what it read. */
  function Candidate(rs: seq<BillingRecord>, leaseId: nat, lease: Lease): BillingRecord {
    var latest := Latest(rs, leaseId);
    var start := if latest.Some? then latest.value.periodEnd + 1 else lease.startDate;
    BillingRecord(
      leaseId, start, start + CYCLE_DAYS, start + lease.dueDay, lease.monthlyRent, false, None, None, Pending)
  }

  /** The unique constraint on (lease_id, period_start) refuses the row. */
  predicate Taken(rs: seq<BillingRecord>, leaseId: nat, start: int) {
    exists r | r in rs :: r.leaseId == leaseId && r.periodStart == start
  }

  // ----- the chain of one lease -----

  /** The records of one lease, oldest first. */
  function RowsOf(rs: seq<BillingRecord>, leaseId: nat): seq<BillingRecord> {
    if rs == [] then []
    else
      var r := rs[|rs| - 1];
      RowsOf(rs[..|rs| - 1], leaseId) + if r.leaseId == leaseId then [r] else []
  }

  lemma {:induction false} RowsOfMembers(rs: seq<BillingRecord>, leaseId: nat)
    ensures forall r :: r in RowsOf(rs, leaseId) <==> r in rs && r.leaseId == leaseId
  {
    if rs == [] {
    } else {
      RowsOfMembers(rs[..|rs| - 1], leaseId);
      assert rs == rs[..|rs| - 1] + [rs[|rs| - 1]];
    }
  }

  lemma {:induction false} RowsOfNone(rs: seq<BillingRecord>, leaseId: nat)
    requires forall r | r in rs :: r.leaseId != leaseId
    ensures RowsOf(rs, leaseId) == []
  {
    if rs == [] {
    } else {
      RowsOfNone(rs[..|rs| - 1], leaseId);
    }
  }

  lemma RowsOfAppend(rs: seq<BillingRecord>, c: BillingRecord, leaseId: nat)
    ensures RowsOf(rs + [c], leaseId) == RowsOf(rs, leaseId) + if c.leaseId == leaseId then [c] else []
  {
    assert (rs + [c])[..|rs|] == rs;
  }

  /** A well-shaped period: 31 days, due within 1..31 days of its start. */
  predicate Shaped(r: BillingRecord) {
    r.periodEnd == r.periodStart + CYCLE_DAYS && 1 <= r.dueDate - r.periodStart <= 31
  }

  ghost predicate Chain(rows: seq<BillingRecord>, anchor: int) {
    forall k | 0 <= k < |rows| :: Shaped(rows[k]) && rows[k].periodStart == anchor + 31 * k
  }

  predicate Covers(r: BillingRecord, day: int) {
    r.periodStart <= day <= r.periodEnd
  }

  /** Every billed day belongs to exactly one period of the chain. */
  lemma ChainPartitionsDays(rows: seq<BillingRecord>, anchor: int, day: int) returns (k: nat)
    requires Chain(rows, anchor)
    requires anchor <= day < anchor + 31 * |rows|
    ensures k < |rows| && Covers(rows[k], day)
    ensures forall j | 0 <= j < |rows| :: Covers(rows[j], day) <==> j == k
  {
    k := (day - anchor) / 31;
    forall j | 0 <= j < |rows| ensures Covers(rows[j], day) <==> j == k {
      assert rows[j].periodStart == anchor + 31 * j;
    }
  }

  /** Due dates strictly increase although the due day may differ from record to record. */
  lemma ChainDueDatesIncrease(rows: seq<BillingRecord>, anchor: int, i: nat, j: nat)
    requires Chain(rows, anchor) && i < j < |rows|
    ensures rows[i].dueDate < rows[j].dueDate
  {
    assert Shaped(rows[i]) && Shaped(rows[j]);
  }

  lemma ChainEnds(rows: seq<BillingRecord>, anchor: int, k: nat)
    requires Chain(rows, anchor) && k < |rows|
    ensures rows[k].periodEnd == anchor + 31 * k + CYCLE_DAYS
  {
    assert Shaped(rows[k]);
  }

  lemma ChainLatest(rs: seq<BillingRecord>, leaseId: nat, anchor: int)
    requires Chain(RowsOf(rs, leaseId), anchor)
    ensures var rows := RowsOf(rs, leaseId);
            Latest(rs, leaseId) == if rows == [] then None else Some(rows[|rows| - 1])
  {
    var rows, latest := RowsOf(rs, leaseId), Latest(rs, leaseId);
    RowsOfMembers(rs, leaseId);
    if rows != [] {
      var n := |rows| - 1;
      assert rows[n] in rows;
      assert rows[n] in rs && rows[n].leaseId == leaseId;
      assert latest.Some? && latest.value in rows && rows[n].periodEnd <= latest.value.periodEnd;
      var k :| 0 <= k < |rows| && rows[k] == latest.value;
      ChainEnds(rows, anchor, k);
      ChainEnds(rows, anchor, n);
    }
  }

  /** The start of the chain: its first record's, or the lease's own while there is none. */
  function Anchor(rs: seq<BillingRecord>, leaseId: nat, lease: Lease): int {
    var rows := RowsOf(rs, leaseId);
    if rows == [] then lease.startDate else rows[0].periodStart
  }

  ghost predicate Chained(rs: seq<BillingRecord>, leaseId: nat, lease: Lease) {
    Chain(RowsOf(rs, leaseId), Anchor(rs, leaseId, lease))
  }

  /** One of the first n + 1 period starts of a chain, counted from its anchor. */
  predicate OnGrid(offset: int, n: nat) {
    offset == 31 * n || (n > 0 && OnGrid(offset, n - 1))
  }

  lemma {:induction false} GridIndex(offset: int, n: nat) returns (j: nat)
    requires OnGrid(offset, n)
    ensures j <= n && offset == 31 * j
  {
    if offset == 31 * n { j := n; } else { j := GridIndex(offset, n - 1); }
  }

  /** A candidate lies on the chain, at its end or before. */
  predicate OnChain(rs: seq<BillingRecord>, lease: Lease, c: BillingRecord) {
    Shaped(c) && OnGrid(c.periodStart - Anchor(rs, c.leaseId, lease), |RowsOf(rs, c.leaseId)|)
  }

  lemma ChainStartsBelow(rs: seq<BillingRecord>, leaseId: nat, anchor: int)
    requires Chain(RowsOf(rs, leaseId), anchor)
    ensures forall r | r in rs && r.leaseId == leaseId :: r.periodStart < anchor + 31 * |RowsOf(rs, leaseId)|
  {
    RowsOfMembers(rs, leaseId);
    forall r | r in rs && r.leaseId == leaseId
      ensures r.periodStart < anchor + 31 * |RowsOf(rs, leaseId)|
    {
      assert r in RowsOf(rs, leaseId);
    }
  }

  /** A worker that reads and inserts without interruption continues the chain and meets no conflict. */
  lemma CandidateOnChain(rs: seq<BillingRecord>, leaseId: nat, lease: Lease)
    requires Chained(rs, leaseId, lease) && LeaseOk(lease)
    ensures var c := Candidate(rs, leaseId, lease);
            && OnChain(rs, lease, c)
            && c.periodStart == Anchor(rs, leaseId, lease) + 31 * |RowsOf(rs, leaseId)|
            && !Taken(rs, leaseId, c.periodStart)
            && c.dueDate - c.periodStart == lease.dueDay && c.amountDue == lease.monthlyRent
            && c.status == Pending && !c.lateFeeApplied && RecordOk(c)
  {
    var rows, c, a := RowsOf(rs, leaseId), Candidate(rs, leaseId, lease), Anchor(rs, leaseId, lease);
    ChainLatest(rs, leaseId, a);
    ChainStartsBelow(rs, leaseId, a);
    if rows != [] {
      var last := rows[|rows| - 1];
      assert Shaped(last) && last.periodStart == a + 31 * (|rows| - 1);
    }
    assert c.periodStart == a + 31 * |rows|;
  }

  /** A candidate's period is taken exactly when it is not the next one. */
  lemma TakenExactly(rs: seq<BillingRecord>, lease: Lease, c: BillingRecord)
    requires Chained(rs, c.leaseId, lease) && OnChain(rs, lease, c)
    ensures Taken(rs, c.leaseId, c.periodStart) <==>
              c.periodStart != Anchor(rs, c.leaseId, lease) + 31 * |RowsOf(rs, c.leaseId)|
  {
    var rows, a := RowsOf(rs, c.leaseId), Anchor(rs, c.leaseId, lease);
    var j := GridIndex(c.periodStart - a, |rows|);
    if j < |rows| {
      RowsOfMembers(rs, c.leaseId);
      assert rows[j] in rows && rows[j].periodStart == c.periodStart;
    } else {
      ChainStartsBelow(rs, c.leaseId, a);
    }
  }

  lemma ChainGrows(rows: seq<BillingRecord>, anchor: int, c: BillingRecord)
    requires Chain(rows, anchor) && Shaped(c) && c.periodStart == anchor + 31 * |rows|
    ensures Chain(rows + [c], anchor)
  {}

  /** Inserting a candidate keeps the chain: it is either the next period or already taken. */
  lemma InsertKeepsChain(rs: seq<BillingRecord>, lease: Lease, c: BillingRecord)
    requires Chained(rs, c.leaseId, lease) && OnChain(rs, lease, c) && !Taken(rs, c.leaseId, c.periodStart)
    ensures Chained(rs + [c], c.leaseId, lease) && Anchor(rs + [c], c.leaseId, lease) == Anchor(rs, c.leaseId, lease)
  {
    TakenExactly(rs, lease, c);
    RowsOfAppend(rs, c, c.leaseId);
    ChainGrows(RowsOf(rs, c.leaseId), Anchor(rs, c.leaseId, lease), c);
  }

  // ----- many workers -----

  datatype Attempt = Attempt(worker: nat, leaseId: nat, start: int, won: bool)

  /** Committed rows, what each worker has read and not yet inserted, and every insert tried so far. */
  datatype Sys = Sys(leases: seq<Lease>, records: seq<BillingRecord>, held: map<nat, BillingRecord>, log: seq<Attempt>)

  datatype Action = Read(worker: nat, leaseId: nat) | Insert(worker: nat) | EditLease(leaseId: nat, lease: Lease)

  function Do(s: Sys, a: Action): Sys {
    match a
    case Read(w, l) =>
      if l < |s.leases| then s.(held := s.held[w := Candidate(s.records, l, s.leases[l])]) else s
    case Insert(w) =>
      if w !in s.held then s
      else
        var c := s.held[w];
        var won := !Taken(s.records, c.leaseId, c.periodStart);
        s.(held := s.held - {w}, log := s.log + [Attempt(w, c.leaseId, c.periodStart, won)],
           records := if won then s.records + [c] else s.records)
    case EditLease(l, lease) =>
      if l < |s.leases| && LeaseOk(lease) then s.(leases := s.leases[l := lease]) else s
  }

  function Run(s: Sys, actions: seq<Action>): Sys
    decreases actions
  {
    if actions == [] then s else Run(Do(s, actions[0]), actions[1..])
  }

  /** One lease: its records are contiguous, and every candidate held for it lies on their chain. */
  ghost predicate LeaseInv(s: Sys, l: nat) {
    && l < |s.leases| && LeaseOk(s.leases[l]) && Chained(s.records, l, s.leases[l])
    && forall w | w in s.held && s.held[w].leaseId == l :: OnChain(s.records, s.leases[l], s.held[w])
  }

  /** Records and candidates are of leases that exist. */
  predicate LeasesExist(s: Sys) {
    && (forall i | 0 <= i < |s.records| :: s.records[i].leaseId < |s.leases|)
    && (forall w | w in s.held :: s.held[w].leaseId < |s.leases|)
  }

  ghost predicate Inv(s: Sys) {
    LeasesExist(s) && forall l | 0 <= l < |s.leases| :: LeaseInv(s, l)
  }

  /** The start date of lease l is moved. */
  predicate Moves(s: Sys, a: Action, l: nat) {
    a.EditLease? && a.leaseId == l && l < |s.leases| && a.lease.startDate != s.leases[l].startDate
  }

  /** Moving a lease's start date is harmless once it is billed, or while nobody holds a candidate for it. */
  ghost predicate Safe(s: Sys, a: Action, l: nat) {
    Moves(s, a, l) ==> RowsOf(s.records, l) != [] || forall w | w in s.held :: s.held[w].leaseId != l
  }

  /** Safe for lease l, whatever happens to any other lease. */
  ghost predicate SafeRun(s: Sys, actions: seq<Action>, l: nat)
    decreases actions
  {
    actions == [] || (Safe(s, actions[0], l) && SafeRun(Do(s, actions[0]), actions[1..], l))
  }

  /** A committed period leaves every other lease, and every other candidate, where it was. */
  lemma InsertKeepsOnChain(rs: seq<BillingRecord>, lease: Lease, c: BillingRecord, d: BillingRecord)
    requires OnChain(rs, lease, d)
    requires c.leaseId == d.leaseId ==> Anchor(rs + [c], d.leaseId, lease) == Anchor(rs, d.leaseId, lease)
    ensures OnChain(rs + [c], lease, d)
  {
    RowsOfAppend(rs, c, d.leaseId);
    var offset, n := d.periodStart - Anchor(rs, d.leaseId, lease), |RowsOf(rs, d.leaseId)|;
    assert OnGrid(offset, n) ==> OnGrid(offset, n + 1);
  }

  lemma AppendKeepsChained(rs: seq<BillingRecord>, l: nat, lease: Lease, c: BillingRecord)
    requires Chained(rs, l, lease)
    requires c.leaseId == l ==> OnChain(rs, lease, c) && !Taken(rs, l, c.periodStart)
    ensures Chained(rs + [c], l, lease) && Anchor(rs + [c], l, lease) == Anchor(rs, l, lease)
  {
    RowsOfAppend(rs, c, l);
    if c.leaseId == l {
      InsertKeepsChain(rs, lease, c);
    }
  }

  lemma InsertKeepsLease(s: Sys, w: nat, l: nat)
    requires LeaseInv(s, l) && w in s.held
    ensures LeaseInv(Do(s, Insert(w)), l)
    ensures Anchor(Do(s, Insert(w)).records, l, s.leases[l]) == Anchor(s.records, l, s.leases[l])
  {
    var s', c := Do(s, Insert(w)), s.held[w];
    if !Taken(s.records, c.leaseId, c.periodStart) {
      AppendKeepsChained(s.records, l, s.leases[l], c);
      forall v | v in s'.held && s'.held[v].leaseId == l ensures OnChain(s'.records, s'.leases[l], s'.held[v]) {
        InsertKeepsOnChain(s.records, s.leases[l], c, s.held[v]);
      }
    }
  }

  lemma ReadKeepsLease(s: Sys, w: nat, k: nat, l: nat)
    requires LeaseInv(s, l)
    ensures LeaseInv(Do(s, Read(w, k)), l)
  {
    if k == l {
      CandidateOnChain(s.records, l, s.leases[l]);
    }
  }

  lemma EditKeepsLease(s: Sys, k: nat, lease: Lease, l: nat)
    requires LeaseInv(s, l) && Safe(s, EditLease(k, lease), l)
    ensures LeaseInv(Do(s, EditLease(k, lease)), l)
    ensures !Moves(s, EditLease(k, lease), l) || RowsOf(s.records, l) != [] ==>
              Anchor(s.records, l, Do(s, EditLease(k, lease)).leases[l]) == Anchor(s.records, l, s.leases[l])
  {
    var s' := Do(s, EditLease(k, lease));
    forall w | w in s'.held && s'.held[w].leaseId == l ensures OnChain(s'.records, s'.leases[l], s'.held[w]) {
      assert OnChain(s.records, s.leases[l], s.held[w]);
    }
  }

  lemma StepKeepsLease(s: Sys, a: Action, l: nat)
    requires LeaseInv(s, l) && Safe(s, a, l)
    ensures LeaseInv(Do(s, a), l)
    ensures !Moves(s, a, l) ==>
              var s' := Do(s, a);
              && s'.leases[l].startDate == s.leases[l].startDate
              && Anchor(s'.records, l, s'.leases[l]) == Anchor(s.records, l, s.leases[l])
  {
    match a
    case Read(w, k) => ReadKeepsLease(s, w, k, l);
    case Insert(w) => if w in s.held { InsertKeepsLease(s, w, l); }
    case EditLease(k, lease) => EditKeepsLease(s, k, lease, l);
  }

  /**
   Any interleaving of reads, inserts and lease edits commits only contiguous periods of a lease whose own
   edits are safe; what is done to other leases, even unsafely, cannot reach it.
   */
  lemma {:induction false} RunKeepsLease(s: Sys, actions: seq<Action>, l: nat)
    requires LeaseInv(s, l) && SafeRun(s, actions, l)
    ensures LeaseInv(Run(s, actions), l)
    decreases actions
  {
    if actions == [] {
    } else {
      StepKeepsLease(s, actions[0], l);
      RunKeepsLease(Do(s, actions[0]), actions[1..], l);
    }
  }

  lemma {:induction false} RunKeepsLeases(s: Sys, actions: seq<Action>)
    requires LeasesExist(s)
    ensures LeasesExist(Run(s, actions)) && |Run(s, actions).leases| == |s.leases|
    decreases actions
  {
    if actions == [] {
    } else {
      RunKeepsLeases(Do(s, actions[0]), actions[1..]);
    }
  }

  /** Hence all leases at once, if every edit is safe. */
  lemma RunKeepsInv(s: Sys, actions: seq<Action>)
    requires Inv(s) && forall l | 0 <= l < |s.leases| :: SafeRun(s, actions, l)
    ensures Inv(Run(s, actions))
  {
    RunKeepsLeases(s, actions);
    forall l | 0 <= l < |s.leases| ensures LeaseInv(Run(s, actions), l) {
      RunKeepsLease(s, actions, l);
    }
  }

  /** Lease l keeps its start date throughout. */
  predicate StartKept(l: nat, start: int, actions: seq<Action>) {
    forall a | a in actions :: a.EditLease? && a.leaseId == l ==> a.lease.startDate == start
  }

  lemma {:induction false} AnchorStays(s: Sys, actions: seq<Action>, l: nat)
    requires LeaseInv(s, l) && StartKept(l, s.leases[l].startDate, actions)
    ensures var s' := Run(s, actions);
            LeaseInv(s', l) && Anchor(s'.records, l, s'.leases[l]) == Anchor(s.records, l, s.leases[l])
    decreases actions
  {
    if actions == [] {
    } else {
      assert actions[0] in actions;
      StepKeepsLease(s, actions[0], l);
      AnchorStays(Do(s, actions[0]), actions[1..], l);
    }
  }

  /**
   A lease that is unbilled, with nobody holding a candidate for it, and whose start date is kept: its
   committed records are exactly start + 31k for k below their number, whoever inserted them, in whatever
   order, and whatever was done to other leases meanwhile.
   */
  lemma CommittedPeriodsExact(s: Sys, actions: seq<Action>, l: nat)
    requires l < |s.leases| && LeaseOk(s.leases[l]) && StartKept(l, s.leases[l].startDate, actions)
    requires RowsOf(s.records, l) == [] && forall w | w in s.held :: s.held[w].leaseId != l
    ensures Chain(RowsOf(Run(s, actions).records, l), s.leases[l].startDate)
  {
    AnchorStays(s, actions, l);
  }

  /** One insert uses up the worker's candidate, is logged, and commits it exactly if its period was free. */
  lemma InsertExactly(s: Sys, w: nat)
    requires w in s.held
    ensures var s', c := Do(s, Insert(w)), s.held[w];
            var free := forall r | r in s.records && r.leaseId == c.leaseId :: r.periodStart != c.periodStart;
            && w !in s'.held && (forall v | v != w :: v in s'.held <==> v in s.held)
            && (forall v | v in s'.held :: s'.held[v] == s.held[v])
            && s'.records == (if free then s.records + [c] else s.records) && s'.leases == s.leases
            && s'.log == s.log + [Attempt(w, c.leaseId, c.periodStart, free)]
  {}

  // ----- exactly one winner per period -----

  function Wins(log: seq<Attempt>, l: nat, start: int): nat {
    if log == [] then 0
    else
      var a := log[|log| - 1];
      Wins(log[..|log| - 1], l, start) + if a.leaseId == l && a.start == start && a.won then 1 else 0
  }

  predicate Attempted(log: seq<Attempt>, l: nat, start: int) {
    exists a | a in log :: a.leaseId == l && a.start == start
  }

  ghost predicate OneWinner(before: seq<BillingRecord>, s: Sys, l: nat, start: int) {
    && Wins(s.log, l, start) == (if Taken(s.records, l, start) && !Taken(before, l, start) then 1 else 0)
    && (Attempted(s.log, l, start) || Taken(before, l, start) ==> Taken(s.records, l, start))
  }

  lemma TakenAppend(rs: seq<BillingRecord>, c: BillingRecord, l: nat, start: int)
    ensures Taken(rs + [c], l, start) <==> Taken(rs, l, start) || (c.leaseId == l && c.periodStart == start)
  {
    assert c in rs + [c];
    if r :| r in rs && r.leaseId == l && r.periodStart == start { assert r in rs + [c]; }
  }

  lemma AttemptedAppend(log: seq<Attempt>, e: Attempt, l: nat, start: int)
    ensures Attempted(log + [e], l, start) <==> Attempted(log, l, start) || (e.leaseId == l && e.start == start)
    ensures Wins(log + [e], l, start)
            == Wins(log, l, start) + if e.leaseId == l && e.start == start && e.won then 1 else 0
  {
    assert e in log + [e] && (log + [e])[..|log|] == log;
    if a :| a in log && a.leaseId == l && a.start == start { assert a in log + [e]; }
  }

  lemma StepKeepsOneWinner(before: seq<BillingRecord>, s: Sys, a: Action, l: nat, start: int)
    requires OneWinner(before, s, l, start)
    ensures OneWinner(before, Do(s, a), l, start)
  {
    if a.Insert? && a.worker in s.held {
      var c := s.held[a.worker];
      TakenAppend(s.records, c, l, start);
      var won := !Taken(s.records, c.leaseId, c.periodStart);
      AttemptedAppend(s.log, Attempt(a.worker, c.leaseId, c.periodStart, won), l, start);
    }
  }

  lemma {:induction false} RunKeepsOneWinner(
      before: seq<BillingRecord>, s: Sys, actions: seq<Action>, l: nat, start: int)
    requires OneWinner(before, s, l, start)
    ensures OneWinner(before, Run(s, actions), l, start)
    decreases actions
  {
    if actions == [] {
    } else {
      StepKeepsOneWinner(before, s, actions[0], l, start);
      RunKeepsOneWinner(before, Do(s, actions[0]), actions[1..], l, start);
    }
  }

  /** A period appears only because somebody inserted it. */
  lemma {:induction false} OnlyWinnersInsert(s: Sys, actions: seq<Action>, l: nat, start: int)
    requires Taken(s.records, l, start) ==> Attempted(s.log, l, start)
    ensures Taken(Run(s, actions).records, l, start) ==> Attempted(Run(s, actions).log, l, start)
    decreases actions
  {
    if actions == [] {
    } else {
      var a, s' := actions[0], Do(s, actions[0]);
      if a.Insert? && a.worker in s.held {
        var c := s.held[a.worker];
        TakenAppend(s.records, c, l, start);
        var won := !Taken(s.records, c.leaseId, c.periodStart);
        AttemptedAppend(s.log, Attempt(a.worker, c.leaseId, c.periodStart, won), l, start);
      }
      OnlyWinnersInsert(s', actions[1..], l, start);
    }
  }

  /** Of all the workers that try to insert one free period, in any run, exactly one wins. */
  lemma ExactlyOneWinner(s: Sys, actions: seq<Action>, l: nat, start: int)
    requires s.log == [] && !Taken(s.records, l, start)
    ensures Wins(Run(s, actions).log, l, start) == if Attempted(Run(s, actions).log, l, start) then 1 else 0
  {
    RunKeepsOneWinner(s.records, s, actions, l, start);
    OnlyWinnersInsert(s, actions, l, start);
  }

  // ----- an unsafe edit of the start date really does break the chain -----

  lemma RowsOfConcat(rs: seq<BillingRecord>, a: BillingRecord, b: BillingRecord, l: nat)
    requires RowsOf(rs, l) == [] && a.leaseId == l && b.leaseId == l
    ensures RowsOf(rs + [a] + [b], l) == [a, b]
  {
    RowsOfAppend(rs, a, l);
    RowsOfAppend(rs + [a], b, l);
  }

  lemma NotTakenYet(rs: seq<BillingRecord>, a: BillingRecord, b: BillingRecord)
    requires a.leaseId == b.leaseId && RowsOf(rs, a.leaseId) == [] && a.periodStart != b.periodStart
    ensures !Taken(rs, a.leaseId, a.periodStart) && !Taken(rs + [a], b.leaseId, b.periodStart)
  {
    RowsOfMembers(rs, a.leaseId);
    forall r | r in rs ensures r.leaseId != a.leaseId {
      assert r !in RowsOf(rs, a.leaseId);
    }
  }

  lemma TwoInserts(s: Sys, w: nat, v: nat)
    requires v != w && w in s.held && v in s.held
    requires var c, d := s.held[w], s.held[v];
             c.leaseId == d.leaseId && RowsOf(s.records, c.leaseId) == [] && c.periodStart != d.periodStart
    ensures Run(s, [Insert(w), Insert(v)]).records == s.records + [s.held[w]] + [s.held[v]]
  {
    NotTakenYet(s.records, s.held[w], s.held[v]);
    var s1 := Do(s, Insert(w));
    assert [Insert(w), Insert(v)][1..] == [Insert(v)];
    assert Run(s1, [Insert(v)]) == Run(Do(s1, Insert(v)), []);
  }

  /**
   The exact converse of `Safe`: if the lease is unbilled, some worker holds a candidate for it and its
   start date is moved, then one of two continuations commits periods that are no chain at all.
   */
  lemma UnsafeEditBreaksChain(s: Sys, w: nat, v: nat, l: nat, lease: Lease)
    requires LeaseInv(s, l) && LeaseOk(lease) && !Safe(s, EditLease(l, lease), l)
    requires w in s.held && s.held[w].leaseId == l && v != w
    ensures var s2 := Do(Do(s, EditLease(l, lease)), Read(v, l));
            || !Chained(Run(s2, [Insert(w), Insert(v)]).records, l, lease)
            || !Chained(Run(s2, [Insert(v), Insert(w)]).records, l, lease)
  {
    var s2 := Do(Do(s, EditLease(l, lease)), Read(v, l));
    var c, d := s.held[w], s2.held[v];
    RowsOfMembers(s.records, l);
    ChainLatest(s.records, l, lease.startDate);
    assert OnChain(s.records, s.leases[l], c) && Chained(s.records, l, s.leases[l]);
    TwoInserts(s2, w, v);
    TwoInserts(s2, v, w);
    RowsOfConcat(s.records, c, d, l);
    RowsOfConcat(s.records, d, c, l);
    assert [c, d][1] == d && [d, c][1] == c;
  }

  lemma RunFirst(s: Sys, a: Action, rest: seq<Action>)
    ensures Run(s, [a] + rest) == Run(Do(s, a), rest)
  {
    assert ([a] + rest)[1..] == rest;
  }

  lemma NewLease(lease: Lease)
    requires LeaseOk(lease)
    ensures Inv(Sys([lease], [], map[], []))
    ensures Do(Sys([lease], [], map[], []), Read(0, 0)) == Sys([lease], [], map[0 := Candidate([], 0, lease)], [])
  {
    assert RowsOf([], 0) == [];
  }

  /** A day's move between two reads leaves two candidates that overlap. */
  lemma TwoCandidates(lease: Lease, moved: Lease)
    requires LeaseOk(lease) && moved == lease.(startDate := lease.startDate + 1)
    ensures var c, d := Candidate([], 0, lease), Candidate([], 0, moved);
            && c.leaseId == d.leaseId == 0
            && Covers(c, moved.startDate) && Covers(d, moved.startDate) && d.periodStart == c.periodStart + 1
    ensures var s1 := Do(Sys([lease], [], map[], []), Read(0, 0));
            && !Safe(s1, EditLease(0, moved), 0)
            && Do(Do(s1, EditLease(0, moved)), Read(1, 0))
               == Sys([moved], [], map[0 := Candidate([], 0, lease), 1 := Candidate([], 0, moved)], [])
  {
    NewLease(lease);
    assert Latest([], 0) == None && RowsOf([], 0) == [];
    var s1 := Sys([lease], [], map[0 := Candidate([], 0, lease)], []);
    assert 0 in s1.held && s1.held[0].leaseId == 0;
  }

  /**
   It happens to every lease that is new: one worker reads, the start date is moved by a day, another worker
   reads, and both insert. The two committed periods overlap.
   */
  lemma MovedStartBreaksChain(lease: Lease)
    requires LeaseOk(lease)
    ensures var moved := lease.(startDate := lease.startDate + 1);
            var empty := Sys([lease], [], map[], []);
            var s := Run(empty, [Read(0, 0)] + ([EditLease(0, moved)] + ([Read(1, 0)] + [Insert(0), Insert(1)])));
            && Inv(empty) && !Safe(Do(empty, Read(0, 0)), EditLease(0, moved), 0)
            && |s.records| == 2 && Covers(s.records[0], moved.startDate) && Covers(s.records[1], moved.startDate)
            && !Chained(s.records, 0, moved)
  {
    var moved, inserts := lease.(startDate := lease.startDate + 1), [Insert(0), Insert(1)];
    var c, d := Candidate([], 0, lease), Candidate([], 0, moved);
    var empty, s3 := Sys([lease], [], map[], []), Sys([moved], [], map[0 := c, 1 := d], []);
    NewLease(lease);
    TwoCandidates(lease, moved);
    RunFirst(empty, Read(0, 0), [EditLease(0, moved)] + ([Read(1, 0)] + inserts));
    RunFirst(Do(empty, Read(0, 0)), EditLease(0, moved), [Read(1, 0)] + inserts);
    RunFirst(Do(Do(empty, Read(0, 0)), EditLease(0, moved)), Read(1, 0), inserts);
    assert RowsOf([], 0) == [];
    TwoInserts(s3, 0, 1);
    RowsOfConcat([], c, d, 0);
    assert [c, d][1] == d && [] + [c] + [d] == [c, d];
  }
}
