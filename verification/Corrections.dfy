/** Void-and-correct chains: what any serial run keeps of payment history. */
module Corrections {
  import opened Wrappers
  import opened Billing
  import opened Books

  ghost predicate Linked(ps: map<nat, Payment>) {
    && (forall id | id in ps && ps[id].corrects.Some? ::
          var o := ps[id].corrects.value;
          o in ps && o < id && ps[o].contractId == ps[id].contractId && ps[o].status == Voided)
    && (forall i, j | i in ps && j in ps && ps[i].corrects.Some? && ps[i].corrects == ps[j].corrects :: i == j)
  }

  ghost predicate ChainsOk(b: Books) {
    && Linked(b.payments)
    && forall id | id in b.payments :: id < b.nextPayment
  }

  lemma InsertKeepsChains(b: Books, p: Payment)
    requires ChainsOk(b) && p.corrects == None
    ensures ChainsOk(Insert(b, p))
  {}

  lemma RewriteKeepsChains(b: Books, id: nat, p: Payment)
    requires ChainsOk(b) && id in b.payments
    requires p.corrects == b.payments[id].corrects && p.contractId == b.payments[id].contractId
    requires b.payments[id].status == Voided ==> p.status == Voided
    ensures ChainsOk(b.(payments := b.payments[id := p]))
  {}

  lemma VoidedThenCorrected(b: Books, id: nat, c: Payment)
    requires ChainsOk(b) && id in b.payments && b.payments[id].status == Voided
    requires !Referenced(b.payments, id) && c.corrects == Some(id) && c.contractId == b.payments[id].contractId
    ensures ChainsOk(Insert(b, c))
  {
    forall k | k in b.payments ensures b.payments[k].corrects != Some(id) {}
  }

  lemma LiveIsUncorrected(b: Books, b1: Books, id: nat)
    requires ChainsOk(b) && id in b.payments && b.payments[id].status != Voided
    requires b1.payments == b.payments[id := b.payments[id].(status := Voided)]
    ensures !Referenced(b1.payments, id)
  {
    forall k | k in b1.payments ensures b1.payments[k].corrects != Some(id) {
      assert b1.payments[k].corrects == b.payments[k].corrects;
    }
  }

  lemma CorrectKeepsChains(b: Books, id: nat, amount: int, status: PaymentStatus)
    requires ChainsOk(b)
    ensures ChainsOk(After(b, VoidAndCorrectTx(b, id, amount, status)))
  {
    if VoidAndCorrectTx(b, id, amount, status).Commit? {
      var p := b.payments[id];
      var b1 := b.(payments := b.payments[id := p.(status := Voided)]);
      RewriteKeepsChains(b, id, p.(status := Voided));
      LiveIsUncorrected(b, b1, id);
      var c := Payment(p.contractId, None, amount, status, Some(id));
      VoidedThenCorrected(b1, id, c);
      assert Insert(b1, c).payments == After(b, VoidAndCorrectTx(b, id, amount, status)).payments;
    }
  }

  lemma DeleteKeepsChains(b: Books, id: nat)
    requires ChainsOk(b)
    ensures ChainsOk(After(b, DeletePaymentTx(b, id)))
  {}

  /** The correction links only ever point back, inside one contract, at a voided row, one link per row. */
  lemma StepKeepsChains(b: Books, op: Op)
    requires ChainsOk(b)
    ensures ChainsOk(Step(b, op))
  {
    if op.VoidAndCorrect? { CorrectKeepsChains(b, op.original, op.corrected, op.correctedStatus); }
    else if op.CreatePayment? { InsertKeepsChains(b, Payment(op.contractId, op.link, op.amount, op.status, None)); }
    else if op.UpdatePayment? {
      if TxOf(b, op).Commit? { RewriteKeepsChains(b, op.payment, Step(b, op).payments[op.payment]); }
    } else if op.DeletePayment? {
      DeleteKeepsChains(b, op.gone);
    } else {
      assert Step(b, op).payments == b.payments && Step(b, op).nextPayment == b.nextPayment;
    }
  }

  lemma {:induction false} RunKeepsChains(b: Books, ops: seq<Op>)
    requires ChainsOk(b)
    ensures ChainsOk(Run(b, ops))
    decreases ops
  {
    if ops == [] {
    } else {
      StepKeepsChains(b, ops[0]);
      RunKeepsChains(Step(b, ops[0]), ops[1..]);
    }
  }

  // ----- chains -----

  /** A payment and everything it corrects, newest first. The links point back, so this ends. */
  ghost function ChainOf(ps: map<nat, Payment>, id: nat): seq<nat>
    requires Linked(ps) && id in ps
    decreases id
  {
    [id] + if ps[id].corrects.Some? then ChainOf(ps, ps[id].corrects.value) else []
  }

  ghost function Root(ps: map<nat, Payment>, id: nat): (root: nat)
    requires Linked(ps) && id in ps
    ensures root in ps && ps[root].corrects == None && root in ChainOf(ps, id)
    ensures ps[root].contractId == ps[id].contractId
    decreases id
  {
    if ps[id].corrects.Some? then Root(ps, ps[id].corrects.value) else id
  }

  /** Every element of a chain but its newest is what the next newer one corrects. */
  lemma {:induction false} Corrector(ps: map<nat, Payment>, id: nat, x: nat) returns (c: nat)
    requires Linked(ps) && id in ps && x in ChainOf(ps, id) && x != id
    ensures c in ChainOf(ps, id) && c in ps && ps[c].corrects == Some(x) && x in ps
    decreases id
  {
    var o := ps[id].corrects.value;
    if x == o {
      c := id;
    } else {
      c := Corrector(ps, o, x);
    }
  }

  /** Chains with the same origin are prefixes of each other: a chain never forks. */
  lemma {:induction false} SameRootComparable(ps: map<nat, Payment>, p: nat, q: nat)
    requires Linked(ps) && p in ps && q in ps && Root(ps, p) == Root(ps, q)
    ensures p in ChainOf(ps, q) || q in ChainOf(ps, p)
    decreases p + q
  {
    if ps[p].corrects.Some? && ps[q].corrects.Some? {
      var op, oq := ps[p].corrects.value, ps[q].corrects.value;
      SameRootComparable(ps, op, oq);
      if op != oq {
        if op in ChainOf(ps, oq) {
          var c := Corrector(ps, oq, op);
        } else {
          var c := Corrector(ps, op, oq);
        }
      }
    }
  }

  /** A chain has at most one payment that is not voided, and nothing corrects that one. */
  lemma OneLivePerChain(ps: map<nat, Payment>, p: nat, q: nat)
    requires Linked(ps) && p in ps && q in ps
    requires Root(ps, p) == Root(ps, q) && ps[p].status != Voided
    ensures p in ChainOf(ps, q) ==> p == q
    ensures ps[q].status != Voided ==> p == q
  {
    SameRootComparable(ps, p, q);
    if p != q {
      if p in ChainOf(ps, q) {
        var c := Corrector(ps, q, p);
      } else {
        var c := Corrector(ps, p, q);
      }
    }
  }

  /** Over every run from well-formed books, two live payments with one origin are one payment. */
  lemma RunsKeepOneLivePerChain(b: Books, ops: seq<Op>, p: nat, q: nat)
    requires ChainsOk(b)
    requires p in Run(b, ops).payments && q in Run(b, ops).payments
    requires Run(b, ops).payments[p].status != Voided && Run(b, ops).payments[q].status != Voided
    ensures ChainsOk(Run(b, ops))
    ensures Root(Run(b, ops).payments, p) == Root(Run(b, ops).payments, q) ==> p == q
  {
    RunKeepsChains(b, ops);
    if Root(Run(b, ops).payments, p) == Root(Run(b, ops).payments, q) {
      OneLivePerChain(Run(b, ops).payments, p, q);
    }
  }

  // ----- history is append-only -----

  /** What later books may say of row id: gone for good, or the same row with at most amount and status edited. */
  ghost predicate Follows(b: Books, b': Books, id: nat) {
    && b'.nextPayment >= b.nextPayment
    && (id in b'.payments && id < b.nextPayment ==>
          && id in b.payments
          && var p, p' := b.payments[id], b'.payments[id];
             && p'.contractId == p.contractId && p'.recordId == p.recordId && p'.corrects == p.corrects
             && (p.status == Voided ==> p' == p))
  }

  lemma StepFollows(b: Books, op: Op, id: nat)
    requires ChainsOk(b)
    ensures Follows(b, Step(b, op), id)
  {}

  /** Voided is absorbing, links never change, deleted rows never return. */
  lemma {:induction false} RunFollows(b: Books, ops: seq<Op>, id: nat)
    requires ChainsOk(b)
    ensures Follows(b, Run(b, ops), id)
    decreases ops
  {
    if ops == [] {
    } else {
      StepKeepsChains(b, ops[0]);
      StepFollows(b, ops[0], id);
      RunFollows(Step(b, ops[0]), ops[1..], id);
    }
  }

  /** Once a payment has been corrected it can never again be corrected or updated. */
  lemma CorrectedOnce(b: Books, id: nat, amount: int, status: PaymentStatus, ops: seq<Op>, again: Op)
    requires ChainsOk(b) && VoidAndCorrectTx(b, id, amount, status).Commit?
    requires (again.VoidAndCorrect? && again.original == id) || (again.UpdatePayment? && again.payment == id)
    ensures TxOf(Run(Step(b, VoidAndCorrect(id, amount, status)), ops), again).Abort?
  {
    var b1 := Step(b, VoidAndCorrect(id, amount, status));
    StepKeepsChains(b, VoidAndCorrect(id, amount, status));
    RunFollows(b1, ops, id);
  }
}
