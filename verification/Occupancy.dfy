/** Contracts and the occupancy status of properties, kept in step inside each transaction. */
module Occupancy {
  import opened Wrappers

  datatype ContractStatus = Active | Expired | Terminated
  datatype PropertyStatus = Vacant | Occupied

  datatype Contract = Contract(propertyId: nat, tenantId: nat, status: ContractStatus)

  datatype Registry = Registry(
    properties: map<nat, PropertyStatus>, tenants: set<nat>, contracts: map<nat, Contract>, next: nat)

  datatype Error = NotFound | ContractActive | ContractInUse

  datatype Tx = Commit(registry: Registry) | Abort(error: Error)

  /** What a contract's status change implies for its property, if anything. */
  function PropertyTransition(was: Option<ContractStatus>, now: Option<ContractStatus>): Option<PropertyStatus> {
    if now == was then None
    else if was == Some(Active) then Some(Vacant)
    else if now == Some(Active) then Some(Occupied)
    else None
  }

  function Sync(r: Registry, propertyId: nat, status: Option<PropertyStatus>): Registry {
    if status.Some? && propertyId in r.properties then r.(properties := r.properties[propertyId := status.value]) else r
  }

  predicate HasActive(contracts: map<nat, Contract>, propertyId: nat) {
    exists id | id in contracts :: contracts[id].propertyId == propertyId && contracts[id].status == Active
  }

  /** The partial unique index on property_id where status is ACTIVE, for a row about to be written. */
  predicate IndexAdmits(contracts: map<nat, Contract>, id: nat, c: Contract) {
    c.status == Active ==> !HasActive(contracts - {id}, c.propertyId)
  }

  function CreateTx(r: Registry, c: Contract): Tx {
    if c.propertyId !in r.properties || c.tenantId !in r.tenants then Abort(NotFound)
    else if !IndexAdmits(r.contracts, r.next, c) then Abort(ContractActive)
    else
      var r' := r.(contracts := r.contracts[r.next := c], next := r.next + 1);
      Commit(Sync(r', c.propertyId, PropertyTransition(None, Some(c.status))))
  }

  /** A status of None leaves the status alone; the property of a contract never changes. */
  function UpdateTx(r: Registry, id: nat, status: Option<ContractStatus>): Tx {
    if id !in r.contracts then Abort(NotFound)
    else
      var was := r.contracts[id];
      var now := was.(status := status.GetOr(was.status));
      if !IndexAdmits(r.contracts, id, now) then Abort(ContractActive)
      else
        var r' := r.(contracts := r.contracts[id := now]);
        Commit(Sync(r', was.propertyId, PropertyTransition(Some(was.status), Some(now.status))))
  }

  /** `referenced`: a payment, lease or document still points at the contract. */
  function DeleteTx(r: Registry, id: nat, referenced: bool): Tx {
    if id !in r.contracts then Abort(NotFound)
    else if referenced then Abort(ContractInUse)
    else
      var was := r.contracts[id];
      Commit(Sync(r.(contracts := r.contracts - {id}), was.propertyId, PropertyTransition(Some(was.status), None)))
  }

  datatype Op =
    | AddProperty(property: nat, given: PropertyStatus)
    | Override(edited: nat, manual: PropertyStatus)
    | Create(contract: Contract)
    | Update(id: nat, status: Option<ContractStatus>)
    | Delete(gone: nat, referenced: bool)

  function Step(r: Registry, op: Op): Registry {
    var tx := match op
      case AddProperty(p, given) =>
        if p in r.properties then Abort(NotFound) else Commit(r.(properties := r.properties[p := given]))
      case Override(p, manual) =>
        if p in r.properties then Commit(r.(properties := r.properties[p := manual])) else Abort(NotFound)
      case Create(c) => CreateTx(r, c)
      case Update(id, status) => UpdateTx(r, id, status)
      case Delete(id, referenced) => DeleteTx(r, id, referenced);
    if tx.Commit? then tx.registry else r
  }

  function Run(r: Registry, ops: seq<Op>): Registry
    decreases ops
  {
    if ops == [] then r else Run(Step(r, ops[0]), ops[1..])
  }

  /** Contracts are numbered, of existing properties, and at most one of a property is ACTIVE. */
  ghost predicate Registered(r: Registry) {
    && (forall id | id in r.contracts :: id < r.next && r.contracts[id].propertyId in r.properties)
    && (forall i, j | i in r.contracts && j in r.contracts && r.contracts[i].status == Active
          && r.contracts[j].status == Active && r.contracts[i].propertyId == r.contracts[j].propertyId :: i == j)
  }

  /** The property's status says whether it has an ACTIVE contract. */
  predicate Agrees(r: Registry, p: nat) {
    p in r.properties ==> (r.properties[p] == Occupied <==> HasActive(r.contracts, p))
  }

  ghost predicate Occupancy(r: Registry) {
    Registered(r) && forall p :: Agrees(r, p)
  }

  lemma SingleChange(before: map<nat, Contract>, after: map<nat, Contract>, id: nat, p: nat)
    requires before - {id} == after - {id}
    ensures HasActive(before - {id}, p) ==> HasActive(after, p)
    ensures HasActive(after, p) <==>
              HasActive(before - {id}, p) || (id in after && after[id].propertyId == p && after[id].status == Active)
  {
    if k :| k in before - {id} && before[k].propertyId == p && before[k].status == Active {
      assert k in after - {id} && (after - {id})[k] == (before - {id})[k];
      assert after[k] == before[k];
    }
    if k :| k in after && k != id && after[k].propertyId == p && after[k].status == Active {
      assert k in after - {id};
      assert (after - {id})[k] == (before - {id})[k] == before[k];
    }
  }

  function StatusOf(contracts: map<nat, Contract>, id: nat): Option<ContractStatus> {
    if id in contracts then Some(contracts[id].status) else None
  }

  lemma ChangeKeepsRegistered(r: Registry, r': Registry, id: nat, p: nat)
    requires Registered(r) && p in r.properties
    requires r'.properties == r.properties && id < r'.next && r.next <= r'.next
    requires r.contracts - {id} == r'.contracts - {id}
    requires id in r'.contracts ==> r'.contracts[id].propertyId == p && IndexAdmits(r.contracts, id, r'.contracts[id])
    ensures Registered(r')
  {
    forall k | k in r'.contracts && k != id ensures k in r.contracts && r'.contracts[k] == r.contracts[k] {
      assert k in r'.contracts - {id} && k in r.contracts - {id};
      assert (r'.contracts - {id})[k] == (r.contracts - {id})[k];
    }
    forall k | k in r'.contracts && k != id ensures k in r.contracts - {id} {}
  }

  lemma OldActiveIsAlone(r: Registry, id: nat)
    requires Registered(r) && id in r.contracts && r.contracts[id].status == Active
    ensures !HasActive(r.contracts - {id}, r.contracts[id].propertyId)
  {
    forall k | k in r.contracts - {id} && r.contracts[k].status == Active
      ensures r.contracts[k].propertyId != r.contracts[id].propertyId
    {
      assert k in r.contracts;
    }
  }

  /** Writing, changing or deleting one contract sets its property's status right whenever it sets it at all. */
  lemma ChangeAgrees(r: Registry, r': Registry, id: nat, p: nat, q: nat)
    requires Registered(r) && p in r.properties && r'.properties == r.properties
    requires r.contracts - {id} == r'.contracts - {id}
    requires id in r.contracts ==> r.contracts[id].propertyId == p
    requires id in r'.contracts ==> r'.contracts[id].propertyId == p
    ensures var t := PropertyTransition(StatusOf(r.contracts, id), StatusOf(r'.contracts, id));
            var s := Sync(r', p, t);
            if q == p && t.Some? then Agrees(s, q) else Agrees(s, q) <==> Agrees(r, q)
  {
    SingleChange(r.contracts, r'.contracts, id, q);
    SingleChange(r.contracts, r.contracts, id, q);
    if id in r.contracts && r.contracts[id].status == Active { OldActiveIsAlone(r, id); }
  }

  /** The contract operations: which contract, of which property, becomes what. */
  function Changed(r: Registry, op: Op): Option<(nat, nat, Registry)> {
    match op
    case Create(c) =>
      if CreateTx(r, c).Abort? then None
      else Some((r.next, c.propertyId, r.(contracts := r.contracts[r.next := c], next := r.next + 1)))
    case Update(id, status) =>
      if UpdateTx(r, id, status).Abort? then None
      else
        var was := r.contracts[id];
        Some((id, was.propertyId, r.(contracts := r.contracts[id := was.(status := status.GetOr(was.status))])))
    case Delete(id, referenced) =>
      if DeleteTx(r, id, referenced).Abort? then None
      else Some((id, r.contracts[id].propertyId, r.(contracts := r.contracts - {id})))
    case _ => None
  }

  lemma ChangedIs(r: Registry, op: Op)
    requires Registered(r) && Changed(r, op).Some?
    ensures var (id, p, r') := Changed(r, op).value;
            && Step(r, op) == Sync(r', p, PropertyTransition(StatusOf(r.contracts, id), StatusOf(r'.contracts, id)))
            && p in r.properties && r'.properties == r.properties && id < r'.next && r.next <= r'.next
            && r.contracts - {id} == r'.contracts - {id}
            && (id in r.contracts ==> r.contracts[id].propertyId == p)
            && (id in r'.contracts ==>
                  r'.contracts[id].propertyId == p && IndexAdmits(r.contracts, id, r'.contracts[id]))
  {}

  /** No other contract of the property is ACTIVE. */
  predicate Free(contracts: map<nat, Contract>, id: nat, propertyId: nat) {
    forall k | k in contracts && k != id && contracts[k].status == Active :: contracts[k].propertyId != propertyId
  }

  lemma FreeIsAdmitted(contracts: map<nat, Contract>, id: nat, c: Contract)
    ensures IndexAdmits(contracts, id, c) <==> (c.status == Active ==> Free(contracts, id, c.propertyId))
  {
    if c.status == Active && !Free(contracts, id, c.propertyId) {
      var k :| k in contracts && k != id && contracts[k].status == Active && contracts[k].propertyId == c.propertyId;
      assert k in contracts - {id};
    }
  }

  /** When a contract is created, updated or deleted, and what each refusal means. */
  lemma CommitsExactly(r: Registry, c: Contract, id: nat, status: Option<ContractStatus>, referenced: bool)
    requires Registered(r)
    ensures CreateTx(r, c).Commit? <==>
              && c.propertyId in r.properties && c.tenantId in r.tenants
              && (c.status == Active ==> Free(r.contracts, r.next, c.propertyId))
    ensures CreateTx(r, c) == Abort(NotFound) <==> c.propertyId !in r.properties || c.tenantId !in r.tenants
    ensures CreateTx(r, c) != Abort(ContractInUse)
    ensures UpdateTx(r, id, status).Commit? <==>
              id in r.contracts && (status == Some(Active) ==> Free(r.contracts, id, r.contracts[id].propertyId))
    ensures UpdateTx(r, id, status) == Abort(NotFound) <==> id !in r.contracts
    ensures UpdateTx(r, id, status) != Abort(ContractInUse)
    ensures DeleteTx(r, id, referenced).Commit? <==> id in r.contracts && !referenced
    ensures DeleteTx(r, id, referenced) == Abort(NotFound) <==> id !in r.contracts
    ensures DeleteTx(r, id, referenced) != Abort(ContractActive)
  {
    FreeIsAdmitted(r.contracts, r.next, c);
    if id in r.contracts {
      FreeIsAdmitted(r.contracts, id, r.contracts[id].(status := status.GetOr(r.contracts[id].status)));
    }
  }

  /** A committed operation writes its own contract and leaves every other contract, and every other property, alone. */
  lemma ContractWritten(r: Registry, op: Op)
    requires Registered(r) && Changed(r, op).Some?
    ensures var (id, p, _) := Changed(r, op).value;
            var s := Step(r, op);
            && (forall k | k != id :: (k in s.contracts <==> k in r.contracts))
            && (forall k | k != id && k in r.contracts :: s.contracts[k] == r.contracts[k])
            && s.properties.Keys == r.properties.Keys && s.tenants == r.tenants
            && (forall q | q in r.properties && q != p :: s.properties[q] == r.properties[q])
            && match op
               case Create(c) => id !in r.contracts && id in s.contracts && s.contracts[id] == c
               case Update(k, status) =>
                 && id == k && id in s.contracts
                 && s.contracts[id].status == (if status.Some? then status.value else r.contracts[id].status)
                 && s.contracts[id].(status := r.contracts[id].status) == r.contracts[id]
               case Delete(k, _) => id == k && id !in s.contracts
               case _ => true
  {}

  // ----- at most one ACTIVE contract, on every run -----

  lemma StepKeepsRegistered(r: Registry, op: Op)
    requires Registered(r)
    ensures Registered(Step(r, op))
  {
    if Changed(r, op).Some? {
      ChangedIs(r, op);
      var (id, p, r') := Changed(r, op).value;
      ChangeKeepsRegistered(r, r', id, p);
    }
  }

  /** Over every run, overrides included, a property has at most one ACTIVE contract. */
  lemma {:induction false} RunsKeepRegistered(r: Registry, ops: seq<Op>)
    requires Registered(r)
    ensures Registered(Run(r, ops))
    decreases ops
  {
    if ops == [] {
    } else {
      StepKeepsRegistered(r, ops[0]);
      RunsKeepRegistered(Step(r, ops[0]), ops[1..]);
    }
  }

  // ----- status and contracts of one property -----

  /** A status set by hand for this property, on creation or later, says what the contracts say. */
  predicate Truthful(r: Registry, op: Op, p: nat) {
    match op
    case AddProperty(q, given) => q == p && p !in r.properties ==> given == Vacant
    case Override(q, manual) => q == p && p in r.properties ==> (manual == Occupied <==> HasActive(r.contracts, p))
    case _ => true
  }

  /** One operation keeps a property's agreement if and only if a status it sets by hand tells the truth. */
  lemma StepExact(r: Registry, op: Op, p: nat)
    requires Registered(r) && Agrees(r, p)
    ensures Agrees(Step(r, op), p) <==> Truthful(r, op, p)
  {
    if Changed(r, op).Some? {
      ChangedIs(r, op);
      var (id, q, r') := Changed(r, op).value;
      ChangeAgrees(r, r', id, q, p);
    }
  }

  /** A false override is made good by the next contract of the property that becomes or ceases to be ACTIVE. */
  lemma NextChangeRepairs(r: Registry, ops: seq<Op>, op: Op)
    requires Registered(r) && Changed(Run(r, ops), op).Some?
    ensures var (id, p, r') := Changed(Run(r, ops), op).value;
            StatusOf(Run(r, ops).contracts, id) != StatusOf(r'.contracts, id)
            && (StatusOf(Run(r, ops).contracts, id) == Some(Active) || StatusOf(r'.contracts, id) == Some(Active)) ==>
              Agrees(Step(Run(r, ops), op), p)
  {
    RunsKeepRegistered(r, ops);
    ChangedIs(Run(r, ops), op);
    var (id, p, r') := Changed(Run(r, ops), op).value;
    ChangeAgrees(Run(r, ops), r', id, p, p);
  }

  predicate TruthfulRun(r: Registry, ops: seq<Op>, p: nat)
    decreases ops
  {
    ops == [] || (Truthful(r, ops[0], p) && TruthfulRun(Step(r, ops[0]), ops[1..], p))
  }

  /** What is set by hand for other properties cannot reach this one. */
  lemma {:induction false} RunKeepsProperty(r: Registry, ops: seq<Op>, p: nat)
    requires Registered(r) && Agrees(r, p) && TruthfulRun(r, ops, p)
    ensures Agrees(Run(r, ops), p)
    decreases ops
  {
    if ops == [] {
    } else {
      StepKeepsRegistered(r, ops[0]);
      StepExact(r, ops[0], p);
      RunKeepsProperty(Step(r, ops[0]), ops[1..], p);
    }
  }

  /** Hence all properties at once: occupied exactly when it has an ACTIVE contract, and never two. */
  lemma RunsKeepOccupancy(r: Registry, ops: seq<Op>)
    requires Occupancy(r) && forall p :: TruthfulRun(r, ops, p)
    ensures Occupancy(Run(r, ops))
  {
    RunsKeepRegistered(r, ops);
    forall p ensures Agrees(Run(r, ops), p) {
      assert Agrees(r, p);
      RunKeepsProperty(r, ops, p);
    }
  }

  /** Runs that set nothing by hand for a property need no condition. */
  lemma {:induction false} ContractRunsTruthful(r: Registry, ops: seq<Op>, p: nat)
    requires forall op | op in ops :: (op.AddProperty? ==> op.property != p) && (op.Override? ==> op.edited != p)
    ensures TruthfulRun(r, ops, p)
    decreases ops
  {
    if ops == [] {
    } else {
      assert ops[0] in ops;
      ContractRunsTruthful(Step(r, ops[0]), ops[1..], p);
    }
  }

  class Contracts {
    var properties: map<nat, PropertyStatus>
    var tenants: set<nat>
    var contracts: map<nat, Contract>
    var next: nat

    function State(): Registry
      reads this
    {
      Registry(properties, tenants, contracts, next)
    }

    constructor ()
      ensures State() == Registry(map[], {}, map[], 0)
    {
      properties, tenants, contracts, next := map[], {}, map[], 0;
    }

    method SyncPropertyStatus(propertyId: nat, status: Option<PropertyStatus>)
      modifies this`properties
      ensures State() == Sync(old(State()), propertyId, status)
    {
      if status.Some? && propertyId in properties {
        properties := properties[propertyId := status.value];
      }
    }

    method CreateContract(c: Contract) returns (e: Option<Error>)
      modifies this`properties, this`contracts, this`next
      ensures var tx := CreateTx(old(State()), c);
              && State() == (if tx.Commit? then tx.registry else old(State()))
              && e == if tx.Commit? then None else Some(tx.error)
    {
      if c.propertyId !in properties || c.tenantId !in tenants {
        return Some(NotFound);
      }
      if !IndexAdmits(contracts, next, c) {
        return Some(ContractActive);
      }
      contracts, next := contracts[next := c], next + 1;
      SyncPropertyStatus(c.propertyId, PropertyTransition(None, Some(c.status)));
      e := None;
    }

    method UpdateContract(id: nat, status: Option<ContractStatus>) returns (e: Option<Error>)
      modifies this`properties, this`contracts
      ensures var tx := UpdateTx(old(State()), id, status);
              && State() == (if tx.Commit? then tx.registry else old(State()))
              && e == if tx.Commit? then None else Some(tx.error)
    {
      if id !in contracts {
        return Some(NotFound);
      }
      var was := contracts[id];
      var now := if status.Some? then was.(status := status.value) else was;
      if !IndexAdmits(contracts, id, now) {
        return Some(ContractActive);
      }
      contracts := contracts[id := now];
      SyncPropertyStatus(was.propertyId, PropertyTransition(Some(was.status), Some(now.status)));
      e := None;
    }

    method DeleteContract(id: nat, referenced: bool) returns (e: Option<Error>)
      modifies this`properties, this`contracts
      ensures var tx := DeleteTx(old(State()), id, referenced);
              && State() == (if tx.Commit? then tx.registry else old(State()))
              && e == if tx.Commit? then None else Some(tx.error)
    {
      if id !in contracts {
        return Some(NotFound);
      }
      if referenced {
        return Some(ContractInUse);
      }
      var was := contracts[id];
      contracts := contracts - {id};
      SyncPropertyStatus(was.propertyId, PropertyTransition(Some(was.status), None));
      e := None;
    }
  }
}
