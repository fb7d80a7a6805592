/**
 What a document may be linked to, and who may see it: the normal form every write establishes, and
 the agreement it buys between the manager's list and the check on a single document.
 */
module DocumentLinks {
  import opened Wrappers

  datatype Links = Links(property: Option<nat>, contract: Option<nat>, tenant: Option<nat>, collection: Option<nat>)

  const NO_CHANGE := Links(None, None, None, None)

  datatype ContractRow = ContractRow(property: nat, tenant: nat)

  /** Properties with their manager if assigned, and the other tables documents refer to. */
  datatype Catalog = Catalog(
    properties: map<nat, Option<nat>>, contracts: map<nat, ContractRow>, tenants: set<nat>, collections: set<nat>)

  datatype Error = NotFound | Mismatch | Forbidden

  datatype Result<+T> = Ok(value: T) | Err(error: Error)

  datatype User = Admin | Manager(id: nat) | Plain

  function Either(request: Option<nat>, current: Option<nat>): Option<nat> {
    if request.Some? then request else current
  }

  /** A field left out of the request keeps the document's own value. */
  function ResolveIds(doc: Option<Links>, req: Links): Links {
    var own := doc.GetOr(NO_CHANGE);
    Links(Either(req.property, own.property), Either(req.contract, own.contract),
          Either(req.tenant, own.tenant), Either(req.collection, own.collection))
  }

  predicate RelatedExist(c: Catalog, ids: Links) {
    && (ids.property.Some? ==> ids.property.value in c.properties)
    && (ids.tenant.Some? ==> ids.tenant.value in c.tenants)
    && (ids.collection.Some? ==> ids.collection.value in c.collections)
  }

  /** A contract, where there is one, is the source of truth for property and tenant. */
  function Resolve(c: Catalog, doc: Option<Links>, req: Links): Result<Links> {
    var ids := ResolveIds(doc, req);
    if ids.contract == None then
      if RelatedExist(c, ids) then Ok(ids) else Err(NotFound)
    else if ids.contract.value !in c.contracts || !RelatedExist(c, ids) then Err(NotFound)
    else
      var row := c.contracts[ids.contract.value];
      if ids.property.Some? && ids.property.value != row.property then Err(Mismatch)
      else if ids.tenant.Some? && ids.tenant.value != row.tenant then Err(Mismatch)
      else Ok(Links(Some(row.property), ids.contract, Some(row.tenant), ids.collection))
  }

  /** The property an operation concerns: the contract's if a contract is given. */
  function ResolveProperty(c: Catalog, ids: Links): Result<Option<nat>> {
    if ids.contract.Some? then
      if ids.contract.value !in c.contracts then Err(NotFound)
      else if c.contracts[ids.contract.value].property !in c.properties then Err(NotFound)
      else Ok(Some(c.contracts[ids.contract.value].property))
    else if ids.property.Some? then
      if ids.property.value !in c.properties then Err(NotFound) else Ok(ids.property)
    else Ok(None)
  }

  /** The check on a single document; None is admission. */
  function Authorize(c: Catalog, u: User, ids: Links): Option<Error> {
    match u
    case Admin => None
    case Plain => Some(Forbidden)
    case Manager(m) =>
      match ResolveProperty(c, ids)
      case Err(e) => Some(e)
      case Ok(None) => Some(Forbidden)
      case Ok(Some(p)) => if p in c.properties && c.properties[p] == Some(m) then None else Some(Forbidden)
  }

  predicate Owned(c: Catalog, m: nat, property: nat) {
    property in c.properties && c.properties[property] == Some(m)
  }

  /** The filter of the manager's document list. */
  predicate Listed(c: Catalog, m: nat, ids: Links) {
    || (ids.property.Some? && Owned(c, m, ids.property.value))
    || (ids.contract.Some? && ids.contract.value in c.contracts
        && Owned(c, m, c.contracts[ids.contract.value].property))
  }

  // ----- the normal form -----

  predicate Normal(c: Catalog, ids: Links) {
    && RelatedExist(c, ids)
    && (ids.contract.Some? ==>
          && ids.contract.value in c.contracts
          && var row := c.contracts[ids.contract.value];
             ids.property == Some(row.property) && ids.tenant == Some(row.tenant))
  }

  predicate CatalogOk(c: Catalog) {
    forall k | k in c.contracts :: c.contracts[k].property in c.properties && c.contracts[k].tenant in c.tenants
  }

  lemma ResolveNormal(c: Catalog, doc: Option<Links>, req: Links)
    requires CatalogOk(c) && Resolve(c, doc, req).Ok?
    ensures Normal(c, Resolve(c, doc, req).value)
  {}

  /** What a field becomes if the request alone decides: what it names, or else what the document had. */
  predicate Carried(was: Option<nat>, named: Option<nat>, now: Option<nat>) {
    if named.Some? then now == named else now == was
  }

  /**
   Without a contract every field the request names is taken and every other is kept, provided what results
   exists. With one, the property and tenant are the contract's, and anything else that is named or kept is a
   mismatch. A row that is named or kept and missing is reported before any mismatch.
   */
  lemma ResolveExactly(c: Catalog, doc: Links, req: Links)
    requires CatalogOk(c)
    ensures var r := Resolve(c, Some(doc), req);
            var contract := if req.contract.Some? then req.contract else doc.contract;
            && (r.Ok? ==>
                  && Carried(doc.contract, req.contract, r.value.contract)
                  && Carried(doc.collection, req.collection, r.value.collection)
                  && (contract == None ==>
                        && Carried(doc.property, req.property, r.value.property)
                        && Carried(doc.tenant, req.tenant, r.value.tenant))
                  && (req.property.Some? ==> r.value.property == req.property)
                  && (req.tenant.Some? ==> r.value.tenant == req.tenant))
            && (r.Ok? ==> Normal(c, r.value))
            && (forall ids | Normal(c, ids) && ids.contract == contract
                             && Carried(doc.collection, req.collection, ids.collection)
                             && (if contract == None
                                 then Carried(doc.property, req.property, ids.property)
                                      && Carried(doc.tenant, req.tenant, ids.tenant)
                                 else (req.property.Some? || doc.property.Some? ==>
                                         Carried(doc.property, req.property, ids.property))
                                      && (req.tenant.Some? || doc.tenant.Some? ==>
                                            Carried(doc.tenant, req.tenant, ids.tenant))) :: r == Ok(ids))
            && (r == Err(NotFound) <==>
                  var (property, tenant, collection) :=
                    (if req.property.Some? then req.property else doc.property,
                     if req.tenant.Some? then req.tenant else doc.tenant,
                     if req.collection.Some? then req.collection else doc.collection);
                  || (contract.Some? && contract.value !in c.contracts)
                  || (property.Some? && property.value !in c.properties)
                  || (tenant.Some? && tenant.value !in c.tenants)
                  || (collection.Some? && collection.value !in c.collections))
            && r != Err(Forbidden)
  {}

  /** A new document has nothing of its own: it resolves as one without links does. */
  lemma ResolveNew(c: Catalog, req: Links)
    ensures Resolve(c, None, req) == Resolve(c, Some(NO_CHANGE), req)
  {}

  /** Resolving again, with the same request or with none, changes nothing. */
  lemma ResolveIdempotent(c: Catalog, doc: Option<Links>, req: Links)
    requires CatalogOk(c) && Resolve(c, doc, req).Ok?
    ensures var ids := Resolve(c, doc, req).value;
            Resolve(c, Some(ids), req) == Ok(ids) && Resolve(c, Some(ids), NO_CHANGE) == Ok(ids)
  {}

  /** A contract-linked document moves to another contract, naming nothing else, only within one property and tenant. */
  lemma RelinkExact(c: Catalog, ids: Links, contract: nat)
    requires CatalogOk(c) && Normal(c, ids) && ids.contract.Some? && contract in c.contracts
    ensures Resolve(c, Some(ids), NO_CHANGE.(contract := Some(contract))).Ok? <==>
              c.contracts[contract] == c.contracts[ids.contract.value]
  {}

  /**
   Administrators are always admitted, plain users never, a manager exactly for what concerns a property of
   theirs.
   */
  lemma AdmittedExactly(c: Catalog, u: User, ids: Links)
    requires CatalogOk(c)
    ensures Authorize(c, u, ids) == None <==>
              match u
              case Admin => true
              case Plain => false
              case Manager(m) =>
                if ids.contract.Some? then
                  ids.contract.value in c.contracts && Owned(c, m, c.contracts[ids.contract.value].property)
                else ids.property.Some? && Owned(c, m, ids.property.value)
    ensures Authorize(c, u, ids) == Some(NotFound) <==>
              u.Manager? &&
              if ids.contract.Some? then ids.contract.value !in c.contracts
              else ids.property.Some? && ids.property.value !in c.properties
  {}

  /**
   For any links that resolve, the list agrees with the check for every manager exactly when no owned
   property contradicts the contract.
   */
  lemma ListMatchesCheckExactly(c: Catalog, ids: Links)
    requires CatalogOk(c) && RelatedExist(c, ids)
    requires ids.contract.Some? ==> ids.contract.value in c.contracts
    ensures (forall m :: Listed(c, m, ids) <==> Authorize(c, Manager(m), ids) == None) <==>
              (ids.contract.Some? && ids.property.Some? && c.properties[ids.property.value].Some? ==>
                 c.properties[ids.property.value] == c.properties[c.contracts[ids.contract.value].property])
  {
    if ids.contract.Some? && ids.property.Some? && c.properties[ids.property.value].Some? {
      var m := c.properties[ids.property.value].value;
      assert Listed(c, m, ids);
    }
  }

  // ----- all reachable states -----

  datatype State = State(catalog: Catalog, docs: map<nat, Links>)

  datatype Op =
    | AddProperty(p: nat) | AssignManager(prop: nat, manager: nat) | DeleteProperty(noProp: nat)
    | AddTenant(t: nat) | DeleteTenant(noTenant: nat)
    | AddContract(k: nat, row: ContractRow) | DeleteContract(noContract: nat)
    | AddCollection(n: nat) | DeleteCollection(noCollection: nat)
    | CreateDoc(doc: nat, links: Links, creator: User)
    | Relink(target: nat, change: Links, who: User)
    | DeleteDoc(gone: nat)

  /** Foreign keys refuse a delete while a row still points there; deleting a collection empties the reference. */
  function Step(s: State, op: Op): State {
    var c := s.catalog;
    match op
    case AddProperty(p) => if p in c.properties then s else s.(catalog := c.(properties := c.properties[p := None]))
    case AssignManager(p, m) =>
      if p in c.properties then s.(catalog := c.(properties := c.properties[p := Some(m)])) else s
    case DeleteProperty(p) =>
      if (exists k | k in c.contracts :: c.contracts[k].property == p)
         || (exists d | d in s.docs :: s.docs[d].property == Some(p))
      then s else s.(catalog := c.(properties := c.properties - {p}))
    case AddTenant(t) => s.(catalog := c.(tenants := c.tenants + {t}))
    case DeleteTenant(t) =>
      if (exists k | k in c.contracts :: c.contracts[k].tenant == t)
         || (exists d | d in s.docs :: s.docs[d].tenant == Some(t))
      then s else s.(catalog := c.(tenants := c.tenants - {t}))
    case AddContract(k, row) =>
      if k in c.contracts || row.property !in c.properties || row.tenant !in c.tenants then s
      else s.(catalog := c.(contracts := c.contracts[k := row]))
    case DeleteContract(k) =>
      if exists d | d in s.docs :: s.docs[d].contract == Some(k) then s
      else s.(catalog := c.(contracts := c.contracts - {k}))
    case AddCollection(n) => s.(catalog := c.(collections := c.collections + {n}))
    case DeleteCollection(n) =>
      s.(catalog := c.(collections := c.collections - {n}),
         docs := map d | d in s.docs ::
                   if s.docs[d].collection == Some(n) then s.docs[d].(collection := None) else s.docs[d])
    case CreateDoc(d, req, u) =>
      var r := Resolve(c, None, req);
      if d in s.docs || r.Err? || Authorize(c, u, r.value).Some? then s else s.(docs := s.docs[d := r.value])
    case Relink(d, req, u) =>
      if d !in s.docs || Authorize(c, u, s.docs[d]).Some? then s
      else
        var r := Resolve(c, Some(s.docs[d]), req);
        if r.Err? || Authorize(c, u, r.value).Some? then s else s.(docs := s.docs[d := r.value])
    case DeleteDoc(d) => s.(docs := s.docs - {d})
  }

  function Run(s: State, ops: seq<Op>): State
    decreases ops
  {
    if ops == [] then s else Run(Step(s, ops[0]), ops[1..])
  }

  ghost predicate Inv(s: State) {
    CatalogOk(s.catalog) && forall d | d in s.docs :: Normal(s.catalog, s.docs[d])
  }

  lemma StepKeepsInv(s: State, op: Op)
    requires Inv(s)
    ensures Inv(Step(s, op))
  {
    if op.CreateDoc? && Resolve(s.catalog, None, op.links).Ok? {
      ResolveNormal(s.catalog, None, op.links);
    }
    if op.Relink? && op.target in s.docs && Resolve(s.catalog, Some(s.docs[op.target]), op.change).Ok? {
      ResolveNormal(s.catalog, Some(s.docs[op.target]), op.change);
    }
  }

  lemma {:induction false} RunKeepsInv(s: State, ops: seq<Op>)
    requires Inv(s)
    ensures Inv(Run(s, ops))
    decreases ops
  {
    if ops == [] {
    } else {
      StepKeepsInv(s, ops[0]);
      RunKeepsInv(Step(s, ops[0]), ops[1..]);
    }
  }

  /**
   Creating or relinking a document writes exactly what resolves, if the user is admitted before and after;
   nothing else moves.
   */
  lemma DocumentWritten(s: State, op: Op)
    requires op.CreateDoc? || op.Relink?
    ensures var d, doc, change, u :=
              if op.CreateDoc? then op.doc else op.target,
              if op.CreateDoc? then NO_CHANGE else if op.target in s.docs then s.docs[op.target] else NO_CHANGE,
              if op.CreateDoc? then op.links else op.change,
              if op.CreateDoc? then op.creator else op.who;
            var r := Resolve(s.catalog, Some(doc), change);
            && Step(s, op).catalog == s.catalog
            && (if (if op.CreateDoc? then d !in s.docs else d in s.docs && Authorize(s.catalog, u, doc) == None)
                   && r.Ok? && Authorize(s.catalog, u, r.value) == None
                then Step(s, op).docs == s.docs[d := r.value] else Step(s, op).docs == s.docs)
  {
    if op.CreateDoc? { ResolveNew(s.catalog, op.links); }
  }

  /** Deletions are refused exactly while a row still refers to what would go, and otherwise take that row alone. */
  lemma DeletedExactly(s: State, op: Op)
    requires op.DeleteProperty? || op.DeleteTenant? || op.DeleteContract? || op.DeleteDoc?
    ensures var c, c' := s.catalog, Step(s, op).catalog;
            match op
            case DeleteProperty(p) =>
              var free := (forall k | k in c.contracts :: c.contracts[k].property != p)
                          && forall d | d in s.docs :: s.docs[d].property != Some(p);
              Step(s, op) == s.(catalog := c.(properties := if free then c.properties - {p} else c.properties))
            case DeleteTenant(t) =>
              var free := (forall k | k in c.contracts :: c.contracts[k].tenant != t)
                          && forall d | d in s.docs :: s.docs[d].tenant != Some(t);
              Step(s, op) == s.(catalog := c.(tenants := if free then c.tenants - {t} else c.tenants))
            case DeleteContract(k) =>
              var free := forall d | d in s.docs :: s.docs[d].contract != Some(k);
              Step(s, op) == s.(catalog := c.(contracts := if free then c.contracts - {k} else c.contracts))
            case DeleteDoc(d) => c' == c && Step(s, op).docs == s.docs - {d}
            case _ => true
  {}

  /** A deleted collection is taken out of every document's links, and nothing else is. */
  lemma CollectionDeleted(s: State, n: nat, d: nat)
    ensures var s' := Step(s, DeleteCollection(n));
            && s'.catalog == s.catalog.(collections := s.catalog.collections - {n})
            && (d in s'.docs <==> d in s.docs)
            && (d in s.docs ==>
                  && s'.docs[d].(collection := s.docs[d].collection) == s.docs[d]
                  && s'.docs[d].collection == if s.docs[d].collection == Some(n) then None else s.docs[d].collection)
  {}

  /**
   In every reachable state a contract-linked document carries its contract's property and tenant, so a
   manager's list holds exactly the documents the single check admits, and an empty relink changes nothing.
   */
  lemma ListMatchesCheck(s: State, ops: seq<Op>, d: nat, m: nat, u: User)
    requires Inv(s) && d in Run(s, ops).docs
    ensures var s' := Run(s, ops);
            && Normal(s'.catalog, s'.docs[d])
            && (Listed(s'.catalog, m, s'.docs[d]) <==> Authorize(s'.catalog, Manager(m), s'.docs[d]) == None)
            && Step(s', Relink(d, NO_CHANGE, u)) == s'
  {
    RunKeepsInv(s, ops);
    var s' := Run(s, ops);
    assert s'.docs[d := s'.docs[d]] == s'.docs;
  }
}
