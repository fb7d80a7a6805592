/**
 The document protocol across two stores: database rows and stored objects. Every request is a
 machine of atomic steps, any of which may fail; requests on different documents interleave freely,
 with at most one request per document at a time.
 */
module DocumentStorage {
  import opened Wrappers
  import opened StorageKeys
  import opened Upload

  datatype Row = Row(fileName: string, fileType: Mime, storedUnder: string)

  datatype Blob = Blob(data: seq<byte>, mime: Mime)

  /** Log messages: keys named by a failed clean-up, staging keys and documents named by a failed promotion. */
  datatype Log = Log(orphans: set<string>, staged: set<string>, inconsistent: set<string>)

  /**
   Two fields are history. `accepted`: the file last stored for a document without a failed promotion since.
   `abandoned`: the keys that a failed promotion left behind when it also changed the file's name.
   */
  datatype World = World(
    rows: map<string, Row>, objects: map<string, Blob>, log: Log, accepted: map<string, Blob>, abandoned: set<string>)

  datatype Outcome = Finished | UploadFailed | RowWriteFailed | StorageInconsistent

  datatype CreatePc = Put | InsertRow | DropUnsaved | Created(outcome: Outcome)
  datatype ReplacePc = Stage | CommitRow | DropUncommitted | Promote | DropStaged | DropOld | Replaced(outcome: Outcome)
  datatype DeletePc = DeleteRow | DropObject | Deleted(outcome: Outcome)

  /** A request in flight. The `was` fields are history: what the request found when it began. */
  datatype Job =
    | Creating(cpc: CreatePc, row: Row, upload: Option<Blob>)
    | Replacing(
        rpc: ReplacePc, was: Row, wasOld: Option<Blob>, wasNew: Option<Blob>, now: Row, file: Blob, token: string)
    | Deleting(dpc: DeletePc, gone: Row)

  predicate Over(j: Job) {
    match j
    case Creating(pc, _, _) => pc.Created?
    case Replacing(pc, _, _, _, _, _, _) => pc.Replaced?
    case Deleting(pc, _) => pc.Deleted?
  }

  function NewRow(d: string, fileName: string, fileType: Mime): Row {
    Row(fileName, fileType, CanonicalKey(d, fileName))
  }

  function KeyOf(d: string, r: Row): string {
    CanonicalKey(d, r.fileName)
  }

  function Lookup(w: World, key: string): Option<Blob> {
    if key in w.objects then Some(w.objects[key]) else None
  }

  /** What a download of document d returns: the object under its row's canonical key. */
  function Download(w: World, d: string): Option<Blob> {
    if d in w.rows then Lookup(w, KeyOf(d, w.rows[d])) else None
  }

  function Store(w: World, key: string, blob: Blob): World {
    w.(objects := w.objects[key := blob])
  }

  /** Removing an object; a failure only leaves a log message naming the key. */
  function Remove(w: World, key: string, fails: bool): World {
    if fails then w.(log := w.log.(orphans := w.log.orphans + {key})) else w.(objects := w.objects - {key})
  }

  function AdvanceCreate(w: World, d: string, j: Job, fails: bool): (World, Job)
    requires j.Creating?
  {
    var key := KeyOf(d, j.row);
    match j.cpc
    case Put =>
      if j.upload == None then (w, j.(cpc := InsertRow))
      else if fails then (w, j.(cpc := Created(UploadFailed)))
      else (Store(w, key, j.upload.value), j.(cpc := InsertRow))
    case InsertRow =>
      if fails then (w, j.(cpc := if j.upload.Some? then DropUnsaved else Created(RowWriteFailed)))
      else
        (w.(rows := w.rows[d := j.row],
            accepted := if j.upload.Some? then w.accepted[d := j.upload.value] else w.accepted - {d}),
         j.(cpc := Created(Finished)))
    case DropUnsaved => (Remove(w, key, fails), j.(cpc := Created(RowWriteFailed)))
    case Created(_) => (w, j)
  }

  function ReplaceStep(
      w: World, d: string, j: Job, staging: string, oldKey: string, newKey: string, fails: bool): (World, Job)
    requires j.Replacing?
  {
    match j.rpc
    case Stage =>
      if fails then (w, j.(rpc := Replaced(UploadFailed))) else (Store(w, staging, j.file), j.(rpc := CommitRow))
    case CommitRow =>
      if fails then (w, j.(rpc := DropUncommitted)) else (w.(rows := w.rows[d := j.now]), j.(rpc := Promote))
    case DropUncommitted => (Remove(w, staging, fails), j.(rpc := Replaced(RowWriteFailed)))
    case Promote =>
      if fails then
        (w.(accepted := w.accepted - {d},
            abandoned := if oldKey != newKey then w.abandoned + {oldKey} else w.abandoned,
            log := w.log.(staged := w.log.staged + {staging}, inconsistent := w.log.inconsistent + {d})),
         j.(rpc := Replaced(StorageInconsistent)))
      else (Store(w, newKey, j.file).(accepted := w.accepted[d := j.file]), j.(rpc := DropStaged))
    case DropStaged =>
      (Remove(w, staging, fails), j.(rpc := if oldKey != newKey then DropOld else Replaced(Finished)))
    case DropOld => (Remove(w, oldKey, fails), j.(rpc := Replaced(Finished)))
    case Replaced(_) => (w, j)
  }

  function AdvanceReplace(w: World, d: string, j: Job, fails: bool): (World, Job)
    requires j.Replacing?
  {
    ReplaceStep(w, d, j, StagingKey(d, j.token), KeyOf(d, j.was), KeyOf(d, j.now), fails)
  }

  function AdvanceDelete(w: World, d: string, j: Job, fails: bool): (World, Job)
    requires j.Deleting?
  {
    match j.dpc
    case DeleteRow =>
      if fails then (w, j.(dpc := Deleted(RowWriteFailed)))
      else (w.(rows := w.rows - {d}, accepted := w.accepted - {d}), j.(dpc := DropObject))
    case DropObject => (Remove(w, KeyOf(d, j.gone), fails), j.(dpc := Deleted(Finished)))
    case Deleted(_) => (w, j)
  }

  /** One step of the request on document d. */
  function Advance(w: World, d: string, j: Job, fails: bool): (World, Job) {
    match j
    case Creating(pc, row, upload) => AdvanceCreate(w, d, j, fails)
    case Replacing(pc, _, _, _, _, _, _) => AdvanceReplace(w, d, j, fails)
    case Deleting(pc, _) => AdvanceDelete(w, d, j, fails)
  }

  /** The key a request is about to remove, if its next step is a clean-up. */
  function CleansUp(d: string, j: Job): Option<string> {
    match j
    case Creating(DropUnsaved, row, _) => Some(CanonicalKey(d, row.fileName))
    case Replacing(DropUncommitted, _, _, _, _, _, token) => Some(StagingKey(d, token))
    case Replacing(DropStaged, _, _, _, _, _, token) => Some(StagingKey(d, token))
    case Replacing(DropOld, was, _, _, _, _, _) => Some(CanonicalKey(d, was.fileName))
    case Deleting(DropObject, gone) => Some(CanonicalKey(d, gone.fileName))
    case _ => None
  }

  lemma RemoveExactly(w: World, key: string, fails: bool)
    ensures var w' := Remove(w, key, fails);
            && (!fails ==> key !in w'.objects && w'.log == w.log)
            && (fails ==> Lookup(w', key) == Lookup(w, key) && w'.log == w.log.(orphans := w.log.orphans + {key}))
            && (forall k | k != key :: Lookup(w', k) == Lookup(w, k))
            && w'.rows == w.rows && w'.accepted == w.accepted && w'.abandoned == w.abandoned
  {}

  lemma CleanupRemoves(w: World, d: string, j: Job, fails: bool)
    requires CleansUp(d, j).Some?
    ensures Advance(w, d, j, fails).0 == Remove(w, CleansUp(d, j).value, fails)
  {}

  /** A clean-up either takes the object away and logs nothing, or fails, leaves it and logs its key. */
  lemma CleanupExactly(w: World, d: string, j: Job, fails: bool)
    requires CleansUp(d, j).Some?
    ensures var key, w' := CleansUp(d, j).value, Advance(w, d, j, fails).0;
            && (!fails ==> key !in w'.objects && w'.log == w.log)
            && (fails ==> Lookup(w', key) == Lookup(w, key) && w'.log == w.log.(orphans := w.log.orphans + {key}))
            && (forall k | k != key :: Lookup(w', k) == Lookup(w, k))
            && w'.rows == w.rows && w'.accepted == w.accepted && w'.abandoned == w.abandoned
  {
    CleanupRemoves(w, d, j, fails);
    RemoveExactly(w, CleansUp(d, j).value, fails);
  }

  /** Nothing else is ever logged, but for the promotion of a replacement, and that only if it fails. */
  lemma OnlyFailuresLogged(w: World, d: string, j: Job, fails: bool)
    ensures var w' := Advance(w, d, j, fails).0;
            && (!fails ==> w'.log == w.log && w'.abandoned == w.abandoned)
            && (w'.log.orphans != w.log.orphans ==>
                  CleansUp(d, j).Some? && w'.log.orphans == w.log.orphans + {CleansUp(d, j).value})
            && (w'.log.(orphans := {}) != w.log.(orphans := {}) ==> j.Replacing? && j.rpc == Promote)
            && (w'.abandoned != w.abandoned ==> j.Replacing? && j.rpc == Promote)
  {}

  // ----- many requests at once -----

  datatype Sys = Sys(world: World, jobs: map<string, Job>)

  /** Random ids and tokens are fresh: no stored object carries the new id, none lies under the new staging key. */
  datatype Action =
    | BeginCreate(doc: string, fileName: string, fileType: Mime, upload: Option<Blob>)
    | BeginReplace(doc: string, fileName: string, fileType: Mime, file: Blob, token: string)
    | BeginDelete(doc: string)
    | Proceed(doc: string, fails: bool)
    | Retire(doc: string)

  ghost predicate FreshId(w: World, d: string) {
    IsId(d) && d !in w.rows && forall k | k in w.objects :: Owner(k) != d
  }

  ghost predicate Enabled(s: Sys, a: Action) {
    match a
    case BeginCreate(d, _, _, _) => d !in s.jobs && FreshId(s.world, d)
    case BeginReplace(d, _, _, _, token) =>
      d !in s.jobs && d in s.world.rows && StagingKey(d, token) !in s.world.objects
    case BeginDelete(d) => d !in s.jobs && d in s.world.rows
    case Proceed(d, _) => d in s.jobs
    case Retire(d) => d in s.jobs && Over(s.jobs[d])
  }

  function StartReplace(w: World, d: string, fileName: string, fileType: Mime, file: Blob, token: string): Job
    requires d in w.rows
  {
    var now := NewRow(d, fileName, fileType);
    Replacing(Stage, w.rows[d], Lookup(w, KeyOf(d, w.rows[d])), Lookup(w, KeyOf(d, now)), now, file, token)
  }

  ghost function Do(s: Sys, a: Action): Sys {
    if !Enabled(s, a) then s
    else
      match a
      case BeginCreate(d, name, mime, upload) => s.(jobs := s.jobs[d := Creating(Put, NewRow(d, name, mime), upload)])
      case BeginReplace(d, name, mime, file, token) =>
        s.(jobs := s.jobs[d := StartReplace(s.world, d, name, mime, file, token)])
      case BeginDelete(d) => s.(jobs := s.jobs[d := Deleting(DeleteRow, s.world.rows[d])])
      case Proceed(d, fails) =>
        var (w, j) := Advance(s.world, d, s.jobs[d], fails);
        Sys(w, s.jobs[d := j])
      case Retire(d) => s.(jobs := s.jobs - {d})
  }

  ghost function Run(s: Sys, actions: seq<Action>): Sys
    decreases actions
  {
    if actions == [] then s else Run(Do(s, actions[0]), actions[1..])
  }

  // ----- what holds between any two steps -----

  predicate GoneOrLogged(w: World, key: string) {
    key !in w.objects || key in w.log.orphans
  }

  predicate ReplaceInv(w: World, d: string, j: Job, staging: string, oldKey: string, newKey: string)
    requires j.Replacing?
  {
    var untouched := Lookup(w, oldKey) == j.wasOld && Lookup(w, newKey) == j.wasNew;
    && d in w.rows
    && (match j.rpc
        case Stage => w.rows[d] == j.was && untouched && staging !in w.objects
        case CommitRow => w.rows[d] == j.was && untouched && Lookup(w, staging) == Some(j.file)
        case DropUncommitted => w.rows[d] == j.was && untouched && Lookup(w, staging) == Some(j.file)
        case Promote => w.rows[d] == j.now && untouched && Lookup(w, staging) == Some(j.file)
        case DropStaged => w.rows[d] == j.now && Lookup(w, newKey) == Some(j.file)
        case DropOld =>
          && w.rows[d] == j.now && Lookup(w, newKey) == Some(j.file)
          && oldKey != newKey && GoneOrLogged(w, staging)
        case Replaced(Finished) =>
          && w.rows[d] == j.now && Lookup(w, newKey) == Some(j.file) && GoneOrLogged(w, staging)
          && (oldKey != newKey ==> GoneOrLogged(w, oldKey))
        case Replaced(UploadFailed) => w.rows[d] == j.was && untouched && staging !in w.objects
        case Replaced(RowWriteFailed) => w.rows[d] == j.was && untouched && GoneOrLogged(w, staging)
        case Replaced(StorageInconsistent) =>
          && w.rows[d] == j.now && untouched && Lookup(w, staging) == Some(j.file)
          && staging in w.log.staged && d in w.log.inconsistent && (oldKey != newKey ==> oldKey in w.abandoned))
  }

  /** What a request has established so far, and what it has left alone. */
  predicate JobInv(w: World, d: string, j: Job) {
    match j
    case Creating(pc, row, upload) =>
      var key := KeyOf(d, row);
      && row.storedUnder == key
      && (match pc
          case Put => d !in w.rows && key !in w.objects
          case InsertRow => d !in w.rows && Lookup(w, key) == upload
          case DropUnsaved => d !in w.rows
          case Created(Finished) => d in w.rows && w.rows[d] == row && Lookup(w, key) == upload
          case Created(UploadFailed) => d !in w.rows && key !in w.objects
          case Created(RowWriteFailed) => d !in w.rows && GoneOrLogged(w, key)
          case Created(StorageInconsistent) => false)
    case Replacing(_, was, _, _, now, _, token) =>
      now.storedUnder == KeyOf(d, now) && ReplaceInv(w, d, j, StagingKey(d, token), KeyOf(d, was), KeyOf(d, now))
    case Deleting(pc, gone) =>
      match pc
      case DeleteRow => d in w.rows && w.rows[d] == gone
      case DropObject => d !in w.rows
      case Deleted(Finished) => d !in w.rows && GoneOrLogged(w, KeyOf(d, gone))
      case Deleted(RowWriteFailed) => d in w.rows && w.rows[d] == gone
      case Deleted(_) => false
  }

  function WorkingKeys(pc: ReplacePc, staging: string, oldKey: string): set<string> {
    match pc
    case CommitRow => {staging}
    case DropUncommitted => {staging}
    case Promote => {staging, oldKey}
    case DropStaged => {staging, oldKey}
    case DropOld => {oldKey}
    case _ => {}
  }

  /** Keys that only the running request still knows about. */
  function Working(d: string, j: Job): set<string> {
    match j
    case Creating(pc, row, _) => if pc in {InsertRow, DropUnsaved} then {KeyOf(d, row)} else {}
    case Replacing(pc, was, _, _, _, _, token) => WorkingKeys(pc, StagingKey(d, token), KeyOf(d, was))
    case Deleting(pc, gone) => if pc == DropObject then {KeyOf(d, gone)} else {}
  }

  /** A stored key of document d is its current one, or somebody was told about it, or a request is at work on it. */
  predicate AccountedBy(w: World, d: string, working: set<string>, key: string) {
    || (d in w.rows && key == KeyOf(d, w.rows[d]))
    || key in w.log.orphans || key in w.log.staged || key in w.abandoned
    || key in working
  }

  predicate Accounted(s: Sys, key: string) {
    var d := Owner(key);
    AccountedBy(s.world, d, if d in s.jobs then Working(d, s.jobs[d]) else {}, key)
  }

  /** The object of a document whose last file was accepted, except while its replacement is being promoted. */
  predicate HoldsAccepted(s: Sys, d: string) {
    d in s.world.accepted ==>
      && d in s.world.rows
      && (!(d in s.jobs && s.jobs[d].Replacing? && s.jobs[d].rpc == Promote) ==>
            Lookup(s.world, KeyOf(d, s.world.rows[d])) == Some(s.world.accepted[d]))
  }

  /** A key is abandoned only by a failed promotion of its own document, which was logged. */
  ghost predicate AbandonedLogged(w: World, d: string) {
    forall key | key in w.abandoned && Owner(key) == d :: d in w.log.inconsistent && !IsStaging(key)
  }

  ghost predicate DocInv(s: Sys, d: string) {
    && (d in s.world.rows ==> IsId(d) && s.world.rows[d].storedUnder == KeyOf(d, s.world.rows[d]))
    && (d in s.jobs ==> IsId(d) && JobInv(s.world, d, s.jobs[d]))
    && HoldsAccepted(s, d)
    && AbandonedLogged(s.world, d)
    && forall key | key in s.world.objects && Owner(key) == d :: Accounted(s, key)
  }

  ghost predicate Inv(s: Sys) {
    forall d :: DocInv(s, d)
  }

  // ----- a step on one document touches no other -----

  /** The stores agree on everything that concerns document e. */
  ghost predicate SameStores(w: World, w': World, e: string) {
    && (e in w.rows <==> e in w'.rows) && (e in w.rows ==> w'.rows[e] == w.rows[e])
    && (e in w.accepted <==> e in w'.accepted) && (e in w.accepted ==> w'.accepted[e] == w.accepted[e])
    && (e in w.log.inconsistent <==> e in w'.log.inconsistent)
    && (forall key | Owner(key) == e :: Lookup(w', key) == Lookup(w, key))
    && (forall key | Owner(key) == e ::
          && (key in w'.log.orphans <==> key in w.log.orphans)
          && (key in w'.log.staged <==> key in w.log.staged)
          && (key in w'.abandoned <==> key in w.abandoned))
  }

  /** Everything that concerns document e is the same in both states. */
  ghost predicate SameFor(s: Sys, s': Sys, e: string) {
    && SameStores(s.world, s'.world, e)
    && (e in s.jobs <==> e in s'.jobs)
    && (e in s.jobs ==> s'.jobs[e] == s.jobs[e])
  }

  lemma JobKeysOwned(d: string, j: Job)
    requires IsId(d)
    ensures j.Creating? ==> Owner(KeyOf(d, j.row)) == d
    ensures j.Deleting? ==> Owner(KeyOf(d, j.gone)) == d
    ensures j.Replacing? ==>
              Owner(KeyOf(d, j.was)) == d && Owner(KeyOf(d, j.now)) == d && Owner(StagingKey(d, j.token)) == d
    ensures j.Replacing? ==> StagingKey(d, j.token) != KeyOf(d, j.was) && StagingKey(d, j.token) != KeyOf(d, j.now)
    ensures j.Replacing? ==> !IsStaging(KeyOf(d, j.was)) && IsStaging(StagingKey(d, j.token))
  {
    match j
    case Creating(_, row, _) => CanonicalOwner(d, row.fileName);
    case Deleting(_, gone) => CanonicalOwner(d, gone.fileName);
    case Replacing(_, was, _, _, now, _, token) =>
      CanonicalOwner(d, was.fileName);
      CanonicalOwner(d, now.fileName);
      StagingOwner(d, token);
  }

  lemma CreateIsLocal(w: World, d: string, j: Job, fails: bool, e: string)
    requires j.Creating? && IsId(d) && d != e
    ensures SameStores(w, AdvanceCreate(w, d, j, fails).0, e)
  {
    JobKeysOwned(d, j);
  }

  lemma OtherKeyKept(
      w: World, d: string, j: Job, staging: string, oldKey: string, newKey: string, fails: bool, key: string)
    requires j.Replacing? && key !in {staging, oldKey, newKey}
    ensures var w' := ReplaceStep(w, d, j, staging, oldKey, newKey, fails).0;
            && Lookup(w', key) == Lookup(w, key)
            && (key in w'.log.orphans <==> key in w.log.orphans) && (key in w'.log.staged <==> key in w.log.staged)
            && (key in w'.abandoned <==> key in w.abandoned)
  {}

  lemma OtherDocKept(
      w: World, d: string, j: Job, staging: string, oldKey: string, newKey: string, fails: bool, e: string)
    requires j.Replacing? && d != e
    ensures var w' := ReplaceStep(w, d, j, staging, oldKey, newKey, fails).0;
            && (e in w.rows <==> e in w'.rows) && (e in w.rows ==> w'.rows[e] == w.rows[e])
            && (e in w.accepted <==> e in w'.accepted) && (e in w.accepted ==> w'.accepted[e] == w.accepted[e])
            && (e in w.log.inconsistent <==> e in w'.log.inconsistent)
  {}

  lemma ReplaceStepIsLocal(
      w: World, d: string, j: Job, staging: string, oldKey: string, newKey: string, fails: bool, e: string)
    requires j.Replacing? && d != e && Owner(staging) == Owner(oldKey) == Owner(newKey) == d
    ensures SameStores(w, ReplaceStep(w, d, j, staging, oldKey, newKey, fails).0, e)
  {
    var w' := ReplaceStep(w, d, j, staging, oldKey, newKey, fails).0;
    OtherDocKept(w, d, j, staging, oldKey, newKey, fails, e);
    forall key | Owner(key) == e
      ensures Lookup(w', key) == Lookup(w, key)
      ensures (key in w'.log.orphans <==> key in w.log.orphans) && (key in w'.log.staged <==> key in w.log.staged)
      ensures key in w'.abandoned <==> key in w.abandoned
    {
      OtherKeyKept(w, d, j, staging, oldKey, newKey, fails, key);
    }
  }

  lemma ReplaceIsLocal(w: World, d: string, j: Job, fails: bool, e: string)
    requires j.Replacing? && IsId(d) && d != e
    ensures SameStores(w, AdvanceReplace(w, d, j, fails).0, e)
  {
    JobKeysOwned(d, j);
    ReplaceStepIsLocal(w, d, j, StagingKey(d, j.token), KeyOf(d, j.was), KeyOf(d, j.now), fails, e);
  }

  lemma DeleteIsLocal(w: World, d: string, j: Job, fails: bool, e: string)
    requires j.Deleting? && IsId(d) && d != e
    ensures SameStores(w, AdvanceDelete(w, d, j, fails).0, e)
  {
    JobKeysOwned(d, j);
  }

  lemma StepIsLocal(s: Sys, a: Action, e: string)
    requires Inv(s) && a.doc != e
    ensures SameFor(s, Do(s, a), e)
  {
    if a.Proceed? && a.doc in s.jobs {
      assert DocInv(s, a.doc);
      var j := s.jobs[a.doc];
      if j.Creating? { CreateIsLocal(s.world, a.doc, j, a.fails, e); }
      else if j.Replacing? { ReplaceIsLocal(s.world, a.doc, j, a.fails, e); }
      else { DeleteIsLocal(s.world, a.doc, j, a.fails, e); }
    }
  }

  lemma SameKeepsDoc(s: Sys, s': Sys, e: string)
    requires DocInv(s, e) && SameFor(s, s', e)
    ensures DocInv(s', e)
  {
    if e in s.jobs {
      JobKeysOwned(e, s.jobs[e]);
      assert JobInv(s'.world, e, s'.jobs[e]);
    }
    if e in s.world.rows { CanonicalOwner(e, s.world.rows[e].fileName); }
    forall key | key in s'.world.objects && Owner(key) == e ensures Accounted(s', key) {
      assert Lookup(s'.world, key) == Lookup(s.world, key);
      assert Accounted(s, key);
    }
  }

  // ----- a step keeps its own document in order -----

  lemma BeginKeepsDoc(s: Sys, a: Action)
    requires Inv(s) && !a.Proceed?
    ensures DocInv(Do(s, a), a.doc)
  {
    var s', d := Do(s, a), a.doc;
    assert DocInv(s, d);
    if Enabled(s, a) {
      if a.BeginCreate? { CanonicalOwner(d, a.fileName); }
      forall key | key in s'.world.objects && Owner(key) == d ensures Accounted(s', key) {
        assert Accounted(s, key);
      }
    }
  }

  lemma ReplaceStepKeepsInv(w: World, d: string, j: Job, staging: string, oldKey: string, newKey: string, fails: bool)
    requires j.Replacing? && staging != oldKey && staging != newKey && ReplaceInv(w, d, j, staging, oldKey, newKey)
    ensures var (w', j') := ReplaceStep(w, d, j, staging, oldKey, newKey, fails);
            && j'.Replacing? && j' == j.(rpc := j'.rpc)
            && ReplaceInv(w', d, j', staging, oldKey, newKey)
  {}

  lemma AdvanceKeepsJob(w: World, d: string, j: Job, fails: bool)
    requires IsId(d) && JobInv(w, d, j)
    ensures var (w', j') := Advance(w, d, j, fails); JobInv(w', d, j')
  {
    if j.Replacing? {
      JobKeysOwned(d, j);
      ReplaceStepKeepsInv(w, d, j, StagingKey(d, j.token), KeyOf(d, j.was), KeyOf(d, j.now), fails);
    }
  }

  lemma ProceedKeepsAccepted(s: Sys, d: string, fails: bool)
    requires Inv(s) && d in s.jobs
    ensures HoldsAccepted(Do(s, Proceed(d, fails)), d)
  {
    assert DocInv(s, d);
    JobKeysOwned(d, s.jobs[d]);
  }

  lemma ProceedKeepsAbandoned(s: Sys, d: string, fails: bool)
    requires Inv(s) && d in s.jobs
    ensures AbandonedLogged(Do(s, Proceed(d, fails)).world, d)
  {
    assert DocInv(s, d);
    JobKeysOwned(d, s.jobs[d]);
  }

  lemma CreateKeepsAccounts(w: World, d: string, j: Job, fails: bool, key: string)
    requires j.Creating? && JobInv(w, d, j)
    requires key in w.objects ==> AccountedBy(w, d, Working(d, j), key)
    ensures var (w', j') := AdvanceCreate(w, d, j, fails);
            key in w'.objects ==> AccountedBy(w', d, Working(d, j'), key)
  {}

  lemma ReplaceStepKeepsAccounts(
      w: World, d: string, j: Job, staging: string, oldKey: string, newKey: string, fails: bool, key: string)
    requires j.Replacing? && ReplaceInv(w, d, j, staging, oldKey, newKey)
    requires staging != oldKey && staging != newKey && !IsStaging(oldKey)
    requires KeyOf(d, j.was) == oldKey && KeyOf(d, j.now) == newKey
    requires key in w.objects ==> AccountedBy(w, d, WorkingKeys(j.rpc, staging, oldKey), key)
    ensures var (w', j') := ReplaceStep(w, d, j, staging, oldKey, newKey, fails);
            j'.Replacing? && (key in w'.objects ==> AccountedBy(w', d, WorkingKeys(j'.rpc, staging, oldKey), key))
  {}

  lemma ReplaceKeepsAccounts(w: World, d: string, j: Job, fails: bool, key: string)
    requires j.Replacing? && IsId(d) && JobInv(w, d, j)
    requires key in w.objects ==> AccountedBy(w, d, Working(d, j), key)
    ensures var (w', j') := AdvanceReplace(w, d, j, fails);
            key in w'.objects ==> AccountedBy(w', d, Working(d, j'), key)
  {
    JobKeysOwned(d, j);
    ReplaceStepKeepsInv(w, d, j, StagingKey(d, j.token), KeyOf(d, j.was), KeyOf(d, j.now), fails);
    ReplaceStepKeepsAccounts(w, d, j, StagingKey(d, j.token), KeyOf(d, j.was), KeyOf(d, j.now), fails, key);
  }

  lemma DeleteKeepsAccounts(w: World, d: string, j: Job, fails: bool, key: string)
    requires j.Deleting? && JobInv(w, d, j)
    requires key in w.objects ==> AccountedBy(w, d, Working(d, j), key)
    ensures var (w', j') := AdvanceDelete(w, d, j, fails);
            key in w'.objects ==> AccountedBy(w', d, Working(d, j'), key)
  {}

  lemma ProceedKeepsAccounts(s: Sys, d: string, fails: bool, key: string)
    requires Inv(s) && d in s.jobs && Owner(key) == d
    requires key in Do(s, Proceed(d, fails)).world.objects
    ensures Accounted(Do(s, Proceed(d, fails)), key)
  {
    assert DocInv(s, d);
    var j := s.jobs[d];
    assert key in s.world.objects ==> Accounted(s, key);
    if j.Creating? { CreateKeepsAccounts(s.world, d, j, fails, key); }
    else if j.Replacing? { ReplaceKeepsAccounts(s.world, d, j, fails, key); }
    else { DeleteKeepsAccounts(s.world, d, j, fails, key); }
  }

  lemma StepKeepsInv(s: Sys, a: Action)
    requires Inv(s)
    ensures Inv(Do(s, a))
  {
    var s' := Do(s, a);
    forall d ensures DocInv(s', d) {
      assert DocInv(s, d);
      if d != a.doc {
        StepIsLocal(s, a, d);
        SameKeepsDoc(s, s', d);
      } else if !a.Proceed? {
        BeginKeepsDoc(s, a);
      } else if d in s.jobs {
        AdvanceKeepsJob(s.world, d, s.jobs[d], a.fails);
        ProceedKeepsAccepted(s, d, a.fails);
        ProceedKeepsAbandoned(s, d, a.fails);
        forall key | key in s'.world.objects && Owner(key) == d ensures Accounted(s', key) {
          ProceedKeepsAccounts(s, d, a.fails, key);
        }
      }
    }
  }

  lemma {:induction false} RunKeepsInv(s: Sys, actions: seq<Action>)
    requires Inv(s)
    ensures Inv(Run(s, actions))
    decreases actions
  {
    if actions == [] {
    } else {
      StepKeepsInv(s, actions[0]);
      RunKeepsInv(Do(s, actions[0]), actions[1..]);
    }
  }

  // ----- the promises -----

  /** Steps of requests on other documents, in any number and order, never touch this document. */
  lemma {:induction false} OthersNeverTouch(s: Sys, actions: seq<Action>, e: string)
    requires Inv(s)
    requires forall a | a in actions :: a.doc != e
    ensures SameFor(s, Run(s, actions), e)
    decreases actions
  {
    if actions == [] {
    } else {
      assert actions[0] in actions;
      StepIsLocal(s, actions[0], e);
      StepKeepsInv(s, actions[0]);
      OthersNeverTouch(Do(s, actions[0]), actions[1..], e);
    }
  }

  lemma RequestStep(s: Sys, a: Action, d: string)
    requires d in s.jobs && s.jobs[d].Replacing? && a != Retire(d)
    ensures var s' := Do(s, a);
            d in s'.jobs && s'.jobs[d].Replacing? && s'.jobs[d] == s.jobs[d].(rpc := s'.jobs[d].rpc)
  {}

  lemma {:induction false} RequestStays(s: Sys, actions: seq<Action>, d: string)
    requires d in s.jobs && s.jobs[d].Replacing?
    requires Retire(d) !in actions
    ensures var s' := Run(s, actions);
            d in s'.jobs && s'.jobs[d].Replacing? && s'.jobs[d] == s.jobs[d].(rpc := s'.jobs[d].rpc)
    decreases actions
  {
    if actions == [] {
    } else {
      assert actions[0] in actions;
      RequestStep(s, actions[0], d);
      RequestStays(Do(s, actions[0]), actions[1..], d);
    }
  }

  /**
   The replacement contract, for every choice of failing steps and every interleaving with requests on
   other documents. Success: row and canonical object are both new. A failed upload or row write: both are
   as they were. A failed promotion: the row is new, the staged object holds the new bytes, and the old
   key still holds exactly what it held; a download then returns the old file only if the name is unchanged.
   */
  lemma ReplaceContract(s: Sys, d: string, name: string, mime: Mime, file: Blob, token: string, actions: seq<Action>)
    requires Inv(s) && Enabled(s, BeginReplace(d, name, mime, file, token))
    requires Retire(d) !in actions
    requires var j := Run(Do(s, BeginReplace(d, name, mime, file, token)), actions).jobs;
             d in j && Over(j[d])
    ensures var s' := Run(Do(s, BeginReplace(d, name, mime, file, token)), actions);
            var w, w' := s.world, s'.world;
            var oldKey, newKey := KeyOf(d, w.rows[d]), CanonicalKey(d, name);
            && s'.jobs[d].Replacing? && d in w'.rows
            && match s'.jobs[d].rpc.outcome
               case Finished =>
                 && w'.rows[d] == NewRow(d, name, mime) && Download(w', d) == Some(file)
                 && GoneOrLogged(w', StagingKey(d, token)) && (oldKey != newKey ==> GoneOrLogged(w', oldKey))
               case StorageInconsistent =>
                 && w'.rows[d] == NewRow(d, name, mime) && Lookup(w', StagingKey(d, token)) == Some(file)
                 && Lookup(w', oldKey) == Lookup(w, oldKey) && d in w'.log.inconsistent
                 && (oldKey != newKey ==> oldKey in w'.abandoned)
                 && Download(w', d) == (if newKey == oldKey then Download(w, d) else Lookup(w, newKey))
               case _ =>
                 && w'.rows[d] == w.rows[d] && Download(w', d) == Download(w, d)
                 && Lookup(w', newKey) == Lookup(w, newKey) && GoneOrLogged(w', StagingKey(d, token))
  {
    var s1 := Do(s, BeginReplace(d, name, mime, file, token));
    StepKeepsInv(s, BeginReplace(d, name, mime, file, token));
    RunKeepsInv(s1, actions);
    RequestStays(s1, actions, d);
    assert DocInv(Run(s1, actions), d);
  }

  /**
   Storage accounting over every run: once no request is in flight, each stored key is some row's canonical
   key, or is named in the log, or is the old key of a failed promotion that also changed the file's name
   (that log message names the document and the staged key only); and each document whose last file was
   accepted has exactly that file under its canonical key.
   */
  lemma StorageAccounting(s: Sys, actions: seq<Action>)
    requires Inv(s) && Run(s, actions).jobs == map[]
    ensures var w := Run(s, actions).world;
            && (forall key | key in w.objects ::
                  || (Owner(key) in w.rows && key == KeyOf(Owner(key), w.rows[Owner(key)]))
                  || key in w.log.orphans || key in w.log.staged || key in w.abandoned)
            && (forall key | key in w.abandoned :: Owner(key) in w.log.inconsistent && !IsStaging(key))
            && (forall d | d in w.accepted :: d in w.rows && Lookup(w, KeyOf(d, w.rows[d])) == Some(w.accepted[d]))
  {
    RunKeepsInv(s, actions);
    var s' := Run(s, actions);
    forall key | key in s'.world.objects ensures Accounted(s', key) {
      assert DocInv(s', Owner(key));
    }
    forall key | key in s'.world.abandoned ensures Owner(key) in s'.world.log.inconsistent && !IsStaging(key) {
      assert DocInv(s', Owner(key));
    }
    forall d | d in s'.world.accepted ensures HoldsAccepted(s', d) {
      assert DocInv(s', d);
    }
  }

  // ----- runs in which nothing fails -----

  predicate Smooth(actions: seq<Action>) {
    forall a | a in actions :: !(a.Proceed? && a.fails)
  }

  lemma StepLogs(s: Sys, a: Action)
    requires !(a.Proceed? && a.fails)
    ensures Do(s, a).world.log == s.world.log && Do(s, a).world.abandoned == s.world.abandoned
  {
    if a.Proceed? && a.doc in s.jobs {
      OnlyFailuresLogged(s.world, a.doc, s.jobs[a.doc], a.fails);
    }
  }

  lemma {:induction false} SmoothRunsLogNothing(s: Sys, actions: seq<Action>)
    requires Smooth(actions)
    ensures Run(s, actions).world.log == s.world.log && Run(s, actions).world.abandoned == s.world.abandoned
    decreases actions
  {
    if actions == [] {
    } else {
      assert actions[0] in actions;
      StepLogs(s, actions[0]);
      SmoothRunsLogNothing(Do(s, actions[0]), actions[1..]);
    }
  }

  const EMPTY_SYS := Sys(World(map[], map[], Log({}, {}, {}), map[], {}), map[])

  /**
   From empty stores, if no step fails and nothing is in flight, every stored object is the current file of
   its document: no replacement and no deletion leaves anything behind.
   */
  lemma SmoothRunsLeaveNothing(actions: seq<Action>)
    requires Smooth(actions) && Run(EMPTY_SYS, actions).jobs == map[]
    ensures var w := Run(EMPTY_SYS, actions).world;
            && w.log == Log({}, {}, {})
            && (forall key | key in w.objects ::
                  Owner(key) in w.rows && key == CanonicalKey(Owner(key), w.rows[Owner(key)].fileName))
            && (forall d | d in w.accepted :: d in w.rows && Download(w, d) == Some(w.accepted[d]))
  {
    assert Inv(EMPTY_SYS);
    SmoothRunsLogNothing(EMPTY_SYS, actions);
    StorageAccounting(EMPTY_SYS, actions);
  }
}
