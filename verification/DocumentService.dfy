/**
 The document service run without interference: each call changes the object store and the row step
 by step. Every call is proved equal to driving the corresponding request machine to its end, so
 whatever holds of all interleaved runs holds of these calls.
 */
module DocumentService {
  import opened Wrappers
  import opened StorageKeys
  import opened Upload
  import opened DocumentStorage

  /** The points at which storage or the database may let a call down. */
  datatype Fault =
    | PutFault | InsertFault | StageFault | CommitFault | UndoFault
    | PromoteFault | UnstageFault | DropFault | DeleteFault

  function FaultAt(j: Job): Fault {
    match j
    case Creating(pc, _, _) => if pc == Put then PutFault else if pc == InsertRow then InsertFault else UndoFault
    case Replacing(pc, _, _, _, _, _, _) =>
      (match pc
       case Stage => StageFault
       case CommitRow => CommitFault
       case DropUncommitted => UndoFault
       case Promote => PromoteFault
       case DropStaged => UnstageFault
       case _ => DropFault)
    case Deleting(pc, _) => if pc == DeleteRow then DeleteFault else DropFault
  }

  function StepsLeft(j: Job): nat {
    match j
    case Creating(pc, _, _) => (match pc case Put => 3 case InsertRow => 2 case DropUnsaved => 1 case _ => 0)
    case Replacing(pc, _, _, _, _, _, _) =>
      (match pc
       case Stage => 5 case CommitRow => 4 case DropUncommitted => 1
       case Promote => 3 case DropStaged => 2 case DropOld => 1 case _ => 0)
    case Deleting(pc, _) => (match pc case DeleteRow => 2 case DropObject => 1 case _ => 0)
  }

  /** The request alone, to its end. */
  function Drive(w: World, d: string, j: Job, faults: set<Fault>): (World, Job)
    decreases StepsLeft(j)
  {
    if Over(j) then (w, j)
    else
      var (w', j') := Advance(w, d, j, FaultAt(j) in faults);
      Drive(w', d, j', faults)
  }

  /** The whole replacement under three given keys, without the machine. */
  function Replacement(
      w: World, d: string, j: Job, staging: string, oldKey: string, newKey: string, faults: set<Fault>)
    : (World, Outcome)
    requires j.Replacing?
  {
    if StageFault in faults then (w, UploadFailed)
    else
      var w1 := Store(w, staging, j.file);
      if CommitFault in faults then (Remove(w1, staging, UndoFault in faults), RowWriteFailed)
      else
        var w2 := w1.(rows := w1.rows[d := j.now]);
        if PromoteFault in faults then
          (w2.(accepted := w2.accepted - {d},
               abandoned := if oldKey != newKey then w2.abandoned + {oldKey} else w2.abandoned,
               log := w2.log.(staged := w2.log.staged + {staging}, inconsistent := w2.log.inconsistent + {d})),
           StorageInconsistent)
        else
          var promoted := Store(w2, newKey, j.file).(accepted := w2.accepted[d := j.file]);
          var w3 := Remove(promoted, staging, UnstageFault in faults);
          (if oldKey != newKey then Remove(w3, oldKey, DropFault in faults) else w3, Finished)
  }

  function DriveReplace(
      w: World, d: string, j: Job, staging: string, oldKey: string, newKey: string, faults: set<Fault>)
    : (World, Job)
    requires j.Replacing?
    decreases StepsLeft(j)
  {
    if Over(j) then (w, j)
    else
      var (w', j') := ReplaceStep(w, d, j, staging, oldKey, newKey, FaultAt(j) in faults);
      DriveReplace(w', d, j', staging, oldKey, newKey, faults)
  }

  lemma {:induction false} DriveIsDriveReplace(w: World, d: string, j: Job, faults: set<Fault>)
    requires j.Replacing?
    ensures Drive(w, d, j, faults)
            == DriveReplace(w, d, j, StagingKey(d, j.token), KeyOf(d, j.was), KeyOf(d, j.now), faults)
    decreases StepsLeft(j)
  {
    if Over(j) {
    } else {
      var (w', j') := Advance(w, d, j, FaultAt(j) in faults);
      DriveIsDriveReplace(w', d, j', faults);
    }
  }

  lemma DriveOnce(w: World, d: string, j: Job, staging: string, oldKey: string, newKey: string, faults: set<Fault>)
    requires j.Replacing? && !Over(j)
    ensures var (w', j') := ReplaceStep(w, d, j, staging, oldKey, newKey, FaultAt(j) in faults);
            j'.Replacing? && DriveReplace(w, d, j, staging, oldKey, newKey, faults)
                             == DriveReplace(w', d, j', staging, oldKey, newKey, faults)
  {}

  lemma DriveCleanup(w: World, d: string, j: Job, staging: string, oldKey: string, newKey: string, faults: set<Fault>)
    requires j.Replacing? && j.rpc == DropStaged
    ensures var w3 := Remove(w, staging, UnstageFault in faults);
            DriveReplace(w, d, j, staging, oldKey, newKey, faults)
            == (if oldKey != newKey then Remove(w3, oldKey, DropFault in faults) else w3, j.(rpc := Replaced(Finished)))
  {
    var w3 := Remove(w, staging, UnstageFault in faults);
    DriveOnce(w, d, j, staging, oldKey, newKey, faults);
    if oldKey != newKey {
      DriveOnce(w3, d, j.(rpc := DropOld), staging, oldKey, newKey, faults);
    }
  }

  lemma DrivePromotion(w: World, d: string, j: Job, staging: string, oldKey: string, newKey: string, faults: set<Fault>)
    requires j.Replacing? && j.rpc == Promote
    ensures DriveReplace(w, d, j, staging, oldKey, newKey, faults)
            == if PromoteFault in faults then
                 (w.(accepted := w.accepted - {d},
                     abandoned := if oldKey != newKey then w.abandoned + {oldKey} else w.abandoned,
                     log := w.log.(staged := w.log.staged + {staging}, inconsistent := w.log.inconsistent + {d})),
                  j.(rpc := Replaced(StorageInconsistent)))
               else DriveReplace(Store(w, newKey, j.file).(accepted := w.accepted[d := j.file]), d,
                                 j.(rpc := DropStaged), staging, oldKey, newKey, faults)
  {
    DriveOnce(w, d, j, staging, oldKey, newKey, faults);
  }

  /** Driving a fresh replacement to its end is the whole replacement. */
  lemma DriveReplaceIs(w: World, d: string, j: Job, staging: string, oldKey: string, newKey: string, faults: set<Fault>)
    requires j.Replacing? && j.rpc == Stage
    ensures var (w', outcome) := Replacement(w, d, j, staging, oldKey, newKey, faults);
            DriveReplace(w, d, j, staging, oldKey, newKey, faults) == (w', j.(rpc := Replaced(outcome)))
  {
    DriveOnce(w, d, j, staging, oldKey, newKey, faults);
    if StageFault !in faults {
      var w1, j1 := Store(w, staging, j.file), j.(rpc := CommitRow);
      DriveOnce(w1, d, j1, staging, oldKey, newKey, faults);
      if CommitFault in faults {
        DriveOnce(w1, d, j.(rpc := DropUncommitted), staging, oldKey, newKey, faults);
      } else {
        var w2 := w1.(rows := w1.rows[d := j.now]);
        DrivePromotion(w2, d, j.(rpc := Promote), staging, oldKey, newKey, faults);
        if PromoteFault !in faults {
          DriveCleanup(Store(w2, newKey, j.file).(accepted := w2.accepted[d := j.file]), d, j.(rpc := DropStaged),
                       staging, oldKey, newKey, faults);
        }
      }
    }
  }

  lemma AdvanceProgresses(w: World, d: string, j: Job, fails: bool)
    requires !Over(j)
    ensures StepsLeft(Advance(w, d, j, fails).1) < StepsLeft(j)
  {}

  lemma ProceedIs(s: Sys, d: string, fails: bool)
    requires d in s.jobs
    ensures var (w, j) := Advance(s.world, d, s.jobs[d], fails);
            Do(s, Proceed(d, fails)) == Sys(w, s.jobs[d := j])
  {}

  /** Driving a request alone is a run of the concurrent system. */
  lemma {:induction false} DriveIsRun(s: Sys, d: string, faults: set<Fault>) returns (actions: seq<Action>)
    requires d in s.jobs
    ensures forall a | a in actions :: a.Proceed? && a.doc == d
    ensures var (w, j) := Drive(s.world, d, s.jobs[d], faults);
            Over(j) && Run(s, actions) == Sys(w, s.jobs[d := j])
    decreases StepsLeft(s.jobs[d])
  {
    if Over(s.jobs[d]) {
      actions := [];
      assert s.jobs[d := s.jobs[d]] == s.jobs;
    } else {
      var fails := FaultAt(s.jobs[d]) in faults;
      var s1 := Sys(Advance(s.world, d, s.jobs[d], fails).0, s.jobs[d := Advance(s.world, d, s.jobs[d], fails).1]);
      ProceedIs(s, d, fails);
      AdvanceProgresses(s.world, d, s.jobs[d], fails);
      var rest := DriveIsRun(s1, d, faults);
      actions := [Proceed(d, fails)] + rest;
      assert actions[1..] == rest;
      var j := Drive(s1.world, d, s1.jobs[d], faults).1;
      assert s1.jobs[d := j] == s.jobs[d := j];
    }
  }

  /** With nothing in flight: what every serial call may rely on and must restore. */
  ghost predicate Quiet(w: World) {
    Inv(Sys(w, map[]))
  }

  /** A call started in good order leaves the stores in good order, whatever fails. */
  lemma DriveKeepsQuiet(w: World, begin: Action, faults: set<Fault>)
    requires Quiet(w) && Enabled(Sys(w, map[]), begin)
    requires begin.BeginCreate? || begin.BeginReplace? || begin.BeginDelete?
    ensures var s := Do(Sys(w, map[]), begin);
            begin.doc in s.jobs && Quiet(Drive(w, begin.doc, s.jobs[begin.doc], faults).0)
  {
    var d, s0 := begin.doc, Sys(w, map[]);
    var s := Do(s0, begin);
    var actions := DriveIsRun(s, d, faults);
    StepKeepsInv(s0, begin);
    RunKeepsInv(s, actions);
    var s1 := Run(s, actions);
    StepKeepsInv(s1, Retire(d));
    assert Do(s1, Retire(d)).jobs == map[];
  }

  // ----- what each call leaves in the stores, fault by fault -----

  /** Creation: the object is there iff the row is, unless its clean-up failed too; then its key is logged. */
  lemma CreateOutcome(w: World, d: string, row: Row, upload: Option<Blob>, faults: set<Fault>)
    requires row.storedUnder == CanonicalKey(d, row.fileName) && row.storedUnder !in w.objects
    ensures var (w', j) := Drive(w, d, Creating(Put, row, upload), faults);
            var key := row.storedUnder;
            && j.Creating? && j.cpc.Created?
            && j.cpc.outcome == (if upload.Some? && PutFault in faults then UploadFailed
                                 else if InsertFault in faults then RowWriteFailed else Finished)
            && w'.rows == (if j.cpc.outcome == Finished then w.rows[d := row] else w.rows)
            && Lookup(w', key) == (if j.cpc.outcome == Finished then upload
                                   else if j.cpc.outcome == RowWriteFailed && UndoFault in faults then upload else None)
            && (forall k | k != key :: Lookup(w', k) == Lookup(w, k))
            && w'.log == w.log.(orphans := if j.cpc.outcome == RowWriteFailed && upload.Some? && UndoFault in faults
                                           then w.log.orphans + {key} else w.log.orphans)
  {
    var j0 := Creating(Put, row, upload);
    var (w1, j1) := AdvanceCreate(w, d, j0, PutFault in faults);
    assert Drive(w, d, j0, faults) == Drive(w1, d, j1, faults);
    if j1.cpc == InsertRow {
      var (w2, j2) := AdvanceCreate(w1, d, j1, InsertFault in faults);
      assert Drive(w1, d, j1, faults) == Drive(w2, d, j2, faults);
      if j2.cpc == DropUnsaved {
        var (w3, j3) := AdvanceCreate(w2, d, j2, UndoFault in faults);
        assert Drive(w2, d, j2, faults) == Drive(w3, d, j3, faults) == (w3, j3);
      }
    }
  }

  /** Deletion: the row first; then the object is gone, or its removal failed and its key is logged. */
  lemma DeleteOutcome(w: World, d: string, faults: set<Fault>)
    requires d in w.rows
    ensures var (w', j) := Drive(w, d, Deleting(DeleteRow, w.rows[d]), faults);
            var key := CanonicalKey(d, w.rows[d].fileName);
            if DeleteFault in faults then w' == w && j == Deleting(Deleted(RowWriteFailed), w.rows[d])
            else
              && j == Deleting(Deleted(Finished), w.rows[d]) && w'.rows == w.rows - {d} && d !in w'.accepted
              && Lookup(w', key) == (if DropFault in faults then Lookup(w, key) else None)
              && (forall k | k != key :: Lookup(w', k) == Lookup(w, k))
              && w'.log == w.log.(orphans := if DropFault in faults then w.log.orphans + {key} else w.log.orphans)
  {
    var j0 := Deleting(DeleteRow, w.rows[d]);
    var (w1, j1) := AdvanceDelete(w, d, j0, DeleteFault in faults);
    assert Drive(w, d, j0, faults) == Drive(w1, d, j1, faults);
    if j1.dpc == DropObject {
      var (w2, j2) := AdvanceDelete(w1, d, j1, DropFault in faults);
      assert Drive(w1, d, j1, faults) == Drive(w2, d, j2, faults) == (w2, j2);
    }
  }

  /**
   Replacement, once its row is committed and its file promoted: the staged object and, under a changed name,
   the old one are gone, or their removal failed and their keys are logged.
   */
  lemma ReplaceFinished(
      w: World, d: string, j: Job, staging: string, oldKey: string, newKey: string, faults: set<Fault>)
    requires j.Replacing? && staging != oldKey && staging != newKey
    requires faults !! {StageFault, CommitFault, PromoteFault}
    ensures var (w', outcome) := Replacement(w, d, j, staging, oldKey, newKey, faults);
            && outcome == Finished && w'.rows == w.rows[d := j.now] && Lookup(w', newKey) == Some(j.file)
            && Lookup(w', staging) == (if UnstageFault in faults then Some(j.file) else None)
            && (oldKey != newKey ==> Lookup(w', oldKey) == if DropFault in faults then Lookup(w, oldKey) else None)
            && (forall k | k !in {staging, oldKey, newKey} :: Lookup(w', k) == Lookup(w, k))
            && w'.log == w.log.(orphans := w.log.orphans
                                           + (if UnstageFault in faults then {staging} else {})
                                           + if oldKey != newKey && DropFault in faults then {oldKey} else {})
            && w'.abandoned == w.abandoned
  {}

  /** Replacement that failed before: an upload or row that was refused, or a promotion that was not made. */
  lemma ReplaceFailed(w: World, d: string, j: Job, staging: string, oldKey: string, newKey: string, faults: set<Fault>)
    requires j.Replacing? && staging != oldKey && staging != newKey && staging !in w.objects
    requires !(faults !! {StageFault, CommitFault, PromoteFault})
    ensures var (w', outcome) := Replacement(w, d, j, staging, oldKey, newKey, faults);
            && outcome == (if StageFault in faults then UploadFailed
                           else if CommitFault in faults then RowWriteFailed else StorageInconsistent)
            && w'.rows == (if outcome == StorageInconsistent then w.rows[d := j.now] else w.rows)
            && Lookup(w', staging) == (if outcome == StorageInconsistent
                                          || (outcome == RowWriteFailed && UndoFault in faults)
                                       then Some(j.file) else None)
            && (forall k | k != staging :: Lookup(w', k) == Lookup(w, k))
            && w'.log.orphans == (if outcome == RowWriteFailed && UndoFault in faults
                                  then w.log.orphans + {staging} else w.log.orphans)
            && w'.log.staged == (if outcome == StorageInconsistent then w.log.staged + {staging} else w.log.staged)
            && w'.log.inconsistent == (if outcome == StorageInconsistent then w.log.inconsistent + {d}
                                       else w.log.inconsistent)
  {}

  class Service {
    var rows: map<string, Row>
    var objects: map<string, Blob>
    var orphans: set<string>
    var staged: set<string>
    var inconsistent: set<string>
    ghost var accepted: map<string, Blob>
    ghost var abandoned: set<string>

    ghost function State(): World
      reads this
    {
      World(rows, objects, Log(orphans, staged, inconsistent), accepted, abandoned)
    }

    constructor ()
      ensures State() == World(map[], map[], Log({}, {}, {}), map[], {}) && Quiet(State())
    {
      rows, objects, orphans, staged, inconsistent := map[], map[], {}, {}, {};
      accepted, abandoned := map[], {};
    }

    /** Rewinds, then stores the first `size` bytes; an attempt that fails may have read any part of them. */
    method PutObject(key: string, spool: Spool, size: nat, mime: Mime, fails: bool) returns (ok: bool)
      requires spool.Valid() && size <= |spool.data|
      modifies this`objects, spool`pos
      ensures spool.Valid()
      ensures ok == !fails
      ensures State() == if ok then Store(old(State()), key, Blob(spool.data[..size], mime)) else old(State())
    {
      spool.Seek(0);
      if fails {
        var k :| 0 <= k <= |spool.data|;
        spool.Seek(k);
        return false;
      }
      var data := spool.Read(size);
      objects := objects[key := Blob(data, mime)];
      ok := true;
    }

    /** A failed removal is only logged. */
    method DeleteOrLog(key: string, fails: bool)
      modifies this`objects, this`orphans
      ensures State() == Remove(old(State()), key, fails)
      ensures if fails then objects == old(objects) && orphans == old(orphans) + {key}
              else objects == old(objects) - {key} && orphans == old(orphans)
    {
      if fails {
        orphans := orphans + {key};
      } else {
        objects := objects - {key};
      }
    }

    /**
     Uploads first, inserts the row only then; a refused upload changes nothing. No stream: metadata only.
     An upload part without a content type counts as of the document's file type.
     */
    method CreateDocument(
        id: string, fileName: string, fileType: Mime, stream: ByteStream?, contentType: Option<Mime>,
        faults: set<Fault>)
      returns (verdict: Option<Verdict>, outcome: Outcome)
      requires Quiet(State()) && FreshId(State(), id)
      modifies this, if stream != null then {stream} else {}
      ensures Quiet(State())
      ensures verdict == None <==> stream == null
      ensures stream != null ==>
                exists prefix | prefix <= old(stream.rest) ::
                  verdict == Some(Judge(old(stream.rest), prefix, contentType.GetOr(fileType)))
      ensures verdict.Some? && verdict.value.Rejected? ==> State() == old(State())
      ensures verdict.Some? && verdict.value.Accepted? ==> verdict.value.data == old(stream.rest)
      ensures verdict == None || verdict.value.Accepted? ==>
                var upload := if verdict == None then None else Some(Blob(verdict.value.data, verdict.value.mime));
                var job := Creating(Put, NewRow(id, fileName, fileType), upload);
                Drive(old(State()), id, job, faults) == (State(), job.(cpc := Created(outcome)))
    {
      var upload: Option<Blob> := None;
      verdict := None;
      var spool := new Spool();
      var size := 0;
      if stream != null {
        var judged, prefix;
        judged, prefix, spool, size := ReadAndValidateUpload(stream, contentType.GetOr(fileType));
        verdict := Some(judged);
        if judged.Rejected? {
          return verdict, UploadFailed;
        }
        upload := Some(Blob(judged.data, judged.mime));
      }
      DriveKeepsQuiet(State(), BeginCreate(id, fileName, fileType, upload), faults);
      ghost var j := Creating(Put, NewRow(id, fileName, fileType), upload);
      ghost var end := Drive(State(), id, j, faults);
      var key := CanonicalKey(id, fileName);
      if upload.Some? {
        assert spool.data[..size] == upload.value.data;
        var ok := PutObject(key, spool, size, upload.value.mime, PutFault in faults);
        if !ok {
          return verdict, UploadFailed;
        }
      }
      j := j.(cpc := InsertRow);
      assert end == Drive(State(), id, j, faults);
      if InsertFault in faults {
        if upload.Some? {
          j := j.(cpc := DropUnsaved);
          assert end == Drive(State(), id, j, faults);
          DeleteOrLog(key, UndoFault in faults);
        }
        assert end == Drive(State(), id, j.(cpc := Created(RowWriteFailed)), faults);
        return verdict, RowWriteFailed;
      }
      rows := rows[id := NewRow(id, fileName, fileType)];
      accepted := if upload.Some? then accepted[id := upload.value] else accepted - {id};
      assert end == Drive(State(), id, j.(cpc := Created(Finished)), faults);
      outcome := Finished;
    }

    method CommitFileReplacement(id: string, now: Row, stagingKey: string, faults: set<Fault>) returns (ok: bool)
      modifies this`rows, this`objects, this`orphans
      ensures ok == (CommitFault !in faults)
      ensures ok ==> State() == old(State()).(rows := old(rows)[id := now])
      ensures !ok ==> State() == Remove(old(State()), stagingKey, UndoFault in faults)
    {
      if CommitFault in faults {
        DeleteOrLog(stagingKey, UndoFault in faults);
        return false;
      }
      rows := rows[id := now];
      ok := true;
    }

    /** The same bytes under the canonical key; a failure is logged with the document and its staging key. */
    method PromoteStagedUpload(
        id: string, stagingKey: string, ghost oldKey: string, newKey: string, spool: Spool, size: nat, mime: Mime,
        fails: bool)
      returns (ok: bool)
      requires spool.Valid() && size <= |spool.data|
      modifies this, spool`pos
      ensures spool.Valid() && ok == !fails
      ensures var file := Blob(spool.data[..size], mime);
              ok ==> State() == Store(old(State()), newKey, file).(accepted := old(accepted)[id := file])
      ensures !ok ==>
                State() == old(State()).(
                  accepted := old(accepted) - {id},
                  abandoned := if oldKey != newKey then old(abandoned) + {oldKey} else old(abandoned),
                  log := Log(old(orphans), old(staged) + {stagingKey}, old(inconsistent) + {id}))
    {
      ok := PutObject(newKey, spool, size, mime, fails);
      if ok {
        accepted := accepted[id := Blob(spool.data[..size], mime)];
      } else {
        staged, inconsistent := staged + {stagingKey}, inconsistent + {id};
        accepted, abandoned := accepted - {id}, if oldKey != newKey then abandoned + {oldKey} else abandoned;
      }
    }

    method FinalizeReplacementCleanup(stagingKey: string, oldKey: string, newKey: string, faults: set<Fault>)
      modifies this`objects, this`orphans
      ensures var unstaged := Remove(old(State()), stagingKey, UnstageFault in faults);
              State() == if oldKey != newKey then Remove(unstaged, oldKey, DropFault in faults) else unstaged
    {
      DeleteOrLog(stagingKey, UnstageFault in faults);
      if oldKey != newKey {
        DeleteOrLog(oldKey, DropFault in faults);
      }
    }

    /** Stage under a one-off key, commit the row, promote the same bytes, clean up: wherever the spool stands. */
    method StageCommitPromote(
        id: string, now: Row, spool: Spool, size: nat, mime: Mime, stagingKey: string, oldKey: string, newKey: string,
        ghost j: Job, faults: set<Fault>)
      returns (outcome: Outcome)
      requires spool.Valid() && size == |spool.data|
      requires j.Replacing? && j.file == Blob(spool.data, mime) && j.now == now
      modifies this, spool`pos
      ensures Replacement(old(State()), id, j, stagingKey, oldKey, newKey, faults) == (State(), outcome)
    {
      assert spool.data[..size] == spool.data;
      var ok := PutObject(stagingKey, spool, size, mime, StageFault in faults);
      if !ok {
        return UploadFailed;
      }
      ok := CommitFileReplacement(id, now, stagingKey, faults);
      if !ok {
        return RowWriteFailed;
      }
      ok := PromoteStagedUpload(id, stagingKey, oldKey, newKey, spool, size, mime, PromoteFault in faults);
      if !ok {
        return StorageInconsistent;
      }
      FinalizeReplacementCleanup(stagingKey, oldKey, newKey, faults);
      outcome := Finished;
    }

    /**
     Reads the source once; the same accepted bytes are staged and promoted. A refused upload changes nothing.
     Here an upload part without a content type has no other type to fall back on, and is refused unread.
     */
    method ReplaceDocumentFile(
        id: string, fileName: string, fileType: Mime, stream: ByteStream, contentType: Option<Mime>, token: string,
        faults: set<Fault>)
      returns (found: bool, verdict: Verdict, outcome: Outcome)
      requires Quiet(State()) && StagingKey(id, token) !in objects
      modifies this, stream
      ensures Quiet(State()) && (found <==> id in old(rows))
      ensures !found ==> State() == old(State()) && stream.rest == old(stream.rest)
      ensures found && contentType == None ==> verdict == Rejected(NoDeclaredType) && stream.rest == old(stream.rest)
      ensures found && contentType.Some? ==>
                exists prefix | prefix <= old(stream.rest) ::
                  verdict == Judge(old(stream.rest), prefix, contentType.value)
      ensures found && verdict.Rejected? ==> State() == old(State())
      ensures found && verdict.Accepted? ==>
                var file := Blob(old(stream.rest), verdict.mime);
                var job := StartReplace(old(State()), id, fileName, fileType, file, token);
                Drive(old(State()), id, job, faults) == (State(), job.(rpc := Replaced(outcome)))
    {
      if id !in rows {
        return false, Rejected(UnsupportedType), UploadFailed;
      }
      found := true;
      if contentType == None {
        return found, Rejected(NoDeclaredType), UploadFailed;
      }
      var prefix, spool, size;
      verdict, prefix, spool, size := ReadAndValidateUpload(stream, contentType.value);
      if verdict.Rejected? {
        return found, verdict, UploadFailed;
      }
      var file := Blob(verdict.data, verdict.mime);
      DriveKeepsQuiet(State(), BeginReplace(id, fileName, fileType, file, token), faults);
      ghost var j := StartReplace(State(), id, fileName, fileType, file, token);
      var stagingKey := StagingKey(id, token);
      var oldKey, newKey := CanonicalKey(id, rows[id].fileName), CanonicalKey(id, fileName);
      DriveIsDriveReplace(State(), id, j, faults);
      DriveReplaceIs(State(), id, j, stagingKey, oldKey, newKey, faults);
      outcome := StageCommitPromote(
        id, NewRow(id, fileName, fileType), spool, size, verdict.mime, stagingKey, oldKey, newKey, j, faults);
    }

    /** The object goes only after the row is durably gone; a failed removal is logged, never raised. */
    method DeleteDocument(id: string, faults: set<Fault>) returns (found: bool, outcome: Outcome)
      requires Quiet(State())
      modifies this
      ensures Quiet(State()) && (found <==> id in old(rows))
      ensures !found ==> State() == old(State())
      ensures found ==>
              var job := Deleting(DeleteRow, old(rows)[id]);
              Drive(old(State()), id, job, faults) == (State(), job.(dpc := Deleted(outcome)))
    {
      if id !in rows {
        return false, RowWriteFailed;
      }
      found := true;
      DriveKeepsQuiet(State(), BeginDelete(id), faults);
      ghost var j := Deleting(DeleteRow, rows[id]);
      ghost var end := Drive(State(), id, j, faults);
      var key := CanonicalKey(id, rows[id].fileName);
      if DeleteFault in faults {
        assert end == Drive(State(), id, j.(dpc := Deleted(RowWriteFailed)), faults);
        return found, RowWriteFailed;
      }
      rows := rows - {id};
      accepted := accepted - {id};
      assert end == Drive(State(), id, j.(dpc := DropObject), faults);
      DeleteOrLog(key, DropFault in faults);
      assert end == Drive(State(), id, j.(dpc := Deleted(Finished)), faults);
      outcome := Finished;
    }
  }
}
