/**
 * The scheduled subscription expiry sweep itself: query the due subscriptions,
 * queue one status update per copy in a write batch, and commit it.
 */
module ExpirySweep {
  import opened Wrappers
  import opened Firestore
  import opened SweepSpec

  /**
   * The query on collection `subscriptions` for documents whose status is 'active'
   * and whose end date is at or before `now`: one snapshot entry per match, in an
   * order the model leaves open.
   */
  method QueryActiveDue(db: Store, now: int) returns (snap: seq<DocSnapshot>)
    ensures IsQueryResult(db.docs, now, snap)
    ensures |snap| == |SelectedIds(db.docs, now)|
    ensures forall j, k :: 0 <= j < k < |snap| ==> snap[j].id != snap[k].id
  {
    var docs := db.docs;
    var remaining := SelectedIds(docs, now);
    snap := [];
    while remaining != {}
      invariant ScanInvariant(docs, now, remaining, snap)
      decreases remaining
    {
      var id :| id in remaining;
      SelectedIdsMembership(docs, now, id);
      var e := DocSnapshot(id, docs[CanonicalPath(id)]);
      ScanStep(docs, now, remaining, snap, e);
      snap := snap + [e];
      remaining := remaining - {id};
    }
  }

  /** Part-way through the query: `snap` holds the selected ids not in `remaining`, once each. */
  ghost predicate ScanInvariant(docs: Db, now: int, remaining: set<string>, snap: seq<DocSnapshot>)
  {
    && remaining <= SelectedIds(docs, now)
    && IdsOf(snap) == SelectedIds(docs, now) - remaining
    && |snap| + |remaining| == |SelectedIds(docs, now)|
    && (forall e :: e in snap ==> CanonicalPath(e.id) in docs && e.data == docs[CanonicalPath(e.id)])
    && (forall j, k :: 0 <= j < k < |snap| ==> snap[j].id != snap[k].id)
  }

  lemma ScanStep(docs: Db, now: int, remaining: set<string>, snap: seq<DocSnapshot>, e: DocSnapshot)
    requires ScanInvariant(docs, now, remaining, snap)
    requires e.id in remaining && CanonicalPath(e.id) in docs && e.data == docs[CanonicalPath(e.id)]
    ensures ScanInvariant(docs, now, remaining - {e.id}, snap + [e])
  {
    var snap' := snap + [e];
    assert forall x :: x in snap' <==> x in snap || x == e;
    assert IdsOf(snap') == IdsOf(snap) + {e.id};
    assert e.id !in IdsOf(snap);
    forall j, k | 0 <= j < k < |snap'|
      ensures snap'[j].id != snap'[k].id
    {
      if k == |snap| {
        assert snap'[j] in snap;
      }
    }
  }

  /**
   * `expireSubscriptions`: selects the due subscriptions, queues three updates
   * for each and commits them as one batch. The result is the number of
   * subscriptions expired; the ghost `written` is the batch that was committed
   * (empty when nothing was committed).
   */
  method ExpireSubscriptions(db: Store, now: int) returns (r: Result<nat, StoreError>, ghost written: seq<Write>)
    modifies db
    ensures SweepOutcome(old(db.docs), now, r, db.docs, written)
  {
    var snapshot := QueryActiveDue(db, now);
    if |snapshot| == 0 {
      NothingSelectedOutcome(db.docs, now);
      return Success(0), [];
    }

    var batch := db.Batch();
    ghost var before := db.docs;
    var queued := QueueAll(batch, snapshot);
    if queued.Failure? {
      ghost var k :| FirstRejected(snapshot, k);
      InvalidIdOutcome(before, now, snapshot, k, queued.error);
      return Failure(queued.error), [];
    }
    assert batch.writes == BatchFor(snapshot);

    var committed := batch.Commit();
    if committed.Failure? {
      CommitRejectedOutcome(before, now, snapshot, committed.error.path);
      return Failure(committed.error), [];
    }
    CommittedOutcome(before, now, snapshot);
    r, written := Success(|snapshot|), batch.writes;
  }

  /**
   * What a sweep at `now` over the store contents `before` ends in: the result `r`,
   * the store contents `after`, and the batch `written` that was committed.
   *  - It succeeds exactly when every selected subscription has usable patient and
   *    doctor ids and all three copies of each exist.
   *  - On success it reports the number of selected subscriptions, and the store is
   *    `before` with `status` set to 'expired' on every copy of every selected
   *    subscription and on nothing else; the committed batch is three updates per
   *    subscription, each writing only `status: 'expired'`.
   *  - With nothing selected it reports 0 and writes nothing.
   *  - On failure nothing was written; an unusable id is reported as such, and a
   *    missing copy by its path.
   */
  ghost predicate SweepOutcome(before: Db, now: int, r: Result<nat, StoreError>, after: Db, written: seq<Write>)
  {
    && (r.Success? <==> AllRefsValid(before, now) && CopiesExist(before, now))
    && (r.Success? ==>
          && r.value == |SelectedIds(before, now)|
          && after == Expire(before, Targets(before, now))
          && after == ApplyWrites(before, written)
          && PathsOf(written) == Targets(before, now)
          && |written| == 3 * r.value
          && (forall w :: w in written ==> w.fields == SetExpired)
          && IsSweepBatch(before, now, written))
    && (SelectedIds(before, now) == {} ==> r == Success(0) && after == before && written == [])
    && (r.Failure? ==> after == before && written == [])
    && (r.Failure? ==> (r.error.InvalidArgument? <==> !AllRefsValid(before, now)))
    && (r.Failure? && r.error.NotFound? ==> r.error.path in Targets(before, now) && r.error.path !in before)
  }

  /** `snap` is a query result at `now`, every entry has usable ids, and `written` is its batch. */
  ghost predicate SweepBatchOf(before: Db, now: int, snap: seq<DocSnapshot>, written: seq<Write>)
  {
    && IsQueryResult(before, now, snap)
    && (forall k :: 0 <= k < |snap| ==> HasValidRefs(snap[k].data))
    && written == BatchFor(snap)
  }

  /**
   * `written` is the batch the loop builds from some query result: each selected
   * subscription's own three updates, one subscription after another.
   */
  ghost predicate IsSweepBatch(before: Db, now: int, written: seq<Write>)
  {
    exists snap :: SweepBatchOf(before, now, snap, written)
  }

  lemma NothingSelectedOutcome(db: Db, now: int)
    requires SelectedIds(db, now) == {}
    ensures SweepOutcome(db, now, Success(0), db, [])
  {
    assert SweepBatchOf(db, now, [], []);
  }

  lemma InvalidIdOutcome(db: Db, now: int, snap: seq<DocSnapshot>, k: int, e: StoreError)
    requires IsQueryResult(db, now, snap)
    requires 0 <= k < |snap| && !HasValidRefs(snap[k].data)
    requires e.InvalidArgument?
    ensures SweepOutcome(db, now, Failure(e), db, [])
  {
  }

  lemma CommitRejectedOutcome(db: Db, now: int, snap: seq<DocSnapshot>, missing: Path)
    requires IsQueryResult(db, now, snap) && |snap| > 0
    requires forall k :: 0 <= k < |snap| ==> HasValidRefs(snap[k].data)
    requires missing in PathsOf(BatchFor(snap)) && missing !in db
    ensures SweepOutcome(db, now, Failure(NotFound(missing)), db, [])
  {
    SweepEffect(db, now, snap);
    assert snap[0].id in IdsOf(snap);
  }

  lemma CommittedOutcome(db: Db, now: int, snap: seq<DocSnapshot>)
    requires IsQueryResult(db, now, snap) && |snap| == |SelectedIds(db, now)|
    requires forall k :: 0 <= k < |snap| ==> HasValidRefs(snap[k].data)
    requires PathsOf(BatchFor(snap)) <= db.Keys
    ensures SweepOutcome(db, now, Success(|snap|), ApplyWrites(db, BatchFor(snap)), BatchFor(snap))
  {
    SweepEffect(db, now, snap);
    BatchSetsOnlyStatus(snap);
    assert IsSweepBatch(db, now, BatchFor(snap)) by {
      assert SweepBatchOf(db, now, snap, BatchFor(snap));
    }
    if SelectedIds(db, now) == {} {
      NothingSelected(db, now);
    }
  }

  /** The loop over the snapshot: queue every selected document; the first rejection escapes. */
  method QueueAll(batch: WriteBatch, snapshot: seq<DocSnapshot>) returns (r: Result<(), StoreError>)
    modifies batch
    ensures r.Success? <==> forall k :: 0 <= k < |snapshot| ==> HasValidRefs(snapshot[k].data)
    ensures r.Success? ==> batch.writes == old(batch.writes) + BatchFor(snapshot)
    ensures r.Failure? ==> r.error.InvalidArgument?
    ensures r.Failure? ==> exists k :: FirstRejected(snapshot, k)
                                       && batch.writes == old(batch.writes) + BatchFor(snapshot[..k]) + RejectedWrites(snapshot[k])
  {
    var i := 0;
    while i < |snapshot|
      invariant 0 <= i <= |snapshot|
      invariant forall k :: 0 <= k < i ==> HasValidRefs(snapshot[k].data)
      invariant batch.writes == old(batch.writes) + BatchFor(snapshot[..i])
    {
      var queued := QueueExpiry(batch, snapshot[i]);
      if queued.Failure? {
        assert FirstRejected(snapshot, i);
        return queued;
      }
      BatchForSnoc(snapshot, i);
      i := i + 1;
    }
    assert snapshot[..i] == snapshot;
    r := Success(());
  }

  /** Entry `k` is the first of the snapshot without usable ids. */
  ghost predicate FirstRejected(snapshot: seq<DocSnapshot>, k: int)
  {
    && 0 <= k < |snapshot| && !HasValidRefs(snapshot[k].data)
    && forall j :: 0 <= j < k ==> HasValidRefs(snapshot[j].data)
  }

  /**
   * The `forEach` callback for one selected document: queue the canonical update,
   * then build the patient copy's reference and the doctor copy's reference, each of
   * which rejects when the id it needs is not a usable document id.
   */
  method QueueExpiry(batch: WriteBatch, doc: DocSnapshot) returns (r: Result<(), StoreError>)
    modifies batch
    ensures r.Success? <==> HasValidRefs(doc.data)
    ensures r.Success? ==> batch.writes == old(batch.writes) + ExpiryWrites(doc)
    ensures r.Failure? ==> r.error.InvalidArgument?
    ensures r.Failure? ==> batch.writes == old(batch.writes) + RejectedWrites(doc)
  {
    var patientId := Lookup(doc.data, "patientId");
    var doctorId := Lookup(doc.data, "doctorId");

    batch.Update(CanonicalPath(doc.id), SetExpired);

    var patientRef := Child(["patients"], patientId);
    if patientRef.Failure? {
      return Failure(patientRef.error);
    }
    batch.Update(patientRef.value + ["subscriptions", doc.id], SetExpired);
    assert patientRef.value + ["subscriptions", doc.id] == PatientCopyPath(patientId.value.s, doc.id);

    var doctorRef := Child(["doctors"], doctorId);
    if doctorRef.Failure? {
      return Failure(doctorRef.error);
    }
    batch.Update(doctorRef.value + ["patients", patientId.value.s], SetExpired);
    assert patientRef.value + ["subscriptions", doc.id] == PatientCopyPath(PatientId(doc.data), doc.id);
    assert doctorRef.value + ["patients", patientId.value.s] == DoctorCopyPath(DoctorId(doc.data), PatientId(doc.data));
    r := Success(());
  }

  /**
   * Two sweeps in a row at the same `now`: when the first succeeds, the second
   * expires nothing and leaves the store as the first left it; when the first
   * fails, the store is unchanged and the second fails as well.
   */
  method SweepTwice(db: Store, now: int) returns (first: Result<nat, StoreError>, second: Result<nat, StoreError>)
    modifies db
    ensures first.Success? ==> second == Success(0)
                               && db.docs == Expire(old(db.docs), Targets(old(db.docs), now))
    ensures first.Failure? ==> second.Failure? && db.docs == old(db.docs)
  {
    ghost var w1, w2;
    first, w1 := ExpireSubscriptions(db, now);
    if first.Success? {
      SweepIdempotent(old(db.docs), now);
    }
    second, w2 := ExpireSubscriptions(db, now);
  }

}
