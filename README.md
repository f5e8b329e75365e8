# Subscription expiry sweep

A model of the scheduled Cloud Function `expireSubscriptions` of the
consultation back end. Once a day it looks up every subscription that is
still `active` and whose `endDate` has passed. It then marks each of them
`expired` in all three places the subscription is stored:

- the canonical record `subscriptions/{id}`;
- the patient's copy `patients/{patientId}/subscriptions/{id}`;
- the doctor's copy `doctors/{doctorId}/patients/{patientId}`.

All of these updates go into one write batch, which is committed at the end.

The project has four modules:

- `Wrappers` holds `Option` and `Result`.
- `Firestore` is the part of the document store the sweep relies on. `Store` is
  a class holding the database as a map from document path to fields.
  `Child` builds a reference with `collection.doc(id)` and rejects an id that
  is not a usable document id. `WriteBatch` is a class whose `Update` queues a
  write and whose `Commit` applies every queued write or, when one targets a
  missing document, none.
- `SweepSpec` holds the specification:
  - the three copy paths;
  - the query filter and the set of selected ids;
  - `Targets`, the set of every document the sweep should touch;
  - `Expire`, the intended effect on the database;
  - the batch built from a query snapshot;
  - the properties of a successful sweep.
- `ExpirySweep` holds the sweep as imperative code: the query, the loop over
  the snapshot, the per-document callback and the commit. Its contract is
  `SweepOutcome`. It succeeds exactly when every selected subscription has
  usable patient and doctor ids and all three copies exist. On success the
  store becomes `Expire(before, Targets(before, now))`. On failure the store
  is unchanged.

Modelling choices:

- The current time `now` is a parameter. Timestamps are integers.
- The function itself returns `null` and only logs the number of expired
  subscriptions. The model returns that number as `Success(n)`, and a failure
  as `Failure(error)` where the function would reject.
- `data.patientId as string` is an unchecked cast. The model follows the store:
  `doc(x)` rejects a value that is absent, not a string, or empty, and the
  rejection escapes the `forEach` before `commit`. The model also treats the
  ids `.`, `..`, `__...__` and any id containing `/` as unusable at that point.
  A missing or bad id is therefore a failure of the whole sweep with nothing
  written, not a precondition. Updates queued before the throw stay in the
  batch, which is never committed.
- The doctor copy is keyed by patient, not by subscription. Every subscription
  between the same patient and doctor shares it. Expiring one of them therefore
  also marks the doctor copy of another, still active one as expired
  (`DoctorCopySharedByPatient`). The model states this behaviour as written.

## Model

| member | source | states |
|---|---|---|
| Firestore.IsDocumentId | functions/src/index.ts:34 | definition: a usable document id is a string, non-empty, without `/`, neither `.` nor `..`, and not of the reserved form `__...__` (the same test applies to the doctor id at line 43) |
| Firestore.Child | functions/src/index.ts:32-36 | building `collection.doc(x)` succeeds exactly when `x` is a usable document id; the path is the parent plus that one segment; otherwise it rejects with an invalid-argument error naming `x` |
| Firestore.ApplyUpdate | functions/src/index.ts:50 | definition of what one `update` does when the batch is committed; it never creates or deletes a document |
| Firestore.UpdateMerges | functions/src/index.ts:50 | an update overwrites or adds exactly its own fields on its document, keeps the document's other fields, and leaves every other document unchanged |
| Firestore.ApplyWrites | functions/src/index.ts:50 | applying a batch's updates in order never creates or deletes a document |
| Firestore.ApplyWritesUntouched | functions/src/index.ts:50 | a document that no write of the batch names keeps exactly its old fields |
| Firestore.Store.constructor | functions/src/index.ts:5 | the store handle holds the given database |
| Firestore.Store.Batch | functions/src/index.ts:22 | `db.batch()` returns a new, empty batch bound to this store |
| Firestore.WriteBatch.constructor | functions/src/index.ts:22 | a new batch is bound to its store and holds no writes |
| Firestore.WriteBatch.Update | functions/src/index.ts:29 | `batch.update` appends one write and changes nothing else |
| Firestore.WriteBatch.Commit | functions/src/index.ts:50 | the commit succeeds exactly when every written path exists; then the store is all updates applied in order; otherwise the store is unchanged and the error names a missing written path |
| SweepSpec.CanonicalPath | functions/src/index.ts:29 | definition: the queried document itself, `subscriptions/{id}` |
| SweepSpec.PatientCopyPath | functions/src/index.ts:32-36 | definition: the patient's copy, `patients/{patientId}/subscriptions/{id}` |
| SweepSpec.DoctorCopyPath | functions/src/index.ts:41-45 | definition: the doctor's copy, `doctors/{doctorId}/patients/{patientId}`, keyed by patient and not by subscription |
| SweepSpec.CopyPathsDistinct | functions/src/index.ts:29-45 | the three copies are three different documents, and each copy path determines the ids it was built from |
| SweepSpec.IsActiveDue | functions/src/index.ts:13-14 | definition of the query filter: status equal to the string 'active' and a timestamp end date no later than `now` |
| SweepSpec.SelectedIds | functions/src/index.ts:11-15 | definition: the ids of the documents of collection `subscriptions` that pass the filter |
| SweepSpec.SelectedIdsMembership | functions/src/index.ts:11-15 | an id is selected exactly when `subscriptions/{id}` exists with status 'active' and a timestamp end date no later than `now` |
| SweepSpec.DueAtEndDate | functions/src/index.ts:14 | the `<=` comparison makes the end date inclusive: due at its end date, not one tick earlier |
| SweepSpec.Targets | functions/src/index.ts:29-47 | definition: every copy of every selected subscription whose patient and doctor ids are usable |
| SweepSpec.Expire | functions/src/index.ts:29-47 | the intended effect: same documents; each target gains `status: 'expired'` and keeps every other field; non-targets are unchanged |
| SweepSpec.NothingSelected | functions/src/index.ts:17-20 | with no selected subscription there is no target and the effect is the identity |
| SweepSpec.CopyPathsAreTargets | functions/src/index.ts:29-47 | all three copies of every selected subscription are targets |
| SweepSpec.CanonicalTargetIffSelected | functions/src/index.ts:29 | a canonical record is updated exactly when its subscription is selected |
| SweepSpec.CopiesAgreeAfterSweep | functions/src/index.ts:29-47 | after the sweep, the canonical record, the patient copy and the doctor copy of every selected subscription all have status 'expired' |
| SweepSpec.SweepIdempotent | functions/src/index.ts:11-29 | after the sweep's effect, the same query at the same `now` selects nothing |
| SweepSpec.DoctorCopySharedByPatient | functions/src/index.ts:40-47 | an unselected subscription with the same patient and doctor as a selected one keeps its canonical record, yet its doctor copy becomes 'expired' |
| SweepSpec.SnapshotRefsValid | functions/src/index.ts:26-27 | if every snapshot entry has usable ids then so does every selected subscription |
| SweepSpec.InvalidSnapshotEntry | functions/src/index.ts:26-27 | one snapshot entry with an unusable id means some selected subscription lacks usable ids |
| SweepSpec.ExpiryWrites | functions/src/index.ts:29-47 | definition: the canonical, patient-copy and doctor-copy updates queued for one document, in that order, each setting `status: 'expired'` |
| SweepSpec.RejectedWrites | functions/src/index.ts:29-38 | definition: what the callback has queued for a document when building a reference throws: the canonical update, plus the patient-copy update when only the doctor id is unusable |
| SweepSpec.BatchFor | functions/src/index.ts:24-48 | the batch built from a snapshot has three writes per entry |
| SweepSpec.BatchSetsOnlyStatus | functions/src/index.ts:29-47 | every write in the batch sets only `status: 'expired'` |
| SweepSpec.BatchPaths | functions/src/index.ts:24-48 | the batch writes exactly the copy paths of the snapshot's entries |
| SweepSpec.SnapshotCoversTargets | functions/src/index.ts:11-15 | the copy paths of a query result are exactly the targets |
| SweepSpec.ExpireStep | functions/src/index.ts:29 | one more status update extends the expired set by its path |
| SweepSpec.ApplyExpiryWrites | functions/src/index.ts:50 | committing updates that all set `status: 'expired'` is `Expire` on the paths they name, whatever their order or repetitions |
| SweepSpec.SweepEffect | functions/src/index.ts:22-50 | when every queried document has usable ids, the batch names exactly the targets and committing it yields `Expire` on them |
| ExpirySweep.QueryActiveDue | functions/src/index.ts:11-15 | the snapshot holds each selected subscription once, with its current data, and nothing else |
| ExpirySweep.QueueAll | functions/src/index.ts:24-48 | the loop over the snapshot succeeds exactly when every entry has usable ids; then it has appended the batch for the snapshot; otherwise it rejects with an invalid argument at the first entry without usable ids, after appending the full updates of every earlier entry and the updates that entry queued before the throw |
| ExpirySweep.QueueExpiry | functions/src/index.ts:25-47 | the callback succeeds exactly when both ids are usable; then it has appended the canonical, patient and doctor updates in that order; otherwise it rejects with an invalid argument, having appended the canonical update and, when only the doctor id is unusable, the patient-copy update |
| ExpirySweep.ExpireSubscriptions | functions/src/index.ts:10-52 | `SweepOutcome`: success exactly when all ids are usable and all copies exist; on success the count of selected subscriptions, the store becomes `Expire(before, Targets)`, and the committed batch is the batch built from a query result, each selected subscription's own three status-only updates in turn; nothing selected gives 0 and no write; on failure the store is unchanged, the error is invalid-argument exactly when an id is unusable, and a not-found error names a missing target |
| ExpirySweep.NothingSelectedOutcome | functions/src/index.ts:17-20 | the empty-snapshot return is a correct outcome: count 0, store unchanged |
| ExpirySweep.InvalidIdOutcome | functions/src/index.ts:26-36 | a rejection from a bad id leaves the store unchanged and is the outcome for a database with an unusable id |
| ExpirySweep.CommitRejectedOutcome | functions/src/index.ts:50 | a commit rejected on a missing copy leaves the store unchanged, and the missing path is a target |
| ExpirySweep.CommittedOutcome | functions/src/index.ts:50-51 | a commit that succeeds yields the store `Expire(before, Targets)` and reports the number of selected subscriptions |
| ExpirySweep.SweepTwice | functions/src/index.ts:11-50 | a second run at the same `now` after a successful one expires nothing and leaves the store as the first left it; after a failed one the store is unchanged and the second run fails too |

## Left out

- The app and store initialisation (functions/src/index.ts:1-5) are not modelled: the store is a parameter.
- The daily schedule (functions/src/index.ts:7-9) is not modelled: one call is one run.
- Reading the clock (functions/src/index.ts:10) is not modelled: `now` is a parameter. Timestamps are integers, without the seconds/nanoseconds split.
- Console logging (functions/src/index.ts:18 and 51) is left out. The count it prints is the method's result instead.
- Query ordering and index requirements are left out. The snapshot order is left open, and the proved outcome does not depend on it.
- Commit failures other than updating a missing document are left out: network errors, permission errors, the limit on writes per batch, and contention with concurrent writers.
- Concurrent runs and other writers between the query and the commit are left out. The model runs the sweep alone.
- Firestore.IsDocumentId: the ids `.`, `..` and `__...__` and ids containing `/` are rejected when the reference is built, with an invalid-argument error. The real client accepts `.`, `..` and `__...__` and the server refuses the commit instead, so for those ids nothing is written either way, but the model reports them as unusable ids rather than as a commit error. The real client reads an id containing `/` as a deeper path (dropping a trailing empty segment, so `p/` addresses patient `p`); when the segments form a document path that exists, the real sweep updates that document, while the model rejects the id and writes nothing. The 1500-byte limit on ids is not modelled.
- Server-maintained metadata such as update times is not modelled.
- The notification, reminder, payment and trigger functions of the wider back end are not part of this model.
