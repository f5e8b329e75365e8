/**
 * The part of the document store that the expiry sweep relies on: documents
 * addressed by paths, the reference builder `collection(...).doc(id)`, and
 * write batches whose `update` writes are committed all together or not at all.
 */
module Firestore {
  import opened Wrappers

  /** A field value. Timestamps are instants on an integer time line. */
  datatype Value = Str(s: string) | Time(t: int) | Num(n: int) | Bool(b: bool) | Null

  /** A document: its fields by name. */
  type Doc = map<string, Value>

  /** A document path, one segment per element: ["subscriptions", "s1"]. */
  type Path = seq<string>

  /**
   * The whole database: every existing document by its path. Keys are not
   * restricted to well-formed document paths (even length, usable segments).
   */
  type Db = map<Path, Doc>

  /** One `update` in a batch: merge `fields` into the document at `path`. */
  datatype Write = Write(path: Path, fields: Doc)

  datatype StoreError =
    | InvalidArgument(arg: Option<Value>)   // a document id that is not a non-empty string
    | NotFound(path: Path)                  // an update aimed at a document that does not exist

  /**
   * A usable document id: a non-empty string without `/` that is neither `.` nor
   * `..` and is not of the reserved form `__...__`.
   */
  predicate IsDocumentId(x: Option<Value>)
  {
    && x.Some? && x.value.Str?
    && x.value.s != "" && '/' !in x.value.s
    && x.value.s != "." && x.value.s != ".."
    && !IsReservedId(x.value.s)
  }

  /** Ids that start and end with a double underscore are reserved by the store. */
  predicate IsReservedId(s: string)
  {
    |s| >= 4 && s[..2] == "__" && s[|s| - 2..] == "__"
  }

  /** `collection.doc(x)`: the path of document `x` under collection `parent`. */
  function Child(parent: Path, x: Option<Value>): (r: Result<Path, StoreError>)
    ensures r.Success? <==> IsDocumentId(x)
    ensures r.Success? ==> |r.value| == |parent| + 1 && r.value[..|parent|] == parent
                           && r.value[|parent|] == x.value.s
    ensures r.Failure? ==> r.error == InvalidArgument(x)
  {
    if IsDocumentId(x) then Success(parent + [x.value.s]) else Failure(InvalidArgument(x))
  }

  /** The set of paths a sequence of writes touches. */
  function PathsOf(ws: seq<Write>): set<Path>
  {
    set w | w in ws :: w.path
  }

  lemma PathsOfAppend(a: seq<Write>, b: seq<Write>)
    ensures PathsOf(a + b) == PathsOf(a) + PathsOf(b)
  {
  }

  /**
   * The effect of one update: the given fields of an existing document are
   * overwritten or added, its other fields and every other document stay.
   */
  function ApplyUpdate(db: Db, w: Write): (r: Db)
    ensures r.Keys == db.Keys
  {
    if w.path in db then db[w.path := db[w.path] + w.fields] else db
  }

  /** Field by field: an update merges its fields into its document and touches nothing else. */
  lemma UpdateMerges(db: Db, w: Write)
    ensures forall p :: p in db && p != w.path ==> ApplyUpdate(db, w)[p] == db[p]
    ensures w.path in db ==> ApplyUpdate(db, w)[w.path].Keys == db[w.path].Keys + w.fields.Keys
    ensures w.path in db ==> forall f :: f in w.fields ==> ApplyUpdate(db, w)[w.path][f] == w.fields[f]
    ensures w.path in db ==> forall f :: f in db[w.path] && f !in w.fields ==> ApplyUpdate(db, w)[w.path][f] == db[w.path][f]
  {
  }

  /** The effect of a batch's writes, applied in the order they were added. */
  function ApplyWrites(db: Db, ws: seq<Write>): (r: Db)
    ensures r.Keys == db.Keys
    decreases |ws|
  {
    if ws == [] then db
    else ApplyUpdate(ApplyWrites(db, ws[..|ws| - 1]), ws[|ws| - 1])
  }

  /** A document that no write of the batch names is left exactly as it was. */
  lemma {:induction false} ApplyWritesUntouched(db: Db, ws: seq<Write>, p: Path)
    requires p in db && p !in PathsOf(ws)
    ensures ApplyWrites(db, ws)[p] == db[p]
    decreases |ws|
  {
    if ws != [] {
      var init, last := ws[..|ws| - 1], ws[|ws| - 1];
      assert ws == init + [last];
      PathsOfAppend(init, [last]);
      ApplyWritesUntouched(db, init, p);
    }
  }

  lemma ApplyWritesSnoc(db: Db, ws: seq<Write>, i: nat)
    requires i < |ws|
    ensures ApplyWrites(db, ws[..i + 1]) == ApplyUpdate(ApplyWrites(db, ws[..i]), ws[i])
  {
    assert ws[..i + 1][..i] == ws[..i];
  }

  /** The database, holding its documents in place. */
  class Store {
    var docs: Db

    constructor (init: Db)
      ensures docs == init
    {
      docs := init;
    }

    /** `db.batch()`: a new, empty write batch bound to this store. */
    method Batch() returns (b: WriteBatch)
      ensures fresh(b) && b.db == this && b.writes == []
    {
      b := new WriteBatch(this);
    }
  }

  /** A write batch: updates are collected first and reach the store only on commit. */
  class WriteBatch {
    const db: Store
    var writes: seq<Write>

    constructor (db: Store)
      ensures this.db == db && writes == []
    {
      this.db := db;
      writes := [];
    }

    /** `batch.update(ref, fields)`: queue one update; the store is not touched. */
    method Update(path: Path, fields: Doc)
      modifies this
      ensures writes == old(writes) + [Write(path, fields)]
    {
      writes := writes + [Write(path, fields)];
    }

    /**
     * `batch.commit()`: all queued updates take effect together, or, when one of
     * them targets a missing document, none does and the commit rejects.
     */
    method Commit() returns (r: Result<(), StoreError>)
      modifies db
      ensures r.Success? <==> PathsOf(writes) <= old(db.docs).Keys
      ensures r.Success? ==> db.docs == ApplyWrites(old(db.docs), writes)
      ensures r.Failure? ==> db.docs == old(db.docs)
      ensures r.Failure? ==> r.error.NotFound? && r.error.path in PathsOf(writes)
                             && r.error.path !in old(db.docs)
    {
      var start, ws := db.docs, writes;
      var staged := start;
      var i := 0;
      while i < |ws|
        invariant 0 <= i <= |ws|
        invariant db.docs == start
        invariant staged == ApplyWrites(start, ws[..i])
        invariant forall k :: 0 <= k < i ==> ws[k].path in start
      {
        if ws[i].path !in staged {
          assert ws[i] in ws;
          return Failure(NotFound(ws[i].path));
        }
        assert ws[i].path in start;
        ApplyWritesSnoc(start, ws, i);
        staged := ApplyUpdate(staged, ws[i]);
        i := i + 1;
      }
      assert ws[..i] == ws;
      db.docs := staged;
      r := Success(());
    }
  }
}
