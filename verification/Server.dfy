/** The server's use of database and disk together: uploads, purges and the janitor, one after the other. */
module Server {
  import opened Base
  import opened Octets
  import opened Crypto
  import opened Tables
  import opened Statements
  import opened Purging
  import opened Blobs
  import Store

  /** How old an unreferenced blob must be before it is reaped, in seconds. */
  const GRACE := 3600

  /** A row with a blob of its own. */
  lemma ItemFiled(db: Db, r: Ref, row: Item)
    requires BlobsApart(db) && r !in db.items && row.blob !in References(db)
    ensures BlobsApart(SetItem(db, r, row)) && References(SetItem(db, r, row)) == References(db) + {row.blob}
  {
    var to := SetItem(db, r, row);
    forall x | HasRow(to, x) && x != ItemRow(r)
      ensures HasRow(db, x) && BlobOf(to, x) == BlobOf(db, x) && BlobOf(db, x) != row.blob
    {
      match x {
        case ItemRow(q) => assert db.items[q].blob in References(db);
        case ExportRow(i) => assert db.exports[i].blob in References(db);
      }
    }
    forall p | p in References(db) ensures p in References(to) {
      if q :| q in db.items && db.items[q].blob == p {
        assert to.items[q].blob == p;
      }
    }
    assert to.items[r].blob == row.blob;
  }

  lemma ExportFiled(db: Db, i: Id, row: Export)
    requires BlobsApart(db) && i !in db.exports && row.blob !in References(db)
    ensures BlobsApart(SetExport(db, i, row)) && References(SetExport(db, i, row)) == References(db) + {row.blob}
  {
    var to := SetExport(db, i, row);
    forall x | HasRow(to, x) && x != ExportRow(i)
      ensures HasRow(db, x) && BlobOf(to, x) == BlobOf(db, x) && BlobOf(db, x) != row.blob
    {
      match x {
        case ItemRow(q) => assert db.items[q].blob in References(db);
        case ExportRow(j) => assert db.exports[j].blob in References(db);
      }
    }
    forall p | p in References(db) ensures p in References(to) {
      if j :| j in db.exports && db.exports[j].blob == p {
        assert to.exports[j].blob == p;
      }
    }
    assert to.exports[i].blob == row.blob;
  }

  lemma PurgedApart(db: Db, E: set<Id>)
    requires BlobsApart(db)
    ensures BlobsApart(Purged(db, E)) && References(Purged(db, E)) <= References(db)
  {
    var to := Purged(db, E);
    forall x | HasRow(to, x) ensures HasRow(db, x) && BlobOf(to, x) == BlobOf(db, x) {
      GoneHasRow(db, E, x);
    }
    forall p | p in References(to) ensures p in References(db) {
      if q :| q in to.items && to.items[q].blob == p {
        GoneHasRow(db, E, ItemRow(q));
        assert db.items[q].blob == p;
      } else {
        var i :| i in to.exports && to.exports[i].blob == p;
        GoneHasRow(db, E, ExportRow(i));
        assert db.exports[i].blob == p;
      }
    }
  }

  class Server {
    const store: Store.Store
    const blobs: BlobStore

    /** Every row has a blob of its own, and it is on disk. */
    ghost predicate Valid()
      reads this, store, blobs
    {
      && Inv(store.db) && BlobsApart(store.db)
      && References(store.db) <= blobs.files.Keys && forall p :: p in References(store.db) ==> IsBlob(p)
    }

    /** Starts on any database, new or old, whose rows have their blobs on the disk. */
    constructor (store: Store.Store, blobs: BlobStore)
      requires Inv(store.db) && BlobsApart(store.db)
      requires References(store.db) <= blobs.files.Keys && forall p :: p in References(store.db) ==> IsBlob(p)
      ensures this.store == store && this.blobs == blobs && Valid()
    {
      this.store, this.blobs := store, blobs;
    }

    /** The text of a new random identifier. */
    method NewBlobId(userId: string) returns (id: string)
      ensures '/' !in id && RelPath(userId, id) !in blobs.files
    {
      ghost var n := Longest(blobs.files.Keys);
      ghost var some := seq(n, _ => '0');
      assert |RelPath(userId, some)| > n;
      id :| '/' !in id && RelPath(userId, id) !in blobs.files;
    }

    /** Whatever an operation adds to the disk, or fails to clean up there, rows keep their blobs. */
    ghost predicate Grown(before: map<string, File>)
      reads this, blobs
    {
      forall p :: p in before ==> p in blobs.files && blobs.files[p] == before[p]
    }

    /** Writes the blob, then commits the row that points at it; takes the blob away again if the commit fails. */
    method UploadDocument(user: Id, userText: string, folder: Option<Id>, name: string, g: Aead, data: Bytes, now: int)
      returns (r: Option<Ref>)
      requires Valid()
      modifies store, blobs
      ensures Valid() && Grown(old(blobs.files))
      ensures r.None? ==> store.db == old(store.db)
      ensures r.Some? ==>
        && r.value !in old(store.db).items && r.value in store.db.items
        && var row := store.db.items[r.value];
           && store.db == SetItem(old(store.db), r.value, row)
           && row == Item(user, folder, name, row.blob, false, None) && row.blob !in old(blobs.files)
           && (Correct(g) ==> Decode(g, blobs.files[row.blob].content) == Decoded(true, data))
    {
      var id := NewBlobId(userText);
      var rel := blobs.Write(userText, id, g, data, now);
      if rel.None? { return None; }
      var rowId := NewId(set k | k in store.db.items && k.kind == Document :: k.id);
      var ref := Ref(Document, rowId);
      var o := store.CreateItem(ref, user, folder, name, rel.value);
      if o != Ok {
        var ok := blobs.Delete(rel.value);
        return None;
      }
      ItemFiled(old(store.db), ref, store.db.items[ref]);
      r := Some(ref);
    }

    /** The same for the signed form of a document, which must still exist when its row is committed. */
    method SignDocument(user: Id, userText: string, document: Id, name: string, g: Aead, signed: Bytes, now: int)
      returns (r: Option<Id>)
      requires Valid()
      modifies store, blobs
      ensures Valid() && Grown(old(blobs.files))
      ensures r.None? ==> store.db == old(store.db)
      ensures r.Some? ==>
        && Ref(Document, document) in old(store.db).items
        && r.value !in old(store.db).exports && r.value in store.db.exports
        && var row := store.db.exports[r.value];
           && store.db == SetExport(old(store.db), r.value, row)
           && row == Export(user, Some(document), name, row.blob, false, None) && row.blob !in old(blobs.files)
           && (Correct(g) ==> Decode(g, blobs.files[row.blob].content) == Decoded(true, signed))
    {
      var id := NewBlobId(userText);
      var rel := blobs.Write(userText, id, g, signed, now);
      if rel.None? { return None; }
      var rowId := NewId(store.db.exports.Keys);
      var o := store.CreateExport(rowId, user, Some(document), name, rel.value);
      if o != Ok {
        var ok := blobs.Delete(rel.value);
        return None;
      }
      ExportFiled(old(store.db), rowId, store.db.exports[rowId]);
      r := Some(rowId);
    }

    /** Purges expired events, then deletes the blobs their rows pointed at, as far as that succeeds. */
    method PurgeTrash(cutoff: int)
      requires Valid()
      modifies store, blobs
      ensures Valid()
      ensures store.db == Purged(old(store.db), Store.Expired(old(store.db), cutoff))
      ensures Store.AgedOut(old(store.db), old(store.db), store.db, cutoff)
      ensures exists gone: set<string> ::
        gone <= References(old(store.db)) - References(store.db) && blobs.files == old(blobs.files) - gone
    {
      ghost var before, disk := store.db, blobs.files;
      var paths, rows := store.PurgeExpired(cutoff);
      FreedPaths(before, Store.Expired(before, cutoff), rows, paths);
      PurgedApart(before, Store.Expired(before, cutoff));
      ghost var gone := {};
      for k := 0 to |paths|
        modifies blobs
        invariant gone <= Members(paths) && blobs.files == disk - gone
      {
        assert paths[k] in Members(paths);
        var ok := blobs.Delete(paths[k]);
        if ok {
          MapMinus(disk, gone, paths[k]);
          gone := gone + {paths[k]};
        }
      }
    }

    /** Reaps what no row points at: unless something failed, only blobs younger than the grace period are left so. */
    method ReconcileBlobs(now: int) returns (reaped: nat, failed: bool)
      requires Valid()
      modifies blobs
      ensures Valid() && forall p :: p in blobs.files ==> p in old(blobs.files) && blobs.files[p] == old(blobs.files)[p]
      ensures forall p :: p in old(blobs.files) && p !in blobs.files ==>
        old(blobs.files)[p].mtime < now - 3600 && p !in References(store.db) && (IsBlob(p) || IsTempLeftover(p))
      ensures !failed ==> forall p :: p in blobs.files && IsBlob(p) && blobs.files[p].mtime < now - 3600 ==>
        p in References(store.db)
    {
      ghost var disk := blobs.files;
      var referenced := store.AllReferencedBlobPaths();
      reaped, failed := blobs.ReconcileOrphans(referenced, now - GRACE);
    }
  }
}
