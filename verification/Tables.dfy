/** The tables of the metadata database and the invariant every committed state satisfies. */
module Tables {
  import opened Base

  /** The two organization trees; an item's table and its folder tree coincide. */
  datatype Kind = Document | Signature

  datatype Folder = Folder(user: Id, kind: Kind, parent: Option<Id>, name: string, deleted: bool, event: Option<Id>)

  /** A row of `documents` or `signatures`: the table and the primary key in it. */
  datatype Ref = Ref(kind: Kind, id: Id)

  datatype Item = Item(user: Id, folder: Option<Id>, name: string, blob: string, deleted: bool, event: Option<Id>)

  datatype Export = Export(user: Id, document: Option<Id>, name: string, blob: string, deleted: bool, event: Option<Id>)

  /** The row a delete action was aimed at: `root_kind` with `root_id`. */
  datatype Root = FolderRoot(folderId: Id) | ItemRoot(item: Ref) | ExportRoot(exportId: Id)

  datatype Event = Event(user: Id, root: Root, title: string, created: int)

  type Folders = map<Id, Folder>
  type Items = map<Ref, Item>

  datatype Db = Db(folders: Folders, items: Items, exports: map<Id, Export>, events: map<Id, Event>)

  datatype Error = NotFound | NameConflict | InvalidMove | Constraint

  datatype Outcome = Ok | Fail(error: Error)

  /** A folder path: the names from the top level down. */
  type Path = seq<string>

  ghost function At(p: map<Id, Path>, o: Option<Id>): Path {
    if o.Some? && o.value in p then p[o.value] else []
  }

  ghost predicate Labelled(fs: Folders, p: map<Id, Path>, f: Id)
    requires f in fs && f in p
  {
    && (fs[f].parent.Some? ==> fs[f].parent.value in fs)
    && p[f] == At(p, fs[f].parent) + [fs[f].name]
  }

  /** `p` gives every folder, active or trashed, the path its parent chain spells out. */
  ghost predicate Labels(fs: Folders, p: map<Id, Path>) {
    p.Keys == fs.Keys && forall f {:trigger Labelled(fs, p, f)} :: f in fs ==> Labelled(fs, p, f)
  }

  /** The parent relation has no dangling reference and no cycle. */
  ghost predicate Grounded(fs: Folders) {
    exists p :: Labels(fs, p)
  }

  ghost function Paths(fs: Folders): (p: map<Id, Path>)
    ensures Grounded(fs) ==> Labels(fs, p)
  {
    if Grounded(fs) then
      var p :| Labels(fs, p); p
    else map[]
  }

  /** The name path of a folder reference; the root is the empty path. */
  ghost function PathOf(fs: Folders, o: Option<Id>): Path {
    At(Paths(fs), o)
  }

  /** The trash event a container belongs to; the root and active folders belong to none. */
  ghost function EventOf(fs: Folders, o: Option<Id>): Option<Id> {
    if o.Some? && o.value in fs then fs[o.value].event else None
  }

  /** A folder agrees with its parent on owner and tree, and sits in the same event as its parent
      (or is active below an active one) unless it is itself the folder its event was aimed at. */
  ghost predicate FolderOk(db: Db, f: Id)
    requires f in db.folders
  {
    var r := db.folders[f];
    && (r.parent.Some? && r.parent.value in db.folders ==>
          db.folders[r.parent.value].user == r.user && db.folders[r.parent.value].kind == r.kind)
    && r.deleted == r.event.Some?
    && (r.event.Some? ==> r.event.value in db.events && db.events[r.event.value].user == r.user
                          && db.events[r.event.value].root.FolderRoot?)
    && (r.event != EventOf(db.folders, r.parent) ==>
          r.event.Some? && db.events[r.event.value].root == FolderRoot(f))
  }

  ghost predicate ItemOk(db: Db, r: Ref)
    requires r in db.items
  {
    var x := db.items[r];
    && (x.folder.Some? ==> x.folder.value in db.folders && db.folders[x.folder.value].user == x.user
                           && db.folders[x.folder.value].kind == r.kind)
    && x.deleted == x.event.Some?
    && (x.event.Some? ==> x.event.value in db.events && db.events[x.event.value].user == x.user)
    && (x.event != EventOf(db.folders, x.folder) ==>
          x.event.Some? && db.events[x.event.value].root == ItemRoot(r))
  }

  ghost predicate ExportOk(db: Db, i: Id)
    requires i in db.exports
  {
    var x := db.exports[i];
    && (x.document.Some? ==> Ref(Document, x.document.value) in db.items)
    && x.deleted == x.event.Some?
    && (x.event.Some? ==> x.event.value in db.events && db.events[x.event.value].user == x.user
                          && db.events[x.event.value].root == ExportRoot(i))
  }

  ghost predicate SameSlot(a: Folder, b: Folder) {
    a.user == b.user && a.kind == b.kind && a.parent == b.parent && a.event == b.event && a.name == b.name
  }

  ghost predicate SameItemSlot(items: Items, r: Ref, s: Ref)
    requires r in items && s in items
  {
    var a, b := items[r], items[s];
    r.kind == s.kind && a.user == b.user && a.folder == b.folder && a.event == b.event && a.name == b.name
  }

  /** Siblings that are all active, or all carried by one event, have distinct names. */
  ghost predicate FolderNames(fs: Folders) {
    forall f, g {:trigger SameSlot(fs[f], fs[g])} :: f in fs && g in fs && SameSlot(fs[f], fs[g]) ==> f == g
  }

  ghost predicate ItemNames(items: Items) {
    forall r, s {:trigger SameItemSlot(items, r, s)} :: r in items && s in items && SameItemSlot(items, r, s) ==> r == s
  }

  ghost predicate FoldersOk(db: Db) {
    forall f {:trigger FolderOk(db, f)} :: f in db.folders ==> FolderOk(db, f)
  }

  ghost predicate ItemsOk(db: Db) {
    forall r {:trigger ItemOk(db, r)} :: r in db.items ==> ItemOk(db, r)
  }

  ghost predicate ExportsOk(db: Db) {
    forall i {:trigger ExportOk(db, i)} :: i in db.exports ==> ExportOk(db, i)
  }

  ghost predicate Inv(db: Db) {
    && Grounded(db.folders)
    && FoldersOk(db) && FolderNames(db.folders)
    && ItemsOk(db) && ItemNames(db.items)
    && ExportsOk(db)
  }

  const EMPTY := Db(map[], map[], map[], map[])

  /** A place an active row may be filed in: the root, or an active folder of the same owner and tree. */
  ghost predicate Destination(fs: Folders, user: Id, kind: Kind, o: Option<Id>) {
    o.Some? ==> o.value in fs && !fs[o.value].deleted && fs[o.value].user == user && fs[o.value].kind == kind
  }
}
