/** The SQL statements the operations issue, as functions on the tables, with what each preserves. */
module Statements {
  import opened Base
  import opened Tables
  import opened Tree

  // --- lookups ---

  ghost predicate ActiveNamesake(row: Folder, user: Id, kind: Kind, parent: Option<Id>, name: string) {
    !row.deleted && row.user == user && row.kind == kind && row.parent == parent && row.name == name
  }

  ghost predicate FolderNameTaken(
    fs: Folders, user: Id, kind: Kind, parent: Option<Id>, name: string, except: Option<Id>)
  {
    exists f :: f in fs && Some(f) != except && ActiveNamesake(fs[f], user, kind, parent, name)
  }

  ghost predicate ActiveItemNamed(items: Items, r: Ref, kind: Kind, user: Id, folder: Option<Id>, name: string) {
    r in items && r.kind == kind && !items[r].deleted && items[r].user == user && items[r].folder == folder
      && items[r].name == name
  }

  ghost predicate ItemNameTaken(
    items: Items, kind: Kind, user: Id, folder: Option<Id>, name: string, except: Option<Ref>)
  {
    exists r :: r in items && Some(r) != except && ActiveItemNamed(items, r, kind, user, folder, name)
  }

  ghost predicate OwnActiveFolder(fs: Folders, user: Id, id: Id) {
    id in fs && fs[id].user == user && !fs[id].deleted
  }

  /** The folder must be the user's and active; its tree is handed back. */
  method RequireActiveFolder(db: Db, user: Id, id: Id) returns (kind: Option<Kind>)
    ensures kind == if OwnActiveFolder(db.folders, user, id) then Some(db.folders[id].kind) else None
  {
    if id !in db.folders || db.folders[id].user != user || db.folders[id].deleted { return None; }
    kind := Some(db.folders[id].kind);
  }

  /** An active sibling other than the excluded folder bears the name. */
  method FolderNameInUse(db: Db, user: Id, kind: Kind, parent: Option<Id>, name: string, exclude: Option<Id>)
    returns (taken: bool)
    ensures taken <==> FolderNameTaken(db.folders, user, kind, parent, name, exclude)
  {
    taken := exists f ::
      f in db.folders && exclude != Some(f) && db.folders[f].user == user && db.folders[f].kind == kind
      && db.folders[f].parent == parent && db.folders[f].name == name && !db.folders[f].deleted;
  }

  method ItemNameInUse(db: Db, kind: Kind, user: Id, folder: Option<Id>, name: string, exclude: Option<Ref>)
    returns (taken: bool)
    ensures taken <==> ItemNameTaken(db.items, kind, user, folder, name, exclude)
  {
    taken := exists r ::
      r in db.items && exclude != Some(r) && r.kind == kind && db.items[r].user == user
      && db.items[r].folder == folder && db.items[r].name == name && !db.items[r].deleted;
  }

  /** An active folder one name below an active place is found by looking that name up there. */
  lemma ChildByPath(db: Db, user: Id, kind: Kind, at: Option<Id>, name: string, g: Id)
    requires Inv(db) && Destination(db.folders, user, kind, at)
    requires g in db.folders && !db.folders[g].deleted && db.folders[g].user == user && db.folders[g].kind == kind
    requires PathOf(db.folders, Some(g)) == PathOf(db.folders, at) + [name]
    ensures ActiveNamesake(db.folders[g], user, kind, at, name)
    ensures FolderNameTaken(db.folders, user, kind, at, name, None)
  {
    var p, up := Paths(db.folders), db.folders[g].parent;
    ParentPath(db.folders, g);
    assert FolderOk(db, g);
    assert PathOf(db.folders, up) == p[g][..|p[g]| - 1] == PathOf(db.folders, at);
    assert p[g][|p[g]| - 1] == db.folders[g].name == name;
    OnlyRootIsEmpty(db.folders, at);
    OnlyRootIsEmpty(db.folders, up);
    if at.Some? {
      assert FolderOk(db, at.value) && FolderOk(db, up.value);
      PathLocates(db, at.value, up.value);
    }
    assert Some(g) != None;
  }

  // --- single-row statements ---

  function SetFolder(db: Db, f: Id, row: Folder): Db {
    db.(folders := db.folders[f := row])
  }

  function SetItem(db: Db, r: Ref, row: Item): Db {
    db.(items := db.items[r := row])
  }

  function SetExport(db: Db, i: Id, row: Export): Db {
    db.(exports := db.exports[i := row])
  }

  function AddEvent(db: Db, e: Id, event: Event): Db {
    db.(events := db.events[e := event])
  }

  /** A folder row written over its own slot, or a new one, keeps the invariant when it is well placed
      and its siblings in the same state do not use its name. */
  lemma SetFolderKeeps(db: Db, f: Id, row: Folder)
    requires Inv(db)
    requires Grounded(SetFolder(db, f, row).folders) && FolderOk(SetFolder(db, f, row), f)
    requires f in db.folders ==>
      row.event == db.folders[f].event && row.user == db.folders[f].user && row.kind == db.folders[f].kind
    requires forall g :: g in db.folders && g != f ==> !SameSlot(row, db.folders[g])
    ensures Inv(SetFolder(db, f, row))
  {
    var to := SetFolder(db, f, row);
    forall g | g in to.folders ensures FolderOk(to, g) {
      if g != f {
        ParentPath(db.folders, g);
        assert FolderOk(db, g);
      }
    }
    forall g, h | g in to.folders && h in to.folders && SameSlot(to.folders[g], to.folders[h]) ensures g == h {
      if g != f && h != f { assert SameSlot(db.folders[g], db.folders[h]); }
    }
    forall r | r in to.items ensures ItemOk(to, r) {
      assert ItemOk(db, r);
    }
    forall r, s | r in to.items && s in to.items && SameItemSlot(to.items, r, s) ensures r == s {
      assert SameItemSlot(db.items, r, s);
    }
    forall i | i in to.exports ensures ExportOk(to, i) {
      assert ExportOk(db, i);
    }
  }

  /** The same for an item row. */
  lemma SetItemKeeps(db: Db, r: Ref, row: Item)
    requires Inv(db) && ItemOk(SetItem(db, r, row), r)
    requires forall s | s in db.items && s.kind == r.kind && row.user == db.items[s].user
      && row.folder == db.items[s].folder
                        && row.event == db.items[s].event && row.name == db.items[s].name :: s == r
    ensures Inv(SetItem(db, r, row))
  {
    var to := SetItem(db, r, row);
    forall f | f in to.folders ensures FolderOk(to, f) {
      assert FolderOk(db, f);
    }
    forall f, g | f in to.folders && g in to.folders && SameSlot(to.folders[f], to.folders[g]) ensures f == g {
      assert SameSlot(db.folders[f], db.folders[g]);
    }
    forall s | s in to.items ensures ItemOk(to, s) {
      if s != r { assert ItemOk(db, s); }
    }
    forall s, t | s in to.items && t in to.items && SameItemSlot(to.items, s, t) ensures s == t {
      if s != r && t != r { assert SameItemSlot(db.items, s, t); }
    }
    forall i | i in to.exports ensures ExportOk(to, i) {
      assert ExportOk(db, i);
    }
  }

  lemma SetExportKeeps(db: Db, i: Id, row: Export)
    requires Inv(db) && ExportOk(SetExport(db, i, row), i)
    ensures Inv(SetExport(db, i, row))
  {
    var to := SetExport(db, i, row);
    forall f | f in to.folders ensures FolderOk(to, f) {
      assert FolderOk(db, f);
    }
    forall s | s in to.items ensures ItemOk(to, s) {
      assert ItemOk(db, s);
    }
    forall j | j in to.exports ensures ExportOk(to, j) {
      if j != i { assert ExportOk(db, j); }
    }
  }

  lemma AddEventKeeps(db: Db, e: Id, event: Event)
    requires Inv(db) && e !in db.events
    ensures Inv(AddEvent(db, e, event))
  {
    var to := AddEvent(db, e, event);
    forall f | f in to.folders ensures FolderOk(to, f) {
      assert FolderOk(db, f);
    }
    forall s | s in to.items ensures ItemOk(to, s) {
      assert ItemOk(db, s);
    }
    forall i | i in to.exports ensures ExportOk(to, i) {
      assert ExportOk(db, i);
    }
  }

  // --- folders ---

  function InsertFolder(db: Db, id: Id, user: Id, kind: Kind, parent: Option<Id>, name: string): Db {
    SetFolder(db, id, Folder(user, kind, parent, name, false, None))
  }

  /** A new folder under an active parent gets the parent's path extended by its name; all others keep theirs. */
  lemma InsertFolderKeeps(db: Db, id: Id, user: Id, kind: Kind, parent: Option<Id>, name: string)
    requires Inv(db) && id !in db.folders && Destination(db.folders, user, kind, parent)
    requires !FolderNameTaken(db.folders, user, kind, parent, name, None)
    ensures Inv(InsertFolder(db, id, user, kind, parent, name))
    ensures Paths(InsertFolder(db, id, user, kind, parent, name).folders)
         == Paths(db.folders)[id := PathOf(db.folders, parent) + [name]]
  {
    var to := InsertFolder(db, id, user, kind, parent, name);
    var p := Paths(db.folders)[id := PathOf(db.folders, parent) + [name]];
    assert Labels(to.folders, p) by {
      forall f | f in to.folders ensures Labelled(to.folders, p, f) {
        if f != id { ParentPath(db.folders, f); }
      }
    }
    PathsUnique(to.folders, p);
    if parent.Some? { assert FolderOk(db, parent.value); }
    assert FolderOk(to, id);
    forall g | g in db.folders && g != id ensures !SameSlot(to.folders[id], db.folders[g]) {
      assert FolderOk(db, g);
      assert !(Some(g) != None && ActiveNamesake(db.folders[g], user, kind, parent, name));
    }
    SetFolderKeeps(db, id, to.folders[id]);
  }

  /** The folders of `b` that `a` lacks are active and on the way down `path`. */
  ghost predicate OnTheWay(a: Folders, b: Folders, user: Id, kind: Kind, path: Path) {
    forall f :: f in b && f !in a ==>
      b[f].event.None? && b[f].user == user && b[f].kind == kind && PathOf(b, Some(f)) <= path
  }

  /** The folders of `a` are in `b` as they were, at their paths. */
  ghost predicate Extends(a: Folders, b: Folders) {
    forall f :: f in a ==> f in b && b[f] == a[f] && PathOf(b, Some(f)) == PathOf(a, Some(f))
  }

  /** `b` is `a` with active folders added, each on the way down `path`; nothing else differs. */
  ghost predicate Grown(a: Db, b: Db, user: Id, kind: Kind, path: Path) {
    && Inv(b) && b.items == a.items && b.exports == a.exports && b.events == a.events
    && Extends(a.folders, b.folders)
    && OnTheWay(a.folders, b.folders, user, kind, path)
  }

  lemma OneMoreOnTheWay(a: Folders, b: Folders, d: Folders, user: Id, kind: Kind, path: Path, id: Id, row: Folder,
      i: nat)
    requires OnTheWay(a, b, user, kind, path) && Grounded(b) && d == b[id := row] && i < |path|
    requires Paths(d) == Paths(b)[id := path[..i + 1]]
    requires row.event.None? && row.user == user && row.kind == kind
    ensures OnTheWay(a, d, user, kind, path)
  {
    forall f | f in d && f !in a
      ensures d[f].event.None? && d[f].user == user && d[f].kind == kind && PathOf(d, Some(f)) <= path
    {
      if f != id {
        ParentPath(b, f);
        assert PathOf(d, Some(f)) == PathOf(b, Some(f));
      }
    }
  }

  lemma OneMoreExtends(a: Folders, b: Folders, d: Folders, id: Id, path: Path)
    requires Extends(a, b) && Grounded(b) && id !in b && id in d && d == b[id := d[id]]
    requires Paths(d) == Paths(b)[id := path]
    ensures Extends(a, d)
  {
    forall f | f in a ensures f in d && d[f] == a[f] && PathOf(d, Some(f)) == PathOf(a, Some(f)) {
      ParentPath(b, f);
    }
  }

  /** Creating the next missing folder of a path. */
  lemma GrowStep(a: Db, b: Db, user: Id, kind: Kind, path: Path, id: Id, at: Option<Id>, i: nat)
    requires Grown(a, b, user, kind, path) && id !in b.folders && i < |path|
    requires Destination(b.folders, user, kind, at) && PathOf(b.folders, at) == path[..i]
    requires !FolderNameTaken(b.folders, user, kind, at, path[i], None)
    ensures var d := InsertFolder(b, id, user, kind, at, path[i]);
      && Grown(a, d, user, kind, path) && Destination(d.folders, user, kind, Some(id))
      && PathOf(d.folders, Some(id)) == path[..i + 1]
  {
    var d := InsertFolder(b, id, user, kind, at, path[i]);
    InsertFolderKeeps(b, id, user, kind, at, path[i]);
    assert path[..i + 1] == path[..i] + [path[i]];
    OneMoreOnTheWay(a.folders, b.folders, d.folders, user, kind, path, id, d.folders[id], i);
    OneMoreExtends(a.folders, b.folders, d.folders, id, path[..i + 1]);
  }

  ghost predicate ActiveAt(fs: Folders, user: Id, kind: Kind, path: Path) {
    exists g :: g in fs && fs[g].event.None? && fs[g].user == user && fs[g].kind == kind && PathOf(fs, Some(g)) == path
  }

  /** While the whole path is active, each of its names is found below the folder before it. */
  lemma PrefixFound(db: Db, user: Id, kind: Kind, at: Option<Id>, names: Path, i: nat)
    requires Inv(db) && Destination(db.folders, user, kind, at) && i < |names| && PathOf(db.folders, at) == names[..i]
    requires ActiveAt(db.folders, user, kind, names)
    ensures FolderNameTaken(db.folders, user, kind, at, names[i], None)
  {
    var f :| f in db.folders && db.folders[f].event.None? && db.folders[f].user == user && db.folders[f].kind == kind
             && PathOf(db.folders, Some(f)) == names;
    assert FolderOk(db, f);
    var g := ActivePrefix(db, f, i + 1);
    assert names[..i + 1] == names[..i] + [names[i]];
    ChildByPath(db, user, kind, at, names[i], g);
  }

  /** `LIMIT 1`: whichever active folder of that name the database yields. */
  method ActiveFolderByName(db: Db, user: Id, kind: Kind, parent: Option<Id>, name: string) returns (found: Option<Id>)
    ensures found.Some? ==>
      found.value in db.folders && ActiveNamesake(db.folders[found.value], user, kind, parent, name)
    ensures found.None? ==> !FolderNameTaken(db.folders, user, kind, parent, name, None)
  {
    if f :|
      f in db.folders && db.folders[f].user == user && db.folders[f].kind == kind && db.folders[f].parent == parent
      && db.folders[f].name == name && !db.folders[f].deleted
    {
      found := Some(f);
    } else {
      found := None;
    }
  }

  /** On the way down `path` from the tables `a`: `at` is the active place `way`, what was missing on the way has been
      created, and nothing else, and nothing at all if the whole path was active. */
  ghost predicate Descending(a: Db, b: Db, user: Id, kind: Kind, path: Path, way: Path, at: Option<Id>) {
    && Grown(a, b, user, kind, path) && Destination(b.folders, user, kind, at) && PathOf(b.folders, at) == way
    && (ActiveAt(a.folders, user, kind, path) ==> b == a)
  }

  /** The first `n` names of the path have been walked. */
  ghost predicate Reached(a: Db, b: Db, user: Id, kind: Kind, path: Path, n: nat, at: Option<Id>) {
    n <= |path| && exists way :: way == path[..n] && Descending(a, b, user, kind, path, way, at)
  }

  lemma ReachedStart(a: Db, user: Id, kind: Kind, path: Path, n: nat, at: Option<Id>)
    requires Inv(a) && Destination(a.folders, user, kind, at) && n <= |path| && PathOf(a.folders, at) == path[..n]
    ensures Reached(a, a, user, kind, path, n, at)
  {
    assert Descending(a, a, user, kind, path, path[..n], at);
  }

  lemma ReachedEnd(a: Db, b: Db, user: Id, kind: Kind, path: Path, at: Option<Id>)
    requires Reached(a, b, user, kind, path, |path|, at)
    ensures Descending(a, b, user, kind, path, path, at)
  {
    assert path[..|path|] == path;
  }

  /** One step down a path: the active folder of that name, or a new one. */
  method FindOrCreate(db: Db, user: Id, kind: Kind, at: Option<Id>, name: string, ghost a: Db, ghost path: Path,
      ghost i: nat)
    returns (to: Db, id: Id)
    requires Reached(a, db, user, kind, path, i, at) && i < |path| && path[i] == name
    ensures Reached(a, to, user, kind, path, i + 1, Some(id))
  {
    assert path[..i + 1] == path[..i] + [path[i]];
    var found := ActiveFolderByName(db, user, kind, at, name);
    if found.Some? {
      ParentPath(db.folders, found.value);
      to, id := db, found.value;
    } else {
      if ActiveAt(db.folders, user, kind, path) { PrefixFound(db, user, kind, at, path, i); }
      id := NewId(db.folders.Keys);
      GrowStep(a, db, user, kind, path, id, at, i);
      to := InsertFolder(db, id, user, kind, at, name);
    }
    assert Descending(a, to, user, kind, path, path[..i + 1], Some(id));
  }

  /** An active place is determined by its path. */
  lemma OnePlace(db: Db, user: Id, kind: Kind, x: Option<Id>, y: Option<Id>)
    requires Inv(db) && Destination(db.folders, user, kind, x) && Destination(db.folders, user, kind, y)
    requires PathOf(db.folders, x) == PathOf(db.folders, y)
    ensures x == y
    ensures x.Some? ==> ActiveAt(db.folders, user, kind, PathOf(db.folders, x))
  {
    OnlyRootIsEmpty(db.folders, x);
    OnlyRootIsEmpty(db.folders, y);
    if x.Some? {
      assert FolderOk(db, x.value) && FolderOk(db, y.value);
      PathLocates(db, x.value, y.value);
    }
  }

  ghost function RenameFolderRow(db: Db, id: Id, name: string): Db
    requires id in db.folders
  {
    SetFolder(db, id, db.folders[id].(name := name))
  }

  lemma RenameFolderKeeps(db: Db, id: Id, name: string)
    requires Inv(db) && id in db.folders && !db.folders[id].deleted
    requires !FolderNameTaken(db.folders, db.folders[id].user, db.folders[id].kind, db.folders[id].parent, name,
      Some(id))
    ensures Inv(RenameFolderRow(db, id, name))
  {
    var to := RenameFolderRow(db, id, name);
    DepthsRank(db.folders);
    RankGrounds(to.folders, Depths(db.folders));
    assert FolderOk(db, id);
    forall g | g in db.folders && g != id ensures !SameSlot(to.folders[id], db.folders[g]) {
      assert FolderOk(db, g);
      assert Some(g) != Some(id);
    }
    SetFolderKeeps(db, id, to.folders[id]);
  }

  ghost function MoveFolderRow(db: Db, id: Id, parent: Option<Id>): Db
    requires id in db.folders
  {
    SetFolder(db, id, db.folders[id].(parent := parent))
  }

  /** `f` hangs below `top` through folders in whatever state. */
  ghost predicate Under(fs: Folders, top: Id, f: Id)
    requires Grounded(fs)
    decreases |At(Paths(fs), Some(f))|
  {
    f in fs && (f == top || (fs[f].parent.Some? && (ParentPath(fs, f); Under(fs, top, fs[f].parent.value))))
  }

  lemma UnderStep(fs: Folders, top: Id, f: Id)
    requires Grounded(fs) && f in fs && f != top
    ensures fs[f].parent.Some? ==>
      fs[f].parent.value in fs && (Under(fs, top, f) <==> Under(fs, top, fs[f].parent.value))
    ensures Under(fs, top, f) ==> fs[f].parent.Some?
  {
    ParentPath(fs, f);
  }

  /** The depths of a table, with the moved folder, and all that is below it, lifted. */
  ghost function Lifted(fs: Folders, id: Id, lift: nat): map<Id, nat>
    requires Grounded(fs)
  {
    map f | f in fs && f in Depths(fs) :: if Under(fs, id, f) then Depths(fs)[f] + lift else Depths(fs)[f]
  }

  lemma LiftedStep(fs: Folders, id: Id, lift: nat, f: Id)
    requires Grounded(fs) && f in fs && f != id && fs[f].parent.Some?
    ensures var rank, p := Lifted(fs, id, lift), fs[f].parent.value;
      p in fs && p in rank && f in rank && rank[p] < rank[f]
  {
    DepthsRank(fs);
    UnderStep(fs, id, f);
  }

  /** Lifting the moved folder, and all that is below it, above its new parent leaves the tree acyclic. */
  lemma MovedGrounded(fs: Folders, id: Id, row: Folder)
    requires Grounded(fs) && id in fs
    requires row.parent.Some? ==> row.parent.value in fs && !Under(fs, id, row.parent.value)
    ensures Grounded(fs[id := row])
  {
    var to := fs[id := row];
    DepthsRank(fs);
    var lift := if row.parent.Some? then Depths(fs)[row.parent.value] + 1 else 0;
    var rank := Lifted(fs, id, lift);
    assert Under(fs, id, id);
    forall f | f in to && to[f].parent.Some? ensures to[f].parent.value in to && rank[to[f].parent.value] < rank[f] {
      if f != id { LiftedStep(fs, id, lift, f); }
    }
    RankGrounds(to, rank);
  }

  /** What is not below a rewritten folder keeps its path. */
  lemma {:induction false} Unmoved(fs: Folders, id: Id, row: Folder, f: Id)
    requires Grounded(fs) && id in fs && Grounded(fs[id := row]) && f in fs && !Under(fs, id, f)
    ensures PathOf(fs[id := row], Some(f)) == PathOf(fs, Some(f))
    decreases |Paths(fs)[f]|
  {
    assert Under(fs, id, id);
    ParentPath(fs, f);
    ParentPath(fs[id := row], f);
    UnderStep(fs, id, f);
    if fs[f].parent.Some? { Unmoved(fs, id, row, fs[f].parent.value); }
  }

  /** What is below it has the folder's new path in place of the old one. */
  lemma {:induction false} Moved(fs: Folders, id: Id, row: Folder, f: Id)
    requires Grounded(fs) && id in fs && Grounded(fs[id := row]) && f in fs && Under(fs, id, f)
    ensures var was, now := PathOf(fs, Some(id)), PathOf(fs[id := row], Some(id));
      && was <= PathOf(fs, Some(f))
      && PathOf(fs[id := row], Some(f)) == now + PathOf(fs, Some(f))[|was|..]
    decreases |Paths(fs)[f]|
  {
    ParentPath(fs, id);
    ParentPath(fs[id := row], id);
    if f != id {
      ParentPath(fs, f);
      ParentPath(fs[id := row], f);
      UnderStep(fs, id, f);
      Moved(fs, id, row, fs[f].parent.value);
    }
  }

  /** Where a folder is after its name or parent was rewritten, with all that is below it. */
  ghost predicate Relocated(a: Folders, b: Folders, id: Id, path: Path)
    requires Grounded(a)
  {
    && b.Keys == a.Keys && PathOf(b, Some(id)) == path
    && forall f :: f in a ==>
      PathOf(b, Some(f)) == if Under(a, id, f) && PathOf(a, Some(id)) <= PathOf(a, Some(f))
                            then path + PathOf(a, Some(f))[|PathOf(a, Some(id))|..] else PathOf(a, Some(f))
  }

  /** Rewriting a folder's name or parent moves it, and everything below it, and nothing else. */
  lemma RewrittenFolder(fs: Folders, id: Id, row: Folder)
    requires Grounded(fs) && id in fs && Grounded(fs[id := row])
    requires row.parent.Some? ==> row.parent.value in fs && !Under(fs, id, row.parent.value)
    ensures Relocated(fs, fs[id := row], id, PathOf(fs, row.parent) + [row.name])
    ensures forall f :: f in fs && Under(fs, id, f) ==> PathOf(fs, Some(id)) <= PathOf(fs, Some(f))
  {
    ParentPath(fs[id := row], id);
    if row.parent.Some? { Unmoved(fs, id, row, row.parent.value); }
    forall f | f in fs
      ensures Under(fs, id, f) ==> PathOf(fs, Some(id)) <= PathOf(fs, Some(f))
      ensures PathOf(fs[id := row], Some(f)) == if Under(fs, id, f)
        then PathOf(fs, row.parent) + [row.name] + PathOf(fs, Some(f))[|PathOf(fs, Some(id))|..]
        else PathOf(fs, Some(f))
    {
      if Under(fs, id, f) { Moved(fs, id, row, f); } else { Unmoved(fs, id, row, f); }
    }
  }

  /** An active folder below an active one through any chain is in its active subtree: no trashed
      folder lies between, so looking at active folders alone finds every would-be cycle. */
  lemma {:induction false} ActiveUnder(db: Db, top: Id, f: Id)
    requires Inv(db) && f in db.folders && !db.folders[f].deleted && Under(db.folders, top, f)
    ensures f in Subtree(db.folders, None, top)
    decreases |Paths(db.folders)[f]|
  {
    assert FolderOk(db, f);
    ParentPath(db.folders, f);
    if f != top {
      assert FolderOk(db, db.folders[f].parent.value);
      ActiveUnder(db, top, db.folders[f].parent.value);
    }
  }

  lemma MoveFolderKeeps(db: Db, id: Id, parent: Option<Id>)
    requires Inv(db) && id in db.folders && !db.folders[id].deleted
    requires Destination(db.folders, db.folders[id].user, db.folders[id].kind, parent)
    requires parent.Some? ==> parent.value !in Subtree(db.folders, None, id)
    requires !FolderNameTaken(db.folders, db.folders[id].user, db.folders[id].kind, parent, db.folders[id].name,
      Some(id))
    ensures Inv(MoveFolderRow(db, id, parent))
  {
    var fs, to := db.folders, MoveFolderRow(db, id, parent);
    if parent.Some? && Under(fs, id, parent.value) {
      ActiveUnder(db, id, parent.value);
    }
    MovedGrounded(db.folders, id, to.folders[id]);
    assert FolderOk(db, id);
    if parent.Some? { assert FolderOk(db, parent.value); }
    forall g | g in db.folders && g != id ensures !SameSlot(to.folders[id], db.folders[g]) {
      assert FolderOk(db, g);
      assert Some(g) != Some(id);
    }
    SetFolderKeeps(db, id, to.folders[id]);
  }

  // --- items ---

  /** Writing an active item row into a free slot: what create, rename, move and un-trash all do. */
  lemma PlaceItemKeeps(db: Db, r: Ref, row: Item)
    requires Inv(db) && !row.deleted && row.event.None?
    requires Destination(db.folders, row.user, r.kind, row.folder)
    requires !ItemNameTaken(db.items, r.kind, row.user, row.folder, row.name, Some(r))
    ensures Inv(SetItem(db, r, row))
  {
    if row.folder.Some? { assert FolderOk(db, row.folder.value); }
    forall s | s in db.items && s.kind == r.kind && row.user == db.items[s].user && row.folder == db.items[s].folder
      && row.event == db.items[s].event && row.name == db.items[s].name ensures s == r
    {
      assert ItemOk(db, s);
      assert ActiveItemNamed(db.items, s, r.kind, row.user, row.folder, row.name);
    }
    SetItemKeeps(db, r, row);
  }

  /** `SELECT ... WHERE folder = dest AND name = ?` on active rows, with and without an excluded row. */
  lemma FreeForAll(items: Items, kind: Kind, user: Id, folder: Option<Id>, name: string, except: Option<Ref>)
    requires !ItemNameTaken(items, kind, user, folder, name, None)
    ensures !ItemNameTaken(items, kind, user, folder, name, except)
  {
    forall r | r in items && Some(r) != except ensures !ActiveItemNamed(items, r, kind, user, folder, name) {
      assert Some(r) != None;
    }
  }
}
