/** Name paths: they exist exactly for acyclic parent relations, and locate rows uniquely. */
module Tree {
  import opened Base
  import opened Tables

  /** A folder's path is its parent's path and then its own name. */
  lemma ParentPath(fs: Folders, f: Id)
    requires Grounded(fs) && f in fs
    ensures f in Paths(fs) && Paths(fs)[f] == PathOf(fs, fs[f].parent) + [fs[f].name]
    ensures fs[f].parent.Some? ==> fs[f].parent.value in fs && fs[f].parent.value in Paths(fs)
    ensures fs[f].parent.Some? ==> |Paths(fs)[fs[f].parent.value]| < |Paths(fs)[f]|
  {
    assert Labelled(fs, Paths(fs), f);
  }

  lemma OnlyRootIsEmpty(fs: Folders, o: Option<Id>)
    requires Grounded(fs) && (o.Some? ==> o.value in fs)
    ensures PathOf(fs, o) == [] <==> o.None?
  {
    if o.Some? { ParentPath(fs, o.value); }
  }

  lemma {:induction false} LabelsAgree(fs: Folders, p: map<Id, Path>, q: map<Id, Path>, f: Id)
    requires Labels(fs, p) && Labels(fs, q) && f in fs
    ensures p[f] == q[f]
    decreases |p[f]|
  {
    assert Labelled(fs, p, f) && Labelled(fs, q, f);
    if fs[f].parent.Some? {
      LabelsAgree(fs, p, q, fs[f].parent.value);
    }
  }

  /** A table's paths are determined by the table: any labelling is the labelling. */
  lemma PathsUnique(fs: Folders, p: map<Id, Path>)
    requires Labels(fs, p)
    ensures Grounded(fs) && Paths(fs) == p
  {
    forall f | f in fs ensures Paths(fs)[f] == p[f] {
      LabelsAgree(fs, Paths(fs), p, f);
    }
  }

  /** Every parent is present and ranked strictly below its child. */
  ghost predicate Ranks(fs: Folders, rank: map<Id, nat>) {
    forall f :: f in fs ==> f in rank && (fs[f].parent.Some? ==>
      fs[f].parent.value in fs && fs[f].parent.value in rank && rank[fs[f].parent.value] < rank[f])
  }

  ghost function Spell(fs: Folders, rank: map<Id, nat>, f: Id): Path
    requires Ranks(fs, rank) && f in fs
    decreases rank[f]
  {
    (if fs[f].parent.Some? then Spell(fs, rank, fs[f].parent.value) else []) + [fs[f].name]
  }

  /** A parent relation that descends in some rank is acyclic, so every folder has a path. */
  lemma RankGrounds(fs: Folders, rank: map<Id, nat>)
    requires Ranks(fs, rank)
    ensures Grounded(fs)
  {
    var p := map f | f in fs :: Spell(fs, rank, f);
    assert Labels(fs, p) by {
      forall f | f in fs ensures Labelled(fs, p, f) {
        if fs[f].parent.Some? { assert fs[f].parent.value in fs; }
      }
    }
  }

  /** The path lengths of a grounded table rank it. */
  ghost function Depths(fs: Folders): map<Id, nat> {
    map f | f in Paths(fs) :: |Paths(fs)[f]|
  }

  lemma DepthsRank(fs: Folders)
    requires Grounded(fs)
    ensures Ranks(fs, Depths(fs))
  {
    forall f | f in fs ensures f in Depths(fs) && (fs[f].parent.Some? ==>
      fs[f].parent.value in fs && fs[f].parent.value in Depths(fs) && Depths(fs)[fs[f].parent.value] < Depths(fs)[f])
    {
      ParentPath(fs, f);
    }
  }

  /** The folder an event was aimed at is above every other folder the event still carries. */
  lemma {:induction false} RootAbove(db: Db, f: Id) returns (root: Id)
    requires Inv(db) && f in db.folders && db.folders[f].event.Some?
    ensures root in db.folders && db.folders[root].event == db.folders[f].event
    ensures db.folders[f].event.value in db.events && db.events[db.folders[f].event.value].root == FolderRoot(root)
    ensures f == root || |Paths(db.folders)[root]| < |Paths(db.folders)[f]|
    decreases |Paths(db.folders)[f]|
  {
    assert FolderOk(db, f);
    ParentPath(db.folders, f);
    if db.folders[f].event != EventOf(db.folders, db.folders[f].parent) {
      root := f;
    } else {
      root := RootAbove(db, db.folders[f].parent.value);
    }
  }

  /** Among active folders, and among the folders one event carries, a path names one folder. */
  lemma {:induction false} PathLocates(db: Db, f: Id, g: Id)
    requires Inv(db) && f in db.folders && g in db.folders
    requires db.folders[f].user == db.folders[g].user && db.folders[f].kind == db.folders[g].kind
    requires db.folders[f].event == db.folders[g].event
    requires Paths(db.folders)[f] == Paths(db.folders)[g]
    ensures f == g
    decreases |Paths(db.folders)[f]|
  {
    var fs, p := db.folders, Paths(db.folders);
    assert FolderOk(db, f) && FolderOk(db, g);
    ParentPath(fs, f);
    ParentPath(fs, g);
    if fs[f].event != EventOf(fs, fs[f].parent) || fs[g].event != EventOf(fs, fs[g].parent) {
      var r := RootAbove(db, f);
      var s := RootAbove(db, g);
    } else {
      var up, vp := At(p, fs[f].parent), At(p, fs[g].parent);
      assert p[f] == up + [fs[f].name] && p[g] == vp + [fs[g].name];
      assert up == p[f][..|p[f]| - 1] == p[g][..|p[g]| - 1] == vp;
      if fs[f].parent.Some? && fs[g].parent.Some? {
        PathLocates(db, fs[f].parent.value, fs[g].parent.value);
      } else {
        OnlyRootIsEmpty(fs, fs[f].parent);
        OnlyRootIsEmpty(fs, fs[g].parent);
      }
      assert fs[f].parent == fs[g].parent;
      assert p[f][|p[f]| - 1] == fs[f].name && p[g][|p[g]| - 1] == fs[g].name;
      assert SameSlot(fs[f], fs[g]);
    }
  }

  /** Two items of one owner and table, both active or both in one event, differ in folder path or name. */
  lemma ItemLocated(db: Db, r: Ref, s: Ref)
    requires Inv(db) && r in db.items && s in db.items
    requires r.kind == s.kind && db.items[r].user == db.items[s].user
    requires db.items[r].event == db.items[s].event
    requires PathOf(db.folders, db.items[r].folder) == PathOf(db.folders, db.items[s].folder)
    requires db.items[r].name == db.items[s].name
    ensures r == s
  {
    var x, y := db.items[r], db.items[s];
    assert ItemOk(db, r) && ItemOk(db, s);
    if x.folder.Some? { assert FolderOk(db, x.folder.value); }
    if y.folder.Some? { assert FolderOk(db, y.folder.value); }
    if x.event == EventOf(db.folders, x.folder) && y.event == EventOf(db.folders, y.folder) {
      if x.folder.Some? && y.folder.Some? {
        PathLocates(db, x.folder.value, y.folder.value);
      } else {
        OnlyRootIsEmpty(db.folders, x.folder);
        OnlyRootIsEmpty(db.folders, y.folder);
      }
      assert SameItemSlot(db.items, r, s);
    }
  }

  /** An active folder's path is spelled by active folders all the way down. */
  lemma {:induction false} ActivePrefix(db: Db, f: Id, n: nat) returns (g: Id)
    requires Inv(db) && f in db.folders && !db.folders[f].deleted
    requires 1 <= n <= |Paths(db.folders)[f]|
    ensures g in db.folders && !db.folders[g].deleted
    ensures db.folders[g].user == db.folders[f].user && db.folders[g].kind == db.folders[f].kind
    ensures Paths(db.folders)[g] == Paths(db.folders)[f][..n]
    decreases |Paths(db.folders)[f]|
  {
    var fs, p := db.folders, Paths(db.folders);
    assert FolderOk(db, f);
    ParentPath(fs, f);
    if n == |p[f]| {
      g := f;
    } else {
      assert fs[f].parent.Some?;
      var up := fs[f].parent.value;
      assert FolderOk(db, up);
      assert p[f] == p[up] + [fs[f].name];
      g := ActivePrefix(db, up, n);
      assert p[up][..n] == p[f][..n];
    }
  }

  /** `f` carries event `v` and hangs below `top` through folders that all carry `v`. */
  ghost predicate Below(fs: Folders, v: Option<Id>, top: Id, f: Id)
    requires Grounded(fs)
    decreases |At(Paths(fs), Some(f))|
  {
    && f in fs
    && fs[f].event == v
    && (f == top || (fs[f].parent.Some? && (ParentPath(fs, f); Below(fs, v, top, fs[f].parent.value))))
  }

  ghost function Subtree(fs: Folders, v: Option<Id>, top: Id): set<Id> {
    if Grounded(fs) then set f | f in fs && Below(fs, v, top, f) else {}
  }

  /** Membership, one step at a time. */
  lemma SubtreeStep(fs: Folders, v: Option<Id>, top: Id, f: Id)
    requires Grounded(fs) && f in fs
    ensures f in Subtree(fs, v, top) <==>
      fs[f].event == v && (f == top || (fs[f].parent.Some? && fs[f].parent.value in Subtree(fs, v, top)))
  {
    ParentPath(fs, f);
  }

  /** Everything in a subtree lies under its top, strictly deeper. */
  lemma {:induction false} SubtreePaths(fs: Folders, v: Option<Id>, top: Id, f: Id)
    requires Grounded(fs) && f in Subtree(fs, v, top)
    ensures top in fs && fs[top].event == v
    ensures Paths(fs)[top] <= Paths(fs)[f]
    ensures f == top || |Paths(fs)[top]| < |Paths(fs)[f]|
    decreases |Paths(fs)[f]|
  {
    ParentPath(fs, f);
    if f != top {
      SubtreePaths(fs, v, top, fs[f].parent.value);
    }
  }

  /** A folder strictly inside a subtree is in the subtree of exactly one child of the top. */
  lemma {:induction false} ChildAbove(fs: Folders, v: Option<Id>, top: Id, f: Id) returns (c: Id)
    requires Grounded(fs) && f in Subtree(fs, v, top) && f != top
    ensures c in fs && fs[c].parent == Some(top) && fs[c].event == v && f in Subtree(fs, v, c)
    decreases |Paths(fs)[f]|
  {
    ParentPath(fs, f);
    var up := fs[f].parent.value;
    if up == top {
      c := f;
    } else {
      c := ChildAbove(fs, v, top, up);
    }
  }

  lemma {:induction false} ChildrenApart(fs: Folders, v: Option<Id>, top: Id, c: Id, d: Id, f: Id)
    requires Grounded(fs) && c in fs && d in fs && fs[c].parent == fs[d].parent == Some(top)
    requires f in Subtree(fs, v, c) && f in Subtree(fs, v, d)
    ensures c == d
    decreases |Paths(fs)[f]|
  {
    ParentPath(fs, f);
    if f == c || f == d {
      SubtreePaths(fs, v, c, f);
      SubtreePaths(fs, v, d, f);
      ParentPath(fs, c);
      ParentPath(fs, d);
    } else {
      ChildrenApart(fs, v, top, c, d, fs[f].parent.value);
    }
  }

  /** A child's subtree is inside its parent's, and leaves the parent out. */
  lemma {:induction false} ChildInside(fs: Folders, v: Option<Id>, top: Id, c: Id, f: Id)
    requires Grounded(fs) && top in fs && fs[top].event == v && c in fs && fs[c].parent == Some(top)
    requires f in Subtree(fs, v, c)
    ensures f in Subtree(fs, v, top) && f != top
    decreases |Paths(fs)[f]|
  {
    SubtreePaths(fs, v, c, f);
    ParentPath(fs, f);
    ParentPath(fs, c);
    if f != c {
      ChildInside(fs, v, top, c, fs[f].parent.value);
    } else {
      assert Below(fs, v, top, top);
    }
  }

  lemma {:induction false} WasBelow(fs: Folders, gs: Folders, v: Option<Id>, top: Id, f: Id)
    requires Grounded(fs) && Grounded(gs) && f in Subtree(gs, v, top)
    requires forall g :: g in gs && gs[g].event == v ==> g in fs && fs[g] == gs[g]
    ensures f in Subtree(fs, v, top)
    decreases |Paths(gs)[f]|
  {
    ParentPath(gs, f);
    if f != top {
      WasBelow(fs, gs, v, top, gs[f].parent.value);
    }
  }

  lemma {:induction false} StaysBelow(fs: Folders, gs: Folders, v: Option<Id>, top: Id, f: Id)
    requires Grounded(fs) && Grounded(gs) && f in Subtree(fs, v, top)
    requires forall g :: g in Subtree(fs, v, top) ==> g in gs && gs[g] == fs[g]
    ensures f in Subtree(gs, v, top)
    decreases |Paths(fs)[f]|
  {
    ParentPath(fs, f);
    if f != top {
      StaysBelow(fs, gs, v, top, fs[f].parent.value);
    }
  }

  /** Two tables that agree on a subtree, the second having no other folder of that event, have the
      same subtree. */
  lemma SubtreeStable(fs: Folders, gs: Folders, v: Option<Id>, top: Id)
    requires Grounded(fs) && Grounded(gs)
    requires forall f :: f in gs && gs[f].event == v ==> f in fs && fs[f] == gs[f]
    requires forall f :: f in Subtree(fs, v, top) ==> f in gs && gs[f] == fs[f]
    ensures Subtree(fs, v, top) == Subtree(gs, v, top)
  {
    forall f | f in Subtree(fs, v, top) ensures f in Subtree(gs, v, top) {
      StaysBelow(fs, gs, v, top, f);
    }
    forall f | f in Subtree(gs, v, top) ensures f in Subtree(fs, v, top) {
      WasBelow(fs, gs, v, top, f);
    }
  }

  /** Two folder tables that differ in state flags only spell the same paths. */
  lemma SameTree(fs: Folders, gs: Folders)
    requires Grounded(fs) && gs.Keys == fs.Keys
    requires forall f :: f in fs ==> gs[f].parent == fs[f].parent && gs[f].name == fs[f].name
    ensures Grounded(gs) && Paths(gs) == Paths(fs)
  {
    forall f | f in gs ensures Labelled(gs, Paths(fs), f) {
      ParentPath(fs, f);
    }
    PathsUnique(gs, Paths(fs));
  }

  lemma {:induction false} SubtreeOwner(db: Db, v: Option<Id>, top: Id, f: Id)
    requires Inv(db) && f in Subtree(db.folders, v, top)
    ensures top in db.folders
    ensures db.folders[f].user == db.folders[top].user && db.folders[f].kind == db.folders[top].kind
    decreases |Paths(db.folders)[f]|
  {
    ParentPath(db.folders, f);
    if f != top {
      assert FolderOk(db, f);
      SubtreeOwner(db, v, top, db.folders[f].parent.value);
    }
  }

  /** What is filed directly in a folder belongs to its owner and tree. */
  lemma SameOwnerBelow(db: Db, top: Id)
    requires Inv(db) && top in db.folders
    ensures forall f :: f in db.folders && db.folders[f].parent == Some(top) ==>
      db.folders[f].user == db.folders[top].user
    ensures forall r :: r in db.items && db.items[r].folder == Some(top) ==>
      db.items[r].user == db.folders[top].user && r.kind == db.folders[top].kind
  {
    forall f | f in db.folders && db.folders[f].parent == Some(top) ensures db.folders[f].user == db.folders[top].user {
      assert FolderOk(db, f);
    }
    forall r | r in db.items && db.items[r].folder == Some(top)
      ensures db.items[r].user == db.folders[top].user && r.kind == db.folders[top].kind
    {
      assert ItemOk(db, r);
    }
  }
}
