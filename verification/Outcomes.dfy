/** What a finished restore leaves, row by row: the fate of every folder, and that nothing else was open. */
module Outcomes {
  import opened Base
  import opened Tables
  import opened Tree
  import opened Statements
  import opened Untrashing
  import opened Placement
  import opened Steps

  lemma RetainedHandled(c: Restore, a: Db, d: Db, X: set<Id>, Y: set<Ref>, f: Id, r: Ref)
    requires Handled(c, a, X, Y) && f in X && Retained(c, a, d, f, r)
    ensures r in Y && r in a.items && a.items[r].folder.Some?
  {
    SealedSubtree(c, a, X, f, a.items[r].folder.value);
    assert r in Carried(a, c.event, X);
  }

  /** Whatever stays in the event keeps in it the folders above, up to the folder asked about. */
  lemma {:induction false} StaysAbove(c: Restore, a: Db, d: Db, X: set<Id>, Y: set<Ref>, f: Id, g: Id)
    requires Inv(a) && Inv(d) && Placed(c, a, d, X, Y) && Handled(c, a, X, Y)
    requires f in X && g in Subtree(a.folders, Some(c.event), f)
    requires g in d.folders && d.folders[g].event == Some(c.event)
    ensures f in d.folders && d.folders[f].event == Some(c.event)
    decreases |Paths(a.folders)[g]|
  {
    ParentPath(a.folders, g);
    if g != f {
      var root := RootAbove(a, f);
      SubtreePaths(a.folders, Some(c.event), f, g);
      EventRows(c, a, d, X, g);
      assert FolderOk(d, g);
      ParentPath(d.folders, g);
      StaysAbove(c, a, d, X, Y, f, a.folders[g].parent.value);
    }
  }

  /** A folder in or below which an item stays in the event stays too, exactly as it was. */
  lemma RetainsStays(c: Restore, a: Db, d: Db, X: set<Id>, Y: set<Ref>, f: Id)
    requires Inv(a) && Inv(d) && Placed(c, a, d, X, Y) && Handled(c, a, X, Y)
    requires f in X && Retains(c, a, d, f)
    ensures f in d.folders && d.folders[f] == a.folders[f]
  {
    var r :| Retained(c, a, d, f, r);
    RetainedHandled(c, a, d, X, Y, f, r);
    assert FolderOk(a, f) && ItemPlaced(c, a, d, Y, r) && ItemOk(d, r);
    StaysAbove(c, a, d, X, Y, f, a.items[r].folder.value);
    EventRows(c, a, d, X, f);
  }

  /** The folders are the restoring user's, in the tree restored to, and longer in path than the way. */
  ghost predicate Beyond(c: Restore, a: Db, way: Path, X: set<Id>) {
    forall f :: f in X ==>
      && f in a.folders && a.folders[f].user == c.user && a.folders[f].kind == c.kind
      && |way| < |PathOf(a.folders, Some(f))|
  }

  /** An active folder is at its path before and after. */
  lemma StillActive(c: Restore, a: Db, d: Db, X: set<Id>, Y: set<Ref>, g: Id)
    requires Placed(c, a, d, X, Y) && Handled(c, a, X, Y) && g in a.folders && a.folders[g].event.None?
    ensures g in d.folders && d.folders[g].event.None? && PathOf(d.folders, Some(g)) == PathOf(a.folders, Some(g))
    ensures d.folders[g].user == a.folders[g].user && d.folders[g].kind == a.folders[g].kind
  {
    assert FolderMerged(c, a, d, X, g);
    assert FolderPlaced(c, a, d, X, g);
  }

  /** An active folder that takes the path of a restored folder was active there before, or is that folder. */
  lemma WasActive(c: Restore, way: Path, a: Db, d: Db, X: set<Id>, Y: set<Ref>, f: Id, g: Id)
    requires Inv(a) && Placed(c, a, d, X, Y) && Handled(c, a, X, Y) && f in X && Beyond(c, a, way, X)
    requires OnTheWay(a.folders, d.folders, c.user, c.kind, way)
    requires g in d.folders && d.folders[g].event.None? && d.folders[g].user == c.user && d.folders[g].kind == c.kind
    requires PathOf(d.folders, Some(g)) == PathOf(a.folders, Some(f))
    ensures g == f || ActiveAt(a.folders, c.user, c.kind, PathOf(a.folders, Some(f)))
  {
    assert FolderPlaced(c, a, d, X, g);
    if g in a.folders && a.folders[g].event.Some? {
      ParentPath(a.folders, f);
      ParentPath(a.folders, g);
      PathLocates(a, f, g);
    }
  }

  /** The fate of a folder of the event, whatever the resolutions: it stays, as it was, if an item in or below it stays;
      else it is gone if an active folder had its path, and active again if none had. */
  lemma FolderFate(c: Restore, way: Path, a: Db, d: Db, X: set<Id>, Y: set<Ref>, q: seq<Conflict>, f: Id)
    requires Inv(a) && Finished(c, way, a, d, X, Y, q) && Beyond(c, a, way, X) && f in X
    ensures
      if Retains(c, a, d, f) then f in d.folders && d.folders[f] == a.folders[f]
      else if ActiveAt(a.folders, c.user, c.kind, PathOf(a.folders, Some(f))) then f !in d.folders
      else f in d.folders && d.folders[f].event.None?
  {
    var path := PathOf(a.folders, Some(f));
    if Retains(c, a, d, f) {
      RetainsStays(c, a, d, X, Y, f);
    } else if g :| g in a.folders && a.folders[g].event.None? && a.folders[g].user == c.user
                   && a.folders[g].kind == c.kind && PathOf(a.folders, Some(g)) == path {
      StillActive(c, a, d, X, Y, g);
      if f in d.folders {
        assert FolderPlaced(c, a, d, X, f);
        ParentPath(d.folders, f);
        ParentPath(d.folders, g);
        PathLocates(d, f, g);
      }
    } else {
      assert FolderMerged(c, a, d, X, f);
      if f !in d.folders {
        var g :| g in d.folders && d.folders[g].event.None? && d.folders[g].user == c.user
                 && d.folders[g].kind == c.kind && PathOf(d.folders, Some(g)) == path;
        WasActive(c, way, a, d, X, Y, f, g);
      }
    }
  }

  /** Where no item whose place is taken is renamed, the items that stay, and so the folders, are known beforehand. */
  lemma RetainsTaken(c: Restore, a: Db, d: Db, X: set<Id>, Y: set<Ref>, f: Id)
    requires Handled(c, a, X, Y) && Exact(c, a, d, Y) && f in X
    ensures Carried(a, c.event, Subtree(a.folders, Some(c.event), f)) <= Y
    ensures Retains(c, a, d, f) <==>
      exists r :: r in Carried(a, c.event, Subtree(a.folders, Some(c.event), f)) && !Returns(c, a, r)
  {
    var below := Carried(a, c.event, Subtree(a.folders, Some(c.event), f));
    forall r | r in below ensures r in Y {
      SealedSubtree(c, a, X, f, a.items[r].folder.value);
      assert r in Carried(a, c.event, X);
    }
    if r :| r in below && !Returns(c, a, r) {
      assert Settled(c, a, d, Y, r);
      assert Retained(c, a, d, f, r);
    }
    if r :| Retained(c, a, d, f, r) {
      assert Settled(c, a, d, Y, r);
      assert r in below && !Returns(c, a, r);
    }
  }

  // --- two restores of the same part agree ---

  /** The row is in the same event in both, or in none, or in an event of its own in both. */
  ghost predicate SameState(a: Db, x: Option<Id>, y: Option<Id>) {
    x == y || (x.Some? && y.Some? && x.value !in a.events && y.value !in a.events)
  }

  ghost predicate FolderAgrees(d: Db, d': Db, f: Id) {
    && (f in d.folders <==> f in d'.folders)
    && (f in d.folders && f in d'.folders ==>
          d.folders[f].event == d'.folders[f].event && PathOf(d.folders, Some(f)) == PathOf(d'.folders, Some(f)))
  }

  ghost predicate ItemAgrees(a: Db, d: Db, d': Db, r: Ref) {
    && r in d.items && r in d'.items
    && d.items[r].name == d'.items[r].name && ItemPath(d, r) == ItemPath(d', r)
    && SameState(a, d.items[r].event, d'.items[r].event)
  }

  /** Every folder made new has a counterpart at its path. */
  ghost predicate NewFoldersMatch(a: Db, d: Db, d': Db) {
    forall f :: f in d.folders && f !in a.folders ==>
      exists g :: g in d'.folders && g !in a.folders && PathOf(d'.folders, Some(g)) == PathOf(d.folders, Some(f))
  }

  /** The two outcomes differ in nothing but the identifiers and times that were drawn. */
  ghost predicate Agree(a: Db, d: Db, d': Db) {
    && (forall f :: f in a.folders ==> FolderAgrees(d, d', f))
    && d.items.Keys == d'.items.Keys && (forall r :: r in a.items ==> ItemAgrees(a, d, d', r))
    && d.exports == d'.exports
    && (forall e :: e in a.events ==> (e in d.events <==> e in d'.events))
    && NewFoldersMatch(a, d, d') && NewFoldersMatch(a, d', d)
  }

  lemma FoldersAgree(
    c: Restore, way: Path, a: Db, d: Db, d': Db, X: set<Id>, Y: set<Ref>, q: seq<Conflict>, q': seq<Conflict>, f: Id)
    requires Inv(a) && Beyond(c, a, way, X) && Plain(c, a, Y) && f in a.folders
    requires Finished(c, way, a, d, X, Y, q) && Finished(c, way, a, d', X, Y, q')
    ensures FolderAgrees(d, d', f)
  {
    if f in X {
      RetainsTaken(c, a, d, X, Y, f);
      RetainsTaken(c, a, d', X, Y, f);
      FolderFate(c, way, a, d, X, Y, q, f);
      FolderFate(c, way, a, d', X, Y, q', f);
    }
    assert FolderMerged(c, a, d, X, f) && FolderMerged(c, a, d', X, f);
    if f in d.folders { assert FolderPlaced(c, a, d, X, f); }
    if f in d'.folders { assert FolderPlaced(c, a, d', X, f); }
  }

  lemma ItemsAgree(c: Restore, a: Db, d: Db, d': Db, X: set<Id>, Y: set<Ref>, r: Ref)
    requires Placed(c, a, d, X, Y) && Placed(c, a, d', X, Y) && Exact(c, a, d, Y) && Exact(c, a, d', Y)
    requires r in a.items
    ensures ItemAgrees(a, d, d', r)
  {
    assert ItemPlaced(c, a, d, Y, r) && Settled(c, a, d, Y, r);
    assert ItemPlaced(c, a, d', Y, r) && Settled(c, a, d', Y, r);
  }

  /** No folder of `a` is active where a new one was made. */
  lemma NotOld(c: Restore, way: Path, a: Db, d: Db, d': Db, X: set<Id>, Y: set<Ref>, f: Id, g: Id)
    requires Inv(a) && Inv(d) && Beyond(c, a, way, X) && Handled(c, a, X, Y)
    requires Placed(c, a, d, X, Y) && Placed(c, a, d', X, Y)
    requires f in d.folders && f !in a.folders && |PathOf(d.folders, Some(f))| <= |way|
    requires g in d'.folders && d'.folders[g].event.None?
    requires d'.folders[g].user == c.user && d'.folders[g].kind == c.kind
    requires PathOf(d'.folders, Some(g)) == PathOf(d.folders, Some(f))
    ensures g !in a.folders
  {
    if g in a.folders {
      assert FolderPlaced(c, a, d', X, g) && FolderPlaced(c, a, d, X, f);
      assert g !in X;
      StillActive(c, a, d, X, Y, g);
      ParentPath(d.folders, f);
      ParentPath(d.folders, g);
      PathLocates(d, f, g);
      assert false;
    }
  }

  /** A folder made new is on the way, which is open in the other outcome as well; none of it was there before. */
  lemma NewFolder(c: Restore, way: Path, a: Db, d: Db, d': Db, X: set<Id>, Y: set<Ref>, f: Id)
    requires Inv(a) && Inv(d) && Inv(d') && Beyond(c, a, way, X) && Handled(c, a, X, Y)
    requires Placed(c, a, d, X, Y) && Placed(c, a, d', X, Y)
    requires OnTheWay(a.folders, d.folders, c.user, c.kind, way) && Open(d'.folders, c.user, c.kind, way)
    requires f in d.folders && f !in a.folders
    ensures exists g :: g in d'.folders && g !in a.folders && PathOf(d'.folders, Some(g)) == PathOf(d.folders, Some(f))
  {
    ParentPath(d.folders, f);
    var path := PathOf(d.folders, Some(f));
    var end :| end in d'.folders && d'.folders[end].event.None? && d'.folders[end].user == c.user
               && d'.folders[end].kind == c.kind && PathOf(d'.folders, Some(end)) == way;
    assert FolderOk(d', end);
    var g := ActivePrefix(d', end, |path|);
    assert FolderOk(d', g);
    assert PathOf(d'.folders, Some(g)) == path;
    NotOld(c, way, a, d, d', X, Y, f, g);
  }

  lemma NewFolders(c: Restore, way: Path, a: Db, d: Db, d': Db, X: set<Id>, Y: set<Ref>)
    requires Inv(a) && Inv(d) && Inv(d') && Beyond(c, a, way, X) && Handled(c, a, X, Y)
    requires Placed(c, a, d, X, Y) && Placed(c, a, d', X, Y)
    requires OnTheWay(a.folders, d.folders, c.user, c.kind, way) && Open(d'.folders, c.user, c.kind, way)
    ensures NewFoldersMatch(a, d, d')
  {
    forall f | f in d.folders && f !in a.folders
      ensures exists g ::
        g in d'.folders && g !in a.folders && PathOf(d'.folders, Some(g)) == PathOf(d.folders, Some(f))
    {
      NewFolder(c, way, a, d, d', X, Y, f);
    }
  }

  /** The event is kept in both outcomes or in neither. */
  lemma EventAgrees(
    c: Restore, way: Path, a: Db, d: Db, d': Db, X: set<Id>, Y: set<Ref>, q: seq<Conflict>, q': seq<Conflict>)
    requires Inv(a) && Beyond(c, a, way, X) && Plain(c, a, Y) && c.event in a.events && c.event in d.events
    requires Finished(c, way, a, d, X, Y, q) && Finished(c, way, a, d', X, Y, q')
    ensures c.event in d'.events
  {
    if f :| f in d.folders && d.folders[f].event == Some(c.event) {
      assert FolderPlaced(c, a, d, X, f);
      FoldersAgree(c, way, a, d, d', X, Y, q, q', f);
      assert FolderOk(d', f);
    } else if r :| r in d.items && d.items[r].event == Some(c.event) {
      ItemsAgree(c, a, d, d', X, Y, r);
      assert ItemOk(d', r);
    } else {
      var i :| i in d.exports && d.exports[i].event == Some(c.event);
      assert ExportOk(d', i);
    }
  }

  /** Where no item whose place is taken is renamed, the outcome of a restore is determined: any two finished restores
      agree on every row, and report the same conflicts. */
  lemma OutcomeDetermined(
    c: Restore, way: Path, a: Db, d: Db, d': Db, X: set<Id>, Y: set<Ref>, q: seq<Conflict>, q': seq<Conflict>)
    requires Inv(a) && Beyond(c, a, way, X) && Plain(c, a, Y) && c.event in a.events
    requires Finished(c, way, a, d, X, Y, q) && Finished(c, way, a, d', X, Y, q')
    ensures Agree(a, d, d') && Members(q) == Members(q')
  {
    forall f | f in a.folders ensures FolderAgrees(d, d', f) {
      FoldersAgree(c, way, a, d, d', X, Y, q, q', f);
    }
    forall r | r in a.items ensures ItemAgrees(a, d, d', r) {
      ItemsAgree(c, a, d, d', X, Y, r);
    }
    NewFolders(c, way, a, d, d', X, Y);
    NewFolders(c, way, a, d', d, X, Y);
    if c.event in d.events { EventAgrees(c, way, a, d, d', X, Y, q, q'); }
    if c.event in d'.events { EventAgrees(c, way, a, d', d, X, Y, q', q); }
  }
}
