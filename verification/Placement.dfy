/** What a restore may do to the tables, as a relation that composes step by step. */
module Placement {
  import opened Base
  import opened Tables
  import opened Tree
  import opened Text
  import opened Statements

  datatype Action = Override | Skip | Rename | Unrecognized

  datatype Resolution = Resolution(action: Action, newName: string)

  datatype Conflict = Conflict(kind: Kind, id: Id, name: string, destPath: string)

  /** One restore: whose, in which tree, out of which event, with which resolutions, and when. */
  datatype Restore = Restore(user: Id, kind: Kind, event: Id, res: map<Id, Resolution>, now: int)

  /** The item's resolution asks for that action. */
  ghost predicate Asks(c: Restore, r: Ref, action: Action) {
    r.id in c.res && c.res[r.id].action == action
  }

  /** The resolution asks for the item to return under that new name. */
  ghost predicate Renames(c: Restore, r: Ref, name: string) {
    Asks(c, r, Rename) && TrimSpace(c.res[r.id].newName) == name
  }

  function PathLabel(p: Path): string {
    "/" + Join(p)
  }

  /** A label spells the names, each after a slash; the root's is a slash alone. */
  lemma LabelSpells(p: Path, name: string)
    ensures PathLabel([]) == "/"
    ensures PathLabel(p + [name]) == (if p == [] then "" else PathLabel(p)) + "/" + name
  {
    JoinAppend(p, name);
  }

  /** Where an item shows, or would show, in its tree. */
  ghost function ItemPath(db: Db, r: Ref): Path
    requires r in db.items
  {
    PathOf(db.folders, db.items[r].folder)
  }

  /** The items event `e` holds in the folders `X`. */
  ghost function Carried(db: Db, e: Id, X: set<Id>): set<Ref> {
    set r | r in db.items && db.items[r].event == Some(e) && db.items[r].folder.Some? && db.items[r].folder.value in X
  }

  // --- folders ---

  ghost predicate FolderPlaced(c: Restore, a: Db, b: Db, X: set<Id>, f: Id)
    requires f in b.folders
  {
    if f !in a.folders then
      b.folders[f].event.None? && b.folders[f].user == c.user && b.folders[f].kind == c.kind
    else
      var x, y := a.folders[f], b.folders[f];
      && y.user == x.user && y.kind == x.kind && y.name == x.name
      && PathOf(b.folders, Some(f)) == PathOf(a.folders, Some(f))
      && (if y.event == x.event then
            y == x || (f !in X && x.parent.Some? && x.parent.value in X && x.parent.value !in b.folders
              && y == x.(parent := y.parent))
          else
            f in X && x.event == Some(c.event) && y.event.None?)
  }

  ghost predicate FolderMerged(c: Restore, a: Db, b: Db, X: set<Id>, f: Id)
    requires f in a.folders
  {
    f !in b.folders ==> f in X && ActiveAt(b.folders, c.user, c.kind, PathOf(a.folders, Some(f)))
  }

  ghost predicate FoldersPlaced(c: Restore, a: Db, b: Db, X: set<Id>) {
    && (forall f {:trigger FolderPlaced(c, a, b, X, f)} :: f in b.folders ==> FolderPlaced(c, a, b, X, f))
    && (forall f {:trigger FolderMerged(c, a, b, X, f)} :: f in a.folders ==> FolderMerged(c, a, b, X, f))
  }

  // --- items ---

  ghost predicate ShowsAt(db: Db, s: Ref, user: Id, kind: Kind, path: Path, name: string) {
    && s in db.items && s.kind == kind && db.items[s].user == user && db.items[s].event.None?
    && ItemPath(db, s) == path && db.items[s].name == name
  }

  /** An active item already shows at the path and name of `r`. */
  ghost predicate Taken(db: Db, r: Ref)
    requires r in db.items
  {
    exists s :: ShowsAt(db, s, db.items[r].user, r.kind, ItemPath(db, r), db.items[r].name)
  }

  ghost predicate Kept(a: Db, b: Db, Y: set<Ref>, r: Ref)
    requires r in a.items && r in b.items
  {
    var x, y := a.items[r], b.items[r];
    y == x || (r !in Y && x.folder.Some? && x.folder.value !in b.folders && y == x.(folder := y.folder))
  }

  /** Active again: under its own name, if its place was free or it overrides, or under the new name asked for. */
  ghost predicate Returned(c: Restore, a: Db, b: Db, Y: set<Ref>, r: Ref)
    requires r in a.items && r in b.items
  {
    && r in Y && b.items[r].event.None?
    && ((b.items[r].name == a.items[r].name && (!Taken(a, r) || Asks(c, r, Override)))
      || Renames(c, r, b.items[r].name))
  }

  /** `j` is restored by override at the place where `b` last showed `r`. */
  ghost predicate DisplacedBy(c: Restore, a: Db, b: Db, r: Ref, j: Ref)
    requires r in a.items && r in b.items
  {
    && j in a.items && j != r && Asks(c, j, Override)
    && a.items[j].name == b.items[r].name && ItemPath(a, j) == ItemPath(a, r)
  }

  ghost predicate Displaced(c: Restore, a: Db, b: Db, Y: set<Ref>, r: Ref)
    requires r in a.items && r in b.items
  {
    && (if r in Y then b.items[r].name == a.items[r].name || Renames(c, r, b.items[r].name)
        else a.items[r].event.None? && b.items[r].name == a.items[r].name)
    && b.items[r].event.Some? && b.items[r].event.value !in a.events
    && exists j :: j in Y && DisplacedBy(c, a, b, r, j)
  }

  ghost predicate ItemPlaced(c: Restore, a: Db, b: Db, Y: set<Ref>, r: Ref)
    requires r in a.items && r in b.items
  {
    && b.items[r].user == a.items[r].user && b.items[r].blob == a.items[r].blob
    && ItemPath(b, r) == ItemPath(a, r)
    && (Kept(a, b, Y, r) || Returned(c, a, b, Y, r) || Displaced(c, a, b, Y, r))
  }

  ghost predicate ItemsPlaced(c: Restore, a: Db, b: Db, Y: set<Ref>) {
    b.items.Keys == a.items.Keys && forall r {:trigger ItemPlaced(c, a, b, Y, r)} :: r in a.items ==>
      ItemPlaced(c, a, b, Y, r)
  }

  /** The event is that of the one item `r`, trashed by the restore. */
  ghost predicate OwnEvent(c: Restore, b: Db, r: Ref, e: Id) {
    && r in b.items && b.items[r].event == Some(e)
    && e in b.events && b.events[e] == Event(b.items[r].user, ItemRoot(r), b.items[r].name, c.now)
  }

  /** Events stay as they are, but the one being restored may go; a new event is that of an item, which by
      `ItemsPlaced` an override displaced. */
  ghost predicate EventsPlaced(c: Restore, a: Db, b: Db) {
    && (forall e :: e in a.events ==> (e in b.events || e == c.event) && (e in b.events ==> b.events[e] == a.events[e]))
    && (forall e :: e in b.events && e !in a.events ==> exists r :: OwnEvent(c, b, r, e))
  }

  /** Going from `a` to `b` handled the folders `X` and the items `Y` of the event being restored:
      each is active again, still trashed, merged into an active folder of its path, or displaced;
      nothing else changed but the items an override displaced, each to a new event of its own, and
      the filing of rows whose folder was merged away; and no surviving row's path changed. */
  ghost predicate Placed(c: Restore, a: Db, b: Db, X: set<Id>, Y: set<Ref>) {
    FoldersPlaced(c, a, b, X) && ItemsPlaced(c, a, b, Y) && EventsPlaced(c, a, b) && b.exports == a.exports
  }

  /** `X` is a set of folders of the event in the state `a`, with every such child of its members. */
  ghost predicate Sealed(c: Restore, a: Db, X: set<Id>) {
    && (forall f :: f in X ==> f in a.folders && a.folders[f].event == Some(c.event))
    && (forall f | f in a.folders && a.folders[f].event == Some(c.event) && a.folders[f].parent.Some?
                   && a.folders[f].parent.value in X :: f in X)
  }

  /** `Y` is a set of items of the event, with everything it holds in `X`. */
  ghost predicate Handled(c: Restore, a: Db, X: set<Id>, Y: set<Ref>) {
    && Sealed(c, a, X)
    && (forall r :: r in Y ==>
      r in a.items && a.items[r].event == Some(c.event) && r.kind == c.kind && a.items[r].user == c.user)
    && Carried(a, c.event, X) <= Y
  }

  /** The second step's rows are as the first step found them. */
  ghost predicate Untouched(a: Db, b: Db, X: set<Id>, Y: set<Ref>) {
    && (forall f :: f in X ==> f in a.folders && f in b.folders && b.folders[f] == a.folders[f])
    && (forall r :: r in Y ==> r in a.items && r in b.items && b.items[r] == a.items[r])
  }

  /** No identifier of `a` that `b` dropped is taken again. */
  ghost predicate NoReuse(a: Db, b: Db, d: Db) {
    forall f :: f in d.folders && f in a.folders ==> f in b.folders
  }

  lemma ComposeFolder(c: Restore, a: Db, b: Db, d: Db, X1: set<Id>, X2: set<Id>, f: Id)
    requires FoldersPlaced(c, a, b, X1) && FoldersPlaced(c, b, d, X2) && X1 !! X2
    requires Sealed(c, a, X1) && Sealed(c, b, X2) && Untouched(a, b, X2, {})
    requires f in d.folders && NoReuse(a, b, d)
    ensures FolderPlaced(c, a, d, X1 + X2, f)
  {
    assert FolderPlaced(c, b, d, X2, f);
    if f in b.folders {
      assert FolderPlaced(c, a, b, X1, f);
      if f in a.folders && a.folders[f].parent.Some? && a.folders[f].parent.value !in b.folders
        && a.folders[f].parent.value in d.folders {
        assert FolderPlaced(c, b, d, X2, a.folders[f].parent.value);
      }
    }
  }

  lemma ComposeMerged(c: Restore, a: Db, b: Db, d: Db, X1: set<Id>, X2: set<Id>, f: Id)
    requires FoldersPlaced(c, a, b, X1) && FoldersPlaced(c, b, d, X2)
    requires Sealed(c, a, X1) && Sealed(c, b, X2) && Untouched(a, b, X2, {})
    requires f in a.folders
    ensures FolderMerged(c, a, d, X1 + X2, f)
  {
    assert FolderMerged(c, a, b, X1, f);
    if f in b.folders {
      assert FolderMerged(c, b, d, X2, f);
      assert FolderPlaced(c, a, b, X1, f);
    } else if f !in d.folders {
      var g :| g in b.folders && b.folders[g].event.None? && b.folders[g].user == c.user && b.folders[g].kind == c.kind
               && PathOf(b.folders, Some(g)) == PathOf(a.folders, Some(f));
      assert FolderMerged(c, b, d, X2, g);
      assert FolderPlaced(c, b, d, X2, g);
    }
  }

  /** A step frees no place that another item of the event needs: what an override displaces, it replaces. */
  lemma TakenStays(c: Restore, a: Db, b: Db, X: set<Id>, Y: set<Ref>, r: Ref)
    requires Inv(a) && ItemsPlaced(c, a, b, Y) && Handled(c, a, X, Y)
    requires r in a.items && r !in Y && a.items[r].event == Some(c.event) && r in b.items && b.items[r] == a.items[r]
    requires r.kind == c.kind && a.items[r].user == c.user && Taken(a, r)
    ensures Taken(b, r)
  {
    assert ItemPlaced(c, a, b, Y, r);
    var s :| ShowsAt(a, s, a.items[r].user, r.kind, ItemPath(a, r), a.items[r].name);
    assert ItemPlaced(c, a, b, Y, s);
    if Displaced(c, a, b, Y, s) {
      var j :| j in Y && DisplacedBy(c, a, b, s, j);
      ItemLocated(a, r, j);
    }
    assert ShowsAt(b, s, a.items[r].user, r.kind, ItemPath(a, r), a.items[r].name);
  }

  /** Two steps of a restore, the second on a part of the event that the first left alone. */
  ghost predicate TwoSteps(c: Restore, a: Db, b: Db, d: Db, X1: set<Id>, X2: set<Id>, Y1: set<Ref>, Y2: set<Ref>) {
    && Inv(a) && Inv(b) && c.event in b.events && X1 !! X2 && Y1 !! Y2
    && Placed(c, a, b, X1, Y1) && Placed(c, b, d, X2, Y2)
    && Handled(c, a, X1, Y1) && Handled(c, b, X2, Y2) && Untouched(a, b, X2, Y2) && NoReuse(a, b, d)
  }

  lemma DisplacedSecond(
    c: Restore, a: Db, b: Db, d: Db, X1: set<Id>, X2: set<Id>, Y1: set<Ref>, Y2: set<Ref>, r: Ref)
    requires TwoSteps(c, a, b, d, X1, X2, Y1, Y2)
    requires r in a.items && ItemPlaced(c, a, b, Y1, r) && r in d.items && Displaced(c, b, d, Y2, r)
    ensures Displaced(c, a, d, Y1 + Y2, r)
  {
    var j :| j in Y2 && DisplacedBy(c, b, d, r, j);
    assert ItemPlaced(c, a, b, Y1, j);
    assert DisplacedBy(c, a, d, r, j);
  }

  lemma KeptBoth(
    c: Restore, a: Db, b: Db, d: Db, X1: set<Id>, X2: set<Id>, Y1: set<Ref>, Y2: set<Ref>, r: Ref)
    requires TwoSteps(c, a, b, d, X1, X2, Y1, Y2)
    requires r in a.items && r in b.items && Kept(a, b, Y1, r) && r in d.items && Kept(b, d, Y2, r)
    ensures Kept(a, d, Y1 + Y2, r)
  {
    assert ItemOk(a, r) && ItemOk(b, r);
    if b.items[r].folder.Some? { assert FolderMerged(c, b, d, X2, b.items[r].folder.value); }
  }

  lemma KeptSecond(
    c: Restore, a: Db, b: Db, d: Db, X1: set<Id>, X2: set<Id>, Y1: set<Ref>, Y2: set<Ref>, r: Ref)
    requires TwoSteps(c, a, b, d, X1, X2, Y1, Y2)
    requires r in a.items && ItemPlaced(c, a, b, Y1, r) && r in d.items && Kept(b, d, Y2, r)
    ensures Kept(a, d, Y1 + Y2, r) || Returned(c, a, d, Y1 + Y2, r) || Displaced(c, a, d, Y1 + Y2, r)
  {
    assert ItemOk(a, r) && ItemOk(b, r);
    if b.items[r].folder.Some? { assert FolderMerged(c, b, d, X2, b.items[r].folder.value); }
    if Displaced(c, a, b, Y1, r) {
      var j :| j in Y1 && DisplacedBy(c, a, b, r, j);
      assert DisplacedBy(c, a, d, r, j);
      assert Displaced(c, a, d, Y1 + Y2, r);
    } else if Returned(c, a, b, Y1, r) {
      assert Returned(c, a, d, Y1 + Y2, r);
    } else {
      KeptBoth(c, a, b, d, X1, X2, Y1, Y2, r);
    }
  }

  lemma ComposeItem(
    c: Restore, a: Db, b: Db, d: Db, X1: set<Id>, X2: set<Id>, Y1: set<Ref>, Y2: set<Ref>, r: Ref)
    requires TwoSteps(c, a, b, d, X1, X2, Y1, Y2) && r in a.items
    ensures ItemPlaced(c, a, d, Y1 + Y2, r)
  {
    assert ItemPlaced(c, a, b, Y1, r) && ItemPlaced(c, b, d, Y2, r);
    if Displaced(c, b, d, Y2, r) {
      DisplacedSecond(c, a, b, d, X1, X2, Y1, Y2, r);
    } else if Returned(c, b, d, Y2, r) {
      if Taken(a, r) { TakenStays(c, a, b, X1, Y1, r); }
    } else {
      KeptSecond(c, a, b, d, X1, X2, Y1, Y2, r);
    }
  }

  /** A new event of the first step is still that of its item. */
  lemma ComposeEvents(
    c: Restore, a: Db, b: Db, d: Db, X1: set<Id>, X2: set<Id>, Y1: set<Ref>, Y2: set<Ref>, e: Id)
    requires TwoSteps(c, a, b, d, X1, X2, Y1, Y2) && e in d.events && e !in a.events
    ensures exists r :: OwnEvent(c, d, r, e)
  {
    if e in b.events {
      var r :| OwnEvent(c, b, r, e);
      assert ItemOk(a, r) && ItemPlaced(c, b, d, Y2, r);
      assert OwnEvent(c, d, r, e);
    }
  }

  /** Two steps on disjoint parts of the event are one step on both. */
  lemma Compose(c: Restore, a: Db, b: Db, d: Db, X1: set<Id>, X2: set<Id>, Y1: set<Ref>, Y2: set<Ref>)
    requires TwoSteps(c, a, b, d, X1, X2, Y1, Y2)
    ensures Placed(c, a, d, X1 + X2, Y1 + Y2)
  {
    forall f | f in d.folders ensures FolderPlaced(c, a, d, X1 + X2, f) {
      ComposeFolder(c, a, b, d, X1, X2, f);
    }
    forall f | f in a.folders ensures FolderMerged(c, a, d, X1 + X2, f) {
      ComposeMerged(c, a, b, d, X1, X2, f);
    }
    forall r | r in a.items ensures ItemPlaced(c, a, d, Y1 + Y2, r) {
      ComposeItem(c, a, b, d, X1, X2, Y1, Y2, r);
    }
    forall e | e in d.events && e !in a.events ensures exists r :: OwnEvent(c, d, r, e) {
      ComposeEvents(c, a, b, d, X1, X2, Y1, Y2, e);
    }
  }

  // --- conflicts: none is reported without a cause ---

  ghost function ConflictOf(db: Db, r: Ref): Conflict
    requires r in db.items
  {
    Conflict(r.kind, r.id, db.items[r].name, PathLabel(ItemPath(db, r)))
  }

  /** Another item being restored, at the same path, comes back under that name. */
  ghost predicate Claims(c: Restore, a: Db, Y: set<Ref>, r: Ref, s: Ref, name: string)
    requires r in a.items
  {
    s in Y && s in a.items && s != r && ItemPath(a, s) == ItemPath(a, r)
      && (a.items[s].name == name || Renames(c, s, name))
  }

  /** The name at the path of `r` is held by an active item or claimed by another item being restored. */
  ghost predicate Contested(c: Restore, a: Db, Y: set<Ref>, r: Ref, name: string)
    requires r in a.items
  {
    (exists s :: ShowsAt(a, s, c.user, c.kind, ItemPath(a, r), name)) || (exists s :: Claims(c, a, Y, r, s, name))
  }

  /** The resolutions of the restore settle whatever may happen to `r`. */
  ghost predicate Resolved(c: Restore, a: Db, Y: set<Ref>, r: Ref)
    requires r in a.items
  {
    Contested(c, a, Y, r, a.items[r].name) ==>
      || Asks(c, r, Skip) || Asks(c, r, Override)
      || (exists name :: Renames(c, r, name) && name != "" && !Contested(c, a, Y, r, name))
  }

  /** `x` reports that `r` cannot be placed: its own name is contested, and it has no usable resolution, or it is to
      get a new name, which is blank or, if it is the one reported, contested too. */
  ghost predicate Reports(c: Restore, a: Db, Y: set<Ref>, r: Ref, x: Conflict)
    requires r in a.items
  {
    && x == ConflictOf(a, r).(name := x.name) && Contested(c, a, Y, r, a.items[r].name)
    && if Asks(c, r, Rename) then
         if Renames(c, r, "") then x.name == a.items[r].name
         else Renames(c, r, x.name) && Contested(c, a, Y, r, x.name)
       else
         x.name == a.items[r].name && !Asks(c, r, Skip) && !Asks(c, r, Override)
  }

  ghost predicate Justified(c: Restore, a: Db, Y: set<Ref>, x: Conflict) {
    exists r :: r in Y && r in a.items && Reports(c, a, Y, r, x)
  }

  /** What contests a name after a step contested it before. */
  lemma ContestedBefore(
    c: Restore, a: Db, b: Db, X1: set<Id>, Y1: set<Ref>, Y2: set<Ref>, r: Ref, name: string)
    requires Placed(c, a, b, X1, Y1) && Handled(c, a, X1, Y1) && Untouched(a, b, {}, Y2) && Y1 !! Y2 && r in Y2
    requires Contested(c, b, Y2, r, name)
    ensures Contested(c, a, Y1 + Y2, r, name)
  {
    assert ItemPlaced(c, a, b, Y1, r);
    if s :| ShowsAt(b, s, c.user, c.kind, ItemPath(b, r), name) {
      assert ItemPlaced(c, a, b, Y1, s);
      assert ShowsAt(a, s, c.user, c.kind, ItemPath(a, r), name) || Claims(c, a, Y1 + Y2, r, s, name);
    } else {
      var s :| Claims(c, b, Y2, r, s, name);
      assert ItemPlaced(c, a, b, Y1, s);
      assert Claims(c, a, Y1 + Y2, r, s, name);
    }
  }

  lemma JustifiedBefore(
    c: Restore, a: Db, b: Db, X1: set<Id>, Y1: set<Ref>, Y2: set<Ref>, x: Conflict)
    requires Placed(c, a, b, X1, Y1) && Handled(c, a, X1, Y1) && Untouched(a, b, {}, Y2) && Y1 !! Y2
    requires Justified(c, b, Y2, x)
    ensures Justified(c, a, Y1 + Y2, x)
  {
    var r :| r in Y2 && r in b.items && Reports(c, b, Y2, r, x);
    assert ItemPlaced(c, a, b, Y1, r);
    ContestedBefore(c, a, b, X1, Y1, Y2, r, a.items[r].name);
    if Contested(c, b, Y2, r, x.name) { ContestedBefore(c, a, b, X1, Y1, Y2, r, x.name); }
    assert Reports(c, a, Y1 + Y2, r, x);
  }

  lemma ContestedStill(c: Restore, a: Db, Y1: set<Ref>, Y2: set<Ref>, r: Ref, name: string)
    requires r in a.items && Contested(c, a, Y1, r, name)
    ensures Contested(c, a, Y1 + Y2, r, name)
  {
    if s :| Claims(c, a, Y1, r, s, name) { assert Claims(c, a, Y1 + Y2, r, s, name); }
  }

  lemma JustifiedStill(c: Restore, a: Db, Y1: set<Ref>, Y2: set<Ref>, x: Conflict)
    requires Justified(c, a, Y1, x)
    ensures Justified(c, a, Y1 + Y2, x)
  {
    var r :| r in Y1 && r in a.items && Reports(c, a, Y1, r, x);
    ContestedStill(c, a, Y1, Y2, r, a.items[r].name);
    if Contested(c, a, Y1, r, x.name) { ContestedStill(c, a, Y1, Y2, r, x.name); }
    assert Reports(c, a, Y1 + Y2, r, x);
  }

  lemma ReportedUnresolved(c: Restore, a: Db, Y: set<Ref>, r: Ref, x: Conflict)
    requires r in a.items && Reports(c, a, Y, r, x)
    ensures !Resolved(c, a, Y, r)
  {
  }

  /** When every item is resolved, nothing can be reported. */
  lemma ResolvedCommits(c: Restore, a: Db, Y: set<Ref>, conflicts: seq<Conflict>)
    requires forall r :: r in Y && r in a.items ==> Resolved(c, a, Y, r)
    requires forall x :: x in conflicts ==> Justified(c, a, Y, x)
    ensures conflicts == []
  {
    if conflicts != [] {
      assert conflicts[0] in conflicts;
      var r :| r in Y && r in a.items && Reports(c, a, Y, r, conflicts[0]);
      ReportedUnresolved(c, a, Y, r, conflicts[0]);
    }
  }

  // --- what is not contested comes home, and folders stay only for items that do not ---

  /** The item is active under its own name, or that name was contested. */
  ghost predicate ComesHome(c: Restore, a: Db, b: Db, Y: set<Ref>, r: Ref)
    requires r in a.items && r in b.items
  {
    (b.items[r].event.None? && b.items[r].name == a.items[r].name) || Contested(c, a, Y, r, a.items[r].name)
  }

  /** `r`, which the event held in or below the folder `f`, is still in the event. */
  ghost predicate Retained(c: Restore, a: Db, b: Db, f: Id, r: Ref) {
    && r in Carried(a, c.event, Subtree(a.folders, Some(c.event), f))
    && r in b.items && b.items[r].event == Some(c.event)
  }

  ghost predicate Retains(c: Restore, a: Db, b: Db, f: Id) {
    exists r :: Retained(c, a, b, f, r)
  }

  /** Whatever the resolutions: an item comes back under its own name unless that is contested, and a folder stays in
      the trash only if an item in or below it does. */
  ghost predicate Home(c: Restore, a: Db, b: Db, X: set<Id>, Y: set<Ref>) {
    && (forall r {:trigger ComesHome(c, a, b, Y, r)} :: r in Y && r in a.items && r in b.items ==>
          ComesHome(c, a, b, Y, r))
    && (forall f :: f in X && f in b.folders && b.folders[f].event.Some? ==> Retains(c, a, b, f))
  }

  lemma ComposeHomecoming(
    c: Restore, a: Db, b: Db, d: Db, X1: set<Id>, X2: set<Id>, Y1: set<Ref>, Y2: set<Ref>, r: Ref)
    requires TwoSteps(c, a, b, d, X1, X2, Y1, Y2) && Home(c, a, b, X1, Y1) && Home(c, b, d, X2, Y2)
    requires r in Y1 + Y2 && r in a.items && r in d.items
    ensures ComesHome(c, a, d, Y1 + Y2, r)
  {
    assert ItemPlaced(c, a, b, Y1, r) && ItemPlaced(c, b, d, Y2, r);
    if r in Y2 {
      assert ComesHome(c, b, d, Y2, r);
      if Contested(c, b, Y2, r, b.items[r].name) { ContestedBefore(c, a, b, X1, Y1, Y2, r, b.items[r].name); }
    } else if Contested(c, a, Y1, r, a.items[r].name) {
      ContestedStill(c, a, Y1, Y2, r, a.items[r].name);
    } else {
      assert ComesHome(c, a, b, Y1, r);
      if Displaced(c, b, d, Y2, r) {
        var j :| j in Y2 && DisplacedBy(c, b, d, r, j);
        assert ItemPlaced(c, a, b, Y1, j);
        assert Claims(c, a, Y1 + Y2, r, j, a.items[r].name);
      }
    }
  }

  lemma {:induction false} SealedSubtree(c: Restore, a: Db, X: set<Id>, top: Id, f: Id)
    requires Grounded(a.folders) && Sealed(c, a, X) && top in X && f in Subtree(a.folders, Some(c.event), top)
    ensures f in X
    decreases |Paths(a.folders)[f]|
  {
    ParentPath(a.folders, f);
    if f != top { SealedSubtree(c, a, X, top, a.folders[f].parent.value); }
  }

  /** The folders a step leaves in the event are as they were. */
  lemma EventRows(c: Restore, a: Db, b: Db, X: set<Id>, f: Id)
    requires FoldersPlaced(c, a, b, X) && Sealed(c, a, X) && f in b.folders && b.folders[f].event == Some(c.event)
    ensures f in a.folders && b.folders[f] == a.folders[f]
  {
    assert FolderPlaced(c, a, b, X, f);
  }

  /** What holds a folder of the first part holds it through the second step. */
  lemma RetainedFirst(
    c: Restore, a: Db, b: Db, d: Db, X1: set<Id>, X2: set<Id>, Y1: set<Ref>, Y2: set<Ref>, f: Id, r: Ref)
    requires TwoSteps(c, a, b, d, X1, X2, Y1, Y2) && f in X1 && Retained(c, a, b, f, r)
    ensures Retained(c, a, d, f, r)
  {
    SealedSubtree(c, a, X1, f, a.items[r].folder.value);
    assert r in Carried(a, c.event, X1);
    assert ItemPlaced(c, b, d, Y2, r);
  }

  /** What holds a folder of the second part was there before the first step. */
  lemma RetainedSecond(
    c: Restore, a: Db, b: Db, d: Db, X1: set<Id>, X2: set<Id>, Y1: set<Ref>, Y2: set<Ref>, f: Id, r: Ref)
    requires TwoSteps(c, a, b, d, X1, X2, Y1, Y2) && f in X2 && Retained(c, b, d, f, r)
    ensures Retained(c, a, d, f, r)
  {
    assert FolderOk(a, f) && ItemOk(a, r);
    assert ItemPlaced(c, a, b, Y1, r);
    if a.items[r].folder.Some? { assert FolderMerged(c, a, b, X1, a.items[r].folder.value); }
    forall g | g in b.folders && b.folders[g].event == Some(c.event)
      ensures g in a.folders && a.folders[g] == b.folders[g]
    {
      EventRows(c, a, b, X1, g);
    }
    WasBelow(a.folders, b.folders, Some(c.event), f, b.items[r].folder.value);
  }

  lemma ComposeStays(
    c: Restore, a: Db, b: Db, d: Db, X1: set<Id>, X2: set<Id>, Y1: set<Ref>, Y2: set<Ref>, f: Id)
    requires TwoSteps(c, a, b, d, X1, X2, Y1, Y2) && Home(c, a, b, X1, Y1) && Home(c, b, d, X2, Y2)
    requires f in X1 + X2 && f in d.folders && d.folders[f].event.Some?
    ensures Retains(c, a, d, f)
  {
    if f in X1 {
      assert FolderPlaced(c, b, d, X2, f);
      var r :| Retained(c, a, b, f, r);
      RetainedFirst(c, a, b, d, X1, X2, Y1, Y2, f, r);
    } else {
      var r :| Retained(c, b, d, f, r);
      RetainedSecond(c, a, b, d, X1, X2, Y1, Y2, f, r);
    }
  }

  lemma ComposeHome(
    c: Restore, a: Db, b: Db, d: Db, X1: set<Id>, X2: set<Id>, Y1: set<Ref>, Y2: set<Ref>)
    requires TwoSteps(c, a, b, d, X1, X2, Y1, Y2) && Home(c, a, b, X1, Y1) && Home(c, b, d, X2, Y2)
    ensures Home(c, a, d, X1 + X2, Y1 + Y2)
  {
    forall r | r in Y1 + Y2 && r in a.items && r in d.items ensures ComesHome(c, a, d, Y1 + Y2, r) {
      ComposeHomecoming(c, a, b, d, X1, X2, Y1, Y2, r);
    }
    forall f | f in X1 + X2 && f in d.folders && d.folders[f].event.Some? ensures Retains(c, a, d, f) {
      ComposeStays(c, a, b, d, X1, X2, Y1, Y2, f);
    }
  }

  /** A taken name is contested. */
  lemma TakenContested(c: Restore, a: Db, Y: set<Ref>, r: Ref)
    requires r in a.items && r.kind == c.kind && a.items[r].user == c.user && Taken(a, r)
    ensures Contested(c, a, Y, r, a.items[r].name)
  {
  }

  // --- restores that rename nothing whose place is taken: what becomes of each item is determined ---

  ghost predicate Plain(c: Restore, a: Db, Y: set<Ref>) {
    forall r :: r in Y && r in a.items && Taken(a, r) ==> !Asks(c, r, Rename)
  }

  ghost predicate Overrides(c: Restore, a: Db, Y: set<Ref>, j: Ref, s: Ref) {
    j in Y && j in a.items && Asks(c, j, Override)
      && ShowsAt(a, s, a.items[j].user, j.kind, ItemPath(a, j), a.items[j].name)
  }

  /** An item of `Y` takes, by override, the place where `s` shows. */
  ghost predicate Overridden(c: Restore, a: Db, Y: set<Ref>, s: Ref) {
    exists j :: Overrides(c, a, Y, j, s)
  }

  /** The item comes back: its place is free, or it overrides. */
  ghost predicate Returns(c: Restore, a: Db, r: Ref)
    requires r in a.items
  {
    Taken(a, r) ==> Asks(c, r, Override)
  }

  ghost function Conflicting(c: Restore, a: Db, Y: set<Ref>): set<Conflict> {
    set r | r in Y && r in a.items && !Returns(c, a, r) && !Asks(c, r, Skip) :: ConflictOf(a, r)
  }

  ghost predicate Settled(c: Restore, a: Db, b: Db, Y: set<Ref>, r: Ref)
    requires r in a.items && r in b.items
  {
    if r in Y then
      if Returns(c, a, r) then b.items[r].event.None? && b.items[r].name == a.items[r].name
        else b.items[r] == a.items[r]
    else if Overridden(c, a, Y, r) then
      b.items[r].event.Some? && b.items[r].event.value !in a.events && b.items[r].name == a.items[r].name
    else
      b.items[r].event == a.items[r].event && b.items[r].name == a.items[r].name
  }

  /** Items of `Y` whose place was free in `a`, or that override, are active, the others stayed; the items in the way
      of an override are trashed by themselves; nothing else changed state or name. */
  ghost predicate Exact(c: Restore, a: Db, b: Db, Y: set<Ref>) {
    && b.items.Keys == a.items.Keys
    && (forall r {:trigger Settled(c, a, b, Y, r)} :: r in a.items ==> Settled(c, a, b, Y, r))
  }

  /** Restoring one part of an event takes no place another part of it needs, and frees none. */
  lemma StillTaken(c: Restore, a: Db, b: Db, X1: set<Id>, Y1: set<Ref>, r: Ref)
    requires Inv(a) && Placed(c, a, b, X1, Y1) && Exact(c, a, b, Y1) && Handled(c, a, X1, Y1)
    requires r in a.items && r !in Y1 && a.items[r].event == Some(c.event) && r in b.items && b.items[r] == a.items[r]
    requires r.kind == c.kind && a.items[r].user == c.user
    ensures Taken(a, r) <==> Taken(b, r)
  {
    assert ItemPlaced(c, a, b, Y1, r);
    var path, name := ItemPath(a, r), a.items[r].name;
    if Taken(a, r) {
      TakenStays(c, a, b, X1, Y1, r);
    } else if Taken(b, r) {
      var s :| ShowsAt(b, s, c.user, c.kind, path, name);
      assert ItemPlaced(c, a, b, Y1, s) && Settled(c, a, b, Y1, s);
      if s in Y1 { ItemLocated(a, r, s); }
      var already := ShowsAt(a, s, c.user, c.kind, path, name);
    }
  }

  /** The places of two items of the event differ, so an override of one never meets the other. */
  lemma NotOverridden(c: Restore, a: Db, b: Db, X1: set<Id>, Y1: set<Ref>, Y2: set<Ref>, r: Ref)
    requires Inv(a) && Placed(c, a, b, X1, Y1) && Handled(c, a, X1, Y1) && Untouched(a, b, {}, Y2) && Y1 !! Y2
    requires r in Y1 && r in b.items && b.items[r].name == a.items[r].name
    requires forall j :: j in Y2 && j in a.items ==> a.items[j].event == Some(c.event)
    ensures !Overridden(c, b, Y2, r)
  {
    if Overridden(c, b, Y2, r) {
      var j :| Overrides(c, b, Y2, j, r);
      assert ItemPlaced(c, a, b, Y1, r) && ItemPlaced(c, a, b, Y1, j);
      ItemLocated(a, r, j);
      assert false;
    }
  }

  /** What is overridden in the second step and was not in the first is overridden in `a`. */
  lemma OverriddenBefore(c: Restore, a: Db, b: Db, X1: set<Id>, Y1: set<Ref>, Y2: set<Ref>, r: Ref)
    requires Placed(c, a, b, X1, Y1) && Untouched(a, b, {}, Y2) && r in a.items && r in b.items
    requires b.items[r].event == a.items[r].event && b.items[r].name == a.items[r].name
    ensures Overridden(c, b, Y2, r) <==> Overridden(c, a, Y2, r)
  {
    assert ItemPlaced(c, a, b, Y1, r);
    forall j | j in Y2 ensures j in a.items && ItemPlaced(c, a, b, Y1, j) {
    }
    if j :| Overrides(c, b, Y2, j, r) { assert Overrides(c, a, Y2, j, r); }
    if j :| Overrides(c, a, Y2, j, r) { assert Overrides(c, b, Y2, j, r); }
  }

  lemma OverriddenUnion(c: Restore, a: Db, Y1: set<Ref>, Y2: set<Ref>, r: Ref)
    ensures Overridden(c, a, Y1 + Y2, r) <==> Overridden(c, a, Y1, r) || Overridden(c, a, Y2, r)
  {
    if j :| Overrides(c, a, Y1 + Y2, j, r) { assert Overrides(c, a, Y1, j, r) || Overrides(c, a, Y2, j, r); }
    if j :| Overrides(c, a, Y1, j, r) { assert Overrides(c, a, Y1 + Y2, j, r); }
    if j :| Overrides(c, a, Y2, j, r) { assert Overrides(c, a, Y1 + Y2, j, r); }
  }

  /** A row of the event that a step does not handle and leaves in the event is not even refiled. */
  lemma RowStays(c: Restore, b: Db, d: Db, X: set<Id>, Y: set<Ref>, r: Ref)
    requires Inv(b) && Placed(c, b, d, X, Y) && Handled(c, b, X, Y) && r in b.items && r !in Y
    requires b.items[r].event == Some(c.event) && c.event in b.events && d.items[r].event == b.items[r].event
    ensures d.items[r] == b.items[r]
  {
    assert ItemPlaced(c, b, d, Y, r) && ItemOk(b, r);
    if b.items[r].folder.Some? { assert FolderMerged(c, b, d, X, b.items[r].folder.value); }
  }

  lemma ComposeHandled(
    c: Restore, a: Db, b: Db, d: Db, X1: set<Id>, X2: set<Id>, Y1: set<Ref>, Y2: set<Ref>, r: Ref)
    requires TwoSteps(c, a, b, d, X1, X2, Y1, Y2) && Exact(c, a, b, Y1) && Exact(c, b, d, Y2)
    requires r in Y1
    ensures Settled(c, a, d, Y1 + Y2, r)
  {
    assert Settled(c, a, b, Y1, r) && Settled(c, b, d, Y2, r);
    NotOverridden(c, a, b, X1, Y1, Y2, r);
    if !Returns(c, a, r) { RowStays(c, b, d, X2, Y2, r); }
  }

  lemma ComposeOther(
    c: Restore, a: Db, b: Db, d: Db, X1: set<Id>, X2: set<Id>, Y1: set<Ref>, Y2: set<Ref>, r: Ref)
    requires TwoSteps(c, a, b, d, X1, X2, Y1, Y2) && Exact(c, a, b, Y1) && Exact(c, b, d, Y2)
    requires r in a.items && r !in Y1 && r !in Y2
    ensures Settled(c, a, d, Y1 + Y2, r)
  {
    assert Settled(c, a, b, Y1, r) && Settled(c, b, d, Y2, r);
    OverriddenUnion(c, a, Y1, Y2, r);
    if !Overridden(c, a, Y1, r) { OverriddenBefore(c, a, b, X1, Y1, Y2, r); }
  }

  lemma ComposeSettled(
    c: Restore, a: Db, b: Db, d: Db, X1: set<Id>, X2: set<Id>, Y1: set<Ref>, Y2: set<Ref>, r: Ref)
    requires TwoSteps(c, a, b, d, X1, X2, Y1, Y2) && Exact(c, a, b, Y1) && Exact(c, b, d, Y2)
    requires r in a.items
    ensures Settled(c, a, d, Y1 + Y2, r)
  {
    if r in Y1 {
      ComposeHandled(c, a, b, d, X1, X2, Y1, Y2, r);
    } else if r in Y2 {
      assert Settled(c, b, d, Y2, r);
      StillTaken(c, a, b, X1, Y1, r);
    } else {
      ComposeOther(c, a, b, d, X1, X2, Y1, Y2, r);
    }
  }

  lemma ComposeConflicts(
    c: Restore, a: Db, b: Db, d: Db, X1: set<Id>, X2: set<Id>, Y1: set<Ref>, Y2: set<Ref>)
    requires TwoSteps(c, a, b, d, X1, X2, Y1, Y2) && Exact(c, a, b, Y1)
    ensures Conflicting(c, a, Y1) + Conflicting(c, b, Y2) == Conflicting(c, a, Y1 + Y2)
    ensures forall r :: r in Y2 ==> Taken(a, r) == Taken(b, r)
  {
    forall r | r in Y2 ensures Taken(a, r) == Taken(b, r) && ConflictOf(a, r) == ConflictOf(b, r) {
      StillTaken(c, a, b, X1, Y1, r);
      assert ItemPlaced(c, a, b, Y1, r);
    }
  }

  /** Exact steps on disjoint parts compose, and their conflicts add up. */
  lemma ComposeExact(
    c: Restore, a: Db, b: Db, d: Db, X1: set<Id>, X2: set<Id>, Y1: set<Ref>, Y2: set<Ref>)
    requires TwoSteps(c, a, b, d, X1, X2, Y1, Y2) && Exact(c, a, b, Y1) && Exact(c, b, d, Y2)
    ensures Exact(c, a, d, Y1 + Y2)
    ensures Conflicting(c, a, Y1) + Conflicting(c, b, Y2) == Conflicting(c, a, Y1 + Y2)
  {
    ComposeConflicts(c, a, b, d, X1, X2, Y1, Y2);
    forall r | r in a.items ensures Settled(c, a, d, Y1 + Y2, r) {
      ComposeSettled(c, a, b, d, X1, X2, Y1, Y2, r);
    }
  }

  /** Whether the outcome is determined can be decided beforehand, for both parts. */
  lemma PlainParts(
    c: Restore, a: Db, b: Db, d: Db, X1: set<Id>, X2: set<Id>, Y1: set<Ref>, Y2: set<Ref>)
    requires TwoSteps(c, a, b, d, X1, X2, Y1, Y2) && Plain(c, a, Y1 + Y2)
    requires Plain(c, a, Y1) ==> Exact(c, a, b, Y1)
    ensures Plain(c, a, Y1) && Plain(c, b, Y2)
  {
    assert Plain(c, a, Y1);
    ComposeConflicts(c, a, b, d, X1, X2, Y1, Y2);
  }

  // --- the view a user has: active items by path ---

  datatype Entry = Entry(path: Path, name: string, item: Ref)

  ghost function Live(db: Db, user: Id, kind: Kind): set<Entry> {
    set s | s in db.items && s.kind == kind && db.items[s].user == user && db.items[s].event.None?
      :: Entry(ItemPath(db, s), db.items[s].name, s)
  }

  ghost function Entries(db: Db, Y: set<Ref>): set<Entry> {
    set r | r in Y && r in db.items :: Entry(ItemPath(db, r), db.items[r].name, r)
  }

  /** The view is a map: a path and a name show one item. */
  lemma LiveIsMap(db: Db, user: Id, kind: Kind, m: Entry, n: Entry)
    requires Inv(db) && m in Live(db, user, kind) && n in Live(db, user, kind)
    requires m.path == n.path && m.name == n.name
    ensures m == n
  {
    ItemLocated(db, m.item, n.item);
  }

  /** Restoring merges by path. The view gains the carried items whose place was free or that override, where they
      were; it loses what is overridden, and nothing else; every other owner's and tree's view is as before. */
  lemma RestoreIsUnion(c: Restore, a: Db, b: Db, X: set<Id>, Y: set<Ref>, user: Id, kind: Kind)
    requires Placed(c, a, b, X, Y) && Exact(c, a, b, Y) && Handled(c, a, X, Y)
    ensures Live(b, user, kind) == (set n | n in Live(a, user, kind) && !Overridden(c, a, Y, n.item)) +
      (if user == c.user && kind == c.kind then Entries(a, set r | r in Y && r in a.items && Returns(c, a, r)) else {})
  {
    var keep := set n | n in Live(a, user, kind) && !Overridden(c, a, Y, n.item);
    var back := set r | r in Y && r in a.items && Returns(c, a, r);
    var gain := if user == c.user && kind == c.kind then Entries(a, back) else {};
    forall n | n in Live(b, user, kind) ensures n in keep + gain {
      assert ItemPlaced(c, a, b, Y, n.item) && Settled(c, a, b, Y, n.item);
    }
    forall n | n in keep + gain ensures n in Live(b, user, kind) {
      assert ItemPlaced(c, a, b, Y, n.item) && Settled(c, a, b, Y, n.item);
    }
  }
}
