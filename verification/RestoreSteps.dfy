/** Each statement of a restore is one placement step; the steps are composed by the recursion. */
module RestoreSteps {
  import opened Base
  import opened Tables
  import opened Tree
  import opened Text
  import opened Statements
  import opened Trashing
  import opened Untrashing
  import opened Placement
  import opened Steps

  /** Nothing handled, nothing changed. */
  lemma NoStep(c: Restore, a: Db)
    ensures Placed(c, a, a, {}, {}) && Exact(c, a, a, {}) && Handled(c, a, {}, {})
  {
    forall f | f in a.folders ensures FolderPlaced(c, a, a, {}, f) && FolderMerged(c, a, a, {}, f) {
    }
    forall r | r in a.items ensures ItemPlaced(c, a, a, {}, r) && Settled(c, a, a, {}, r) {
    }
  }

  lemma NothingHandled(c: Restore, a: Db)
    ensures Handled(c, a, {}, {})
  {
  }

  /** A step that handles nothing may follow any other. */
  lemma FollowUp(c: Restore, a: Db, b: Db, d: Db, X: set<Id>, Y: set<Ref>)
    requires Inv(a) && Inv(b) && c.event in b.events && NoReuse(a, b, d) && Handled(c, a, X, Y)
    requires Placed(c, a, b, X, Y) && Placed(c, b, d, {}, {}) && Exact(c, b, d, {})
    ensures Placed(c, a, d, X, Y)
    ensures Exact(c, a, b, Y) ==> Exact(c, a, d, Y)
    ensures Home(c, a, b, X, Y) ==> Home(c, a, d, X, Y)
  {
    NothingHandled(c, b);
    Compose(c, a, b, d, X, {}, Y, {});
    EmptyUnion(X);
    EmptyUnion(Y);
    if Exact(c, a, b, Y) { ComposeExact(c, a, b, d, X, {}, Y, {}); }
    if Home(c, a, b, X, Y) { ComposeHome(c, a, b, d, X, {}, Y, {}); }
  }

  /** Creating missing ancestors handles nothing and disturbs nothing. */
  lemma GrownStep(c: Restore, a: Db, b: Db, path: Path)
    requires Inv(a) && Grown(a, b, c.user, c.kind, path)
    ensures Placed(c, a, b, {}, {}) && Exact(c, a, b, {})
  {
    forall f | f in b.folders ensures FolderPlaced(c, a, b, {}, f) {
    }
    forall f | f in a.folders ensures FolderMerged(c, a, b, {}, f) {
    }
    forall r | r in a.items ensures ItemPlaced(c, a, b, {}, r) && Settled(c, a, b, {}, r) {
      assert ItemOk(a, r);
    }
  }

  /** Dropping the event row once nothing references it. */
  lemma CleanupStep(c: Restore, a: Db)
    requires Inv(a)
    ensures var b := Cleanup(a, c.user, c.event);
      Inv(b) && Placed(c, a, b, {}, {}) && Exact(c, a, b, {})
  {
    var b := Cleanup(a, c.user, c.event);
    CleanupKeeps(a, c.user, c.event);
    forall f | f in b.folders ensures FolderPlaced(c, a, b, {}, f) && FolderMerged(c, a, b, {}, f) {
    }
    forall r | r in a.items ensures ItemPlaced(c, a, b, {}, r) && Settled(c, a, b, {}, r) {
    }
  }

  // --- one item ---

  /** The item is trashed in the event being restored, and `dest` is an active place with its path. */
  ghost predicate Returning(c: Restore, a: Db, r: Ref, dest: Option<Id>) {
    && r in a.items && r.kind == c.kind && a.items[r].user == c.user && a.items[r].event == Some(c.event)
    && Destination(a.folders, c.user, c.kind, dest) && PathOf(a.folders, dest) == ItemPath(a, r)
  }

  /** Looking for the name among the active items filed in the destination finds what shows at its path. */
  lemma TakenByName(c: Restore, a: Db, r: Ref, dest: Option<Id>)
    requires Inv(a) && Returning(c, a, r, dest)
    ensures Taken(a, r) <==> ItemNameTaken(a.items, c.kind, c.user, dest, a.items[r].name, None)
  {
    if dest.Some? { assert FolderOk(a, dest.value); }
    if Taken(a, r) {
      var s :| ShowsAt(a, s, c.user, c.kind, ItemPath(a, r), a.items[r].name);
      assert ItemOk(a, s);
      if a.items[s].folder.Some? { assert FolderOk(a, a.items[s].folder.value); }
      OnlyRootIsEmpty(a.folders, dest);
      OnlyRootIsEmpty(a.folders, a.items[s].folder);
      if dest.Some? && a.items[s].folder.Some? { PathLocates(a, dest.value, a.items[s].folder.value); }
      assert Some(s) != None && ActiveItemNamed(a.items, s, c.kind, c.user, dest, a.items[r].name);
    }
    if ItemNameTaken(a.items, c.kind, c.user, dest, a.items[r].name, None) {
      var s :| s in a.items && Some(s) != None && ActiveItemNamed(a.items, s, c.kind, c.user, dest, a.items[r].name);
      assert ItemOk(a, s);
      assert ShowsAt(a, s, c.user, c.kind, ItemPath(a, r), a.items[r].name);
    }
  }

  lemma UntrashPlaced(c: Restore, a: Db, b: Db, r: Ref, dest: Option<Id>, name: string)
    requires Inv(a) && Returning(c, a, r, dest) && b == UntrashItem(a, r, dest, name)
    requires if name == a.items[r].name then !Taken(a, r) else Renames(c, r, name)
    ensures Placed(c, a, b, {}, {r})
  {
    forall f | f in a.folders ensures FolderPlaced(c, a, b, {}, f) && FolderMerged(c, a, b, {}, f) {
    }
    forall s | s in a.items ensures ItemPlaced(c, a, b, {r}, s) {
    }
  }

  lemma UntrashExact(c: Restore, a: Db, b: Db, r: Ref, dest: Option<Id>)
    requires Inv(a) && Returning(c, a, r, dest) && b == UntrashItem(a, r, dest, a.items[r].name) && !Taken(a, r)
    ensures Exact(c, a, b, {r})
  {
    forall s | s in a.items ensures Settled(c, a, b, {r}, s) {
    }
  }

  /** Un-trashing an item into a free slot. */
  lemma UntrashStep(c: Restore, a: Db, r: Ref, dest: Option<Id>, name: string)
    requires Inv(a) && Returning(c, a, r, dest)
    requires !ItemNameTaken(a.items, c.kind, c.user, dest, name, None)
    requires name == a.items[r].name || Renames(c, r, name)
    ensures var b := UntrashItem(a, r, dest, name);
      && Inv(b) && Placed(c, a, b, {}, {r}) && Handled(c, a, {}, {r})
      && (name == a.items[r].name ==> Exact(c, a, b, {r}))
  {
    var b := UntrashItem(a, r, dest, name);
    FreeForAll(a.items, c.kind, c.user, dest, name, Some(r));
    PlaceItemKeeps(a, r, b.items[r]);
    if name == a.items[r].name {
      TakenByName(c, a, r, dest);
      UntrashExact(c, a, b, r, dest);
    }
    UntrashPlaced(c, a, b, r, dest, name);
  }

  /** Once the blocking item is trashed, its slot is free for another. */
  lemma SlotFreed(a: Db, blocker: Ref, e: Id, now: int, user: Id, dest: Option<Id>, name: string)
    requires Inv(a) && e !in a.events && ActiveItemNamed(a.items, blocker, blocker.kind, user, dest, name)
    ensures !ItemNameTaken(TrashItem(a, e, now, blocker).items, blocker.kind, user, dest, name, None)
  {
    var mid := TrashItem(a, e, now, blocker);
    assert ItemOk(a, blocker);
    forall s | s in mid.items ensures !ActiveItemNamed(mid.items, s, blocker.kind, user, dest, name) {
      if s != blocker {
        assert ItemOk(a, s);
        assert SameItemSlot(a.items, s, blocker) ==> s == blocker;
      }
    }
  }

  lemma OverridePlaced(c: Restore, a: Db, b: Db, r: Ref, dest: Option<Id>, blocker: Ref, e: Id)
    requires Inv(a) && Inv(b) && Returning(c, a, r, dest) && e !in a.events && blocker != r
    requires ActiveItemNamed(a.items, blocker, c.kind, c.user, dest, a.items[r].name)
    requires Asks(c, r, Override)
    requires b == UntrashItem(TrashItem(a, e, c.now, blocker), r, dest, a.items[r].name)
    ensures Placed(c, a, b, {}, {r})
  {
    assert ItemOk(a, blocker);
    forall f | f in a.folders ensures FolderPlaced(c, a, b, {}, f) && FolderMerged(c, a, b, {}, f) {
    }
    forall s | s in a.items ensures ItemPlaced(c, a, b, {r}, s) {
      if s == blocker { assert DisplacedBy(c, a, b, s, r); }
    }
    assert OwnEvent(c, b, blocker, e);
  }

  /** Only the blocking item is overridden. */
  lemma OverrideExact(c: Restore, a: Db, b: Db, r: Ref, dest: Option<Id>, blocker: Ref, e: Id)
    requires Inv(a) && Returning(c, a, r, dest) && e !in a.events && blocker != r
    requires ActiveItemNamed(a.items, blocker, c.kind, c.user, dest, a.items[r].name)
    requires Asks(c, r, Override)
    requires b == UntrashItem(TrashItem(a, e, c.now, blocker), r, dest, a.items[r].name)
    ensures Exact(c, a, b, {r})
  {
    assert ItemOk(a, blocker);
    assert Overrides(c, a, {r}, r, blocker);
    forall s | s in a.items ensures Settled(c, a, b, {r}, s) {
      if j :| Overrides(c, a, {r}, j, s) { ItemLocated(a, s, blocker); }
    }
  }

  /** Overriding: the blocking item becomes an event of its own, then the item takes its slot. */
  lemma OverrideStep(c: Restore, a: Db, r: Ref, dest: Option<Id>, blocker: Ref, e: Id)
    requires Inv(a) && Returning(c, a, r, dest) && e !in a.events
    requires ActiveItemNamed(a.items, blocker, c.kind, c.user, dest, a.items[r].name)
    requires Asks(c, r, Override)
    ensures var b := UntrashItem(TrashItem(a, e, c.now, blocker), r, dest, a.items[r].name);
      && Inv(b) && Placed(c, a, b, {}, {r}) && Handled(c, a, {}, {r}) && Exact(c, a, b, {r})
      && (c.event in a.events ==> c.event in b.events)
  {
    var mid := TrashItem(a, e, c.now, blocker);
    assert ItemOk(a, r);
    TrashItemKeeps(a, e, c.now, blocker);
    SlotFreed(a, blocker, e, c.now, c.user, dest, a.items[r].name);
    FreeForAll(mid.items, c.kind, c.user, dest, a.items[r].name, Some(r));
    var b := UntrashItem(mid, r, dest, a.items[r].name);
    PlaceItemKeeps(mid, r, b.items[r]);
    OverridePlaced(c, a, b, r, dest, blocker, e);
    OverrideExact(c, a, b, r, dest, blocker, e);
  }

  /** Leaving an item where it is. */
  lemma LeaveStep(c: Restore, a: Db, r: Ref)
    requires r in a.items && r.kind == c.kind && a.items[r].user == c.user && a.items[r].event == Some(c.event)
    ensures Placed(c, a, a, {}, {r}) && Handled(c, a, {}, {r}) && (!Returns(c, a, r) ==> Exact(c, a, a, {r}))
  {
    forall f | f in a.folders ensures FolderPlaced(c, a, a, {}, f) && FolderMerged(c, a, a, {}, f) {
    }
    forall s | s in a.items ensures ItemPlaced(c, a, a, {r}, s) && (!Returns(c, a, r) ==> Settled(c, a, a, {r}, s)) {
    }
  }

  /** How a name collision is settled: a free place is taken; without a resolution, or with a useless
      one, a conflict is reported and nothing moves; a skip moves nothing; a rename takes the new name
      if that is free; an override sends the blocking item to an event of its own. */
  ghost predicate Decided(c: Restore, a: Db, b: Db, r: Ref, dest: Option<Id>, q: seq<Conflict>, q': seq<Conflict>)
    requires r in a.items && r in b.items
  {
    if !Taken(a, r) then b == UntrashItem(a, r, dest, a.items[r].name) && q' == q
    else if r.id !in c.res then b == a && q' == q + [ConflictOf(a, r)]
    else
      match c.res[r.id].action
      case Skip => b == a && q' == q
      case Unrecognized => b == a && q' == q + [ConflictOf(a, r)]
      case Override =>
        && q' == q
        && exists blocker, e ::
             && ActiveItemNamed(a.items, blocker, c.kind, c.user, dest, a.items[r].name) && e !in a.events
             && blocker != r
             && b == UntrashItem(TrashItem(a, e, c.now, blocker), r, dest, a.items[r].name)
      case Rename =>
        var name := TrimSpace(c.res[r.id].newName);
        if name == "" then
          b == a && q' == q + [ConflictOf(a, r)]
        else if ItemNameTaken(a.items, c.kind, c.user, dest, name, None) then
          b == a && q' == q + [ConflictOf(a, r).(name := name)]
        else
          b == UntrashItem(a, r, dest, name) && q' == q
  }

  /** An active item of that name filed in the destination contests the name there. */
  lemma NameContested(c: Restore, a: Db, Y: set<Ref>, r: Ref, dest: Option<Id>, name: string)
    requires Inv(a) && Returning(c, a, r, dest) && ItemNameTaken(a.items, c.kind, c.user, dest, name, None)
    ensures Contested(c, a, Y, r, name)
  {
    var s :| s in a.items && Some(s) != None && ActiveItemNamed(a.items, s, c.kind, c.user, dest, name);
    assert ItemOk(a, s);
    assert ShowsAt(a, s, c.user, c.kind, ItemPath(a, r), name);
  }

  /** Why an item whose place is taken is reported, under that name. */
  ghost predicate Stuck(c: Restore, a: Db, r: Ref, dest: Option<Id>, name: string)
    requires r in a.items
  {
    if Asks(c, r, Rename) && !Renames(c, r, "") then
      Renames(c, r, name) && ItemNameTaken(a.items, c.kind, c.user, dest, name, None)
    else
      name == a.items[r].name && !Asks(c, r, Skip) && !Asks(c, r, Override)
  }

  lemma LeaveReports(c: Restore, a: Db, r: Ref, dest: Option<Id>, name: string)
    requires Inv(a) && Returning(c, a, r, dest) && Taken(a, r) && Stuck(c, a, r, dest, name)
    ensures Justified(c, a, {r}, ConflictOf(a, r).(name := name))
  {
    TakenByName(c, a, r, dest);
    NameContested(c, a, {r}, r, dest, a.items[r].name);
    if Asks(c, r, Rename) && !Renames(c, r, "") { NameContested(c, a, {r}, r, dest, name); }
    assert Reports(c, a, {r}, r, ConflictOf(a, r).(name := name));
  }

  /** Where every item comes back or is skipped, nothing is reported. */
  lemma NothingReported(c: Restore, a: Db, Y: set<Ref>, q: seq<Conflict>)
    requires forall r :: r in Y && r in a.items ==> Returns(c, a, r) || Asks(c, r, Skip)
    ensures Conflicting(c, a, Y) == {} && Adds(q, q, Conflicting(c, a, Y)) && Grounds(c, a, Y, q, q)
  {
  }

  /** One more conflict is reported. */
  lemma ReportAdded(c: Restore, a: Db, Y: set<Ref>, q: seq<Conflict>, x: Conflict)
    requires Justified(c, a, Y, x)
    ensures q <= q + [x] && Grounds(c, a, Y, q, q + [x]) && Adds(q, q + [x], {x}) && x in q + [x]
  {
    assert (q + [x])[|q|] == x;
    forall y ensures y in q + [x] <==> y in Members(q) + {x} {
    }
  }

  lemma LeaveConflicts(c: Restore, a: Db, r: Ref, dest: Option<Id>, name: string)
    requires r in a.items && Taken(a, r) && Stuck(c, a, r, dest, name)
    ensures !Returns(c, a, r)
    ensures Plain(c, a, {r}) && !Asks(c, r, Skip) ==> Conflicting(c, a, {r}) == {ConflictOf(a, r).(name := name)}
  {
    if Plain(c, a, {r}) && !Asks(c, r, Skip) {
      assert r in {r};
      assert ConflictOf(a, r) in Conflicting(c, a, {r});
    }
  }

  lemma LeftDecided(c: Restore, a: Db, r: Ref, q: seq<Conflict>, q': seq<Conflict>)
    requires Inv(a) && r in a.items && r.kind == c.kind && a.items[r].user == c.user
    requires a.items[r].event == Some(c.event) && Taken(a, r) && !Returns(c, a, r)
    requires q <= q' && Accounted(c, a, {r}, q') && Grounds(c, a, {r}, q, q')
    requires Plain(c, a, {r}) ==> Adds(q, q', Conflicting(c, a, {r}))
    ensures ItemStep(c, a, a, r, q, q')
  {
    LeaveStep(c, a, r);
    TakenContested(c, a, {r}, r);
    assert ItemOk(a, r);
    assert Step(c, a, a, {}, {r}, q, q');
  }

  /** An item whose place is taken stays where it is: skipped, or reported. */
  lemma LeaveDecided(
    c: Restore, a: Db, r: Ref, dest: Option<Id>, name: string, q: seq<Conflict>, q': seq<Conflict>)
    requires Inv(a) && Returning(c, a, r, dest) && Taken(a, r)
    requires if Asks(c, r, Skip) then q' == q
             else Stuck(c, a, r, dest, name) && q' == q + [ConflictOf(a, r).(name := name)]
    ensures ItemStep(c, a, a, r, q, q')
  {
    var x := ConflictOf(a, r).(name := name);
    if Asks(c, r, Skip) {
      NothingReported(c, a, {r}, q);
    } else {
      LeaveReports(c, a, r, dest, name);
      ReportAdded(c, a, {r}, q, x);
      LeaveConflicts(c, a, r, dest, name);
    }
    LeftDecided(c, a, r, q, q');
  }

  /** The item is active again, and nothing is reported. */
  lemma BackDecided(c: Restore, a: Db, b: Db, r: Ref, q: seq<Conflict>)
    requires Inv(b) && c.event in b.events && NoNewFolders(a, b)
    requires Placed(c, a, b, {}, {r}) && Handled(c, a, {}, {r}) && r in b.items && b.items[r].event.None?
    requires if Returns(c, a, r) then Exact(c, a, b, {r}) else Asks(c, r, Rename)
    ensures ItemStep(c, a, b, r, q, q)
  {
    if Returns(c, a, r) {
      NothingReported(c, a, {r}, q);
      assert Settled(c, a, b, {r}, r);
    } else {
      TakenContested(c, a, {r}, r);
    }
    assert Step(c, a, b, {}, {r}, q, q);
  }

  lemma ReturnDecided(c: Restore, a: Db, r: Ref, dest: Option<Id>, name: string, q: seq<Conflict>)
    requires Inv(a) && Returning(c, a, r, dest)
    requires !ItemNameTaken(a.items, c.kind, c.user, dest, name, None)
    requires if Taken(a, r) then Renames(c, r, name) else name == a.items[r].name
    ensures ItemStep(c, a, UntrashItem(a, r, dest, name), r, q, q)
  {
    UntrashStep(c, a, r, dest, name);
    assert ItemOk(a, r);
    BackDecided(c, a, UntrashItem(a, r, dest, name), r, q);
  }

  lemma OverrideDecided(c: Restore, a: Db, b: Db, r: Ref, dest: Option<Id>, blocker: Ref, q: seq<Conflict>)
    requires Inv(a) && Returning(c, a, r, dest)
    requires ActiveItemNamed(a.items, blocker, c.kind, c.user, dest, a.items[r].name)
    requires Asks(c, r, Override)
    requires exists e ::
      e !in a.events && b == UntrashItem(TrashItem(a, e, c.now, blocker), r, dest, a.items[r].name)
    ensures ItemStep(c, a, b, r, q, q) && blocker != r
  {
    var e :| e !in a.events && b == UntrashItem(TrashItem(a, e, c.now, blocker), r, dest, a.items[r].name);
    assert ItemOk(a, r);
    OverrideStep(c, a, r, dest, blocker, e);
    BackDecided(c, a, b, r, q);
  }

  // --- a whole subtree ---

  lemma SubtreeHandled(c: Restore, a: Db, node: Id)
    requires Inv(a) && node in a.folders && a.folders[node].event == Some(c.event)
    requires a.folders[node].user == c.user && a.folders[node].kind == c.kind
    ensures var S := Subtree(a.folders, Some(c.event), node); Handled(c, a, S, Carried(a, c.event, S))
  {
    var S := Subtree(a.folders, Some(c.event), node);
    forall f | f in a.folders && a.folders[f].event == Some(c.event) && a.folders[f].parent.Some?
      && a.folders[f].parent.value in S
      ensures f in S
    {
      SubtreeStep(a.folders, Some(c.event), node, f);
    }
    forall r | r in Carried(a, c.event, S) ensures r.kind == c.kind && a.items[r].user == c.user {
      assert ItemOk(a, r);
      SubtreeOwner(a, Some(c.event), node, a.items[r].folder.value);
    }
  }

  /** Where no active folder has a path, no active item shows below it. */
  lemma NothingBelow(c: Restore, a: Db, node: Id, dest: Option<Id>, r: Ref)
    requires Inv(a) && node in a.folders && a.folders[node].event == Some(c.event) && Landing(a, node, dest)
    requires r in Carried(a, c.event, Subtree(a.folders, Some(c.event), node))
    ensures !Taken(a, r)
  {
    var p, x := Paths(a.folders), a.items[r];
    assert ItemOk(a, r);
    SubtreeOwner(a, Some(c.event), node, x.folder.value);
    SubtreePaths(a.folders, Some(c.event), node, x.folder.value);
    ParentPath(a.folders, node);
    if Taken(a, r) {
      var s :| ShowsAt(a, s, x.user, r.kind, ItemPath(a, r), x.name);
      assert ItemOk(a, s);
      assert FolderOk(a, a.items[s].folder.value);
      var g := ActivePrefix(a, a.items[s].folder.value, |p[node]|);
      ChildByPath(a, a.folders[node].user, a.folders[node].kind, dest, a.folders[node].name, g);
    }
  }

  lemma ReleasedPlaced(c: Restore, a: Db, b: Db, node: Id, dest: Option<Id>, S: set<Id>)
    requires Inv(a) && Inv(b) && Paths(b.folders) == Paths(a.folders) && Released(a, b, c.event, node, dest, S)
    requires node in a.folders && PathOf(a.folders, dest) == PathOf(a.folders, a.folders[node].parent)
    requires forall f :: f in S ==> f in a.folders && a.folders[f].event == Some(c.event)
    requires forall r :: r in Carried(a, c.event, S) ==> !Taken(a, r)
    ensures Placed(c, a, b, S, Carried(a, c.event, S))
  {
    forall f | f in a.folders ensures FolderPlaced(c, a, b, S, f) && FolderMerged(c, a, b, S, f) {
    }
    forall r | r in a.items ensures ItemPlaced(c, a, b, Carried(a, c.event, S), r) {
    }
  }

  lemma ReleasedExact(c: Restore, a: Db, b: Db, node: Id, dest: Option<Id>, S: set<Id>)
    requires Released(a, b, c.event, node, dest, S)
    requires forall r :: r in Carried(a, c.event, S) ==> !Taken(a, r)
    ensures Exact(c, a, b, Carried(a, c.event, S)) && Conflicting(c, a, Carried(a, c.event, S)) == {}
  {
    forall r | r in a.items ensures Settled(c, a, b, Carried(a, c.event, S), r) {
    }
  }

  /** Un-trashing a subtree in place where no active folder has its path: everything in it is active again. */
  lemma WholesaleStep(c: Restore, a: Db, node: Id, dest: Option<Id>)
    requires Inv(a) && node in a.folders && a.folders[node].event == Some(c.event) && Landing(a, node, dest)
    requires a.folders[node].user == c.user && a.folders[node].kind == c.kind
    ensures var S := Subtree(a.folders, Some(c.event), node); var Y := Carried(a, c.event, S);
      var b := UntrashTree(a, c.user, c.kind, c.event, node, dest, S);
      Inv(b) && Placed(c, a, b, S, Y) && Exact(c, a, b, Y) && Conflicting(c, a, Y) == {}
    ensures var S := Subtree(a.folders, Some(c.event), node);
      Released(a, UntrashTree(a, c.user, c.kind, c.event, node, dest, S), c.event, node, dest, S)
  {
    var S := Subtree(a.folders, Some(c.event), node);
    var b := UntrashTree(a, c.user, c.kind, c.event, node, dest, S);
    UntrashTreeKeeps(a, c.event, node, dest);
    UntrashTreeReleases(a, c.event, node, dest);
    forall r | r in Carried(a, c.event, S) ensures !Taken(a, r) {
      NothingBelow(c, a, node, dest, r);
    }
    ReleasedPlaced(c, a, b, node, dest, S);
    ReleasedExact(c, a, b, node, dest, S);
  }

  // --- merging ---

  lemma MergedItemsPlaced(c: Restore, a: Db, b: Db, node: Id, into: Id)
    requires Inv(a) && Inv(b) && Mergeable(a, c.event, node, into) && MergedAway(a, b, node, into) && node != into
    requires Paths(b.folders) == Paths(a.folders) - {node}
    ensures b.items.Keys == a.items.Keys
    ensures forall r :: r in a.items ==> ItemPlaced(c, a, b, {}, r) && Settled(c, a, b, {}, r)
  {
    forall r | r in a.items ensures ItemPlaced(c, a, b, {}, r) && Settled(c, a, b, {}, r) {
      assert ItemOk(a, r);
    }
  }

  lemma MergedPlaced(c: Restore, a: Db, b: Db, node: Id, into: Id)
    requires Inv(a) && Inv(b) && Mergeable(a, c.event, node, into) && MergedAway(a, b, node, into)
    requires a.folders[node].user == c.user && a.folders[node].kind == c.kind && node != into
    requires a.folders[into].event.None? && Paths(b.folders) == Paths(a.folders) - {node}
    ensures Placed(c, a, b, {node}, {}) && Exact(c, a, b, {})
  {
    assert Labels(a.folders, Paths(a.folders));
    forall f | f in a.folders ensures FolderMerged(c, a, b, {node}, f) {
      assert into in b.folders && PathOf(b.folders, Some(into)) == PathOf(a.folders, Some(node));
    }
    forall f | f in b.folders ensures FolderPlaced(c, a, b, {node}, f) {
      assert f in a.folders;
    }
    MergedItemsPlaced(c, a, b, node, into);
  }

  /** Deleting a folder whose content has been merged. */
  lemma MergeStep(c: Restore, a: Db, node: Id, into: Id)
    requires Inv(a) && Mergeable(a, c.event, node, into)
    requires a.folders[node].user == c.user && a.folders[node].kind == c.kind
    ensures var b := MergeAway(a, c.user, c.kind, node, into);
      && Inv(b) && Placed(c, a, b, {node}, {}) && Exact(c, a, b, {}) && node !in b.folders
      && NoNewFolders(a, b) && b.events == a.events
    ensures Handled(c, a, {node}, {})
  {
    var b := MergeAway(a, c.user, c.kind, node, into);
    assert FolderOk(a, into) && FolderOk(a, node);
    MergeAwayKeeps(a, c.event, node, into);
    MergeAwayMerges(a, node, into);
    MergedPlaced(c, a, b, node, into);
    assert Carried(a, c.event, {node}) == {};
  }

  /** A folder that still holds something of the event stays with it. */
  lemma KeepStep(c: Restore, a: Db, b: Db, X: set<Id>, Y: set<Ref>, node: Id)
    requires Placed(c, a, b, X, Y)
    requires node in a.folders && node in b.folders && b.folders[node] == a.folders[node]
      && PathOf(b.folders, Some(node)) == PathOf(a.folders, Some(node))
    ensures Placed(c, a, b, X + {node}, Y)
  {
    forall f | f in b.folders ensures FolderPlaced(c, a, b, X + {node}, f) {
      assert FolderPlaced(c, a, b, X, f);
    }
    forall f | f in a.folders ensures FolderMerged(c, a, b, X + {node}, f) {
      assert FolderMerged(c, a, b, X, f);
    }
  }

  lemma PartItemsStand(c: Restore, a: Db, b: Db, X: set<Id>, Y: set<Ref>, S: set<Id>)
    requires Inv(a) && Placed(c, a, b, X, Y) && Handled(c, a, X, Y) && c.event in a.events
    requires (forall f :: f in S ==> f in b.folders) && Y !! Carried(a, c.event, S)
    ensures Carried(b, c.event, S) == Carried(a, c.event, S)
    ensures forall r :: r in Carried(a, c.event, S) ==> r in a.items && r in b.items && b.items[r] == a.items[r]
  {
    forall r | r in Carried(a, c.event, S) ensures r in b.items && b.items[r] == a.items[r] {
      assert ItemPlaced(c, a, b, Y, r);
    }
    forall r | r in Carried(b, c.event, S) ensures r in Carried(a, c.event, S) {
      assert ItemPlaced(c, a, b, Y, r) && ItemOk(a, r);
      if a.items[r].folder.Some? { assert FolderMerged(c, a, b, X, a.items[r].folder.value); }
    }
  }

  /** A child's part of the event is, after its siblings were handled, exactly what it was. */
  lemma PartStands(c: Restore, a: Db, b: Db, X: set<Id>, Y: set<Ref>, child: Id)
    requires Inv(a) && Inv(b) && Placed(c, a, b, X, Y) && Handled(c, a, X, Y)
    requires child in a.folders && a.folders[child].event == Some(c.event)
    requires a.folders[child].user == c.user && a.folders[child].kind == c.kind
    requires X !! Subtree(a.folders, Some(c.event), child)
    requires Y !! Carried(a, c.event, Subtree(a.folders, Some(c.event), child))
    ensures var S := Subtree(a.folders, Some(c.event), child);
      && Subtree(b.folders, Some(c.event), child) == S && Carried(b, c.event, S) == Carried(a, c.event, S)
      && Untouched(a, b, S, Carried(a, c.event, S)) && child in S
  {
    var S := Subtree(a.folders, Some(c.event), child);
    assert FolderOk(a, child);
    SubtreeHandled(c, a, child);
    SubtreeStep(a.folders, Some(c.event), child, child);
    forall f | f in b.folders && b.folders[f].event == Some(c.event)
      ensures f in a.folders && a.folders[f] == b.folders[f]
    {
      assert FolderPlaced(c, a, b, X, f);
    }
    forall f | f in S ensures f in b.folders && b.folders[f] == a.folders[f] {
      assert FolderMerged(c, a, b, X, f);
      assert FolderPlaced(c, a, b, X, f);
    }
    SubtreeStable(a.folders, b.folders, Some(c.event), child);
    PartItemsStand(c, a, b, X, Y, S);
  }

  lemma ReleasedDecided(c: Restore, a: Db, b: Db, node: Id, dest: Option<Id>, S: set<Id>, Y: set<Ref>, q: seq<Conflict>)
    requires Inv(b) && c.event in b.events && Released(a, b, c.event, node, dest, S) && Y == Carried(a, c.event, S)
    requires Placed(c, a, b, S, Y) && Exact(c, a, b, Y) && Handled(c, a, S, Y)
    requires forall r :: r in Y ==> !Taken(a, r)
    ensures Step(c, a, b, S, Y, q, q)
  {
    NothingReported(c, a, Y, q);
    forall r | r in Y && r in a.items && r in b.items ensures ComesHome(c, a, b, Y, r) {
      assert Settled(c, a, b, Y, r);
    }
  }

  /** The same as a step of the whole restore: it reports nothing and leaves nothing behind. */
  lemma WholesaleDecided(c: Restore, a: Db, node: Id, dest: Option<Id>, q: seq<Conflict>)
    requires Inv(a) && node in a.folders && a.folders[node].event == Some(c.event) && Landing(a, node, dest)
    requires a.folders[node].user == c.user && a.folders[node].kind == c.kind && c.event in a.events
    ensures var S := Subtree(a.folders, Some(c.event), node);
      FolderStep(c, a, UntrashTree(a, c.user, c.kind, c.event, node, dest, S), node, q, q)
  {
    WholesaleStep(c, a, node, dest);
    SubtreeHandled(c, a, node);
    var S := Subtree(a.folders, Some(c.event), node);
    forall r | r in Carried(a, c.event, S) ensures !Taken(a, r) {
      NothingBelow(c, a, node, dest, r);
    }
    var b := UntrashTree(a, c.user, c.kind, c.event, node, dest, S);
    ReleasedDecided(c, a, b, node, dest, S, Carried(a, c.event, S), q);
  }

  // --- composing steps ---

  lemma StepAccounts(
    c: Restore, a: Db, b: Db, d: Db, X2: set<Id>, Y1: set<Ref>, Y2: set<Ref>, q: seq<Conflict>, q': seq<Conflict>)
    requires Accounted(c, b, Y1, q) && Accounted(c, d, Y2, q') && q <= q'
    requires c.event in b.events && Placed(c, b, d, X2, Y2)
    ensures Accounted(c, d, Y1 + Y2, q')
  {
    forall r | r in Y1 && r in d.items && d.items[r].event == Some(c.event) && r !in Y2
      ensures Asks(c, r, Skip) || (exists x :: x in q' && x.id == r.id)
    {
      assert ItemPlaced(c, b, d, Y2, r);
    }
  }

  lemma StepGrounds(
    c: Restore, a: Db, b: Db, X1: set<Id>, Y1: set<Ref>, Y2: set<Ref>,
    q: seq<Conflict>, q': seq<Conflict>, q'': seq<Conflict>)
    requires Placed(c, a, b, X1, Y1) && Handled(c, a, X1, Y1) && Untouched(a, b, {}, Y2) && Y1 !! Y2
    requires forall r :: r in Y2 ==> r.kind == c.kind
    requires q <= q' <= q'' && Grounds(c, a, Y1, q, q') && Grounds(c, b, Y2, q', q'')
    ensures Grounds(c, a, Y1 + Y2, q, q'')
  {
    forall k | |q| <= k < |q''| ensures Justified(c, a, Y1 + Y2, q''[k]) {
      if k < |q'| {
        assert q''[k] == q'[k];
        JustifiedStill(c, a, Y1, Y2, q'[k]);
      } else {
        JustifiedBefore(c, a, b, X1, Y1, Y2, q''[k]);
      }
    }
    forall i, j | |q| <= i < |q'| <= j < |q''| ensures q''[i].id != q''[j].id {
      assert q''[i] == q'[i] && Justified(c, a, Y1, q'[i]) && Justified(c, b, Y2, q''[j]);
      var r :| r in Y1 && r in a.items && Reports(c, a, Y1, r, q'[i]);
      var s :| s in Y2 && s in b.items && Reports(c, b, Y2, s, q''[j]);
    }
    assert forall i :: |q| <= i < |q'| ==> q''[i] == q'[i];
  }

  lemma StepExact(
    c: Restore, a: Db, b: Db, d: Db, X1: set<Id>, X2: set<Id>, Y1: set<Ref>, Y2: set<Ref>,
    q: seq<Conflict>, q': seq<Conflict>, q'': seq<Conflict>)
    requires TwoSteps(c, a, b, d, X1, X2, Y1, Y2) && Plain(c, a, Y1 + Y2)
    requires Plain(c, a, Y1) ==> Exact(c, a, b, Y1) && Adds(q, q', Conflicting(c, a, Y1))
    requires Plain(c, b, Y2) ==> Exact(c, b, d, Y2) && Adds(q', q'', Conflicting(c, b, Y2))
    ensures Exact(c, a, d, Y1 + Y2) && Adds(q, q'', Conflicting(c, a, Y1 + Y2))
  {
    PlainParts(c, a, b, d, X1, X2, Y1, Y2);
    ComposeExact(c, a, b, d, X1, X2, Y1, Y2);
  }

  lemma HandledUnion(c: Restore, a: Db, X1: set<Id>, X2: set<Id>, Y1: set<Ref>, Y2: set<Ref>)
    requires Handled(c, a, X1, Y1) && Handled(c, a, X2, Y2)
    ensures Handled(c, a, X1 + X2, Y1 + Y2)
  {
  }

  lemma StepPlaced(
    c: Restore, a: Db, b: Db, d: Db, X1: set<Id>, X2: set<Id>, Y1: set<Ref>, Y2: set<Ref>,
    q: seq<Conflict>, q': seq<Conflict>, q'': seq<Conflict>)
    requires Inv(a) && Step(c, a, b, X1, Y1, q, q') && Step(c, b, d, X2, Y2, q', q'')
    requires X1 !! X2 && Y1 !! Y2 && Handled(c, a, X2, Y2) && Untouched(a, b, X2, Y2)
    ensures TwoSteps(c, a, b, d, X1, X2, Y1, Y2) && Placed(c, a, d, X1 + X2, Y1 + Y2)
    ensures Handled(c, a, X1 + X2, Y1 + Y2) && NoNewFolders(a, d)
  {
    Compose(c, a, b, d, X1, X2, Y1, Y2);
    HandledUnion(c, a, X1, X2, Y1, Y2);
  }

  /** Steps on disjoint parts of the event, one after the other, are one step. */
  lemma StepThen(
    c: Restore, a: Db, b: Db, d: Db, X1: set<Id>, X2: set<Id>, Y1: set<Ref>, Y2: set<Ref>,
    X: set<Id>, Y: set<Ref>, q: seq<Conflict>, q': seq<Conflict>, q'': seq<Conflict>)
    requires Inv(a) && Step(c, a, b, X1, Y1, q, q') && Step(c, b, d, X2, Y2, q', q'')
    requires X1 !! X2 && Y1 !! Y2 && Handled(c, a, X2, Y2) && Untouched(a, b, X2, Y2)
    requires X == X1 + X2 && Y == Y1 + Y2
    ensures Step(c, a, d, X, Y, q, q'')
  {
    StepPlaced(c, a, b, d, X1, X2, Y1, Y2, q, q', q'');
    StepAccounts(c, a, b, d, X2, Y1, Y2, q', q'');
    StepGrounds(c, a, b, X1, Y1, Y2, q, q', q'');
    ComposeHome(c, a, b, d, X1, X2, Y1, Y2);
    if Plain(c, a, Y) { StepExact(c, a, b, d, X1, X2, Y1, Y2, q, q', q''); }
  }

  // --- the recursion over a merged folder ---

  /** The folder is trashed in the event being restored, and `dest` is an active place with its parent's path. */
  ghost predicate Arriving(c: Restore, a: Db, node: Id, dest: Option<Id>) {
    && node in a.folders && a.folders[node].user == c.user && a.folders[node].kind == c.kind
    && a.folders[node].event == Some(c.event)
    && Destination(a.folders, c.user, c.kind, dest)
    && PathOf(a.folders, dest) == PathOf(a.folders, a.folders[node].parent)
  }

  /** The subtrees of several folders together. */
  ghost function Forest(fs: Folders, v: Option<Id>, tops: set<Id>): set<Id> {
    set f | f in fs && exists top :: top in tops && f in Subtree(fs, v, top)
  }

  ghost function Children(fs: Folders, v: Option<Id>, top: Id): set<Id> {
    set f | f in fs && fs[f].parent == Some(top) && fs[f].event == v
  }

  lemma ForestNext(fs: Folders, v: Option<Id>, top: Id, done: set<Id>, child: Id)
    requires Grounded(fs) && done + {child} <= Children(fs, v, top) && child !in done
    ensures Forest(fs, v, done + {child}) == Forest(fs, v, done) + Subtree(fs, v, child)
    ensures Forest(fs, v, done) !! Subtree(fs, v, child)
  {
    forall f | f in Forest(fs, v, done) ensures f !in Subtree(fs, v, child) {
      var c :| c in done && f in Subtree(fs, v, c);
      if f in Subtree(fs, v, child) { ChildrenApart(fs, v, top, c, child, f); }
    }
  }

  lemma ForestAll(fs: Folders, v: Option<Id>, top: Id)
    requires Grounded(fs) && top in fs && fs[top].event == v
    ensures Subtree(fs, v, top) == Forest(fs, v, Children(fs, v, top)) + {top}
  {
    var kids := Children(fs, v, top);
    SubtreeStep(fs, v, top, top);
    forall f | f in Subtree(fs, v, top) && f != top ensures f in Forest(fs, v, kids) {
      var c := ChildAbove(fs, v, top, f);
      assert c in kids;
    }
    forall f | f in Forest(fs, v, kids) ensures f in Subtree(fs, v, top) {
      var c :| c in kids && f in Subtree(fs, v, c);
      ChildInside(fs, v, top, c, f);
    }
  }

  /** What lies below a folder's children is deeper than the folder and its parent. */
  lemma ForestBelow(fs: Folders, v: Option<Id>, top: Id, done: set<Id>)
    requires Grounded(fs) && done <= Children(fs, v, top) && top in fs
    ensures top !in Forest(fs, v, done) && (fs[top].parent.Some? ==> fs[top].parent.value !in Forest(fs, v, done))
  {
    ParentPath(fs, top);
    forall f | f in Forest(fs, v, done) ensures |Paths(fs)[top]| < |Paths(fs)[f]| {
      var c :| c in done && f in Subtree(fs, v, c);
      SubtreePaths(fs, v, c, f);
      ParentPath(fs, c);
    }
  }

  /** While a merged folder's children are being placed, the folder itself and the active folder it
      merges into stand where they were. */
  lemma MergeStands(c: Restore, a: Db, b: Db, X: set<Id>, Y: set<Ref>, node: Id, into: Id)
    requires Inv(a) && Placed(c, a, b, X, Y) && Handled(c, a, X, Y)
    requires node in a.folders && node !in X && (a.folders[node].parent.Some? ==> a.folders[node].parent.value !in X)
    requires into in a.folders && !a.folders[into].deleted
    ensures node in b.folders && b.folders[node] == a.folders[node]
    ensures PathOf(b.folders, Some(node)) == PathOf(a.folders, Some(node))
    ensures into in b.folders && b.folders[into].event.None?
      && PathOf(b.folders, Some(into)) == PathOf(a.folders, Some(into))
    ensures b.folders[into].user == a.folders[into].user && b.folders[into].kind == a.folders[into].kind
  {
    assert FolderOk(a, into);
    assert FolderMerged(c, a, b, X, node) && FolderPlaced(c, a, b, X, node);
    assert FolderMerged(c, a, b, X, into) && FolderPlaced(c, a, b, X, into);
  }

  /** The active namesake in the destination has the trashed folder's path. */
  lemma MergeTarget(c: Restore, a: Db, node: Id, dest: Option<Id>, into: Id)
    requires Inv(a) && Arriving(c, a, node, dest)
    requires into in a.folders && ActiveNamesake(a.folders[into], c.user, c.kind, dest, a.folders[node].name)
    ensures PathOf(a.folders, Some(into)) == PathOf(a.folders, Some(node))
  {
    ParentPath(a.folders, node);
    ParentPath(a.folders, into);
  }

  /** The trashed folder `node` is to be merged into the active folder `into` of its path. */
  ghost predicate Merging(c: Restore, a: Db, node: Id, into: Id) {
    && Inv(a) && node in a.folders && a.folders[node].user == c.user && a.folders[node].kind == c.kind
    && a.folders[node].event == Some(c.event)
    && into in a.folders && !a.folders[into].deleted && a.folders[into].user == c.user && a.folders[into].kind == c.kind
    && PathOf(a.folders, Some(into)) == PathOf(a.folders, Some(node))
  }

  lemma MergingReady(c: Restore, a: Db, node: Id, dest: Option<Id>, into: Id)
    requires Inv(a) && Arriving(c, a, node, dest)
    requires into in a.folders && ActiveNamesake(a.folders[into], c.user, c.kind, dest, a.folders[node].name)
    ensures Merging(c, a, node, into)
    ensures forall f :: f in Children(a.folders, Some(c.event), node) ==> a.folders[f].user == c.user
  {
    SameOwnerBelow(a, node);
    MergeTarget(c, a, node, dest, into);
  }

  /** The children `done` of the folder, with all they hold, are handled. */
  ghost predicate Merged(
    c: Restore, a: Db, b: Db, node: Id, into: Id, done: set<Id>, q: seq<Conflict>, q': seq<Conflict>)
  {
    exists X, Y ::
      && Merging(c, a, node, into) && done <= Children(a.folders, Some(c.event), node)
      && X == Forest(a.folders, Some(c.event), done) && Y == Carried(a, c.event, X)
      && Step(c, a, b, X, Y, q, q')
  }

  lemma MergingStarts(c: Restore, a: Db, node: Id, into: Id, q: seq<Conflict>)
    requires Merging(c, a, node, into) && c.event in a.events
    ensures Merged(c, a, a, node, into, {}, q, q)
  {
    var X := Forest(a.folders, Some(c.event), {});
    assert X == {} && Carried(a, c.event, X) == {};
    NoStep(c, a);
    assert Step(c, a, a, X, {}, q, q);
  }

  /** A child's part of the event is, before its turn, what it was, and apart from the parts already handled. */
  lemma ChildReady(
    c: Restore, a: Db, b: Db, node: Id, into: Id, done: set<Id>, child: Id, X: set<Id>, Y: set<Ref>)
    requires Merging(c, a, node, into) && Inv(b) && Placed(c, a, b, X, Y) && Handled(c, a, X, Y)
    requires done + {child} <= Children(a.folders, Some(c.event), node) && child !in done
    requires X == Forest(a.folders, Some(c.event), done) && Y == Carried(a, c.event, X)
    ensures var S := Subtree(a.folders, Some(c.event), child);
      && Subtree(b.folders, Some(c.event), child) == S && Carried(b, c.event, S) == Carried(a, c.event, S)
      && Untouched(a, b, S, Carried(a, c.event, S)) && child in S
      && X !! S && Y !! Carried(a, c.event, S) && Handled(c, a, S, Carried(a, c.event, S))
  {
    ForestNext(a.folders, Some(c.event), node, done, child);
    assert FolderOk(a, child);
    SubtreeHandled(c, a, child);
    PartStands(c, a, b, X, Y, child);
  }

  lemma ChildBelow(fs: Folders, v: Option<Id>, node: Id, child: Id)
    requires Grounded(fs) && node in fs && fs[node].event == v && child in Children(fs, v, node)
    ensures Subtree(fs, v, child) < Subtree(fs, v, node)
  {
    ForestAll(fs, v, node);
    ForestBelow(fs, v, node, {child});
    forall f | f in Subtree(fs, v, child) ensures f in Forest(fs, v, {child}) && f in Subtree(fs, v, node) {
      SubtreePaths(fs, v, child, f);
      ChildInside(fs, v, node, child, f);
    }
  }

  /** A child about to be placed is as it was, and the folder merged into is a place for it. */
  lemma ChildTurn(
    c: Restore, a: Db, b: Db, node: Id, into: Id, done: set<Id>, child: Id, q: seq<Conflict>, q': seq<Conflict>)
    requires Merged(c, a, b, node, into, done, q, q')
    requires child in Children(a.folders, Some(c.event), node) && child !in done
    ensures Arriving(c, b, child, Some(into)) && b.folders[child] == a.folders[child]
    ensures Subtree(b.folders, Some(c.event), child) == Subtree(a.folders, Some(c.event), child)
    ensures Subtree(a.folders, Some(c.event), child) < Subtree(a.folders, Some(c.event), node)
  {
    var X := Forest(a.folders, Some(c.event), done);
    ForestBelow(a.folders, Some(c.event), node, done);
    ForestAll(a.folders, Some(c.event), node);
    ChildBelow(a.folders, Some(c.event), node, child);
    ChildReady(c, a, b, node, into, done, child, X, Carried(a, c.event, X));
    MergeStands(c, a, b, X, Carried(a, c.event, X), node, into);
    assert FolderOk(a, child) && FolderOk(b, into);
  }

  lemma ChildAdded(
    c: Restore, a: Db, b: Db, d: Db, node: Id, into: Id, done: set<Id>, child: Id,
    X: set<Id>, Y: set<Ref>, S: set<Id>, T: set<Ref>, q: seq<Conflict>, q': seq<Conflict>, q'': seq<Conflict>)
    requires Merging(c, a, node, into) && Step(c, a, b, X, Y, q, q') && Step(c, b, d, S, T, q', q'')
    requires done + {child} <= Children(a.folders, Some(c.event), node) && child !in done
    requires X == Forest(a.folders, Some(c.event), done) && Y == Carried(a, c.event, X)
    requires S == Subtree(b.folders, Some(c.event), child) && T == Carried(b, c.event, S)
    ensures Step(c, a, d, X + S, Y + T, q, q'')
    ensures S == Subtree(a.folders, Some(c.event), child) && Y + T == Carried(a, c.event, X + S)
  {
    ChildReady(c, a, b, node, into, done, child, X, Y);
    StepThen(c, a, b, d, X, S, Y, T, X + S, Y + T, q, q', q'');
  }

  /** One more child is handled. */
  lemma ChildDone(
    c: Restore, a: Db, b: Db, d: Db, node: Id, into: Id, done: set<Id>, child: Id,
    q: seq<Conflict>, q': seq<Conflict>, q'': seq<Conflict>)
    requires Merged(c, a, b, node, into, done, q, q') && FolderStep(c, b, d, child, q', q'')
    requires child in Children(a.folders, Some(c.event), node) && child !in done
    ensures Merged(c, a, d, node, into, done + {child}, q, q'')
  {
    var kids := Children(a.folders, Some(c.event), node);
    var X, Y :|
      && Merging(c, a, node, into) && done <= kids
      && X == Forest(a.folders, Some(c.event), done) && Y == Carried(a, c.event, X)
      && Step(c, a, b, X, Y, q, q');
    var S, T :|
      S == Subtree(b.folders, Some(c.event), child) && T == Carried(b, c.event, S) && Step(c, b, d, S, T, q', q'');
    SubsetGrows(done, kids, child);
    ChildAdded(c, a, b, d, node, into, done, child, X, Y, S, T, q, q', q'');
    ForestNext(a.folders, Some(c.event), node, done, child);
  }

  /** An item in a folder that still stands is, before its turn, what it was. */
  lemma ItemStands(c: Restore, a: Db, b: Db, X: set<Id>, Y: set<Ref>, r: Ref)
    requires Inv(a) && Placed(c, a, b, X, Y) && r in a.items && r !in Y && a.items[r].event == Some(c.event)
    requires a.items[r].folder.Some? && a.items[r].folder.value in b.folders
    ensures r in b.items && b.items[r] == a.items[r]
  {
    assert ItemPlaced(c, a, b, Y, r) && ItemOk(a, r);
  }

  lemma LastPlaced(c: Restore, a: Db, b: Db, d: Db, X: set<Id>, Y: set<Ref>, node: Id)
    requires Inv(a) && Inv(b) && c.event in b.events && NoNewFolders(b, d) && node !in X
    requires Placed(c, a, b, X, Y) && Handled(c, a, X, Y) && Home(c, a, b, X, Y)
    requires Handled(c, b, {node}, {}) && Untouched(a, b, {node}, {})
    requires Placed(c, b, d, {node}, {}) && Exact(c, b, d, {}) && node !in d.folders
    ensures TwoSteps(c, a, b, d, X, {node}, Y, {}) && Placed(c, a, d, X + {node}, Y) && Home(c, a, d, X + {node}, Y)
  {
    EmptyUnion(Y);
    Compose(c, a, b, d, X, {node}, Y, {});
    ComposeHome(c, a, b, d, X, {node}, Y, {});
  }

  /** Handling the folder itself, with nothing left in it, ends the handling of all it held. */
  lemma MergeLast(
    c: Restore, a: Db, b: Db, d: Db, X: set<Id>, Y: set<Ref>, node: Id, q: seq<Conflict>, q': seq<Conflict>)
    requires Inv(a) && Step(c, a, b, X, Y, q, q') && node !in X && Handled(c, a, X + {node}, Y)
    requires Inv(d) && c.event in d.events && NoNewFolders(b, d)
    requires Handled(c, b, {node}, {}) && Untouched(a, b, {node}, {})
    requires Placed(c, b, d, {node}, {}) && Exact(c, b, d, {}) && node !in d.folders
    ensures Step(c, a, d, X + {node}, Y, q, q')
  {
    EmptyUnion(Y);
    LastPlaced(c, a, b, d, X, Y, node);
    StepAccounts(c, a, b, d, {node}, Y, {}, q', q');
    if Plain(c, a, Y) { ComposeExact(c, a, b, d, X, {node}, Y, {}); }
  }

  lemma OneUntouched(a: Db, b: Db, node: Id)
    requires node in a.folders && node in b.folders && b.folders[node] == a.folders[node]
    ensures Untouched(a, b, {node}, {})
  {
  }

  /** The merged folder is deleted once nothing of the event is left in it. */
  lemma MergeFinish(c: Restore, a: Db, b: Db, X: set<Id>, Y: set<Ref>, node: Id, into: Id, q: seq<Conflict>,
      q': seq<Conflict>)
    requires Inv(a) && Step(c, a, b, X, Y, q, q') && node in a.folders && node !in X && Handled(c, a, X + {node}, Y)
    requires node in b.folders && b.folders[node] == a.folders[node] && Mergeable(b, c.event, node, into)
    requires a.folders[node].user == c.user && a.folders[node].kind == c.kind
    ensures Step(c, a, MergeAway(b, c.user, c.kind, node, into), X + {node}, Y, q, q')
  {
    var d := MergeAway(b, c.user, c.kind, node, into);
    MergeStep(c, b, node, into);
    OneUntouched(a, b, node);
    MergeLast(c, a, b, d, X, Y, node, q, q');
  }

  /** The folder directly holds something of the event, of whatever owner and tree. */
  ghost predicate Holds(db: Db, e: Id, node: Id) {
    || (exists f :: f in db.folders && db.folders[f].parent == Some(node) && db.folders[f].event == Some(e))
    || (exists r :: r in db.items && db.items[r].folder == Some(node) && db.items[r].event == Some(e))
  }

  /** If something of the event is left in the merged folder, an item it held in or below the folder is still there:
      directly, or for the sake of which a child folder stays. */
  lemma LeftInside(c: Restore, a: Db, b: Db, X: set<Id>, Y: set<Ref>, node: Id)
    requires Inv(a) && Inv(b) && Placed(c, a, b, X, Y) && Handled(c, a, X + {node}, Y) && Home(c, a, b, X, Y)
    requires node in b.folders && node in a.folders && b.folders[node] == a.folders[node] && Holds(b, c.event, node)
    ensures Retains(c, a, b, node)
  {
    assert FolderOk(a, node);
    SubtreeStep(a.folders, Some(c.event), node, node);
    if r :| r in b.items && b.items[r].folder == Some(node) && b.items[r].event == Some(c.event) {
      assert ItemPlaced(c, a, b, Y, r) && ItemOk(a, r);
      if a.items[r].folder.Some? { assert FolderMerged(c, a, b, X, a.items[r].folder.value); }
      assert Retained(c, a, b, node, r);
    } else {
      var f :| f in b.folders && b.folders[f].parent == Some(node) && b.folders[f].event == Some(c.event);
      assert FolderPlaced(c, a, b, X, f);
      ParentPath(b.folders, f);
      var r :| Retained(c, a, b, f, r);
      ChildInside(a.folders, Some(c.event), node, f, a.items[r].folder.value);
      assert Retained(c, a, b, node, r);
    }
  }

  /** If something of the event is left in the merged folder, then, whatever the resolutions, the event keeps an item in
      or below it whose name was contested, and some item did not simply come back: its place was taken, and it does not
      override. */
  lemma SomethingTaken(c: Restore, a: Db, b: Db, X: set<Id>, Y: set<Ref>, node: Id)
    requires Inv(a) && Inv(b) && Placed(c, a, b, X, Y) && Handled(c, a, X + {node}, Y)
    requires (Plain(c, a, Y) ==> Exact(c, a, b, Y)) && Home(c, a, b, X, Y)
    requires node in b.folders && node in a.folders && b.folders[node] == a.folders[node] && Holds(b, c.event, node)
    ensures exists r :: Retained(c, a, b, node, r) && Contested(c, a, Y, r, a.items[r].name)
    ensures exists r :: r in Y && r in a.items && !Returns(c, a, r)
  {
    LeftInside(c, a, b, X, Y, node);
    var r :| Retained(c, a, b, node, r);
    SealedSubtree(c, a, X + {node}, node, a.items[r].folder.value);
    assert r in Carried(a, c.event, X + {node});
    assert ComesHome(c, a, b, Y, r);
    assert Plain(c, a, Y) ==> Settled(c, a, b, Y, r);
  }

  /** The merged folder stays, with its event, while something of the event is left in it. */
  lemma KeepFinish(c: Restore, a: Db, b: Db, X: set<Id>, Y: set<Ref>, node: Id, q: seq<Conflict>, q': seq<Conflict>)
    requires Inv(a) && Step(c, a, b, X, Y, q, q') && node in a.folders && Handled(c, a, X + {node}, Y)
    requires node in b.folders && b.folders[node] == a.folders[node] && Holds(b, c.event, node)
    requires PathOf(b.folders, Some(node)) == PathOf(a.folders, Some(node))
    ensures Step(c, a, b, X + {node}, Y, q, q')
  {
    KeepStep(c, a, b, X, Y, node);
    LeftInside(c, a, b, X, Y, node);
  }

  // --- the items of a merged folder ---

  /** All children of a merged folder are handled, and so are its items `done`. */
  ghost predicate Emptying(
    c: Restore, a: Db, b: Db, node: Id, into: Id, done: set<Ref>, q: seq<Conflict>, q': seq<Conflict>)
  {
    exists X, Y ::
      && Merging(c, a, node, into)
      && X == Forest(a.folders, Some(c.event), Children(a.folders, Some(c.event), node))
      && Y == Carried(a, c.event, X) + done
      && Step(c, a, b, X, Y, q, q')
  }

  lemma EmptyingBy(
    c: Restore, a: Db, b: Db, node: Id, into: Id, done: set<Ref>, X: set<Id>, Y: set<Ref>,
    q: seq<Conflict>, q': seq<Conflict>)
    requires Merging(c, a, node, into)
    requires X == Forest(a.folders, Some(c.event), Children(a.folders, Some(c.event), node))
    requires Y == Carried(a, c.event, X) + done && Step(c, a, b, X, Y, q, q')
    ensures Emptying(c, a, b, node, into, done, q, q')
  {
  }

  /** `rows` lists what the event holds directly in the folder, as `b` still has it. */
  ghost predicate Listed(c: Restore, a: Db, b: Db, node: Id, rows: seq<Ref>) {
    && Distinct(rows) && Members(rows) == Carried(a, c.event, {node})
    && forall r :: r in rows ==> r in a.items && r in b.items && b.items[r] == a.items[r]
  }

  lemma ItemsSame(c: Restore, a: Db, b: Db, node: Id, into: Id, X: set<Id>, Y: set<Ref>)
    requires Merging(c, a, node, into) && Inv(b) && Placed(c, a, b, X, Y) && Handled(c, a, X, Y)
    requires node !in X && (a.folders[node].parent.Some? ==> a.folders[node].parent.value !in X)
    requires Y == Carried(a, c.event, X)
    ensures Carried(b, c.event, {node}) == Carried(a, c.event, {node})
    ensures forall r :: r in Carried(a, c.event, {node}) ==>
      r in b.items && b.items[r] == a.items[r] && r.kind == c.kind && a.items[r].user == c.user
  {
    MergeStands(c, a, b, X, Y, node, into);
    SameOwnerBelow(a, node);
    assert FolderOk(a, node);
    forall r | r in Carried(a, c.event, {node}) ensures r in b.items && b.items[r] == a.items[r] {
      ItemStands(c, a, b, X, Y, r);
    }
    forall r | r in Carried(b, c.event, {node}) ensures r in Carried(a, c.event, {node}) {
      assert ItemPlaced(c, a, b, Y, r) && ItemOk(a, r);
      if a.items[r].folder.Some? { assert FolderMerged(c, a, b, X, a.items[r].folder.value); }
    }
  }

  /** What the event holds directly in the folder after its children were placed is what it held before. */
  lemma ItemsRemain(
    c: Restore, a: Db, b: Db, node: Id, into: Id, rows: seq<Ref>, q: seq<Conflict>, q': seq<Conflict>)
    requires Emptying(c, a, b, node, into, {}, q, q')
    requires Distinct(rows) && forall r :: r in rows <==>
      && r in b.items && r.kind == c.kind && b.items[r].user == c.user
      && b.items[r].folder == Some(node) && b.items[r].event == Some(c.event)
    ensures Listed(c, a, b, node, rows)
  {
    var X := Forest(a.folders, Some(c.event), Children(a.folders, Some(c.event), node));
    ForestBelow(a.folders, Some(c.event), node, Children(a.folders, Some(c.event), node));
    assert Carried(a, c.event, X) + {} == Carried(a, c.event, X);
    ItemsSame(c, a, b, node, into, X, Carried(a, c.event, X));
    assert Members(rows) == Carried(b, c.event, {node});
    assert forall r :: r in rows ==> r in Members(rows);
  }

  lemma EmptyingStarts(c: Restore, a: Db, b: Db, node: Id, into: Id, q: seq<Conflict>, q': seq<Conflict>)
    requires Merged(c, a, b, node, into, Children(a.folders, Some(c.event), node), q, q')
    ensures Emptying(c, a, b, node, into, {}, q, q')
  {
    var X := Forest(a.folders, Some(c.event), Children(a.folders, Some(c.event), node));
    assert Carried(a, c.event, X) + {} == Carried(a, c.event, X);
  }

  lemma ItemReady(c: Restore, a: Db, b: Db, node: Id, into: Id, X: set<Id>, Y: set<Ref>, r: Ref)
    requires Merging(c, a, node, into) && Inv(b) && Placed(c, a, b, X, Y) && Handled(c, a, X, Y)
    requires node !in X && (a.folders[node].parent.Some? ==> a.folders[node].parent.value !in X)
    requires r in Carried(a, c.event, {node}) && r !in Y
    ensures Untouched(a, b, {}, {r}) && Returning(c, b, r, Some(into)) && Handled(c, a, {}, {r})
  {
    MergeStands(c, a, b, X, Y, node, into);
    SameOwnerBelow(a, node);
    ItemStands(c, a, b, X, Y, r);
    assert FolderOk(b, into);
  }

  /** An item about to be placed is as it was, and the folder merged into is a place for it. */
  lemma ItemTurn(
    c: Restore, a: Db, b: Db, node: Id, into: Id, done: set<Ref>, r: Ref, q: seq<Conflict>, q': seq<Conflict>)
    requires Emptying(c, a, b, node, into, done, q, q')
    requires r in a.items && r in Carried(a, c.event, {node}) && r !in done
    ensures Untouched(a, b, {}, {r}) && Returning(c, b, r, Some(into)) && Handled(c, a, {}, {r})
  {
    var X := Forest(a.folders, Some(c.event), Children(a.folders, Some(c.event), node));
    ForestBelow(a.folders, Some(c.event), node, Children(a.folders, Some(c.event), node));
    ItemReady(c, a, b, node, into, X, Carried(a, c.event, X) + done, r);
  }

  lemma ItemAdded(
    c: Restore, a: Db, b: Db, d: Db, X: set<Id>, Y: set<Ref>, r: Ref, Y': set<Ref>,
    q: seq<Conflict>, q': seq<Conflict>, q'': seq<Conflict>)
    requires Inv(a) && Step(c, a, b, X, Y, q, q') && ItemStep(c, b, d, r, q', q'') && r !in Y && Y' == Y + {r}
    requires Untouched(a, b, {}, {r}) && Handled(c, a, {}, {r})
    ensures Step(c, a, d, X, Y', q, q'')
  {
    StepThen(c, a, b, d, X, {}, Y, {r}, X, Y', q, q', q'');
  }

  lemma ItemDone(
    c: Restore, a: Db, b: Db, d: Db, node: Id, into: Id, done: set<Ref>, r: Ref,
    q: seq<Conflict>, q': seq<Conflict>, q'': seq<Conflict>)
    requires Emptying(c, a, b, node, into, done, q, q') && ItemStep(c, b, d, r, q', q'')
    requires r in a.items && r in Carried(a, c.event, {node}) && r !in done
    requires Untouched(a, b, {}, {r}) && Handled(c, a, {}, {r})
    ensures Emptying(c, a, d, node, into, done + {r}, q, q'')
  {
    var kids := Children(a.folders, Some(c.event), node);
    var X, Y :|
      && Merging(c, a, node, into) && X == Forest(a.folders, Some(c.event), kids)
      && Y == Carried(a, c.event, X) + done && Step(c, a, b, X, Y, q, q');
    ForestBelow(a.folders, Some(c.event), node, kids);
    var Y' := Carried(a, c.event, X) + (done + {r});
    UnionGrows(Carried(a, c.event, X), done, r);
    ItemAdded(c, a, b, d, X, Y, r, Y', q, q', q'');
    EmptyingBy(c, a, d, node, into, done + {r}, X, Y', q, q'');
  }

  /** The folder directly holds something of the event being restored. */
  ghost predicate HoldsSome(b: Db, c: Restore, node: Id) {
    || (exists f :: f in b.folders && b.folders[f].user == c.user && b.folders[f].parent == Some(node)
                    && b.folders[f].event == Some(c.event))
    || (exists r :: r in b.items && r.kind == c.kind && b.items[r].user == c.user && b.items[r].folder == Some(node)
                    && b.items[r].event == Some(c.event))
  }

  lemma HoldsNone(b: Db, c: Restore, node: Id)
    requires Inv(b) && node in b.folders && b.folders[node].user == c.user && b.folders[node].kind == c.kind
      && !HoldsSome(b, c, node)
    ensures !Holds(b, c.event, node)
  {
    SameOwnerBelow(b, node);
  }

  lemma FolderSettled(
    c: Restore, a: Db, b: Db, node: Id, into: Id, X: set<Id>, Y: set<Ref>, q: seq<Conflict>, q': seq<Conflict>)
    requires Merging(c, a, node, into) && Step(c, a, b, X, Y, q, q')
    requires node !in X && (a.folders[node].parent.Some? ==> a.folders[node].parent.value !in X)
    requires X + {node} == Subtree(a.folders, Some(c.event), node) && Y == Carried(a, c.event, X + {node})
    ensures var d := if HoldsSome(b, c, node) then b else MergeAway(b, c.user, c.kind, node, into);
      Step(c, a, d, X + {node}, Y, q, q')
  {
    SubtreeHandled(c, a, node);
    MergeStands(c, a, b, X, Y, node, into);
    assert FolderOk(b, into);
    if HoldsSome(b, c, node) {
      KeepFinish(c, a, b, X, Y, node, q, q');
    } else {
      HoldsNone(b, c, node);
      MergeFinish(c, a, b, X, Y, node, into, q, q');
    }
  }

  /** With the children and the items placed, the folder is deleted, or kept if the event still holds something in it:
      either way the whole subtree has been handled. */
  lemma FolderDone(
    c: Restore, a: Db, b: Db, node: Id, into: Id, done: set<Ref>, q: seq<Conflict>, q': seq<Conflict>)
    requires Emptying(c, a, b, node, into, done, q, q') && done == Carried(a, c.event, {node})
    ensures FolderStep(c, a, if HoldsSome(b, c, node) then b else MergeAway(b, c.user, c.kind, node, into), node, q, q')
  {
    var kids := Children(a.folders, Some(c.event), node);
    var S, X := Subtree(a.folders, Some(c.event), node), Forest(a.folders, Some(c.event), kids);
    var Y := Carried(a, c.event, X) + done;
    ForestAll(a.folders, Some(c.event), node);
    ForestBelow(a.folders, Some(c.event), node, kids);
    assert Y == Carried(a, c.event, S);
    FolderSettled(c, a, b, node, into, X, Y, q, q');
  }

  // --- the whole restore ---

  /** The part of the event below a folder is the same after missing ancestors were created. */
  lemma PartExtends(c: Restore, a: Db, b: Db, names: Path, node: Id)
    requires Inv(a) && Grown(a, b, c.user, c.kind, names) && node in a.folders && a.folders[node].event == Some(c.event)
    ensures var S := Subtree(a.folders, Some(c.event), node);
      && Subtree(b.folders, Some(c.event), node) == S && Carried(b, c.event, S) == Carried(a, c.event, S)
      && Untouched(a, b, S, Carried(a, c.event, S))
  {
    SubtreeStable(a.folders, b.folders, Some(c.event), node);
  }

  /** Only the way was created: a step creates no folder, and keeps the path of those it leaves. */
  lemma StillOnTheWay(c: Restore, a: Db, b: Db, d: Db, way: Path, X: set<Id>, Y: set<Ref>)
    requires OnTheWay(a.folders, b.folders, c.user, c.kind, way) && NoNewFolders(b, d) && Placed(c, b, d, X, Y)
    requires forall f :: f in X ==> f in b.folders && b.folders[f].event.Some?
    ensures OnTheWay(a.folders, d.folders, c.user, c.kind, way)
  {
    forall f | f in d.folders && f !in a.folders
      ensures d.folders[f].event.None? && d.folders[f].user == c.user && d.folders[f].kind == c.kind
      ensures PathOf(d.folders, Some(f)) <= way
    {
      assert FolderPlaced(c, b, d, X, f);
    }
  }

  /** The way stays open: a step leaves an active place where it was. */
  lemma StillOpen(c: Restore, b: Db, d: Db, way: Path, X: set<Id>, Y: set<Ref>)
    requires Open(b.folders, c.user, c.kind, way) && Placed(c, b, d, X, Y)
    requires forall f :: f in X ==> f in b.folders && b.folders[f].event.Some?
    ensures Open(d.folders, c.user, c.kind, way)
  {
    if g :| g in b.folders && b.folders[g].event.None? && b.folders[g].user == c.user && b.folders[g].kind == c.kind
            && PathOf(b.folders, Some(g)) == way {
      assert FolderMerged(c, b, d, X, g) && FolderPlaced(c, b, d, X, g);
    }
  }

  lemma LeadPlaced(c: Restore, a: Db, b: Db, d: Db, names: Path, X: set<Id>, Y: set<Ref>)
    requires Inv(a) && Grown(a, b, c.user, c.kind, names) && c.event in b.events
    requires NoNewFolders(b, d) && Placed(c, b, d, X, Y) && Handled(c, b, X, Y) && Untouched(a, b, X, Y)
    ensures TwoSteps(c, a, b, d, {}, X, {}, Y) && Exact(c, a, b, {}) && Placed(c, a, d, X, Y)
  {
    NothingHandled(c, a);
    GrownStep(c, a, b, names);
    Compose(c, a, b, d, {}, X, {}, Y);
    EmptyUnion(X);
    EmptyUnion(Y);
  }

  lemma LeadReported(c: Restore, a: Db, b: Db, d: Db, X: set<Id>, Y: set<Ref>, q: seq<Conflict>)
    requires TwoSteps(c, a, b, d, {}, X, {}, Y) && Exact(c, a, b, {}) && Handled(c, a, X, Y)
    requires Accounted(c, d, Y, q) && Grounds(c, b, Y, [], q) && Home(c, b, d, X, Y)
    requires Plain(c, b, Y) ==> Exact(c, b, d, Y) && Adds([], q, Conflicting(c, b, Y))
    ensures Reported(c, a, d, X, Y, q)
  {
    EmptyUnion(X);
    EmptyUnion(Y);
    StepGrounds(c, a, b, {}, {}, Y, [], [], q);
    ComposeHome(c, a, b, d, {}, X, {}, Y);
    if Plain(c, a, Y) {
      assert Conflicting(c, a, {}) == {};
      StepExact(c, a, b, d, {}, X, {}, Y, [], [], q);
    }
  }

  /** Creating the missing ancestors, then one step: together a step. */
  lemma LeadIn(c: Restore, a: Db, b: Db, d: Db, names: Path, X: set<Id>, Y: set<Ref>, q: seq<Conflict>)
    requires Inv(a) && Grown(a, b, c.user, c.kind, names) && c.event in b.events && Handled(c, a, X, Y)
    requires Step(c, b, d, X, Y, [], q) && Untouched(a, b, X, Y) && Open(b.folders, c.user, c.kind, names)
    ensures Settling(c, names, a, d, X, Y, q)
  {
    LeadPlaced(c, a, b, d, names, X, Y);
    StillOnTheWay(c, a, b, d, names, X, Y);
    StillOpen(c, b, d, names, X, Y);
    LeadReported(c, a, b, d, X, Y, q);
  }

  lemma ItemLeadIn(c: Restore, a: Db, b: Db, d: Db, names: Path, r: Ref, q: seq<Conflict>)
    requires Inv(a) && Grown(a, b, c.user, c.kind, names) && c.event in b.events && Handled(c, a, {}, {r})
    requires ItemStep(c, b, d, r, [], q) && Untouched(a, b, {}, {r}) && Open(b.folders, c.user, c.kind, names)
    ensures Settling(c, names, a, d, {}, {r}, q)
  {
    LeadIn(c, a, b, d, names, {}, {r}, q);
  }

  lemma FolderLeadIn(c: Restore, a: Db, b: Db, d: Db, names: Path, node: Id, q: seq<Conflict>)
    requires Inv(a) && Grown(a, b, c.user, c.kind, names) && node in a.folders && a.folders[node].event == Some(c.event)
    requires a.folders[node].user == c.user && a.folders[node].kind == c.kind && c.event in b.events
    requires FolderStep(c, b, d, node, [], q) && Open(b.folders, c.user, c.kind, names)
    ensures var S := Subtree(a.folders, Some(c.event), node); Settling(c, names, a, d, S, Carried(a, c.event, S), q)
  {
    var S := Subtree(a.folders, Some(c.event), node);
    PartExtends(c, a, b, names, node);
    SubtreeHandled(c, a, node);
    LeadIn(c, a, b, d, names, S, Carried(a, c.event, S), q);
  }

  /** After the way to its place was rebuilt, an item is ready to be placed. */
  lemma ItemArrives(c: Restore, a: Db, b: Db, names: Path, r: Ref, dest: Option<Id>)
    requires Inv(a) && r in a.items && a.items[r].user == c.user && r.kind == c.kind
      && a.items[r].event == Some(c.event)
    requires names == ItemPath(a, r) && Grown(a, b, c.user, c.kind, names)
    requires Destination(b.folders, c.user, c.kind, dest) && PathOf(b.folders, dest) == names
    ensures Returning(c, b, r, dest) && Untouched(a, b, {}, {r}) && c.event in b.events
    ensures Open(b.folders, c.user, c.kind, names)
  {
    assert ItemOk(a, r);
    OnePlace(b, c.user, c.kind, dest, dest);
  }

  lemma FolderArrives(c: Restore, a: Db, b: Db, names: Path, node: Id, dest: Option<Id>)
    requires Inv(a) && node in a.folders && a.folders[node].user == c.user && a.folders[node].kind == c.kind
    requires a.folders[node].event == Some(c.event)
    requires names == PathOf(a.folders, a.folders[node].parent) && Grown(a, b, c.user, c.kind, names)
    requires Destination(b.folders, c.user, c.kind, dest) && PathOf(b.folders, dest) == names
    ensures Arriving(c, b, node, dest) && b.folders[node] == a.folders[node] && c.event in b.events
    ensures Open(b.folders, c.user, c.kind, names)
  {
    assert FolderOk(a, node);
    OnePlace(b, c.user, c.kind, dest, dest);
    ParentPath(a.folders, node);
    ParentPath(b.folders, node);
    var p, p' := Paths(a.folders), Paths(b.folders);
    assert PathOf(b.folders, b.folders[node].parent) == p'[node][..|p'[node]| - 1] == p[node][..|p[node]| - 1] == names;
  }

  /** Dropping the event if it is empty ends the restore. */
  lemma CloseUp(c: Restore, way: Path, a: Db, b: Db, X: set<Id>, Y: set<Ref>, q: seq<Conflict>)
    requires Inv(a) && Settling(c, way, a, b, X, Y, q) && c.event in a.events && a.events[c.event].user == c.user
    ensures Finished(c, way, a, Cleanup(b, c.user, c.event), X, Y, q)
  {
    CleanupStep(c, b);
    CleanupKeeps(b, c.user, c.event);
    FollowUp(c, a, b, Cleanup(b, c.user, c.event), X, Y);
    StillOpen(c, b, Cleanup(b, c.user, c.event), way, {}, {});
  }
}
