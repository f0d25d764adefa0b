/** The recursive queries, run row by row. */
module Queries {
  import opened Base
  import opened Tables
  import opened Tree

  /** Each row but the top's was queued because of its parent, earlier in the queue. */
  ghost predicate ParentsFirst(fs: Folders, top: Id, ids: seq<Id>) {
    forall k :: 0 <= k < |ids| && ids[k] != top ==>
      ids[k] in fs && fs[ids[k]].parent.Some? && fs[ids[k]].parent.value in ids[..k]
  }

  /** The first `i` rows were expanded: what is queued has its parent among them, and all of their
      children are queued. */
  ghost predicate Expanded(fs: Folders, v: Option<Id>, top: Id, ids: seq<Id>, done: set<Id>) {
    && (forall f :: f in ids ==> f == top || (f in fs && fs[f].parent.Some? && fs[f].parent.value in done))
    && (forall f :: f in fs && fs[f].event == v && fs[f].parent.Some? && fs[f].parent.value in done ==> f in ids)
  }

  /** The queue of the recursive query after its first `i` rows were expanded. */
  ghost predicate Walking(fs: Folders, v: Option<Id>, top: Id, ids: seq<Id>, i: nat) {
    && Grounded(fs) && i <= |ids| && Distinct(ids) && top in ids && Members(ids) <= Subtree(fs, v, top)
    && ParentsFirst(fs, top, ids)
    && Expanded(fs, v, top, ids, Members(ids[..i]))
  }

  lemma ExpandOne(fs: Folders, v: Option<Id>, top: Id, ids: seq<Id>, done: set<Id>, cur: Id, children: seq<Id>)
    requires Expanded(fs, v, top, ids, done)
    requires forall f :: f in children <==> f in fs && fs[f].event == v && fs[f].parent == Some(cur)
    ensures Expanded(fs, v, top, ids + children, done + {cur})
  {
  }

  lemma ChildrenNew(fs: Folders, v: Option<Id>, top: Id, ids: seq<Id>, i: nat, f: Id)
    requires Walking(fs, v, top, ids, i) && i < |ids| && f in fs && fs[f].event == v && fs[f].parent == Some(ids[i])
    ensures f in Subtree(fs, v, top) && f !in ids && f != top
  {
    assert ids[i] in Members(ids);
    SubtreeStep(fs, v, top, f);
    SubtreePaths(fs, v, top, ids[i]);
    ParentPath(fs, f);
    assert ids[i] !in ids[..i];
  }

  lemma StillParentsFirst(fs: Folders, top: Id, ids: seq<Id>, i: nat, children: seq<Id>)
    requires ParentsFirst(fs, top, ids) && i < |ids|
    requires forall f :: f in children ==> f in fs && fs[f].parent == Some(ids[i])
    ensures ParentsFirst(fs, top, ids + children)
  {
    var longer := ids + children;
    forall k | 0 <= k < |longer| && longer[k] != top
      ensures longer[k] in fs && fs[longer[k]].parent.Some? && fs[longer[k]].parent.value in longer[..k]
    {
      if k < |ids| {
        assert longer[..k] == ids[..k];
      } else {
        assert longer[k] in children && longer[..k][i] == ids[i];
      }
    }
  }

  lemma ChildrenInside(fs: Folders, v: Option<Id>, top: Id, ids: seq<Id>, i: nat, children: seq<Id>)
    requires Walking(fs, v, top, ids, i) && i < |ids| && Distinct(children)
    requires forall f :: f in children ==> f in fs && fs[f].event == v && fs[f].parent == Some(ids[i])
    ensures Distinct(ids + children) && Members(ids + children) <= Subtree(fs, v, top)
  {
    forall f | f in children ensures f in Subtree(fs, v, top) && f !in ids {
      ChildrenNew(fs, v, top, ids, i, f);
    }
    DistinctAppend(ids, children);
    assert Members(ids + children) == Members(ids) + Members(children);
  }

  lemma WalkStep(fs: Folders, v: Option<Id>, top: Id, ids: seq<Id>, i: nat, children: seq<Id>)
    requires Walking(fs, v, top, ids, i) && i < |ids| && Distinct(children)
    requires forall f :: f in children <==> f in fs && fs[f].event == v && fs[f].parent == Some(ids[i])
    ensures Walking(fs, v, top, ids + children, i + 1)
  {
    ChildrenInside(fs, v, top, ids, i, children);
    StillParentsFirst(fs, top, ids, i, children);
    ExpandOne(fs, v, top, ids, Members(ids[..i]), ids[i], children);
    MembersGrow(ids, i);
    var longer := ids + children;
    assert longer[..i + 1] == ids[..i + 1] && top in longer;
    assert Members(longer[..i + 1]) == Members(ids[..i]) + {ids[i]};
  }

  /** A set with `top` and every child of its members has the whole subtree. */
  lemma {:induction false} WalkReaches(fs: Folders, v: Option<Id>, top: Id, ids: seq<Id>, f: Id)
    requires Grounded(fs) && top in ids && f in Subtree(fs, v, top)
    requires forall g | g in fs && fs[g].event == v && fs[g].parent.Some? && fs[g].parent.value in ids :: g in ids
    ensures f in ids
    decreases |Paths(fs)[f]|
  {
    ParentPath(fs, f);
    if f != top {
      WalkReaches(fs, v, top, ids, fs[f].parent.value);
    }
  }

  lemma WalkEnds(fs: Folders, v: Option<Id>, top: Id, ids: seq<Id>)
    requires Walking(fs, v, top, ids, |ids|)
    ensures Members(ids) == Subtree(fs, v, top)
  {
    assert ids[..|ids|] == ids;
    forall f | f in Subtree(fs, v, top) ensures f in ids {
      WalkReaches(fs, v, top, ids, f);
    }
  }

  /** The recursive queries over the folder tree: start from `top` and queue the children that carry
      `v`, row by row, until none is left. The walk ends because the tree has no cycle, and yields
      every folder of the subtree once. */
  method SubtreeIds(db: Db, user: Id, v: Option<Id>, top: Id) returns (ids: seq<Id>)
    requires Inv(db)
    ensures Distinct(ids) && ParentsFirst(db.folders, top, ids)
    ensures Members(ids) == if top in db.folders && db.folders[top].user == user then Subtree(db.folders, v, top)
      else {}
  {
    if top !in db.folders || db.folders[top].user != user || db.folders[top].event != v {
      if top in db.folders {
        forall f | f in Subtree(db.folders, v, top) ensures db.folders[top].event == v {
          SubtreePaths(db.folders, v, top, f);
        }
      }
      return [];
    }
    ids := [top];
    var i := 0;
    SubtreeStep(db.folders, v, top, top);
    while i < |ids|
      invariant Walking(db.folders, v, top, ids, i)
      invariant |ids| <= |db.folders.Keys|
      decreases |db.folders.Keys| - i
    {
      var children := Rows(set f | f in db.folders && db.folders[f].event == v && db.folders[f].parent == Some(ids[i]));
      WalkStep(db.folders, v, top, ids, i, children);
      ids := ids + children;
      i := i + 1;
      assert forall f :: f in ids ==> f in Members(ids);
      DistinctFits(ids, db.folders.Keys);
    }
    WalkEnds(db.folders, v, top, ids);
  }
}
