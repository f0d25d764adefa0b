/** The promises of a restore's single steps and of the restore as a whole. */
module Steps {
  import opened Base
  import opened Tables
  import opened Tree
  import opened Statements
  import opened Untrashing
  import opened Placement

  /** Every item of `Y` still in the event was skipped on request or is reported as a conflict. */
  ghost predicate Accounted(c: Restore, b: Db, Y: set<Ref>, conflicts: seq<Conflict>) {
    forall r :: r in Y && r in b.items && b.items[r].event == Some(c.event) ==>
      || Asks(c, r, Skip)
      || (exists x :: x in conflicts && x.id == r.id)
  }

  ghost predicate NoNewFolders(a: Db, b: Db) {
    forall f :: f in b.folders ==> f in a.folders
  }

  ghost predicate Adds(q: seq<Conflict>, q': seq<Conflict>, more: set<Conflict>) {
    Members(q') == Members(q) + more
  }

  /** Every new conflict has its cause, and no two are about one item. */
  ghost predicate Grounds(c: Restore, a: Db, Y: set<Ref>, q: seq<Conflict>, q': seq<Conflict>) {
    && (forall k :: |q| <= k < |q'| ==> Justified(c, a, Y, q'[k]))
    && (forall i, j :: |q| <= i < j < |q'| ==> q'[i].id != q'[j].id)
  }

  /** What handling the folders `X` and the items `Y` guarantees to the restore as a whole; `q` and
      `q'` are the conflicts reported before and after. */
  ghost predicate Step(c: Restore, a: Db, b: Db, X: set<Id>, Y: set<Ref>, q: seq<Conflict>, q': seq<Conflict>) {
    && Inv(b) && c.event in b.events && NoNewFolders(a, b)
    && Placed(c, a, b, X, Y) && Handled(c, a, X, Y)
    && q <= q' && Accounted(c, b, Y, q') && Grounds(c, a, Y, q, q') && Home(c, a, b, X, Y)
    && (Plain(c, a, Y) ==> Exact(c, a, b, Y) && Adds(q, q', Conflicting(c, a, Y)))
  }

  /** The step that handles one item. */
  ghost predicate ItemStep(c: Restore, a: Db, b: Db, r: Ref, q: seq<Conflict>, q': seq<Conflict>) {
    exists X, Y :: X == {} && Y == {r} && Step(c, a, b, X, Y, q, q')
  }

  /** The step that handles a folder with everything the event holds in and below it. */
  ghost predicate FolderStep(c: Restore, a: Db, b: Db, node: Id, q: seq<Conflict>, q': seq<Conflict>) {
    exists X, Y ::
      X == Subtree(a.folders, Some(c.event), node) && Y == Carried(a, c.event, X) && Step(c, a, b, X, Y, q, q')
  }

  /** Every item left in the event was skipped or is reported, once, every report has its cause, what is not contested
      comes home, and when no item whose place is taken is to be renamed, outcome and reports are determined. */
  ghost predicate Reported(c: Restore, a: Db, d: Db, X: set<Id>, Y: set<Ref>, conflicts: seq<Conflict>) {
    && Accounted(c, d, Y, conflicts) && Grounds(c, a, Y, [], conflicts) && Home(c, a, d, X, Y)
    && (Plain(c, a, Y) ==> Exact(c, a, d, Y) && Members(conflicts) == Conflicting(c, a, Y))
  }

  /** The path leads to an active place. */
  ghost predicate Open(fs: Folders, user: Id, kind: Kind, way: Path) {
    way == [] || ActiveAt(fs, user, kind, way)
  }

  /** What a restore to the path `way` that handled `X` and `Y` of its event promises about the tables. */
  ghost predicate Finished(
    c: Restore, way: Path, a: Db, d: Db, X: set<Id>, Y: set<Ref>, conflicts: seq<Conflict>)
  {
    && Inv(d) && Placed(c, a, d, X, Y) && Handled(c, a, X, Y)
    && OnTheWay(a.folders, d.folders, c.user, c.kind, way) && Open(d.folders, c.user, c.kind, way)
    && Reported(c, a, d, X, Y, conflicts)
    && (c.event in d.events ==> Referenced(d, c.event))
  }

  /** The restore up to its last statement. */
  ghost predicate Settling(c: Restore, way: Path, a: Db, b: Db, X: set<Id>, Y: set<Ref>, q: seq<Conflict>) {
    && Inv(b) && c.event in b.events && Placed(c, a, b, X, Y) && Handled(c, a, X, Y)
    && OnTheWay(a.folders, b.folders, c.user, c.kind, way) && Open(b.folders, c.user, c.kind, way)
    && Reported(c, a, b, X, Y, q)
  }
}
