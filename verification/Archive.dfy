/** The contents of a folder download: every active item below the folder, by its path from it. */
module Archive {
  import opened Base
  import opened Tables
  import opened Tree
  import opened Text
  import opened Statements
  import opened Queries

  /** The path of `f` counted from `top`, which comes first. */
  ghost function From(fs: Folders, top: Id, f: Id): Path
    requires Grounded(fs) && top in fs && f in fs && |Paths(fs)[top]| <= |Paths(fs)[f]|
    requires |Paths(fs)[top]| > 0
  {
    Paths(fs)[f][|Paths(fs)[top]| - 1..]
  }

  /** The active items filed in the active subtree of a folder. */
  ghost function ItemsBelow(db: Db, top: Id): set<Ref> {
    set r | r in db.items && !db.items[r].deleted && db.items[r].folder.Some?
      && db.items[r].folder.value in Subtree(db.folders, None, top)
  }

  ghost predicate Filed(db: Db, top: Id, r: Ref)
    requires Inv(db) && top in db.folders
  {
    && r in ItemsBelow(db, top) && db.items[r].folder.value in db.folders
    && 0 < |Paths(db.folders)[top]| <= |Paths(db.folders)[db.items[r].folder.value]|
  }

  /** Where an item goes in the archive of `top`, as a list of names. */
  ghost function ArchivePath(db: Db, top: Id, r: Ref): Path
    requires Inv(db) && top in db.folders && Filed(db, top, r)
  {
    From(db.folders, top, db.items[r].folder.value) + [db.items[r].name]
  }

  lemma BelowIsFiled(db: Db, top: Id, r: Ref)
    requires Inv(db) && top in db.folders && r in ItemsBelow(db, top)
    ensures Filed(db, top, r)
  {
    ParentPath(db.folders, top);
    SubtreePaths(db.folders, None, top, db.items[r].folder.value);
    assert ItemOk(db, r);
  }

  datatype Entry = Entry(path: string, blob: string)

  /** `f` is labelled with its slash path from `top`. */
  ghost predicate LabelledFrom(fs: Folders, top: Id, paths: map<Id, string>, f: Id)
    requires Grounded(fs)
  {
    f in paths && f in fs && top in fs && 0 < |Paths(fs)[top]| <= |Paths(fs)[f]| && paths[f] == Join(From(fs, top, f))
  }

  lemma LabelChild(fs: Folders, top: Id, paths: map<Id, string>, up: Id, f: Id)
    requires Grounded(fs) && f in fs && fs[f].parent == Some(up) && LabelledFrom(fs, top, paths, up)
    ensures LabelledFrom(fs, top, paths[f := paths[up] + "/" + fs[f].name], f)
  {
    ParentPath(fs, f);
    JoinAppend(From(fs, top, up), fs[f].name);
    assert From(fs, top, f) == From(fs, top, up) + [fs[f].name];
  }

  /** The active subtree with each folder's slash path, a child's being its parent's extended. */
  method Walk(db: Db, user: Id, top: Id) returns (ids: seq<Id>, paths: map<Id, string>)
    requires Inv(db) && OwnActiveFolder(db.folders, user, top)
    ensures Members(ids) == Subtree(db.folders, None, top) == paths.Keys
    ensures forall f :: f in paths ==> LabelledFrom(db.folders, top, paths, f)
  {
    ids := SubtreeIds(db, user, None, top);
    ParentPath(db.folders, top);
    paths := map[];
    for k := 0 to |ids|
      invariant paths.Keys == Members(ids[..k])
      invariant forall f :: f in paths ==> LabelledFrom(db.folders, top, paths, f)
    {
      var f := ids[k];
      MembersGrow(ids, k);
      assert f !in ids[..k];
      if f == top {
        assert From(db.folders, top, f) == [db.folders[f].name];
        paths := paths[f := db.folders[f].name];
      } else {
        var up := db.folders[f].parent.value;
        assert up in Members(ids[..k]);
        LabelChild(db.folders, top, paths, up, f);
        paths := paths[f := paths[up] + "/" + db.folders[f].name];
      }
    }
    assert ids[..|ids|] == ids;
  }

  /** One entry per active item of the subtree, under the item's path from the folder. */
  method CollectFolderArchive(db: Db, user: Id, top: Id) returns (o: Outcome, entries: seq<Entry>, ghost refs: seq<Ref>)
    requires Inv(db)
    ensures o == if OwnActiveFolder(db.folders, user, top) then Ok else Fail(NotFound)
    ensures o == Ok ==> Distinct(refs) && Members(refs) == ItemsBelow(db, top) && |entries| == |refs|
    ensures o == Ok ==> forall k | 0 <= k < |refs| ::
      Filed(db, top, refs[k]) && entries[k] == Entry(Join(ArchivePath(db, top, refs[k])), db.items[refs[k]].blob)
  {
    var found := RequireActiveFolder(db, user, top);
    if found.None? { return Fail(NotFound), [], []; }
    var kind := db.folders[top].kind;
    var ids, paths := Walk(db, user, top);
    var q := Rows(set r | r in db.items && r.kind == kind && db.items[r].user == user && !db.items[r].deleted
                          && db.items[r].folder.Some? && db.items[r].folder.value in paths);
    forall r ensures r in ItemsBelow(db, top) <==> r in q {
      if r in ItemsBelow(db, top) {
        assert ItemOk(db, r);
        SubtreeOwner(db, None, top, db.items[r].folder.value);
      }
    }
    entries := [];
    for k := 0 to |q|
      invariant |entries| == k
      invariant forall j :: 0 <= j < k ==>
        Filed(db, top, q[j]) && entries[j] == Entry(Join(ArchivePath(db, top, q[j])), db.items[q[j]].blob)
    {
      assert q[k] in q;
      BelowIsFiled(db, top, q[k]);
      var x := db.items[q[k]];
      assert LabelledFrom(db.folders, top, paths, x.folder.value);
      JoinAppend(From(db.folders, top, x.folder.value), x.name);
      entries := entries + [Entry(paths[x.folder.value] + "/" + x.name, x.blob)];
    }
    o, refs := Ok, q;
  }

  // --- no two entries share a path, as long as names hold no slash ---

  ghost predicate Slashless(name: string) {
    '/' !in name
  }

  lemma FirstName(a: string, b: string, s: string, t: string)
    requires Slashless(a) && Slashless(b) && a + "/" + s == b + "/" + t
    ensures a == b && s == t
  {
    var w := a + "/" + s;
    assert w == b + "/" + t && w[|a|] == '/' && w[|b|] == '/';
    assert forall k :: 0 <= k < |a| ==> w[k] == a[k] && a[k] in a;
    assert forall k :: 0 <= k < |b| ==> w[k] == b[k] && b[k] in b;
    assert a == w[..|a|] && b == w[..|b|] && s == w[|a| + 1..] && t == w[|b| + 1..];
  }

  lemma JoinHasSlash(p: Path)
    requires |p| > 1
    ensures '/' in Join(p)
  {
    assert Join(p)[|p[0]|] == '/';
  }

  /** A slash path of slashless names can be taken apart again. */
  lemma {:induction false} JoinInjective(p: Path, q: Path)
    requires p != [] && q != [] && Join(p) == Join(q)
    requires (forall n :: n in p ==> Slashless(n)) && (forall n :: n in q ==> Slashless(n))
    ensures p == q
  {
    assert p[0] in p && q[0] in q;
    if |p| > 1 { JoinHasSlash(p); }
    if |q| > 1 { JoinHasSlash(q); }
    if |p| > 1 && |q| > 1 {
      FirstName(p[0], q[0], Join(p[1..]), Join(q[1..]));
      JoinInjective(p[1..], q[1..]);
      assert p == [p[0]] + p[1..] && q == [q[0]] + q[1..];
    }
  }

  /** When no name in the subtree holds a slash, no two entries of the archive share a path. */
  lemma ArchivePathsApart(db: Db, top: Id, r: Ref, s: Ref)
    requires Inv(db) && top in db.folders && Filed(db, top, r) && Filed(db, top, s)
    requires forall n :: n in ArchivePath(db, top, r) ==> Slashless(n)
    requires forall n :: n in ArchivePath(db, top, s) ==> Slashless(n)
    requires Join(ArchivePath(db, top, r)) == Join(ArchivePath(db, top, s))
    ensures r == s
  {
    var p, f, g := Paths(db.folders), db.items[r].folder.value, db.items[s].folder.value;
    JoinInjective(ArchivePath(db, top, r), ArchivePath(db, top, s));
    var m := |p[top]| - 1;
    assert From(db.folders, top, f) == ArchivePath(db, top, r)[..|ArchivePath(db, top, r)| - 1];
    assert From(db.folders, top, g) == ArchivePath(db, top, s)[..|ArchivePath(db, top, s)| - 1];
    assert db.items[r].name == ArchivePath(db, top, r)[|ArchivePath(db, top, r)| - 1];
    assert db.items[s].name == ArchivePath(db, top, s)[|ArchivePath(db, top, s)| - 1];
    SubtreePaths(db.folders, None, top, f);
    SubtreePaths(db.folders, None, top, g);
    assert p[f] == p[top][..m] + p[f][m..] && p[g] == p[top][..m] + p[g][m..];
    assert ItemOk(db, r) && ItemOk(db, s);
    SubtreeOwner(db, None, top, f);
    SubtreeOwner(db, None, top, g);
    ItemLocated(db, r, s);
  }
}
