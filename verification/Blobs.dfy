/** The blob store on disk: encrypted files, their temporary forerunners, and the sweep for leaked ones. */
module Blobs {
  import opened Base
  import opened Octets
  import opened Crypto

  /** The canonical path of a user's blob, relative to the store's root. */
  function RelPath(userId: string, blobId: string): string {
    userId + "/" + blobId + ".enc"
  }

  /** Where `Write` puts its temporary file; the middle part is drawn at random. */
  function TempPath(userId: string, blobId: string, middle: string): string {
    userId + "/." + blobId + "-" + middle + ".tmp"
  }

  /** The last component of a path. */
  function BaseName(path: string): string
    decreases |path|
  {
    if path == "" then ""
    else if path[|path| - 1] == '/' then ""
    else BaseName(path[..|path| - 1]) + [path[|path| - 1]]
  }

  predicate HasSuffix(s: string, suffix: string) {
    |s| >= |suffix| && s[|s| - |suffix|..] == suffix
  }

  predicate HasPrefix(s: string, prefix: string) {
    prefix <= s
  }

  predicate IsBlob(path: string) {
    HasSuffix(BaseName(path), ".enc")
  }

  predicate IsTempLeftover(path: string) {
    HasPrefix(BaseName(path), ".") && HasSuffix(BaseName(path), ".tmp")
  }

  /** What the sweep removes: an old blob no row points at, or an old temporary file. */
  ghost predicate Reapable(path: string, mtime: int, referenced: set<string>, cutoff: int) {
    && (IsBlob(path) || IsTempLeftover(path))
    && !(IsBlob(path) && path in referenced)
    && mtime < cutoff
  }

  /** The base name is what follows the last slash. */
  lemma {:induction false} BaseNameStarts(path: string) returns (i: nat)
    ensures i <= |path| && BaseName(path) == path[i..] && '/' !in path[i..] && (i == 0 || path[i - 1] == '/')
    decreases |path|
  {
    i := |path|;
    if path != "" && path[|path| - 1] != '/' {
      i := BaseNameStarts(path[..|path| - 1]);
      assert path[i..] == path[..|path| - 1][i..] + [path[|path| - 1]];
    }
  }

  lemma SuffixOfPath(path: string, suffix: string)
    requires |suffix| == 4 && '/' !in suffix
    ensures HasSuffix(BaseName(path), suffix) <==> HasSuffix(path, suffix)
  {
    var i := BaseNameStarts(path);
    if |path| >= 4 {
      var last := path[|path| - 4..];
      if i <= |path| - 4 {
        assert path[i..][|path| - i - 4..] == last;
      } else {
        assert path[i - 1] == last[i - 1 - (|path| - 4)];
      }
    }
  }

  /** A dot stands at `i`, the first character of the path's last component. */
  ghost predicate DotAt(path: string, i: nat) {
    i < |path| && path[i] == '.' && (i == 0 || path[i - 1] == '/') && '/' !in path[i..]
  }

  lemma DottedBase(path: string)
    ensures HasPrefix(BaseName(path), ".") <==> exists i: nat :: DotAt(path, i)
  {
    var i := BaseNameStarts(path);
    if k: nat :| DotAt(path, k) {
      assert BaseName(path)[0] == '.';
    }
    if HasPrefix(BaseName(path), ".") {
      assert BaseName(path)[0] == "."[0];
      assert DotAt(path, i);
    }
  }

  /** Which files count as blobs, and which as temporary ones, by the characters of their paths. */
  lemma KnownBySuffix(path: string)
    ensures IsBlob(path) <==> |path| >= 4 && path[|path| - 4..] == ".enc"
    ensures IsTempLeftover(path) <==> |path| >= 4 && path[|path| - 4..] == ".tmp" && exists i: nat :: DotAt(path, i)
  {
    SuffixOfPath(path, ".enc");
    SuffixOfPath(path, ".tmp");
    DottedBase(path);
  }

  lemma {:induction false} BaseNameAppend(dir: string, name: string)
    requires '/' !in name
    ensures BaseName(dir + "/" + name) == name
  {
    var path := dir + "/" + name;
    if name == "" {
      assert path[|path| - 1] == '/';
    } else {
      var last := name[|name| - 1];
      assert last in name && path[|path| - 1] == last;
      assert path[..|path| - 1] == dir + "/" + name[..|name| - 1];
      BaseNameAppend(dir, name[..|name| - 1]);
    }
  }

  lemma RelPathSplits(userId: string, blobId: string)
    requires '/' !in blobId
    ensures var path, name := RelPath(userId, blobId), BaseName(RelPath(userId, blobId));
      && |name| == |blobId| + 4 && name[..|blobId|] == blobId
      && |path| == |userId| + 1 + |name| && path[..|userId|] == userId
  {
    assert RelPath(userId, blobId) == userId + "/" + (blobId + ".enc");
    BaseNameAppend(userId, blobId + ".enc");
  }

  /** Blobs of different users or with different identifiers never share a path. */
  lemma PathsApart(userId: string, blobId: string, otherUser: string, otherBlob: string)
    requires '/' !in blobId && '/' !in otherBlob && RelPath(userId, blobId) == RelPath(otherUser, otherBlob)
    ensures userId == otherUser && blobId == otherBlob
  {
    var path := RelPath(userId, blobId);
    RelPathSplits(userId, blobId);
    RelPathSplits(otherUser, otherBlob);
    assert userId == path[..|path| - |BaseName(path)| - 1] == otherUser;
    assert blobId == BaseName(path)[..|BaseName(path)| - 4] == otherBlob;
  }

  lemma SuffixEnds(stem: string, suffix: string, other: string)
    requires |suffix| == |other| == 4
    ensures HasSuffix(stem + suffix, other) <==> suffix == other
  {
    assert (stem + suffix)[|stem + suffix| - 4..] == suffix;
  }

  /** A blob looks like a blob and not like a temporary file, as long as identifiers contain no slash. */
  lemma BlobRecognized(userId: string, blobId: string)
    requires '/' !in blobId
    ensures IsBlob(RelPath(userId, blobId)) && !IsTempLeftover(RelPath(userId, blobId))
  {
    var name := blobId + ".enc";
    assert RelPath(userId, blobId) == userId + "/" + name;
    BaseNameAppend(userId, name);
    SuffixEnds(blobId, ".enc", ".enc");
    SuffixEnds(blobId, ".enc", ".tmp");
    assert ".enc"[1] != ".tmp"[1];
  }

  lemma TempSplit(userId: string, blobId: string, middle: string)
    ensures TempPath(userId, blobId, middle) == userId + "/" + ("." + blobId + "-" + middle + ".tmp")
  {
  }

  lemma TempRecognized(userId: string, blobId: string, middle: string)
    requires '/' !in blobId && '/' !in middle
    ensures IsTempLeftover(TempPath(userId, blobId, middle)) && !IsBlob(TempPath(userId, blobId, middle))
  {
    var stem := "." + blobId + "-" + middle;
    var name := stem + ".tmp";
    TempSplit(userId, blobId, middle);
    BaseNameAppend(userId, name);
    SuffixEnds(stem, ".tmp", ".tmp");
    SuffixEnds(stem, ".tmp", ".enc");
    assert ".enc"[1] != ".tmp"[1];
    assert name[..1] == ".";
  }

  ghost function Longest(used: set<string>): (n: nat)
    ensures forall s :: s in used ==> |s| <= n
  {
    if used == {} then 0
    else
      var s :| s in used;
      var n := Longest(used - {s});
      assert forall t :: t in used ==> t == s || t in used - {s};
      if n < |s| then |s| else n
  }

  /** Some middle part makes the temporary name new. */
  lemma FreshTemp(userId: string, blobId: string, used: set<string>) returns (middle: string)
    ensures TempPath(userId, blobId, middle) !in used && '/' !in middle
  {
    middle := seq(Longest(used), _ => '0');
    assert |TempPath(userId, blobId, middle)| > Longest(used);
  }

  datatype File = File(content: Bytes, mtime: int)

  class BlobStore {
    var files: map<string, File>

    constructor ()
      ensures files == map[]
    {
      files := map[];
    }

    method CreateTemp(userId: string, blobId: string, now: int) returns (temp: string)
      requires '/' !in blobId
      modifies this
      ensures temp !in old(files) && IsTempLeftover(temp) && !IsBlob(temp) && files == old(files)[temp := File([], now)]
    {
      ghost var some := FreshTemp(userId, blobId, files.Keys);
      var middle :| TempPath(userId, blobId, middle) !in files && '/' !in middle;
      temp := TempPath(userId, blobId, middle);
      TempRecognized(userId, blobId, middle);
      files := files[temp := File([], now)];
    }

    /**
     * Encrypts the data into a temporary file and renames that into place. A success leaves one new file, which reads
     * back as the data; a failure at most a temporary file, which the sweep recognizes.
     */
    method Write(userId: string, blobId: string, g: Aead, data: Bytes, now: int) returns (rel: Option<string>)
      requires '/' !in blobId
      modifies this
      ensures rel.Some? ==>
        && rel.value == RelPath(userId, blobId) && IsBlob(rel.value) && rel.value in files
        && files == old(files)[rel.value := files[rel.value]]
        && files[rel.value].mtime == now && (Correct(g) ==> Decode(g, files[rel.value].content) == Decoded(true, data))
      ensures rel.None? && files != old(files) ==>
        exists temp ::
          && temp in files && temp !in old(files) && IsTempLeftover(temp) && !IsBlob(temp)
          && files == old(files)[temp := files[temp]]
    {
      var full := RelPath(userId, blobId);
      if * { return None; }
      var temp := CreateTemp(userId, blobId, now);
      if * {
        if * { files := files - {temp}; }
        return None;
      }
      var w := EncryptBytes(g, data);
      files := files[temp := File(w, now)];
      files := (files - {temp})[full := File(w, now)];
      rel := Some(full);
      BlobRecognized(userId, blobId);
    }

    /** The decrypted contents of a blob, if it exists and is genuine. */
    method ReadAll(rel: string, g: Aead) returns (data: Option<Bytes>)
      ensures data == if rel in files && Decode(g, files[rel].content).ok
        then Some(Decode(g, files[rel].content).written) else None
    {
      if rel !in files { return None; }
      data := DecryptBytes(g, files[rel].content);
    }

    /** A missing file is not an error. */
    method Delete(rel: string) returns (ok: bool)
      modifies this
      ensures files == if ok then old(files) - {rel} else old(files)
    {
      if * { return false; }
      files := files - {rel};
      ok := true;
    }

    /** Removes leaked files, in whatever order the directories list them, carrying on after errors. */
    method ReconcileOrphans(referenced: set<string>, cutoff: int) returns (reaped: nat, failed: bool)
      modifies this
      ensures var orphans := set f | f in old(files) && Reapable(f, old(files)[f].mtime, referenced, cutoff);
              exists gone: set<string> ::
                && gone <= orphans && files == old(files) - gone && reaped == |gone|
                && (!failed ==> gone == orphans)
    {
      reaped, failed := 0, false;
      ghost var all, gone := files, {};
      var todo := files.Keys;
      while todo != {}
        invariant todo <= all.Keys - gone && gone <= all.Keys
        invariant files == all - gone && reaped == |gone|
        invariant forall f :: f in gone ==> Reapable(f, all[f].mtime, referenced, cutoff)
        invariant !failed ==> forall f :: f in all && f !in todo && Reapable(f, all[f].mtime, referenced, cutoff) ==>
          f in gone
        decreases todo
      {
        var f :| f in todo;
        todo := todo - {f};
        var live := IsBlob(f) && f in referenced;
        if (IsBlob(f) || IsTempLeftover(f)) && !live {
          if * {
            failed := true;
          } else if files[f].mtime < cutoff {
            if * {
              failed := true;
            } else {
              files := files - {f};
              MapMinus(all, gone, f);
              gone := gone + {f};
              reaped := reaped + 1;
            }
          }
        }
      }
    }
  }
}
