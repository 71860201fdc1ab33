// Versioned model persistence (modelstore.py) and the training step that
// promotes or restores the `latest` file (train.py). Versions are timestamps
// of fixed width, so their string order is the order of numbers.
module ModelStore {
  import opened Basics

  type Version = nat
  type Blob = nat

  /** A file being written is truncated until the write completes. */
  datatype File<+T> = Truncated | Whole(content: T)

  datatype Meta = Meta(version: Version, healthy: bool, details: string, sha: string)

  /** The model directory. Paths are structured: one artifact and one metadata file per version,
      `latest` and its temporary file. */
  datatype FS = FS(models: map<Version, File<Blob>>, metas: map<Version, File<Meta>>,
                   latest: Option<File<Version>>, tmp: Option<File<Version>>)

  type Hash = Blob -> string

  // ----- reading -----

  function LatestVersion(fs: FS): Option<Version> {
    match fs.latest
    case Some(Whole(v)) => Some(v)
    case _ => None
  }

  function Loaded(hash: Hash, fs: FS, v: Version): Option<(Blob, Meta)> {
    if v !in fs.models || v !in fs.metas then None
    else
      match (fs.metas[v], fs.models[v])
      case (Whole(meta), Whole(blob)) =>
        if meta.sha != "" && hash(blob) != meta.sha then None else Some((blob, meta))
      case _ => None
  }

  // ----- writing, one file operation at a time -----

  function Recorded(hash: Hash, blob: Blob, meta: Meta): Meta {
    meta.(sha := hash(blob))
  }

  /** The states a save passes through; a crash leaves the directory in one of them. */
  function SaveTrace(hash: Hash, fs: FS, blob: Blob, meta: Meta): seq<FS> {
    var v := meta.version;
    var s1 := fs.(models := fs.models[v := Truncated]);
    var s2 := s1.(models := s1.models[v := Whole(blob)]);
    var s3 := s2.(metas := s2.metas[v := Truncated]);
    var s4 := s3.(metas := s3.metas[v := Whole(Recorded(hash, blob, meta))]);
    var s5 := s4.(tmp := Some(Truncated));
    var s6 := s5.(tmp := Some(Whole(v)));
    [s1, s2, s3, s4, s5, s6, s6.(latest := Some(Whole(v)), tmp := None)]
  }

  function Saved(hash: Hash, fs: FS, blob: Blob, meta: Meta): FS {
    SaveTrace(hash, fs, blob, meta)[6]
  }

  /** Putting `latest` back after an unhealthy model was stored. */
  function RestoreTrace(fs: FS, previous: Option<Version>): seq<FS> {
    match previous
    case Some(p) => [fs.(latest := Some(Truncated)), fs.(latest := Some(Whole(p)))]
    case None => [fs.(latest := None)]
  }

  function Restored(fs: FS, previous: Option<Version>): FS {
    fs.(latest := if previous.Some? then Some(Whole(previous.value)) else None)
  }

  function Candidates(fs: FS): set<Version> {
    set v | v in fs.metas && LatestVersion(fs) != Some(v)
  }

  /** How many versions besides the latest may stay. */
  function Room(fs: FS, keep: int): nat {
    var r := keep - (if LatestVersion(fs).Some? then 1 else 0);
    if r < 0 then 0 else r
  }

  /** `gone` are the oldest candidates beyond the room there is. */
  ghost predicate Prunable(fs: FS, keep: int, gone: set<Version>) {
    && gone <= Candidates(fs)
    && |gone| == (if |Candidates(fs)| > Room(fs, keep) then |Candidates(fs)| - Room(fs, keep) else 0)
    && (forall g, c :: g in gone && c in Candidates(fs) && c !in gone ==> g < c)
  }

  function Dropped(fs: FS, gone: set<Version>): FS {
    fs.(models := fs.models - gone, metas := fs.metas - gone)
  }

  /** A state a prune may be interrupted in: part of what goes is gone already, the rest is untouched. */
  ghost predicate PruneCrash(fs: FS, gone: set<Version>, s: FS) {
    && s.latest == fs.latest && s.tmp == fs.tmp
    && fs.models - gone == s.models - gone && fs.metas - gone == s.metas - gone
    && s.models.Keys <= fs.models.Keys && s.metas.Keys <= fs.metas.Keys
  }

  class Store {
    const hash: Hash
    var fs: FS
    ghost var journal: seq<FS>  // every state the directory has been in

    constructor (hash: Hash, fs: FS)
      ensures this.hash == hash && this.fs == fs && journal == [fs]
    {
      this.hash, this.fs := hash, fs;
      journal := [fs];
    }

    method Commit(next: FS)
      modifies this
      ensures fs == next && journal == old(journal) + [next]
    {
      fs := next;
      journal := journal + [next];
    }

    /** save: artifact, metadata with its digest, then `latest` by write-and-rename. */
    method Save(modelVersion: Version, blob: Blob, meta: Meta) returns (ok: bool)
      modifies this
      ensures ok <==> modelVersion == meta.version
      ensures !ok ==> fs == old(fs) && journal == old(journal)
      ensures ok ==> fs == Saved(hash, old(fs), blob, meta)
                     && journal == old(journal) + SaveTrace(hash, old(fs), blob, meta)
    {
      if modelVersion != meta.version {
        return false;
      }
      var v := meta.version;
      Commit(fs.(models := fs.models[v := Truncated]));
      Commit(fs.(models := fs.models[v := Whole(blob)]));
      var full := meta.(sha := hash(blob));
      Commit(fs.(metas := fs.metas[v := Truncated]));
      Commit(fs.(metas := fs.metas[v := Whole(full)]));
      Commit(fs.(tmp := Some(Truncated)));
      Commit(fs.(tmp := Some(Whole(v))));
      Commit(fs.(latest := Some(Whole(v)), tmp := None));
      return true;
    }

    method Load(version: Option<Version>) returns (r: Option<(Blob, Meta)>)
      ensures var v := if version.Some? then version else LatestVersion(fs);
              r == if v.Some? then Loaded(hash, fs, v.value) else None
    {
      var v := if version.Some? then version else LatestVersion(fs);
      if v.None? {
        return None;
      }
      if v.value !in fs.models || v.value !in fs.metas {
        return None;
      }
      match (fs.metas[v.value], fs.models[v.value])
      case (Whole(meta), Whole(blob)) =>
        if meta.sha != "" && hash(blob) != meta.sha {
          return None;
        }
        return Some((blob, meta));
      case _ =>
        return None;
    }

    method Versions() returns (vs: seq<Version>)
      ensures Ascending(vs) && forall v :: v in vs <==> v in fs.metas
    {
      vs := [];
      var todo := fs.metas.Keys;
      while todo != {}
        invariant todo <= fs.metas.Keys && Ascending(vs)
        invariant forall v :: v in vs <==> v in fs.metas && v !in todo
        invariant forall v, t :: v in vs && t in todo ==> v < t
        decreases todo
      {
        var v := Least(todo);
        AscendingSnoc(vs, v);
        vs := vs + [v];
        todo := todo - {v};
      }
    }

    /** The versions other than the latest, oldest first. */
    method CandidateList() returns (candidates: seq<Version>)
      ensures Ascending(candidates) && forall v :: v in candidates <==> v in Candidates(fs)
    {
      var latest := LatestVersion(fs);
      var all := Versions();
      candidates := [];
      for i := 0 to |all|
        invariant Ascending(candidates) && forall v :: v in candidates <==> v in all[..i] && latest != Some(v)
      {
        assert all[..i + 1] == all[..i] + [all[i]];
        forall v | v in candidates
          ensures v < all[i]
        {
          var j :| 0 <= j < i && all[..i][j] == v;
        }
        if latest != Some(all[i]) {
          AscendingSnoc(candidates, all[i]);
          candidates := candidates + [all[i]];
        }
      }
      assert all[..|all|] == all;
    }

    /** Removes the files of one version: the artifact, then the metadata. */
    method Unlink(v: Version)
      modifies this
      ensures fs == Dropped(old(fs), {v})
      ensures |journal| >= |old(journal)| && journal[..|old(journal)|] == old(journal)
      ensures forall i :: |old(journal)| <= i < |journal| ==> PruneCrash(old(fs), {v}, journal[i])
    {
      if v in fs.models {
        Commit(fs.(models := fs.models - {v}));
      }
      assert fs.models == old(fs).models - {v};
      if v in fs.metas {
        Commit(fs.(metas := fs.metas - {v}));
      }
      assert fs.metas == old(fs).metas - {v};
    }

    method Prune(keep: int) returns (removed: nat, ghost gone: set<Version>)
      modifies this
      ensures Prunable(old(fs), keep, gone) && removed == |gone|
      ensures fs == Dropped(old(fs), gone)
      ensures |journal| >= |old(journal)| && journal[..|old(journal)|] == old(journal)
      ensures forall i :: |old(journal)| <= i < |journal| ==> PruneCrash(old(fs), gone, journal[i])
    {
      var candidates := CandidateList();
      AscendingSize(candidates, Candidates(fs));
      var excess := |candidates| - Room(fs, keep);
      var n := if excess > 0 then excess else 0;
      ghost var before := fs;
      gone := set v | v in candidates[..n];
      PruneChoice(before, keep, candidates, n, gone);
      removed := 0;
      ghost var done: set<Version> := {};
      for i := 0 to n
        invariant removed == i && done <= gone
        invariant forall v :: v in done <==> v in candidates[..i]
        invariant fs == Dropped(before, done)
        invariant |journal| >= |old(journal)| && journal[..|old(journal)|] == old(journal)
        invariant forall m :: |old(journal)| <= m < |journal| ==> PruneCrash(before, gone, journal[m])
      {
        var v := candidates[i];
        assert v == candidates[..n][i] && candidates[..i + 1] == candidates[..i] + [v];
        ghost var known := |journal|;
        Unlink(v);
        forall m | known <= m < |journal|
          ensures PruneCrash(before, gone, journal[m])
        {
          CrashesCompose(before, done, v, gone, journal[m]);
        }
        done := done + {v};
        removed := removed + 1;
      }
      assert done == gone;
    }
  }

  lemma PruneChoice(fs: FS, keep: int, candidates: seq<Version>, n: nat, gone: set<Version>)
    requires Ascending(candidates) && (forall v :: v in candidates <==> v in Candidates(fs))
    requires n == (if |candidates| > Room(fs, keep) then |candidates| - Room(fs, keep) else 0) && n <= |candidates|
    requires gone == set v | v in candidates[..n]
    ensures Prunable(fs, keep, gone) && |gone| == n
  {
    AscendingSize(candidates, Candidates(fs));
    AscendingSize(candidates[..n], gone);
    OldestFirst(candidates, n);
    assert forall v :: v in candidates[..n] ==> v in candidates;
  }

  lemma CrashesCompose(fs: FS, done: set<Version>, v: Version, gone: set<Version>, s: FS)
    requires done <= gone && v in gone && PruneCrash(Dropped(fs, done), {v}, s)
    ensures PruneCrash(fs, gone, s)
  {
    var mid := Dropped(fs, done);
    assert mid.models - {v} - gone == fs.models - gone && s.models - {v} - gone == s.models - gone;
    assert mid.metas - {v} - gone == fs.metas - gone && s.metas - {v} - gone == s.metas - gone;
  }

  method Least(s: set<Version>) returns (m: Version)
    requires s != {}
    ensures m in s && forall v :: v in s ==> m <= v
  {
    m :| m in s;
    var todo := s - {m};
    while todo != {}
      invariant m in s && todo <= s && forall v :: v in s && v !in todo ==> m <= v
      decreases todo
    {
      var v :| v in todo;
      todo := todo - {v};
      if v < m {
        m := v;
      }
    }
  }

  lemma {:induction false} AscendingSize(s: seq<Version>, elements: set<Version>)
    requires Ascending(s) && forall v :: v in s <==> v in elements
    ensures |s| == |elements|
  {
    if s == [] {
      assert elements == {};
    } else {
      var n := |s| - 1;
      assert s == s[..n] + [s[n]];
      assert s[n] !in s[..n];
      AscendingSize(s[..n], elements - {s[n]});
    }
  }

  lemma OldestFirst(candidates: seq<Version>, n: nat)
    requires Ascending(candidates) && n <= |candidates|
    ensures forall g, c :: g in candidates[..n] && c in candidates && c !in candidates[..n] ==> g < c
  {
    forall g, c | g in candidates[..n] && c in candidates && c !in candidates[..n]
      ensures g < c
    {
      var i :| 0 <= i < n && candidates[i] == g;
      var j :| 0 <= j < |candidates| && candidates[j] == c;
      assert forall m :: 0 <= m < n ==> candidates[..n][m] == candidates[m];
    }
  }
}
