// What is served after any sequence of trainings, and after a crash inside one.
module ModelTraining {
  import opened Basics
  import opened ModelStore

  const KEEP := 5

  /** The `latest` file, if there is one, names a version that loads. */
  predicate Servable(hash: Hash, fs: FS) {
    LatestVersion(fs).Some? ==> Loaded(hash, fs, LatestVersion(fs).value).Some?
  }

  /** The version has not been used, and is newer than every one that has. */
  ghost predicate Fresh(fs: FS, v: Version) {
    (forall w :: w in fs.models || w in fs.metas ==> w < v) && (LatestVersion(fs).Some? ==> LatestVersion(fs).value < v)
  }

  lemma LoadedUnchanged(hash: Hash, fs: FS, s: FS, v: Version)
    requires Loaded(hash, fs, v).Some?
    requires v in s.models && s.models[v] == fs.models[v] && v in s.metas && s.metas[v] == fs.metas[v]
    ensures Loaded(hash, s, v) == Loaded(hash, fs, v)
  {
  }

  /** At every crash point inside a save, `latest` names the previous or the new version, and whichever
      it names loads; the new one only once both of its files are complete. */
  lemma SaveIsCrashSafe(hash: Hash, fs: FS, blob: Blob, meta: Meta, i: nat)
    requires Servable(hash, fs) && Fresh(fs, meta.version) && i < 7
    ensures var s := SaveTrace(hash, fs, blob, meta)[i];
            && Servable(hash, s)
            && (LatestVersion(s) == LatestVersion(fs) || LatestVersion(s) == Some(meta.version))
            && (LatestVersion(s) == Some(meta.version) ==>
                  Loaded(hash, s, meta.version) == Some((blob, Recorded(hash, blob, meta))))
            && (LatestVersion(fs).Some? ==>
                  Loaded(hash, s, LatestVersion(fs).value) == Loaded(hash, fs, LatestVersion(fs).value))
  {
    var s := SaveTrace(hash, fs, blob, meta)[i];
    if LatestVersion(fs).Some? {
      LoadedUnchanged(hash, fs, s, LatestVersion(fs).value);
    }
  }

  /** A prune, interrupted anywhere, neither moves `latest` nor touches what it names. */
  lemma PruneIsCrashSafe(hash: Hash, fs: FS, keep: int, gone: set<Version>, s: FS)
    requires Servable(hash, fs) && Prunable(fs, keep, gone) && PruneCrash(fs, gone, s)
    ensures LatestVersion(s) == LatestVersion(fs) && Servable(hash, s)
    ensures LatestVersion(fs).Some? ==>
              Loaded(hash, s, LatestVersion(fs).value) == Loaded(hash, fs, LatestVersion(fs).value)
  {
    if LatestVersion(fs).Some? {
      var v := LatestVersion(fs).value;
      assert v !in gone;
      assert v in fs.models - gone && v in fs.metas - gone;
      assert v in s.models - gone && v in s.metas - gone;
      assert s.models[v] == (s.models - gone)[v] && s.metas[v] == (s.metas - gone)[v];
      LoadedUnchanged(hash, fs, s, v);
    }
  }

  // ----- training -----

  /** One train_once call; `enough` says whether there was enough history to train at all. */
  datatype Training = Training(enough: bool, blob: Blob, meta: Meta)

  /** A completed train_once. */
  ghost predicate Trained(hash: Hash, fs: FS, t: Training, fs': FS) {
    if !t.enough then fs' == fs
    else if t.meta.healthy then
      var saved := Saved(hash, fs, t.blob, t.meta);
      exists gone :: Prunable(saved, KEEP, gone) && fs' == Dropped(saved, gone)
    else fs' == Restored(Saved(hash, fs, t.blob, t.meta), LatestVersion(fs))
  }

  /** What should be served: the model of the last healthy training, or what was there before. */
  function Expected(hash: Hash, start: FS, run: seq<Training>): Option<(Version, Blob, Meta)> {
    if run == [] then
      var v := LatestVersion(start);
      if v.None? || Loaded(hash, start, v.value).None? then None
      else Some((v.value, Loaded(hash, start, v.value).value.0, Loaded(hash, start, v.value).value.1))
    else
      var t := run[|run| - 1];
      if t.enough && t.meta.healthy then Some((t.meta.version, t.blob, Recorded(hash, t.blob, t.meta)))
      else Expected(hash, start, run[..|run| - 1])
  }

  /** Trainings one after another, each with a fresh version; `states` are the directory before and after each. */
  ghost predicate IsRun(hash: Hash, run: seq<Training>, states: seq<FS>) {
    && |states| == |run| + 1
    && forall i :: 0 <= i < |run| ==>
         Trained(hash, states[i], run[i], states[i + 1]) && (run[i].enough ==> Fresh(states[i], run[i].meta.version))
  }

  ghost predicate Serves(hash: Hash, fs: FS, what: Option<(Version, Blob, Meta)>) {
    match what
    case None => LatestVersion(fs).None?
    case Some((v, blob, meta)) => LatestVersion(fs) == Some(v) && Loaded(hash, fs, v) == Some((blob, meta))
  }

  lemma HealthyServes(hash: Hash, fs: FS, t: Training, fs': FS)
    requires Servable(hash, fs) && t.enough && t.meta.healthy && Fresh(fs, t.meta.version) && Trained(hash, fs, t, fs')
    ensures Servable(hash, fs') && Serves(hash, fs', Some((t.meta.version, t.blob, Recorded(hash, t.blob, t.meta))))
  {
    var saved := Saved(hash, fs, t.blob, t.meta);
    SaveIsCrashSafe(hash, fs, t.blob, t.meta, 6);
    var gone :| Prunable(saved, KEEP, gone) && fs' == Dropped(saved, gone);
    assert PruneCrash(saved, gone, fs');
    PruneIsCrashSafe(hash, saved, KEEP, gone, fs');
  }

  lemma UnhealthyServes(hash: Hash, fs: FS, t: Training, fs': FS, what: Option<(Version, Blob, Meta)>)
    requires Servable(hash, fs) && Serves(hash, fs, what)
    requires t.enough && !t.meta.healthy && Fresh(fs, t.meta.version) && Trained(hash, fs, t, fs')
    ensures Servable(hash, fs') && Serves(hash, fs', what)
  {
    if what.Some? {
      LoadedUnchanged(hash, fs, fs', what.value.0);
    }
  }

  lemma {:induction false} RunServes(hash: Hash, run: seq<Training>, states: seq<FS>, n: nat)
    requires IsRun(hash, run, states) && Servable(hash, states[0]) && n <= |run|
    ensures Servable(hash, states[n]) && Serves(hash, states[n], Expected(hash, states[0], run[..n]))
  {
    if n > 0 {
      RunServes(hash, run, states, n - 1);
      var t := run[n - 1];
      assert run[..n][..n - 1] == run[..n - 1] && run[..n][n - 1] == t;
      assert Trained(hash, states[n - 1], t, states[n]);
      if t.enough {
        if t.meta.healthy {
          HealthyServes(hash, states[n - 1], t, states[n]);
        } else {
          UnhealthyServes(hash, states[n - 1], t, states[n], Expected(hash, states[0], run[..n - 1]));
        }
      }
    }
  }

  /** Across any sequence of completed trainings, what `latest` serves is the model of the most recent
      healthy one (or what was served before the first), unharmed by any pruning in between. */
  lemma LatestIsMostRecentHealthy(hash: Hash, run: seq<Training>, states: seq<FS>)
    requires IsRun(hash, run, states) && Servable(hash, states[0])
    ensures Serves(hash, states[|run|], Expected(hash, states[0], run))
  {
    RunServes(hash, run, states, |run|);
    assert run[..|run|] == run;
  }

  lemma CandidatesLeft(fs: FS, keep: int, gone: set<Version>)
    requires Prunable(fs, keep, gone)
    ensures |Candidates(fs) - gone| <= Room(fs, keep)
  {
    var others := Candidates(fs) - gone;
    assert Candidates(fs) == others + gone;
    assert |Candidates(fs)| == |others| + |gone|;
  }

  lemma VersionsLeft(fs: FS, gone: set<Version>)
    requires LatestVersion(fs).Some? ==> LatestVersion(fs).value in fs.metas && LatestVersion(fs).value !in gone
    ensures Dropped(fs, gone).metas.Keys ==
            Candidates(fs) - gone + (if LatestVersion(fs).Some? then {LatestVersion(fs).value} else {})
  {
  }

  /** A prune leaves at most `keep` versions (the latest in any case), and only older ones go. */
  lemma PruneBounds(fs: FS, keep: int, gone: set<Version>)
    requires Prunable(fs, keep, gone) && (LatestVersion(fs).Some? ==> LatestVersion(fs).value in fs.metas)
    ensures var left := Dropped(fs, gone).metas.Keys;
            && |left| <= (if keep > 1 then keep else 1)
            && (LatestVersion(fs).Some? ==> LatestVersion(fs).value in left)
            && (forall g, l :: g in gone && l in left && LatestVersion(fs) != Some(l) ==> g < l)
  {
    CandidatesLeft(fs, keep, gone);
    VersionsLeft(fs, gone);
  }

  // ----- the gap in an unhealthy training -----

  function UnhealthyTrace(hash: Hash, fs: FS, t: Training): seq<FS> {
    SaveTrace(hash, fs, t.blob, t.meta) + RestoreTrace(Saved(hash, fs, t.blob, t.meta), LatestVersion(fs))
  }

  /** Exactly which crash points of an unhealthy training leave `latest` where it was: all but the one
      after the rename, where the unhealthy model is served, and the one inside the write that puts an
      existing `latest` back, where nothing is. */
  lemma UnhealthyCrashPoints(hash: Hash, fs: FS, t: Training, i: nat)
    requires Servable(hash, fs) && t.enough && !t.meta.healthy && Fresh(fs, t.meta.version)
    requires i < |UnhealthyTrace(hash, fs, t)|
    ensures var s := UnhealthyTrace(hash, fs, t)[i];
            && (LatestVersion(s) == LatestVersion(fs) <==> i != 6 && !(i == 7 && LatestVersion(fs).Some?))
            && (i == 6 ==> LatestVersion(s) == Some(t.meta.version)
                           && Loaded(hash, s, t.meta.version) == Some((t.blob, Recorded(hash, t.blob, t.meta))))
            && (i == 7 && LatestVersion(fs).Some? ==> LatestVersion(s).None?)
  {
    var save := SaveTrace(hash, fs, t.blob, t.meta);
    if i < 7 {
      assert UnhealthyTrace(hash, fs, t)[i] == save[i];
      SaveIsCrashSafe(hash, fs, t.blob, t.meta, i);
    } else {
      assert UnhealthyTrace(hash, fs, t)[i] == RestoreTrace(Saved(hash, fs, t.blob, t.meta), LatestVersion(fs))[i - 7];
    }
  }

  /** train_once on the store itself: every state it passes through is the trace's. */
  method TrainOnce(store: Store, t: Training) returns (ok: bool)
    modifies store
    ensures ok == t.enough
    ensures Trained(store.hash, old(store.fs), t, store.fs)
    ensures t.enough && !t.meta.healthy ==>
              store.journal == old(store.journal) + UnhealthyTrace(store.hash, old(store.fs), t)
  {
    if !t.enough {
      return false;
    }
    if t.meta.healthy {
      var _ := store.Save(t.meta.version, t.blob, t.meta);
      var _, gone := store.Prune(KEEP);
    } else {
      var previous := LatestVersion(store.fs);
      var _ := store.Save(t.meta.version, t.blob, t.meta);
      match previous
      case Some(p) =>
        store.Commit(store.fs.(latest := Some(Truncated)));
        store.Commit(store.fs.(latest := Some(Whole(p))));
      case None =>
        store.Commit(store.fs.(latest := None));
    }
    return true;
  }
}
