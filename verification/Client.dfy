/** The client as the object it is: its methods replace the snapshot and write the cache directory,
    do what the functions of Delivery say, and keep the object sound and its directory complete. */
module Client {
  import opened Digits
  import opened Resolution
  import opened Delivery
  import opened Durability
  import opened Soundness
  import opened Recovery

  class Client {
    const w: World
    /** The cache directory, the installation id and the trace of this call. */
    var mc: Machine
    /** The active snapshot, None before anything is loaded. */
    var snap: Option<Snapshot>

    /** The client as a state of Delivery's runs. */
    ghost function Now(): State
      reads this
    {
      State(mc.disk, Some(Process(snap, mc.id)))
    }

    /** The active release is complete and from one trusted manifest. */
    ghost predicate Valid()
      reads this
    {
      SoundState(w, Now())
    }

    /** The directory and the bundle have every artifact of the active release and of the one on
        disk. */
    ghost predicate Held()
      reads this
    {
      Recoverable(w, Now())
    }

    constructor (w: World, disk: Disk)
      ensures this.w == w && mc == Boot(disk, None) && snap == None && Valid()
      ensures !disk.state.Saved? ==> Held()
    {
      this.w, mc, snap := w, Boot(disk, None), None;
    }

    method FetchVerified(env: Env, d: Digest, sources: seq<BlobSource>) returns (r: Result<Blob>)
      modifies this`mc
      ensures (r, mc) == Fetch(w, env, d, sources, old(mc))
    {
      assert sources[0..] == sources;
      for i := 0 to |sources|
        invariant Fetch(w, env, d, sources[i..], mc) == Fetch(w, env, d, sources, old(mc))
      {
        var src := sources[i];
        assert sources[i..][0] == src && sources[i..][1..] == sources[i + 1..];
        var body := Get(w, env, src, d, mc);
        if src.EdgeSource? {
          mc := mc.Tick().(asked := mc.asked + [d]);
        }
        if body.Ok? && (src.BundleSource? || w.hash(body.value) == d) {
          return Ok(Blob(body.value, src.EdgeSource?));
        } else if src.EdgeSource? {
          return Err(if body.Ok? then IntegrityError else body.error);
        }
      }
      r := Err(NetworkError);
    }

    method Cache(env: Env, d: Digest, body: Bytes)
      modifies this`mc
      ensures mc == SaveArtifact(w, env, d, body, old(mc))
    {
      if w.Stores() {
        if env.writes(mc.clock) {
          mc := mc.Write(mc.disk.(artifacts := mc.disk.artifacts[d := body])).(saved := mc.saved + [d]);
        } else {
          mc := mc.Tick();
        }
      }
    }

    method Load(a: Assembly, ref: Ref, locale: string) returns (r: Result<Catalog>)
      requires a.w == w
      modifies this`mc
      ensures (r, mc) == LoadArtifact(a, ref, locale, old(mc))
    {
      hide Fetch, SaveArtifact, SourcesFor, ParseArtifact;
      if ref.sha in a.lend {
        return Ok(a.lend[ref.sha]);
      }
      var got := FetchVerified(a.env, ref.sha, SourcesFor(w, a.origin));
      if got.Err? {
        return Err(got.error);
      }
      r := ParseArtifact(w, got.value.bytes, locale, ref.namespace);
      if r.Ok? && got.value.remote {
        Cache(a.env, ref.sha, got.value.bytes);
      }
    }

    /** loadLocale: merges the artifacts as they load, and indexes them by digest. */
    method LoadLocale(a: Assembly, v: View, locale: string, bySha: map<Digest, Catalog>)
      returns (merged: Result<Catalog>, bySha': map<Digest, Catalog>)
      requires a.w == w
      modifies this`mc
      ensures var refs := Refs(v, locale);
              var (cats, mc') := LoadRefs(a, refs, locale, old(mc));
              mc == mc' && (cats.Err? ==> merged == Err(cats.error)) &&
              (cats.Ok? ==> merged == Ok(Merge(cats.value, map[])) && bySha' == Index(refs, cats.value, bySha))
    {
      hide LoadArtifact, Refs, LoadRefs, Merge, Index;
      var refs := Refs(v, locale);
      var cat: Catalog := map[];
      bySha' := bySha;
      ghost var all := LoadRefs(a, refs, locale, mc);
      assert refs[0..] == refs;
      for i := 0 to |refs|
        invariant Continues(a, refs[i..], locale, mc, cat, bySha', all, refs, bySha)
      {
        var before := mc;
        assert refs[i..][0] == refs[i] && refs[i..][1..] == refs[i + 1..];
        var r := Load(a, refs[i], locale);
        NextLoaded(a, refs[i..], locale, before, cat, bySha', all, refs, bySha);
        if r.Err? {
          return Err(r.error), bySha';
        }
        bySha' := bySha'[refs[i].sha := r.value];
        cat := cat + r.value;
      }
      EndLoaded(a, locale, mc, cat, bySha', all, refs, bySha);
      merged := Ok(cat);
    }

    /** assembleView. */
    method LoadView(a: Assembly, v: View, raw: Bytes, etag: string) returns (r: Result<Release>)
      requires a.w == w
      modifies this`mc
      ensures (r, mc) == AssembleView(a, v, raw, etag, old(mc))
    {
      hide LoadRefs, Refs, Merge, Index, NeededLocales;
      var acc := Loaded(map[], map[]);
      var needed := ComputeNeededLocales(v.locales, w.canon, w.config.locales);
      assert needed[0..] == needed;
      for i := 0 to |needed|
        invariant LoadLocales(a, v, needed[i..], acc, mc) == LoadLocales(a, v, needed, Loaded(map[], map[]), old(mc))
      {
        var l := needed[i];
        assert needed[i..][0] == l && needed[i..][1..] == needed[i + 1..];
        var merged, bySha := LoadLocale(a, v, l, acc.bySha);
        if merged.Err? {
          return Err(merged.error);
        }
        acc := Loaded(acc.catalogs[l := merged.value], bySha);
      }
      r := Ok(Release(v, raw, etag, acc.catalogs, acc.bySha));
    }

    method ReadInstallationId(env: Env) returns (id: string)
      modifies this`mc
      ensures (id, mc) == InstallationId(w, env, old(mc))
    {
      if mc.id.Some? {
        return mc.id.value;
      }
      if w.config.installationId != "" {
        id := w.config.installationId;
        mc := mc.(id := Some(id));
        return;
      }
      if w.Stores() && mc.disk.id.Some? {
        id := mc.disk.id.value;
        mc := mc.(id := Some(id));
        return;
      }
      id := env.newId;
      mc := mc.(id := Some(id));
      if w.Stores() && env.savesId {
        mc := mc.Write(mc.disk.(id := Some(id)));
      }
    }

    method LoadCandidate(a: Assembly, ro: Rollout, raw: Bytes, etag: string) returns (r: Result<Release>)
      requires a.w == w
      modifies this`mc
      ensures (r, mc) == CandidateView(a, ro, raw, etag, old(mc))
    {
      hide AssembleView;
      if !w.valid(ro.candidate) {
        return Err(SchemaError);
      }
      r := LoadView(a, ro.candidate, raw, etag);
    }

    method LoadRollout(a: Assembly, m: Manifest, ro: Rollout, raw: Bytes, etag: string) returns (r: Result<Snapshot>)
      requires a.w == w
      modifies this`mc
      ensures (r, mc) == AssembleRollout(a, m, ro, raw, etag, old(mc))
    {
      hide AssembleView, InstallationId, CandidateView;
      var key := ReadInstallationId(a.env);
      var cohort := w.Cohort(ro.salt, key);
      var lend := a.lend;
      var candidate: Option<Release> := None;
      if ro.In(cohort) || w.config.perRequestCohorts {
        var c := LoadCandidate(a, ro, raw, etag);
        if c.Ok? {
          candidate := Some(c.value);
          lend := lend + c.value.bySha;
        }
      }
      assert lend == a.lend + BySha(candidate);
      var stable: Option<Release> := None;
      var failure := NetworkError;
      if !ro.In(cohort) || candidate.None? || w.config.perRequestCohorts {
        var s := LoadView(a.(lend := lend), m.stable, raw, etag);
        if s.Ok? {
          stable := Some(s.value);
        } else {
          failure := s.error;
        }
      }
      var rel := stable;
      if ro.In(cohort) && candidate.Some? {
        rel := candidate;
      }
      if rel.None? {
        return Err(failure);
      }
      r := Ok(Snapshot(rel.value, a.origin, false, Some(Views(ro, stable, candidate)), cohort));
    }

    /** assemble. */
    method LoadManifest(env: Env, raw: Bytes, etag: string, origin: Source, prev: Option<Snapshot>) returns (r: Result<Snapshot>)
      modifies this`mc
      ensures (r, mc) == Assemble(w, env, raw, etag, origin, prev, old(mc))
    {
      hide AssembleView, AssembleRollout, Verified, Artifacts;
      var m := Verified(w, raw, origin);
      if m.Err? {
        return Err(m.error);
      }
      var a := Assembly(w, env, origin, Artifacts(prev));
      var ro := RolloutOf(w, m.value);
      if ro.Some? {
        r := LoadRollout(a, m.value, ro.value, raw, etag);
        return;
      }
      var rel := LoadView(a, m.value.stable, raw, etag);
      if rel.Err? {
        return Err(rel.error);
      }
      r := Ok(Snapshot(rel.value, origin, false, None, 0));
    }

    /** Starting up: the disk's release is active unless the binary ships a newer one. */
    method RestoreSnapshot(env: Env)
      requires snap == None && mc.id == None
      modifies this
      ensures (snap, mc) == Restore(w, env, Boot(old(mc.disk), None))
      ensures Now() == Next(w, State(old(mc.disk), None), Start(env))
      ensures Newest(FromDisk(w, env, old(mc.disk)), FromBinary(w, env, old(mc.disk)), snap)
      ensures Valid() && (Committed(w, old(mc.disk)) ==> AllCommitted(w, mc))
      ensures old(Held()) && w.Stores() && WritesSucceed(env) ==> Held()
    {
      hide Assemble, Newer, Newest, FromDisk, FromBinary, Committed, AllCommitted, Recoverable, Sound, WritesSucceed, World.Stores;
      ghost var before := State(mc.disk, None);
      WorkIsSound(w, before, env);
      StartIsNewest(w, before, env);
      if Committed(w, mc.disk) {
        RestoreKeeps(w, env, mc.disk);
      }
      if Held() && w.Stores() && WritesSucceed(env) {
        DownIsRecoverable(w, Now());
        NextIsRecoverable(w, before, Start(env));
      }
      mc := Boot(mc.disk, None);
      var persisted: Option<Snapshot> := None;
      if w.Stores() && mc.disk.state.Saved? {
        var r := LoadManifest(env, mc.disk.state.raw, mc.disk.state.etag, Persisted, None);
        persisted := if r.Ok? then Some(r.value) else None;
      }
      var bundled: Option<Snapshot> := None;
      if w.bundle.Some? && w.bundle.value.manifest.Some? {
        var r := LoadManifest(env, w.bundle.value.manifest.value, "", Bundled, None);
        bundled := if r.Ok? then Some(r.value) else None;
      }
      if bundled.Some? && (persisted.None? || Newer(bundled.value, persisted.value)) {
        snap := Some(bundled.value.(starting := true));
      } else if persisted.Some? {
        snap := Some(persisted.value.(starting := true));
      }
    }

    method PruneEntries(env: Env, keep: set<Digest>)
      modifies this`mc
      ensures mc == Prune(env, keep, env.entries, old(mc))
    {
      var entries := env.entries;
      assert entries[0..] == entries;
      for i := 0 to |entries|
        invariant Prune(env, keep, entries[i..], mc) == Prune(env, keep, entries, old(mc))
      {
        assert entries[i..][0] == entries[i] && entries[i..][1..] == entries[i + 1..];
        if entries[i] in mc.disk.artifacts && entries[i] !in keep {
          if env.removes(mc.clock) {
            mc := mc.Write(mc.disk.(artifacts := mc.disk.artifacts - {entries[i]}));
          } else {
            mc := mc.Tick();
          }
        }
      }
    }

    method PersistSnapshot(env: Env, s: Snapshot)
      modifies this`mc
      ensures mc == Persist(w, env, s, old(mc))
    {
      hide Prune, Artifacts;
      if !w.Stores() || !env.commits {
        return;
      }
      mc := mc.Write(mc.disk.(state := Saved(s.rel.etag, s.rel.raw, s)));
      PruneEntries(env, Artifacts(Some(s)).Keys);
    }

    method SettleSnapshot()
      modifies this`snap
      ensures snap == Settle(old(snap))
    {
      if snap.Some? {
        if snap.value.starting {
          snap := Some(snap.value.(starting := false));
        } else {
          snap := Some(snap.value.(source := Memory));
        }
      }
    }

    /** Refresh: revalidates the manifest and activates a release that verified completely. */
    method RefreshSnapshot(env: Env) returns (activated: bool, error: Option<Error>)
      requires Valid()
      modifies this
      ensures (Refreshed(snap, activated, error), mc) == Refresh(w, env, old(snap), Boot(old(mc.disk), old(mc.id)))
      ensures Now() == Next(w, old(Now()), Refreshing(env)) && Valid()
      ensures old(Held()) && w.Stores() && WritesSucceed(env) ==> Held() && AllCommitted(w, mc)
    {
      hide Assemble, Persist, Settle, AllCommitted, Recoverable, Sound, WritesSucceed, World.Stores;
      ghost var before := Now();
      WorkIsSound(w, before, env);
      if Held() && w.Stores() && WritesSucceed(env) {
        HeldIsInv(w, before);
        NextIsRecoverable(w, before, Refreshing(env));
        RefreshKeeps(w, env, mc.disk, snap, mc.id);
      }
      mc := Boot(mc.disk, mc.id);
      activated, error := false, None;
      if !w.config.edge {
        return;
      }
      match env.manifest {
        case Unreachable(e) => error := Some(e);
        case NotModified =>
          if snap.None? {
            error := Some(NetworkError);
          }
        case Served(body, etag) =>
          var r := LoadManifest(env, body, etag, Network, snap);
          if r.Ok? {
            snap := Some(r.value);
            PersistSnapshot(env, r.value);
            activated := true;
          } else {
            error := Some(r.error);
          }
      }
      if !activated {
        SettleSnapshot();
      }
    }
  }

  lemma {:induction false} DownIsRecoverable(w: World, s: State)
    requires Recoverable(w, s)
    ensures Recoverable(w, State(s.disk, None))
  {
    hide Committed, SavedSound, Sound;
  }

  lemma {:induction false} HeldIsInv(w: World, s: State)
    requires Recoverable(w, s) && s.up.Some?
    ensures Committed(w, s.disk) && HoldsAll(w, s.disk, Artifacts(s.up.value.snap).Keys)
  {
    hide Committed, SavedSound, Sound, HoldsAll;
  }

  // ----- The loop of LoadLocale -----

  /** What is loaded so far, continued over the remaining artifacts, is the whole. */
  ghost predicate Continues(a: Assembly, rest: seq<Ref>, locale: string, mc: Machine, cat: Catalog, bySha: map<Digest, Catalog>,
                            all: (Result<seq<Catalog>>, Machine), refs: seq<Ref>, start: map<Digest, Catalog>)
  {
    var (tail, end) := LoadRefs(a, rest, locale, mc);
    all.1 == end && (all.0.Err? <==> tail.Err?) && (tail.Err? ==> all.0.error == tail.error) &&
    (tail.Ok? ==> |all.0.value| == |refs| && Merge(tail.value, cat) == Merge(all.0.value, map[]) &&
                  Index(rest, tail.value, bySha) == Index(refs, all.0.value, start))
  }

  lemma {:induction false} NextLoaded(a: Assembly, rest: seq<Ref>, locale: string, mc: Machine, cat: Catalog,
                                      bySha: map<Digest, Catalog>, all: (Result<seq<Catalog>>, Machine), refs: seq<Ref>,
                                      start: map<Digest, Catalog>)
    requires rest != [] && Continues(a, rest, locale, mc, cat, bySha, all, refs, start)
    ensures var (r, mc') := LoadArtifact(a, rest[0], locale, mc);
            (r.Ok? ==> Continues(a, rest[1..], locale, mc', cat + r.value, bySha[rest[0].sha := r.value], all, refs, start)) &&
            (r.Err? ==> all == (Err(r.error), mc'))
  {
    hide LoadArtifact;
    var (r, mc') := LoadArtifact(a, rest[0], locale, mc);
    var (tail, _) := LoadRefs(a, rest[1..], locale, mc');
    if r.Ok? && tail.Ok? {
      assert ([r.value] + tail.value)[1..] == tail.value;
    }
  }

  lemma {:induction false} EndLoaded(a: Assembly, locale: string, mc: Machine, cat: Catalog, bySha: map<Digest, Catalog>,
                                     all: (Result<seq<Catalog>>, Machine), refs: seq<Ref>, start: map<Digest, Catalog>)
    requires Continues(a, [], locale, mc, cat, bySha, all, refs, start)
    ensures all.1 == mc && all.0.Ok? && |all.0.value| == |refs| && cat == Merge(all.0.value, map[]) &&
            bySha == Index(refs, all.0.value, start)
  {
  }
}
