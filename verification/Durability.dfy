/** What the cache directory keeps over every run of the client, crashes included. */
module Durability {
  import opened Digits
  import opened Resolution
  import opened Delivery

  /** The directory or the bundle has the artifact, and a fetch would accept it. */
  ghost predicate Holds(w: World, disk: Disk, d: Digest) {
    w.Bundles(d) || (d in disk.artifacts && w.hash(disk.artifacts[d]) == d)
  }

  ghost predicate HoldsAll(w: World, disk: Disk, ds: set<Digest>) {
    forall d :: d in ds ==> Holds(w, disk, d)
  }

  /** The directory and each of its earlier states keep the commit record and the digests. */
  ghost predicate Keeps(w: World, state: StateFile, need: set<Digest>, mc: Machine) {
    mc.disk.state == state && HoldsAll(w, mc.disk, need) &&
    forall i :: 0 <= i < |mc.earlier| ==> mc.earlier[i].state == state && HoldsAll(w, mc.earlier[i], need)
  }

  /** Nothing held is lost. */
  ghost predicate Grows(w: World, a: Disk, b: Disk) {
    forall d :: Holds(w, a, d) ==> Holds(w, b, d)
  }

  ghost predicate WritesSucceed(env: Env) {
    forall n :: env.writes(n)
  }

  /** The conditions under which what an assembly loads stays held: a cache directory, no failing
      artifact write, and nothing lent that is not held. */
  ghost predicate Durable(a: Assembly, mc: Machine) {
    a.w.Stores() && WritesSucceed(a.env) && HoldsAll(a.w, mc.disk, a.lend.Keys)
  }

  // ----- Loading -----

  lemma {:induction false} FetchFinds(w: World, env: Env, d: Digest, sources: seq<BlobSource>, mc: Machine)
    ensures var (r, mc') := Fetch(w, env, d, sources, mc);
            mc'.disk == mc.disk && mc'.earlier == mc.earlier && mc'.id == mc.id &&
            (r.Ok? && !r.value.remote ==> Holds(w, mc.disk, d)) &&
            (r.Ok? && r.value.remote ==> w.hash(r.value.bytes) == d)
  {
    if sources != [] {
      FetchFinds(w, env, d, sources[1..], mc);
    }
  }

  lemma {:induction false} SaveKeeps(w: World, env: Env, d: Digest, body: Bytes, state: StateFile, need: set<Digest>, mc: Machine)
    requires w.hash(body) == d && Keeps(w, state, need, mc)
    ensures var mc' := SaveArtifact(w, env, d, body, mc);
            Keeps(w, state, need, mc') && Grows(w, mc.disk, mc'.disk) &&
            (w.Stores() && WritesSucceed(env) ==> Holds(w, mc'.disk, d))
  {
  }

  lemma {:induction false} ArtifactKeeps(a: Assembly, ref: Ref, locale: string, state: StateFile, need: set<Digest>, mc: Machine)
    requires Keeps(a.w, state, need, mc)
    ensures var (r, mc') := LoadArtifact(a, ref, locale, mc);
            Keeps(a.w, state, need, mc') && Grows(a.w, mc.disk, mc'.disk) &&
            (r.Ok? && Durable(a, mc) ==> Holds(a.w, mc'.disk, ref.sha))
  {
    hide Fetch, SaveArtifact;
    if ref.sha !in a.lend {
      var (got, mc1) := Fetch(a.w, a.env, ref.sha, SourcesFor(a.w, a.origin), mc);
      FetchFinds(a.w, a.env, ref.sha, SourcesFor(a.w, a.origin), mc);
      if got.Ok? && got.value.remote {
        SaveKeeps(a.w, a.env, ref.sha, got.value.bytes, state, need, mc1);
      }
    }
  }

  function Shas(refs: seq<Ref>): set<Digest> {
    set r | r in refs :: r.sha
  }

  lemma {:induction false} IndexKeys(refs: seq<Ref>, cats: seq<Catalog>, under: map<Digest, Catalog>)
    requires |refs| == |cats|
    ensures Index(refs, cats, under).Keys == under.Keys + Shas(refs)
  {
    if refs != [] {
      IndexKeys(refs[1..], cats[1..], under[refs[0].sha := cats[0]]);
      assert forall r :: r in refs <==> r == refs[0] || r in refs[1..];
    }
  }

  lemma {:induction false} RefsKeep(a: Assembly, refs: seq<Ref>, locale: string, state: StateFile, need: set<Digest>, mc: Machine)
    requires Keeps(a.w, state, need, mc)
    ensures var (r, mc') := LoadRefs(a, refs, locale, mc);
            Keeps(a.w, state, need, mc') && Grows(a.w, mc.disk, mc'.disk) &&
            (r.Ok? && Durable(a, mc) ==> HoldsAll(a.w, mc'.disk, Shas(refs)))
  {
    hide LoadArtifact, Keeps, Holds, WritesSucceed, World.Stores;
    if refs != [] {
      var (cat, mc1) := LoadArtifact(a, refs[0], locale, mc);
      ArtifactKeeps(a, refs[0], locale, state, need, mc);
      if cat.Ok? {
        RefsKeep(a, refs[1..], locale, state, need, mc1);
        assert forall r :: r in refs <==> r == refs[0] || r in refs[1..];
      }
    }
  }

  lemma {:induction false} LocalesKeep(a: Assembly, v: View, locales: seq<string>, acc: Loaded, state: StateFile,
                                       need: set<Digest>, mc: Machine)
    requires Keeps(a.w, state, need, mc)
    ensures var (r, mc') := LoadLocales(a, v, locales, acc, mc);
            Keeps(a.w, state, need, mc') && Grows(a.w, mc.disk, mc'.disk) &&
            (r.Ok? && Durable(a, mc) && HoldsAll(a.w, mc.disk, acc.bySha.Keys) ==> HoldsAll(a.w, mc'.disk, r.value.bySha.Keys))
    decreases |locales|
  {
    hide LoadRefs, Keeps, Holds, WritesSucceed, World.Stores, Merge, Index, Shas;
    if locales != [] {
      var refs := Refs(v, locales[0]);
      var (cats, mc1) := LoadRefs(a, refs, locales[0], mc);
      RefsKeep(a, refs, locales[0], state, need, mc);
      if cats.Ok? {
        var acc' := Loaded(acc.catalogs[locales[0] := Merge(cats.value, map[])], Index(refs, cats.value, acc.bySha));
        LocalesKeep(a, v, locales[1..], acc', state, need, mc1);
        IndexKeys(refs, cats.value, acc.bySha);
      }
    }
  }

  lemma {:induction false} ViewKeeps(a: Assembly, v: View, raw: Bytes, etag: string, state: StateFile, need: set<Digest>, mc: Machine)
    requires Keeps(a.w, state, need, mc)
    ensures var (r, mc') := AssembleView(a, v, raw, etag, mc);
            Keeps(a.w, state, need, mc') && Grows(a.w, mc.disk, mc'.disk) &&
            (r.Ok? && Durable(a, mc) ==> HoldsAll(a.w, mc'.disk, r.value.bySha.Keys))
  {
    hide LoadLocales, Keeps, Holds, WritesSucceed, World.Stores, World.Needed;
    LocalesKeep(a, v, a.w.Needed(v), Loaded(map[], map[]), state, need, mc);
  }

  lemma {:induction false} IdKeeps(w: World, env: Env, state: StateFile, need: set<Digest>, mc: Machine)
    requires Keeps(w, state, need, mc)
    ensures var (_, mc') := InstallationId(w, env, mc); Keeps(w, state, need, mc') && Grows(w, mc.disk, mc'.disk)
  {
  }

  lemma {:induction false} CandidateKeeps(a: Assembly, wanted: bool, ro: Rollout, raw: Bytes, etag: string, state: StateFile,
                                          need: set<Digest>, mc: Machine)
    requires Keeps(a.w, state, need, mc)
    ensures var (r, mc') := TryCandidate(a, wanted, ro, raw, etag, mc);
            Keeps(a.w, state, need, mc') && Grows(a.w, mc.disk, mc'.disk) &&
            (Durable(a, mc) ==> HoldsAll(a.w, mc'.disk, BySha(r).Keys))
  {
    hide AssembleView, Keeps, Holds, WritesSucceed, World.Stores;
    ViewKeeps(a, ro.candidate, raw, etag, state, need, mc);
  }

  lemma {:induction false} StableKeeps(a: Assembly, wanted: bool, v: View, raw: Bytes, etag: string, state: StateFile,
                                       need: set<Digest>, mc: Machine)
    requires Keeps(a.w, state, need, mc)
    ensures var (r, mc') := TryStable(a, wanted, v, raw, etag, mc);
            Keeps(a.w, state, need, mc') && Grows(a.w, mc.disk, mc'.disk) &&
            (r.Ok? && Durable(a, mc) ==> HoldsAll(a.w, mc'.disk, BySha(r.value).Keys))
  {
    hide AssembleView, Keeps, Holds, WritesSucceed, World.Stores;
    ViewKeeps(a, v, raw, etag, state, need, mc);
  }

  lemma {:induction false} RolloutKeeps(a: Assembly, m: Manifest, ro: Rollout, raw: Bytes, etag: string, state: StateFile,
                                        need: set<Digest>, mc: Machine)
    requires Keeps(a.w, state, need, mc)
    ensures var (r, mc') := AssembleRollout(a, m, ro, raw, etag, mc);
            Keeps(a.w, state, need, mc') && Grows(a.w, mc.disk, mc'.disk) &&
            (r.Ok? && Durable(a, mc) ==> HoldsAll(a.w, mc'.disk, Artifacts(Some(r.value)).Keys))
  {
    hide TryCandidate, TryStable, InstallationId, Keeps, Holds, WritesSucceed, World.Stores, World.Cohort, Rollout.In;
    var (key, mc0) := InstallationId(a.w, a.env, mc);
    IdKeeps(a.w, a.env, state, need, mc);
    var cohort := a.w.Cohort(ro.salt, key);
    var wanted := ro.In(cohort) || a.w.config.perRequestCohorts;
    var (candidate, mc1) := TryCandidate(a, wanted, ro, raw, etag, mc0);
    CandidateKeeps(a, wanted, ro, raw, etag, state, need, mc0);
    var a' := a.(lend := a.lend + BySha(candidate));
    StableKeeps(a', !ro.In(cohort) || candidate.None? || a.w.config.perRequestCohorts, m.stable, raw, etag, state, need, mc1);
  }

  lemma {:induction false} AssembleKeeps(w: World, env: Env, raw: Bytes, etag: string, origin: Source, prev: Option<Snapshot>,
                                         state: StateFile, need: set<Digest>, mc: Machine)
    requires Keeps(w, state, need, mc)
    ensures var (r, mc') := Assemble(w, env, raw, etag, origin, prev, mc);
            Keeps(w, state, need, mc') && Grows(w, mc.disk, mc'.disk) &&
            (r.Ok? && w.Stores() && WritesSucceed(env) && HoldsAll(w, mc.disk, Artifacts(prev).Keys) ==>
               HoldsAll(w, mc'.disk, Artifacts(Some(r.value)).Keys))
  {
    hide AssembleRollout, AssembleView, Keeps, Holds, WritesSucceed, World.Stores, Verified;
    var v := Verified(w, raw, origin);
    if v.Ok? {
      var a := Assembly(w, env, origin, Artifacts(prev));
      var ro := RolloutOf(w, v.value);
      if ro.Some? {
        RolloutKeeps(a, v.value, ro.value, raw, etag, state, need, mc);
      } else {
        ViewKeeps(a, v.value.stable, raw, etag, state, need, mc);
      }
    }
  }

  // ----- Persisting -----

  function KeysOf(rel: Option<Release>): set<Digest> {
    if rel.Some? then rel.value.bySha.Keys else {}
  }

  /** Every artifact of the release the commit record names, and of the views loaded beside it. */
  function SavedBy(state: StateFile): set<Digest> {
    if !state.Saved? then {}
    else if state.saver.ro.None? then state.saver.rel.bySha.Keys
    else KeysOf(state.saver.ro.value.stable) + KeysOf(state.saver.ro.value.candidate)
  }

  lemma {:induction false} SavedArtifacts(s: Snapshot, etag: string, raw: Bytes)
    ensures SavedBy(Saved(etag, raw, s)) == Artifacts(Some(s)).Keys
  {
  }

  /** The directory or the bundle has every artifact of the release its commit record names. */
  ghost predicate Committed(w: World, disk: Disk) {
    HoldsAll(w, disk, SavedBy(disk.state))
  }

  ghost predicate AllCommitted(w: World, mc: Machine) {
    Committed(w, mc.disk) && forall i :: 0 <= i < |mc.earlier| ==> Committed(w, mc.earlier[i])
  }

  lemma {:induction false} KeptIsCommitted(w: World, state: StateFile, need: set<Digest>, mc: Machine)
    requires Keeps(w, state, need, mc) && SavedBy(state) <= need
    ensures AllCommitted(w, mc)
  {
    hide SavedBy, Holds;
  }

  lemma {:induction false} PruneKeeps(w: World, env: Env, keep: set<Digest>, entries: seq<Digest>, mc: Machine)
    requires AllCommitted(w, mc) && SavedBy(mc.disk.state) == keep
    ensures var mc' := Prune(env, keep, entries, mc); AllCommitted(w, mc') && mc'.disk.state == mc.disk.state
    decreases |entries|
  {
    hide SavedBy;
    if entries != [] {
      var mc1 := mc.Write(mc.disk.(artifacts := mc.disk.artifacts - {entries[0]}));
      if entries[0] in mc.disk.artifacts && entries[0] !in keep {
        assert Committed(w, mc1.disk);
        PruneKeeps(w, env, keep, entries[1..], if env.removes(mc.clock) then mc1 else mc.Tick());
      } else {
        PruneKeeps(w, env, keep, entries[1..], mc);
      }
    }
  }

  /** When every removal succeeds, exactly the listed artifacts outside the kept ones are gone. */
  lemma {:induction false} PruneRemoves(env: Env, keep: set<Digest>, entries: seq<Digest>, mc: Machine)
    requires forall n :: env.removes(n)
    ensures Prune(env, keep, entries, mc).disk ==
            mc.disk.(artifacts := map d | d in mc.disk.artifacts && (d in keep || d !in entries) :: mc.disk.artifacts[d])
    decreases |entries|
  {
    if entries == [] {
      assert mc.disk.artifacts == map d | d in mc.disk.artifacts && (d in keep || d !in entries) :: mc.disk.artifacts[d];
    } else {
      var (e, rest) := (entries[0], entries[1..]);
      var mc1 := mc.Write(mc.disk.(artifacts := mc.disk.artifacts - {e}));
      assert forall d :: d in entries <==> d == e || d in rest;
      var left := map d | d in mc.disk.artifacts && (d in keep || d !in entries) :: mc.disk.artifacts[d];
      if e in mc.disk.artifacts && e !in keep {
        PruneRemoves(env, keep, rest, mc1);
        assert left == map d | d in mc1.disk.artifacts && (d in keep || d !in rest) :: mc1.disk.artifacts[d];
      } else {
        PruneRemoves(env, keep, rest, mc);
        assert left == map d | d in mc.disk.artifacts && (d in keep || d !in rest) :: mc.disk.artifacts[d];
      }
    }
  }

  /** However removals fail, pruning only removes, and nothing that is kept or not listed. */
  lemma {:induction false} PruneOnlyRemoves(env: Env, keep: set<Digest>, entries: seq<Digest>, mc: Machine)
    ensures var disk := Prune(env, keep, entries, mc).disk;
            disk.state == mc.disk.state && disk.id == mc.disk.id &&
            (forall d :: d in disk.artifacts ==> d in mc.disk.artifacts && disk.artifacts[d] == mc.disk.artifacts[d]) &&
            forall d :: d in mc.disk.artifacts && (d in keep || d !in entries) ==> d in disk.artifacts
    decreases |entries|
  {
    if entries != [] {
      assert forall d :: d in entries <==> d == entries[0] || d in entries[1..];
      PruneOnlyRemoves(env, keep, entries[1..], mc.Write(mc.disk.(artifacts := mc.disk.artifacts - {entries[0]})));
      PruneOnlyRemoves(env, keep, entries[1..], mc.Tick());
      PruneOnlyRemoves(env, keep, entries[1..], mc);
    }
  }

  lemma {:induction false} PersistKeeps(w: World, env: Env, s: Snapshot, mc: Machine)
    requires AllCommitted(w, mc) && HoldsAll(w, mc.disk, Artifacts(Some(s)).Keys)
    ensures var mc' := Persist(w, env, s, mc); AllCommitted(w, mc') && HoldsAll(w, mc'.disk, Artifacts(Some(s)).Keys)
  {
    hide Prune, Artifacts, SavedBy, Holds, World.Stores;
    var mc1 := mc.Write(mc.disk.(state := Saved(s.rel.etag, s.rel.raw, s)));
    SameHolds(w, mc.disk, mc1.disk, Artifacts(Some(s)).Keys);
    SavedArtifacts(s, s.rel.etag, s.rel.raw);
    if w.Stores() && env.commits {
      PruneKeeps(w, env, Artifacts(Some(s)).Keys, env.entries, mc1);
    }
  }

  lemma {:induction false} SameHolds(w: World, a: Disk, b: Disk, ds: set<Digest>)
    requires a.artifacts == b.artifacts
    ensures HoldsAll(w, a, ds) ==> HoldsAll(w, b, ds)
  {
  }

  // ----- Whole runs -----

  /** The invariant: the cache directory with the bundle has every artifact of the release on
      disk, and every artifact of the active one. */
  ghost predicate Inv(w: World, s: State) {
    Committed(w, s.disk) && (s.up.Some? ==> HoldsAll(w, s.disk, Artifacts(s.up.value.snap).Keys))
  }

  ghost predicate Undisturbed(e: Event) {
    !e.Tamper? && WritesSucceed(e.env)
  }

  lemma {:induction false} BootKeeps(w: World, disk: Disk, id: Option<string>, need: set<Digest>)
    requires HoldsAll(w, disk, need)
    ensures Keeps(w, disk.state, need, Boot(disk, id))
  {
  }

  lemma {:induction false} LoadKeeps(w: World, env: Env, state: StateFile, need: set<Digest>, mc: Machine)
    requires Keeps(w, state, need, mc)
    ensures var (r, mc') := LoadPersisted(w, env, mc);
            Keeps(w, state, need, mc') && (w.Stores() && WritesSucceed(env) ==> HoldsAll(w, mc'.disk, Artifacts(r).Keys))
    ensures var (r, mc') := LoadBundled(w, env, mc);
            Keeps(w, state, need, mc') && Grows(w, mc.disk, mc'.disk) &&
            (w.Stores() && WritesSucceed(env) ==> HoldsAll(w, mc'.disk, Artifacts(r).Keys))
  {
    hide Assemble, Keeps, Holds, WritesSucceed, World.Stores;
    if mc.disk.state.Saved? {
      AssembleKeeps(w, env, mc.disk.state.raw, mc.disk.state.etag, Persisted, None, state, need, mc);
    }
    if w.bundle.Some? && w.bundle.value.manifest.Some? {
      AssembleKeeps(w, env, w.bundle.value.manifest.value, "", Bundled, None, state, need, mc);
    }
  }

  lemma {:induction false} RestoreKeeps(w: World, env: Env, disk: Disk)
    requires Committed(w, disk)
    ensures var (r, mc') := Restore(w, env, Boot(disk, None));
            AllCommitted(w, mc') && (w.Stores() && WritesSucceed(env) ==> HoldsAll(w, mc'.disk, Artifacts(r).Keys))
  {
    hide LoadPersisted, LoadBundled, Keeps, Holds, WritesSucceed, World.Stores, SavedBy, AllCommitted;
    var mc := Boot(disk, None);
    BootKeeps(w, disk, None, SavedBy(disk.state));
    var (persisted, mc1) := LoadPersisted(w, env, mc);
    LoadKeeps(w, env, disk.state, SavedBy(disk.state), mc);
    var (bundled, mc2) := LoadBundled(w, env, mc1);
    LoadKeeps(w, env, disk.state, SavedBy(disk.state), mc1);
    KeptIsCommitted(w, disk.state, SavedBy(disk.state), mc2);
  }

  lemma {:induction false} RefreshKeeps(w: World, env: Env, disk: Disk, cur: Option<Snapshot>, id: Option<string>)
    requires Committed(w, disk) && HoldsAll(w, disk, Artifacts(cur).Keys) && w.Stores() && WritesSucceed(env)
    ensures var (r, mc') := Refresh(w, env, cur, Boot(disk, id));
            AllCommitted(w, mc') && HoldsAll(w, mc'.disk, Artifacts(r.snap).Keys)
  {
    hide Assemble, Keeps, Holds, WritesSucceed, World.Stores, SavedBy, AllCommitted, Persist;
    var mc := Boot(disk, id);
    var need := SavedBy(disk.state) + Artifacts(cur).Keys;
    BootKeeps(w, disk, id, need);
    KeptIsCommitted(w, disk.state, need, mc);
    if env.manifest.Served? {
      var (r, mc1) := Assemble(w, env, env.manifest.body, env.manifest.etag, Network, cur, mc);
      AssembleKeeps(w, env, env.manifest.body, env.manifest.etag, Network, cur, disk.state, need, mc);
      KeptIsCommitted(w, disk.state, need, mc1);
      if r.Ok? {
        PersistKeeps(w, env, r.value, mc1);
      }
    }
  }

  lemma {:induction false} StepKeeps(w: World, s: State, e: Event)
    requires Inv(w, s) && w.Stores() && Undisturbed(e)
    ensures Inv(w, Next(w, s, e))
  {
    hide Restore, Refresh, HoldsAll, Artifacts, Committed;
    if s.up.None? {
      RestoreKeeps(w, e.env, s.disk);
    } else {
      RefreshKeeps(w, e.env, s.disk, s.up.value.snap, s.up.value.id);
    }
  }

  /** Over every run of starts, refreshes and crashes between any two writes, the directory and
      the bundle have every artifact of the release on disk and of the active one. */
  lemma {:induction false} RunKeeps(w: World, s: State, events: seq<Event>)
    requires Inv(w, s) && w.Stores() && forall e :: e in events ==> Undisturbed(e)
    ensures Inv(w, After(w, s, events))
    decreases |events|
  {
    hide Inv, Next;
    if events != [] {
      StepKeeps(w, s, events[0]);
      RunKeeps(w, Next(w, s, events[0]), events[1..]);
    }
  }

  /** A fresh directory satisfies the invariant. */
  lemma {:induction false} EmptyIsInv(w: World, disk: Disk)
    requires !disk.state.Saved?
    ensures Inv(w, State(disk, None))
  {
  }
}
