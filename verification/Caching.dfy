/** When a commit record ends up beside all the artifacts of its release, whatever the artifact
    writes did: the exact condition, over every run. */
module Caching {
  import opened Digits
  import opened Delivery
  import opened Durability

  // ----- What loading does to the directory -----

  /** Loading only adds artifacts: the id and the commit record of the directory stay, in each
      state it passes through. */
  ghost predicate AddsOnly(x: Machine, y: Machine) {
    y.id == x.id && y.disk.id == x.disk.id && y.disk.state == x.disk.state && x.earlier <= y.earlier &&
    forall i :: |x.earlier| <= i < |y.earlier| ==> y.earlier[i].id == x.disk.id && y.earlier[i].state == x.disk.state
  }

  /** What is held now was held before the call or saved during it. */
  ghost predicate Tracks(w: World, before: Disk, mc: Machine) {
    forall d :: Holds(w, mc.disk, d) <==> Holds(w, before, d) || d in mc.saved
  }

  /** No artifact is written: nothing comes from the network, or every write fails. */
  ghost predicate Quiet(a: Assembly) {
    a.origin != Network || forall n :: !a.env.writes(n)
  }

  ghost predicate Tracked(a: Assembly, before: Disk, x: Machine, y: Machine) {
    Tracks(a.w, before, y) && (Quiet(a) ==> y.saved == x.saved)
  }

  lemma {:induction false} FetchRemote(w: World, env: Env, d: Digest, sources: seq<BlobSource>, mc: Machine)
    ensures var (r, mc') := Fetch(w, env, d, sources, mc);
            mc'.saved == mc.saved && (r.Ok? && r.value.remote ==> EdgeSource in sources)
  {
    hide Get;
    if sources != [] {
      FetchRemote(w, env, d, sources[1..], mc);
    }
  }

  lemma {:induction false} SaveTracks(w: World, env: Env, d: Digest, body: Bytes, before: Disk, mc: Machine)
    requires w.hash(body) == d
    ensures var mc' := SaveArtifact(w, env, d, body, mc);
            (Tracks(w, before, mc) ==> Tracks(w, before, mc')) && AddsOnly(mc, mc') && ((forall n :: !env.writes(n)) ==> mc'.saved == mc.saved)
  {
  }

  lemma {:induction false} ArtifactTracks(a: Assembly, ref: Ref, l: string, before: Disk, mc: Machine)
    ensures var mc' := LoadArtifact(a, ref, l, mc).1; (Tracks(a.w, before, mc) ==> Tracked(a, before, mc, mc')) && AddsOnly(mc, mc')
  {
    hide Fetch, SaveArtifact, Holds, ParseArtifact;
    if ref.sha !in a.lend {
      var sources := SourcesFor(a.w, a.origin);
      var (got, mc1) := Fetch(a.w, a.env, ref.sha, sources, mc);
      FetchFinds(a.w, a.env, ref.sha, sources, mc);
      FetchRemote(a.w, a.env, ref.sha, sources, mc);
      if got.Ok? && got.value.remote {
        SaveTracks(a.w, a.env, ref.sha, got.value.bytes, before, mc1);
      }
    }
  }

  lemma {:induction false} RefsTrack(a: Assembly, refs: seq<Ref>, l: string, before: Disk, mc: Machine)
    ensures var mc' := LoadRefs(a, refs, l, mc).1; (Tracks(a.w, before, mc) ==> Tracked(a, before, mc, mc')) && AddsOnly(mc, mc')
  {
    hide LoadArtifact, Tracks, Quiet;
    if refs != [] {
      var (cat, mc1) := LoadArtifact(a, refs[0], l, mc);
      ArtifactTracks(a, refs[0], l, before, mc);
      if cat.Ok? {
        RefsTrack(a, refs[1..], l, before, mc1);
        AddsMore(mc, mc1, LoadRefs(a, refs[1..], l, mc1).1);
      }
    }
  }

  lemma {:induction false} AddsMore(x: Machine, y: Machine, z: Machine)
    requires AddsOnly(x, y) && AddsOnly(y, z)
    ensures AddsOnly(x, z)
  {
  }

  lemma {:induction false} LocalesTrack(a: Assembly, v: View, locales: seq<string>, acc: Loaded, before: Disk, mc: Machine)
    ensures var mc' := LoadLocales(a, v, locales, acc, mc).1; (Tracks(a.w, before, mc) ==> Tracked(a, before, mc, mc')) && AddsOnly(mc, mc')
    decreases |locales|
  {
    hide LoadRefs, Tracks, Quiet, AddsOnly, Merge, Index, Refs;
    if locales != [] {
      var refs := Refs(v, locales[0]);
      var (cats, mc1) := LoadRefs(a, refs, locales[0], mc);
      RefsTrack(a, refs, locales[0], before, mc);
      if cats.Ok? {
        var acc' := Loaded(acc.catalogs[locales[0] := Merge(cats.value, map[])], Index(refs, cats.value, acc.bySha));
        LocalesTrack(a, v, locales[1..], acc', before, mc1);
        AddsMore(mc, mc1, LoadLocales(a, v, locales[1..], acc', mc1).1);
      }
    } else {
      AddsNothing(mc);
    }
  }

  lemma {:induction false} AddsNothing(mc: Machine)
    ensures AddsOnly(mc, mc)
  {
  }

  lemma {:induction false} ViewTracks(a: Assembly, v: View, raw: Bytes, etag: string, before: Disk, mc: Machine)
    ensures var mc' := AssembleView(a, v, raw, etag, mc).1; (Tracks(a.w, before, mc) ==> Tracked(a, before, mc, mc')) && AddsOnly(mc, mc')
  {
    hide LoadLocales, Tracked, AddsOnly, Tracks, World.Needed;
    LocalesTrack(a, v, a.w.Needed(v), Loaded(map[], map[]), before, mc);
  }

  lemma {:induction false} IdTracks(w: World, env: Env, before: Disk, mc: Machine)
    requires Tracks(w, before, mc)
    ensures var mc' := InstallationId(w, env, mc).1; Tracks(w, before, mc') && mc'.saved == mc.saved
  {
  }

  lemma {:induction false} RolloutTracks(a: Assembly, m: Manifest, ro: Rollout, raw: Bytes, etag: string, before: Disk, mc: Machine)
    requires Tracks(a.w, before, mc)
    ensures Tracked(a, before, mc, AssembleRollout(a, m, ro, raw, etag, mc).1)
  {
    hide AssembleView, InstallationId, Tracks, AddsOnly, Choose, World.Cohort, Rollout.In, Quiet;
    var (key, mc0) := InstallationId(a.w, a.env, mc);
    IdTracks(a.w, a.env, before, mc);
    var cohort := a.w.Cohort(ro.salt, key);
    var wanted := ro.In(cohort) || a.w.config.perRequestCohorts;
    var (candidate, mc1) := TryCandidate(a, wanted, ro, raw, etag, mc0);
    ViewTracks(a, ro.candidate, raw, etag, before, mc0);
    assert Tracked(a, before, mc, mc1);
    var b := a.(lend := a.lend + BySha(candidate));
    ViewTracks(b, m.stable, raw, etag, before, mc1);
    assert Quiet(a) == Quiet(b) by { SameQuiet(a, b); }
  }

  lemma {:induction false} SameQuiet(a: Assembly, b: Assembly)
    requires a.origin == b.origin && a.env == b.env
    ensures Quiet(a) == Quiet(b)
  {
  }

  /** Assembling tracks what it saves; from anywhere but the network, or with no write succeeding,
      it saves nothing. */
  lemma {:induction false} AssembleTracks(w: World, env: Env, raw: Bytes, etag: string, origin: Source, prev: Option<Snapshot>,
                                          before: Disk, mc: Machine)
    requires Tracks(w, before, mc)
    ensures Tracked(Assembly(w, env, origin, map[]), before, mc, Assemble(w, env, raw, etag, origin, prev, mc).1)
  {
    hide AssembleView, AssembleRollout, Tracks, AddsOnly, Verified, RolloutOf, Quiet, Artifacts;
    var a := Assembly(w, env, origin, Artifacts(prev));
    SameQuiet(a, Assembly(w, env, origin, map[]));
    var v := Verified(w, raw, origin);
    if v.Ok? {
      var ro := RolloutOf(w, v.value);
      if ro.Some? {
        RolloutTracks(a, v.value, ro.value, raw, etag, before, mc);
      } else {
        ViewTracks(a, v.value.stable, raw, etag, before, mc);
      }
    }
  }

  // ----- Committing -----

  /** All states of a machine from the given one on name the release, and hold its artifacts as
      the given disk does. */
  ghost predicate SameKept(w: World, disk: Disk, keep: set<Digest>, from: nat, mc: Machine) {
    SameOn(w, disk, keep, mc.disk) && forall i :: from <= i < |mc.earlier| ==> SameOn(w, disk, keep, mc.earlier[i])
  }

  ghost predicate SameOn(w: World, disk: Disk, keep: set<Digest>, other: Disk) {
    other.state == disk.state && forall d :: d in keep ==> (Holds(w, other, d) <==> Holds(w, disk, d))
  }

  lemma {:induction false} PruneKeepsSame(w: World, env: Env, disk: Disk, of: set<Digest>, keep: set<Digest>, entries: seq<Digest>,
                                          from: nat, mc: Machine)
    requires SameKept(w, disk, of, from, mc) && of <= keep
    ensures var mc' := Prune(env, keep, entries, mc);
            SameKept(w, disk, of, from, mc') && mc'.saved == mc.saved && mc.earlier <= mc'.earlier
    decreases |entries|
  {
    if entries != [] {
      var mc1 := mc.Write(mc.disk.(artifacts := mc.disk.artifacts - {entries[0]}));
      if entries[0] in mc.disk.artifacts && entries[0] !in keep {
        PruneKeepsSame(w, env, disk, of, keep, entries[1..], from, if env.removes(mc.clock) then mc1 else mc.Tick());
      } else {
        PruneKeepsSame(w, env, disk, of, keep, entries[1..], from, mc);
      }
    }
  }

  /** Each artifact was held before the call or saved during it. */
  ghost predicate Cached(w: World, before: Disk, saved: seq<Digest>, ds: set<Digest>) {
    forall d :: d in ds ==> Holds(w, before, d) || d in saved
  }

  lemma {:induction false} SameIsCommitted(w: World, before: Disk, disk: Disk, saved: seq<Digest>, other: Disk)
    requires (forall d :: Holds(w, disk, d) <==> Holds(w, before, d) || d in saved) && SameOn(w, disk, SavedBy(disk.state), other)
    ensures Committed(w, other) <==> Cached(w, before, saved, SavedBy(disk.state))
  {
    hide Holds, SavedBy;
  }

  lemma {:induction false} CommittedIff(w: World, env: Env, s: Snapshot, before: Disk, mc: Machine)
    requires Tracks(w, before, mc) && w.Stores() && env.commits
    ensures var mc' := Persist(w, env, s, mc);
            var ok := Cached(w, before, mc.saved, Artifacts(Some(s)).Keys);
            mc'.saved == mc.saved && (Committed(w, mc'.disk) <==> ok) && mc.earlier + [mc.disk] <= mc'.earlier &&
            forall i :: |mc.earlier| < i < |mc'.earlier| ==> (Committed(w, mc'.earlier[i]) <==> ok)
  {
    hide Prune, Artifacts, SavedBy, Holds, World.Stores, Committed, Cached;
    SavedArtifacts(s, s.rel.etag, s.rel.raw);
    var mc1 := mc.Write(mc.disk.(state := Saved(s.rel.etag, s.rel.raw, s)));
    var keep := Artifacts(Some(s)).Keys;
    assert forall d :: Holds(w, mc1.disk, d) <==> Holds(w, mc.disk, d) by { SameArtifacts(w, mc.disk, mc1.disk); }
    PruneKeepsSame(w, env, mc1.disk, keep, keep, env.entries, |mc.earlier| + 1, mc1);
    var mc' := Persist(w, env, s, mc);
    SameIsCommitted(w, before, mc1.disk, mc.saved, mc'.disk);
    forall i | |mc.earlier| < i < |mc'.earlier|
      ensures Committed(w, mc'.earlier[i]) <==> Cached(w, before, mc.saved, keep)
    {
      SameIsCommitted(w, before, mc1.disk, mc.saved, mc'.earlier[i]);
    }
  }

  lemma {:induction false} SameArtifacts(w: World, a: Disk, b: Disk)
    requires a.artifacts == b.artifacts
    ensures forall d :: Holds(w, a, d) <==> Holds(w, b, d)
  {
  }

  // ----- Whole runs -----

  /** What a refresh assembles from the edge, before it commits. */
  function Fetched(w: World, s: State, env: Env): (Result<Snapshot>, Machine)
    requires s.up.Some? && env.manifest.Served?
  {
    Assemble(w, env, env.manifest.body, env.manifest.etag, Network, s.up.value.snap, Boot(s.disk, s.up.value.id))
  }

  /** The event is a refresh that gets as far as rewriting the commit record. */
  predicate Rewrites(w: World, s: State, e: Event) {
    (e.Refreshing? || e.Crash?) && s.up.Some? && w.config.edge && w.config.cache && e.env.commits && e.env.manifest.Served? &&
    var (r, mc) := Fetched(w, s, e.env); r.Ok? && (e.Crash? ==> |mc.earlier| < e.after)
  }

  /** A rewritten commit record names a release each of whose artifacts was held before the event
      or was saved during it. */
  ghost predicate CachedBy(w: World, s: State, e: Event) {
    Rewrites(w, s, e) ==>
      var (r, mc) := Fetched(w, s, e.env); Cached(w, s.disk, mc.saved, Artifacts(Some(r.value)).Keys)
  }

  lemma {:induction false} StartCommitted(w: World, s: State, env: Env)
    requires Committed(w, s.disk) && s.up.None?
    ensures AllCommitted(w, Work(w, s, env).1)
  {
    hide Restore, AllCommitted, Committed, WritesSucceed, HoldsAll;
    RestoreKeeps(w, env, s.disk);
  }

  lemma {:induction false} FetchedCommitted(w: World, s: State, env: Env)
    requires Committed(w, s.disk) && s.up.Some? && env.manifest.Served?
    ensures AllCommitted(w, Fetched(w, s, env).1) && Tracks(w, s.disk, Fetched(w, s, env).1)
  {
    hide Assemble, AllCommitted, Keeps, Holds, SavedBy, Artifacts;
    var mc := Boot(s.disk, s.up.value.id);
    BootKeeps(w, s.disk, mc.id, SavedBy(s.disk.state));
    AssembleKeeps(w, env, env.manifest.body, env.manifest.etag, Network, s.up.value.snap, s.disk.state, SavedBy(s.disk.state), mc);
    KeptIsCommitted(w, s.disk.state, SavedBy(s.disk.state), Fetched(w, s, env).1);
    AssembleTracks(w, env, env.manifest.body, env.manifest.etag, Network, s.up.value.snap, s.disk, mc);
  }

  /** One event from a directory whose commit record is complete leaves it complete if and only if
      the artifacts of a release it commits were held before or saved by it, whichever writes fail
      and wherever it crashes. */
  lemma {:induction false} StepCommittedIff(w: World, s: State, e: Event)
    requires Committed(w, s.disk) && !e.Tamper?
    ensures Committed(w, Next(w, s, e).disk) <==> CachedBy(w, s, e)
  {
    hide Restore, Refresh, Committed, Cached, Fetched, Prune, Tracks, Artifacts;
    if s.up.None? {
      StartCommitted(w, s, e.env);
    } else if e.env.manifest.Served? {
      FetchedCommitted(w, s, e.env);
      var (r, mc) := Fetched(w, s, e.env);
      if r.Ok? && w.Stores() && e.env.commits {
        CommittedIff(w, e.env, r.value, s.disk, mc);
      }
      RefreshIs(w, s, e.env);
    } else {
      UnservedIs(w, s, e.env);
    }
  }

  lemma {:induction false} UnservedIs(w: World, s: State, env: Env)
    requires s.up.Some? && !env.manifest.Served?
    ensures Work(w, s, env).1 == Boot(s.disk, s.up.value.id)
  {
  }

  lemma {:induction false} RefreshIs(w: World, s: State, env: Env)
    requires s.up.Some? && env.manifest.Served?
    ensures var (r, mc) := Fetched(w, s, env);
            Work(w, s, env).1 ==
            if !w.config.edge then Boot(s.disk, s.up.value.id)
            else if r.Ok? then Persist(w, env, r.value, mc)
            else mc
  {
    hide Assemble, Persist;
    var (r, mc) := Fetched(w, s, env);
    assert Work(w, s, env).1 == Refresh(w, env, s.up.value.snap, Boot(s.disk, s.up.value.id)).1;
    if !w.config.edge {
      assert Refresh(w, env, s.up.value.snap, Boot(s.disk, s.up.value.id)).1 == Boot(s.disk, s.up.value.id);
    } else if r.Ok? {
      assert Refresh(w, env, s.up.value.snap, Boot(s.disk, s.up.value.id)).1 == Persist(w, env, r.value, mc);
    } else {
      assert Refresh(w, env, s.up.value.snap, Boot(s.disk, s.up.value.id)).1 == mc;
    }
  }

  ghost predicate AlwaysCommitted(w: World, s: State, events: seq<Event>)
    decreases |events|
  {
    Committed(w, s.disk) && (events != [] ==> AlwaysCommitted(w, Next(w, s, events[0]), events[1..]))
  }

  ghost predicate AlwaysCached(w: World, s: State, events: seq<Event>)
    decreases |events|
  {
    events != [] ==> CachedBy(w, s, events[0]) && AlwaysCached(w, Next(w, s, events[0]), events[1..])
  }

  /** Over every run of starts, refreshes and crashes, with any writes failing: the commit record
      is complete in every state if and only if no event commits a release with an artifact that
      was neither held before it nor saved by it. */
  lemma {:induction false} RunCommittedIff(w: World, s: State, events: seq<Event>)
    requires Committed(w, s.disk) && forall e :: e in events ==> !e.Tamper?
    ensures AlwaysCommitted(w, s, events) <==> AlwaysCached(w, s, events)
    decreases |events|
  {
    hide Committed, CachedBy, Next;
    if events != [] {
      StepCommittedIff(w, s, events[0]);
      if CachedBy(w, s, events[0]) {
        RunCommittedIff(w, Next(w, s, events[0]), events[1..]);
      } else {
        NotCommitted(w, Next(w, s, events[0]), events[1..]);
      }
    }
  }

  lemma {:induction false} NotCommitted(w: World, s: State, events: seq<Event>)
    requires !Committed(w, s.disk)
    ensures !AlwaysCommitted(w, s, events)
  {
    hide Committed;
  }

  /** With no artifact write succeeding, a refresh commits a complete record exactly when all its
      artifacts were held before. */
  lemma {:induction false} UnwrittenIff(w: World, s: State, env: Env)
    requires Committed(w, s.disk) && Rewrites(w, s, Refreshing(env)) && forall n :: !env.writes(n)
    ensures var s' := Next(w, s, Refreshing(env));
            s'.disk.state.Saved? && s'.up.Some? && s'.up.value.snap == Some(s'.disk.state.saver) &&
            (Committed(w, s'.disk) <==> HoldsAll(w, s.disk, Artifacts(s'.up.value.snap).Keys))
  {
    hide Assemble, Committed, Holds, Artifacts, Prune;
    StepCommittedIff(w, s, Refreshing(env));
    var mc := Boot(s.disk, s.up.value.id);
    AssembleTracks(w, env, env.manifest.body, env.manifest.etag, Network, s.up.value.snap, s.disk, mc);
    var (r, mc1) := Fetched(w, s, env);
    assert mc1.saved == [];
    RefreshIs(w, s, env);
    assert Work(w, s, env) == (Some(r.value), Persist(w, env, r.value, mc1));
    assert Cached(w, s.disk, [], Artifacts(Some(r.value)).Keys) <==> HoldsAll(w, s.disk, Artifacts(Some(r.value)).Keys);
    var mc2 := mc1.Write(mc1.disk.(state := Saved(r.value.rel.etag, r.value.rel.raw, r.value)));
    PruneKeepsSame(w, env, mc2.disk, {}, Artifacts(Some(r.value)).Keys, env.entries, |mc2.earlier|, mc2);
  }
}
