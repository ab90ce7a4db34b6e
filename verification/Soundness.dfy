/** Every release a client ever activates was assembled completely, from one verified manifest. */
module Soundness {
  import opened Digits
  import opened Fallback
  import opened Resolution
  import opened Delivery
  import opened Durability

  /** The catalog decodes bytes that hash to the digest, or that the bundle ships under it. */
  ghost predicate Sourced(w: World, d: Digest, cat: Catalog) {
    exists b: Bytes :: (w.hash(b) == d || (w.Bundles(d) && w.bundle.value.artifacts[d] == b)) &&
                       w.decode(b).Some? && w.decode(b).value.messages == cat
  }

  ghost predicate Honest(w: World, lent: map<Digest, Catalog>) {
    forall d :: d in lent ==> Sourced(w, d, lent[d])
  }

  ghost predicate AllSourced(w: World, refs: seq<Ref>, cats: seq<Catalog>) {
    |refs| == |cats| && forall i :: 0 <= i < |refs| ==> Sourced(w, refs[i].sha, cats[i])
  }

  /** The ordered merge of the artifacts of all namespaces. */
  ghost predicate Merged(w: World, refs: seq<Ref>, cat: Catalog) {
    exists cats :: AllSourced(w, refs, cats) && Merge(cats, map[]) == cat
  }

  function Digests(v: View, locales: seq<string>): set<Digest> {
    if locales == [] then {} else Shas(Refs(v, locales[0])) + Digests(v, locales[1..])
  }

  ghost predicate AllMerged(w: World, v: View, catalogs: map<string, Catalog>) {
    forall l :: l in catalogs ==> Merged(w, Refs(v, l), catalogs[l])
  }

  /** Exactly the needed locales are loaded, each the ordered merge of all its namespaces. */
  ghost predicate Complete(w: World, rel: Release) {
    rel.catalogs.Keys == Members(w.Needed(rel.view)) && rel.bySha.Keys == Digests(rel.view, w.Needed(rel.view)) &&
    AllMerged(w, rel.view, rel.catalogs) && Honest(w, rel.bySha)
  }

  lemma {:induction false} FetchIsSourced(w: World, env: Env, d: Digest, sources: seq<BlobSource>, mc: Machine)
    ensures var r := Fetch(w, env, d, sources, mc).0;
            r.Ok? ==> w.hash(r.value.bytes) == d || (w.Bundles(d) && w.bundle.value.artifacts[d] == r.value.bytes)
  {
    if sources != [] {
      FetchIsSourced(w, env, d, sources[1..], mc);
    }
  }

  lemma {:induction false} ArtifactIsSourced(a: Assembly, ref: Ref, locale: string, mc: Machine)
    requires Honest(a.w, a.lend)
    ensures var r := LoadArtifact(a, ref, locale, mc).0; r.Ok? ==> Sourced(a.w, ref.sha, r.value)
  {
    hide Fetch, SaveArtifact, World.Bundles;
    FetchIsSourced(a.w, a.env, ref.sha, SourcesFor(a.w, a.origin), mc);
    if ref.sha !in a.lend {
      var got := Fetch(a.w, a.env, ref.sha, SourcesFor(a.w, a.origin), mc).0;
      if got.Ok? {
        var b := got.value.bytes;
        assert a.w.decode(b).Some? ==> Sourced(a.w, ref.sha, a.w.decode(b).value.messages);
      }
    }
  }

  lemma {:induction false} RefsAreSourced(a: Assembly, refs: seq<Ref>, locale: string, mc: Machine)
    requires Honest(a.w, a.lend)
    ensures var r := LoadRefs(a, refs, locale, mc).0; r.Ok? ==> AllSourced(a.w, refs, r.value)
  {
    hide LoadArtifact, Sourced, Honest;
    if refs != [] {
      var (cat, mc1) := LoadArtifact(a, refs[0], locale, mc);
      ArtifactIsSourced(a, refs[0], locale, mc);
      RefsAreSourced(a, refs[1..], locale, mc1);
    }
  }

  lemma {:induction false} IndexIsHonest(w: World, refs: seq<Ref>, cats: seq<Catalog>, under: map<Digest, Catalog>)
    requires AllSourced(w, refs, cats) && Honest(w, under)
    ensures Honest(w, Index(refs, cats, under))
  {
    hide Sourced;
    if refs != [] {
      IndexIsHonest(w, refs[1..], cats[1..], under[refs[0].sha := cats[0]]);
    }
  }

  lemma {:induction false} AddMerged(w: World, v: View, catalogs: map<string, Catalog>, l: string, cats: seq<Catalog>)
    requires AllMerged(w, v, catalogs) && AllSourced(w, Refs(v, l), cats)
    ensures AllMerged(w, v, catalogs[l := Merge(cats, map[])])
  {
    hide AllSourced, Merge, Refs;
  }

  lemma {:induction false} LocalesAreComplete(a: Assembly, v: View, locales: seq<string>, acc: Loaded, mc: Machine)
    requires Honest(a.w, a.lend) && Honest(a.w, acc.bySha) && AllMerged(a.w, v, acc.catalogs)
    ensures var r := LoadLocales(a, v, locales, acc, mc).0;
            r.Ok? ==> r.value.catalogs.Keys == acc.catalogs.Keys + Members(locales) &&
                      r.value.bySha.Keys == acc.bySha.Keys + Digests(v, locales) &&
                      Honest(a.w, r.value.bySha) && AllMerged(a.w, v, r.value.catalogs)
    decreases |locales|
  {
    hide LoadRefs, Sourced, Honest, AllSourced, Index, Shas, Merge, AllMerged;
    if locales != [] {
      var l := locales[0];
      var refs := Refs(v, l);
      var (cats, mc1) := LoadRefs(a, refs, l, mc);
      RefsAreSourced(a, refs, l, mc);
      if cats.Ok? {
        var acc' := Loaded(acc.catalogs[l := Merge(cats.value, map[])], Index(refs, cats.value, acc.bySha));
        IndexAll(a.w, refs, cats.value, acc.bySha);
        AddMerged(a.w, v, acc.catalogs, l, cats.value);
        LocalesAreComplete(a, v, locales[1..], acc', mc1);
        assert forall x :: x in locales <==> x == l || x in locales[1..];
      }
    }
  }

  lemma {:induction false} IndexAll(w: World, refs: seq<Ref>, cats: seq<Catalog>, under: map<Digest, Catalog>)
    requires AllSourced(w, refs, cats) && Honest(w, under)
    ensures Honest(w, Index(refs, cats, under)) && Index(refs, cats, under).Keys == under.Keys + Shas(refs)
  {
    IndexIsHonest(w, refs, cats, under);
    IndexKeys(refs, cats, under);
  }

  lemma {:induction false} ViewIsComplete(a: Assembly, v: View, raw: Bytes, etag: string, mc: Machine)
    requires Honest(a.w, a.lend)
    ensures var r := AssembleView(a, v, raw, etag, mc).0;
            r.Ok? ==> r.value.view == v && r.value.raw == raw && r.value.etag == etag && Complete(a.w, r.value)
  {
    hide LoadLocales, Sourced, World.Needed, Digests, Members;
    LocalesAreComplete(a, v, a.w.Needed(v), Loaded(map[], map[]), mc);
  }

  // ----- Snapshots -----

  ghost predicate Loads(w: World, rel: Release, of: Release, v: View) {
    rel.view == v && rel.raw == of.raw && rel.etag == of.etag && Complete(w, rel)
  }

  /** The manifest decodes, is for this environment, and is signed unless it ships with the
      binary. */
  ghost predicate Trusted(w: World, raw: Bytes) {
    w.parse(raw).Some? && (w.config.environment != "" ==> w.parse(raw).value.environment == w.config.environment) &&
    (w.signed(raw) || (w.bundle.Some? && w.bundle.value.manifest == Some(raw)))
  }

  ghost predicate SoundViews(w: World, rel: Release, cohort: nat, m: Manifest, views: Views) {
    RolloutOf(w, m) == Some(views.spec) &&
    (views.stable.Some? ==> Loads(w, views.stable.value, rel, m.stable)) &&
    (views.candidate.Some? ==> w.valid(views.spec.candidate) && Loads(w, views.candidate.value, rel, views.spec.candidate)) &&
    Some(rel) == if views.spec.In(cohort) && views.candidate.Some? then views.candidate else views.stable
  }

  /** The active release, and every view kept beside it, is complete and comes from the one
      trusted manifest: the stable view, or the candidate for an installation in it. */
  ghost predicate Sound(w: World, s: Snapshot) {
    Trusted(w, s.rel.raw) &&
    var m := w.parse(s.rel.raw).value;
    match s.ro
    case None => RolloutOf(w, m).None? && Loads(w, s.rel, s.rel, m.stable)
    case Some(views) => SoundViews(w, s.rel, s.cohort, m, views)
  }

  lemma {:induction false} SoundLends(w: World, s: Option<Snapshot>)
    requires s.Some? ==> Sound(w, s.value)
    ensures Honest(w, Artifacts(s))
  {
    hide Sourced, World.Needed, Digests, AllMerged, Trusted;
  }

  lemma {:induction false} RolloutIsSound(a: Assembly, m: Manifest, ro: Rollout, raw: Bytes, etag: string, mc: Machine)
    requires Honest(a.w, a.lend) && RolloutOf(a.w, m) == Some(ro)
    ensures var r := AssembleRollout(a, m, ro, raw, etag, mc).0;
            r.Ok? ==> r.value.ro.Some? && SoundViews(a.w, r.value.rel, r.value.cohort, m, r.value.ro.value) &&
                      r.value.rel.raw == raw && r.value.rel.etag == etag
  {
    hide AssembleView, InstallationId, Sourced, World.Cohort, World.Needed, AllMerged, Digests, RolloutOf;
    var (key, mc0) := InstallationId(a.w, a.env, mc);
    var cohort := a.w.Cohort(ro.salt, key);
    var wanted := ro.In(cohort) || a.w.config.perRequestCohorts;
    var (candidate, mc1) := TryCandidate(a, wanted, ro, raw, etag, mc0);
    ViewIsComplete(a, ro.candidate, raw, etag, mc0);
    var a' := a.(lend := a.lend + BySha(candidate));
    ViewIsComplete(a', m.stable, raw, etag, mc1);
  }

  lemma {:induction false} AssembleIsSound(w: World, env: Env, raw: Bytes, etag: string, origin: Source, prev: Option<Snapshot>, mc: Machine)
    requires (prev.Some? ==> Sound(w, prev.value)) && (origin == Bundled ==> w.bundle.Some? && w.bundle.value.manifest == Some(raw))
    ensures var r := Assemble(w, env, raw, etag, origin, prev, mc).0;
            r.Ok? ==> Sound(w, r.value) && r.value.rel.raw == raw && r.value.rel.etag == etag
  {
    hide AssembleView, AssembleRollout, Complete, RolloutOf, SoundViews, Honest;
    SoundLends(w, prev);
    var v := Verified(w, raw, origin);
    if v.Ok? {
      var a := Assembly(w, env, origin, Artifacts(prev));
      var ro := RolloutOf(w, v.value);
      if ro.Some? {
        RolloutIsSound(a, v.value, ro.value, raw, etag, mc);
      } else {
        ViewIsComplete(a, v.value.stable, raw, etag, mc);
      }
    }
  }

  // ----- Whole runs -----

  ghost predicate SoundState(w: World, s: State) {
    s.up.Some? && s.up.value.snap.Some? ==> Sound(w, s.up.value.snap.value)
  }

  lemma {:induction false} LoadIsSound(w: World, env: Env, mc: Machine)
    ensures var r := LoadPersisted(w, env, mc).0; r.Some? ==> Sound(w, r.value)
    ensures var r := LoadBundled(w, env, mc).0; r.Some? ==> Sound(w, r.value)
  {
    hide Assemble, Sound;
    if mc.disk.state.Saved? {
      AssembleIsSound(w, env, mc.disk.state.raw, mc.disk.state.etag, Persisted, None, mc);
    }
    if w.bundle.Some? && w.bundle.value.manifest.Some? {
      AssembleIsSound(w, env, w.bundle.value.manifest.value, "", Bundled, None, mc);
    }
  }

  lemma {:induction false} FlagsAreSound(w: World, s: Snapshot, starting: bool, source: Source)
    requires Sound(w, s)
    ensures Sound(w, s.(starting := starting)) && Sound(w, s.(source := source))
  {
    hide Loads, SoundViews, Trusted, RolloutOf;
  }

  lemma {:induction false} WorkIsSound(w: World, s: State, env: Env)
    requires SoundState(w, s)
    ensures var (snap, _) := Work(w, s, env); snap.Some? ==> Sound(w, snap.value)
  {
    hide Assemble, LoadPersisted, LoadBundled, Sound, Persist;
    if s.up.None? {
      var mc := Boot(s.disk, None);
      LoadIsSound(w, env, mc);
      LoadIsSound(w, env, LoadPersisted(w, env, mc).1);
      forall t: Snapshot | Sound(w, t) ensures Sound(w, t.(starting := true)) {
        FlagsAreSound(w, t, true, t.source);
      }
    } else {
      var cur := s.up.value.snap;
      var mc := Boot(s.disk, s.up.value.id);
      if env.manifest.Served? {
        AssembleIsSound(w, env, env.manifest.body, env.manifest.etag, Network, cur, mc);
      }
      if cur.Some? {
        FlagsAreSound(w, cur.value, false, Memory);
      }
    }
  }

  /** Over every run, whatever bytes are in the cache directory and however often it is tampered
      with, a process that is up has no release or a complete one from one trusted manifest. */
  lemma {:induction false} AlwaysSound(w: World, s: State, events: seq<Event>)
    requires SoundState(w, s)
    ensures SoundState(w, After(w, s, events))
    decreases |events|
  {
    hide Work, Sound;
    if events != [] {
      if !events[0].Tamper? {
        WorkIsSound(w, s, events[0].env);
      }
      AlwaysSound(w, Next(w, s, events[0]), events[1..]);
    }
  }

  predicate SameRelease(a: Option<Snapshot>, b: Option<Snapshot>) {
    (a.Some? <==> b.Some?) &&
    (b.Some? ==> a.value.rel == b.value.rel && a.value.ro == b.value.ro && a.value.cohort == b.value.cohort)
  }

  /** A refresh that fails, or is answered 304, leaves the active release and its rollout views
      exactly as they were; only where they count as served from changes. */
  lemma {:induction false} FailureChangesNothing(w: World, env: Env, cur: Option<Snapshot>, disk: Disk, id: Option<string>)
    ensures var (r, mc') := Refresh(w, env, cur, Boot(disk, id));
            (r.error.Some? || !w.config.edge || env.manifest.NotModified? ==> !r.activated) &&
            (!r.activated ==> SameRelease(r.snap, cur) && mc'.disk.state == disk.state)
  {
    hide Assemble, Persist;
    if env.manifest.Served? {
      var mc := Boot(disk, id);
      AssembleKeeps(w, env, env.manifest.body, env.manifest.etag, Network, cur, disk.state, {}, mc);
    }
  }
}
