/** Reusing artifacts and restarting give what loading from scratch gives: the exact conditions. */
module Restart {
  import opened Digits
  import opened Fallback
  import opened Resolution
  import opened Delivery
  import opened Durability
  import opened Soundness

  // ----- Content addressing -----

  ghost predicate Injective(w: World) {
    forall a, b :: w.hash(a) == w.hash(b) ==> a == b
  }

  ghost predicate HonestBundle(w: World) {
    forall d :: w.Bundles(d) ==> w.hash(w.bundle.value.artifacts[d]) == d
  }

  ghost predicate Addressed(w: World) {
    Injective(w) && HonestBundle(w)
  }

  /** The artifact a digest stands for. */
  ghost function ContentOf(w: World, d: Digest): Option<Artifact> {
    if exists b :: w.hash(b) == d then
      var b :| w.hash(b) == d;
      w.decode(b)
    else None
  }

  ghost function Messages(w: World, d: Digest): Catalog {
    if ContentOf(w, d).Some? then ContentOf(w, d).value.messages else map[]
  }

  lemma {:induction false} ContentIs(w: World, b: Bytes)
    requires Injective(w)
    ensures ContentOf(w, w.hash(b)) == w.decode(b)
  {
  }

  lemma {:induction false} SourcedIsContent(w: World, d: Digest, cat: Catalog)
    requires Addressed(w) && Sourced(w, d, cat)
    ensures ContentOf(w, d).Some? && cat == Messages(w, d)
  {
    hide ContentOf;
    var b: Bytes :| (w.hash(b) == d || (w.Bundles(d) && w.bundle.value.artifacts[d] == b)) &&
                    w.decode(b).Some? && w.decode(b).value.messages == cat;
    ContentIs(w, b);
  }

  ghost function Contents(w: World, refs: seq<Ref>): seq<Catalog> {
    seq(|refs|, i requires 0 <= i < |refs| => Messages(w, refs[i].sha))
  }

  /** The release a view denotes, by content alone: the needed locales with all the artifacts the
      view lists for them. */
  ghost function Denoted(w: World, v: View, raw: Bytes, etag: string): Release {
    var needed := w.Needed(v);
    Release(v, raw, etag,
            map l | l in Members(needed) :: Merge(Contents(w, if l in v.artifacts then v.artifacts[l] else []), map[]),
            map d | d in Digests(v, needed) :: Messages(w, d))
  }

  lemma {:induction false} MergedIsDenoted(w: World, refs: seq<Ref>, cat: Catalog)
    requires Addressed(w) && Merged(w, refs, cat)
    ensures cat == Merge(Contents(w, refs), map[])
  {
    hide Sourced, Messages, Merge;
    var cats :| AllSourced(w, refs, cats) && Merge(cats, map[]) == cat;
    forall i | 0 <= i < |refs| ensures cats[i] == Messages(w, refs[i].sha) {
      SourcedIsContent(w, refs[i].sha, cats[i]);
    }
    assert cats == Contents(w, refs);
  }

  lemma {:induction false} RefsAre(v: View, l: string)
    ensures Refs(v, l) == if l in v.artifacts then v.artifacts[l] else []
  {
  }

  /** A complete release is the one its view denotes, wherever its artifacts came from. */
  lemma {:induction false} CompleteIsDenoted(w: World, rel: Release)
    requires Addressed(w) && Complete(w, rel)
    ensures rel == Denoted(w, rel.view, rel.raw, rel.etag)
    ensures forall d :: d in rel.bySha ==> ContentOf(w, d).Some?
  {
    hide Sourced, Messages, Merge, Merged, World.Needed, Digests, Contents, Addressed, Members, Refs;
    forall l | l in rel.catalogs
      ensures rel.catalogs[l] == Merge(Contents(w, if l in rel.view.artifacts then rel.view.artifacts[l] else []), map[])
    {
      RefsAre(rel.view, l);
      MergedIsDenoted(w, Refs(rel.view, l), rel.catalogs[l]);
    }
    forall d | d in rel.bySha ensures ContentOf(w, d).Some? && rel.bySha[d] == Messages(w, d) {
      SourcedIsContent(w, d, rel.bySha[d]);
    }
    var it := Denoted(w, rel.view, rel.raw, rel.etag);
    assert rel.catalogs == it.catalogs;
    assert rel.bySha == it.bySha;
  }

  // ----- When an artifact loads -----

  /** The edge answers the same however often it is asked during a call. */
  ghost predicate Steady(env: Env) {
    forall n, d :: env.artifact(n, d) == env.artifact(0, d)
  }

  predicate EdgeHas(w: World, env: Env, d: Digest) {
    env.artifact(0, d).Ok? && w.hash(env.artifact(0, d).value) == d
  }

  /** The binary ships the artifact, or the cache directory of a client that has one holds it. */
  predicate Local(w: World, disk: Disk, d: Digest) {
    (w.bundle.Some? && d in w.bundle.value.artifacts) ||
    (w.config.edge && w.config.cache && d in disk.artifacts && w.hash(disk.artifacts[d]) == d)
  }

  predicate Available(a: Assembly, disk: Disk, d: Digest) {
    Local(a.w, disk, d) || (a.origin == Network && EdgeHas(a.w, a.env, d))
  }

  /** The bytes decode to an artifact labelled with the locale and namespace that refer to it. */
  ghost predicate Readable(w: World, ref: Ref, l: string) {
    var c := ContentOf(w, ref.sha);
    c.Some? && c.value.locale == l && c.value.namespace == ref.namespace
  }

  /** A lent artifact is not read again, so neither its bytes nor its label matter. */
  ghost predicate Loadable(a: Assembly, ref: Ref, l: string, disk: Disk) {
    ref.sha in a.lend || (Available(a, disk, ref.sha) && Readable(a.w, ref, l))
  }

  ghost predicate AllLoadable(a: Assembly, refs: seq<Ref>, l: string, disk: Disk) {
    forall r :: r in refs ==> Loadable(a, r, l, disk)
  }

  ghost predicate ViewLoadable(a: Assembly, v: View, locales: seq<string>, disk: Disk) {
    forall l :: l in locales ==> AllLoadable(a, Refs(v, l), l, disk)
  }

  ghost predicate SameAvailable(a: Assembly, x: Disk, y: Disk) {
    forall d :: Available(a, x, d) <==> Available(a, y, d)
  }

  ghost predicate Steadily(a: Assembly) {
    Addressed(a.w) && (a.origin == Network ==> Steady(a.env))
  }

  lemma {:induction false} FetchNext(w: World, env: Env, d: Digest, src: BlobSource, rest: seq<BlobSource>, mc: Machine)
    ensures var body := Get(w, env, src, d, mc);
            var here := body.Ok? && (src.BundleSource? || w.hash(body.value) == d);
            var (r, _) := Fetch(w, env, d, [src] + rest, mc);
            (here ==> r == Ok(Blob(body.value, src.EdgeSource?))) &&
            (!here && src.EdgeSource? ==> r.Err?) &&
            (!here && !src.EdgeSource? ==> r == Fetch(w, env, d, rest, mc).0)
  {
    hide Get;
    assert ([src] + rest)[1..] == rest;
  }

  lemma {:induction false} FetchNone(w: World, env: Env, d: Digest, mc: Machine)
    ensures Fetch(w, env, d, [], mc).0.Err?
  {
  }

  lemma {:induction false} FetchIff(a: Assembly, d: Digest, mc: Machine)
    requires Steadily(a)
    ensures var r := Fetch(a.w, a.env, d, SourcesFor(a.w, a.origin), mc).0;
            (r.Ok? <==> Available(a, mc.disk, d)) && (r.Ok? ==> a.w.hash(r.value.bytes) == d) &&
            (r.Ok? && r.value.remote ==> a.origin == Network && EdgeHas(a.w, a.env, d))
  {
    hide Injective, Fetch;
    var last := if a.origin == Network then [EdgeSource] else [];
    var rest := (if a.w.bundle.Some? then [BundleSource] else []) + last;
    assert SourcesFor(a.w, a.origin) == [StoreSource] + rest;
    FetchNext(a.w, a.env, d, StoreSource, rest, mc);
    assert [BundleSource] + last == rest || rest == last;
    FetchNext(a.w, a.env, d, BundleSource, last, mc);
    assert [EdgeSource] + [] == [EdgeSource];
    FetchNext(a.w, a.env, d, EdgeSource, [], mc);
    FetchNone(a.w, a.env, d, mc);
    assert a.origin == Network ==> a.env.artifact(mc.clock, d) == a.env.artifact(0, d);
  }

  lemma {:induction false} SaveAvailable(a: Assembly, d: Digest, body: Bytes, mc: Machine)
    requires a.origin == Network && EdgeHas(a.w, a.env, d) && a.w.hash(body) == d
    ensures SameAvailable(a, mc.disk, SaveArtifact(a.w, a.env, d, body, mc).disk)
  {
  }

  lemma {:induction false} ArtifactIff(a: Assembly, ref: Ref, l: string, mc: Machine)
    requires Steadily(a)
    ensures var (r, mc') := LoadArtifact(a, ref, l, mc);
            (r.Ok? <==> Loadable(a, ref, l, mc.disk)) && SameAvailable(a, mc.disk, mc'.disk)
  {
    hide Fetch, SaveArtifact, Available, ContentOf, EdgeHas, Steady, HonestBundle, Injective;
    if ref.sha !in a.lend {
      var (got, mc1) := Fetch(a.w, a.env, ref.sha, SourcesFor(a.w, a.origin), mc);
      FetchIff(a, ref.sha, mc);
      FetchFinds(a.w, a.env, ref.sha, SourcesFor(a.w, a.origin), mc);
      if got.Ok? {
        ContentIs(a.w, got.value.bytes);
        if got.value.remote {
          SaveAvailable(a, ref.sha, got.value.bytes, mc1);
        }
      }
    }
  }

  lemma {:induction false} LoadableMoves(a: Assembly, refs: seq<Ref>, l: string, x: Disk, y: Disk)
    requires SameAvailable(a, x, y)
    ensures AllLoadable(a, refs, l, x) <==> AllLoadable(a, refs, l, y)
  {
    hide Available, Readable;
    assert forall r: Ref :: Loadable(a, r, l, x) <==> Loadable(a, r, l, y);
  }

  lemma {:induction false} RefsIff(a: Assembly, refs: seq<Ref>, l: string, mc: Machine)
    requires Steadily(a)
    ensures var (r, mc') := LoadRefs(a, refs, l, mc);
            (r.Ok? <==> AllLoadable(a, refs, l, mc.disk)) && SameAvailable(a, mc.disk, mc'.disk)
  {
    hide LoadArtifact, Loadable, Available, Steadily;
    if refs != [] {
      var (cat, mc1) := LoadArtifact(a, refs[0], l, mc);
      ArtifactIff(a, refs[0], l, mc);
      assert forall r :: r in refs <==> r == refs[0] || r in refs[1..];
      if cat.Ok? {
        RefsIff(a, refs[1..], l, mc1);
        LoadableMoves(a, refs[1..], l, mc.disk, mc1.disk);
      }
    }
  }

  lemma {:induction false} LocalesIff(a: Assembly, v: View, locales: seq<string>, acc: Loaded, mc: Machine)
    requires Steadily(a)
    ensures var (r, mc') := LoadLocales(a, v, locales, acc, mc);
            (r.Ok? <==> ViewLoadable(a, v, locales, mc.disk)) && SameAvailable(a, mc.disk, mc'.disk)
    decreases |locales|
  {
    hide LoadRefs, AllLoadable, Available, Steadily, Refs, Index, Merge;
    if locales != [] {
      var l := locales[0];
      var (cats, mc1) := LoadRefs(a, Refs(v, l), l, mc);
      RefsIff(a, Refs(v, l), l, mc);
      assert forall x :: x in locales <==> x == l || x in locales[1..];
      if cats.Ok? {
        var acc' := Loaded(acc.catalogs[l := Merge(cats.value, map[])], Index(Refs(v, l), cats.value, acc.bySha));
        LocalesIff(a, v, locales[1..], acc', mc1);
        forall x | x in locales[1..]
          ensures AllLoadable(a, Refs(v, x), x, mc.disk) <==> AllLoadable(a, Refs(v, x), x, mc1.disk) {
          LoadableMoves(a, Refs(v, x), x, mc.disk, mc1.disk);
        }
      }
    }
  }

  /** A view assembles exactly when each artifact it needs is lent, or is available somewhere and
      carries the right label; what it assembles then depends on nothing but content. */
  lemma {:induction false} AssembleViewIff(a: Assembly, v: View, raw: Bytes, etag: string, mc: Machine)
    requires Steadily(a) && Honest(a.w, a.lend)
    ensures var (r, mc') := AssembleView(a, v, raw, etag, mc);
            (r.Ok? <==> ViewLoadable(a, v, a.w.Needed(v), mc.disk)) &&
            (r.Ok? ==> r.value == Denoted(a.w, v, raw, etag)) && SameAvailable(a, mc.disk, mc'.disk)
  {
    hide LoadLocales, ViewLoadable, Honest, Denoted, World.Needed, Complete, SameAvailable;
    LocalesIff(a, v, a.w.Needed(v), Loaded(map[], map[]), mc);
    ViewIsComplete(a, v, raw, etag, mc);
    var r := AssembleView(a, v, raw, etag, mc).0;
    if r.Ok? {
      CompleteIsDenoted(a.w, r.value);
    }
  }

  lemma {:induction false} ViewLoadableMoves(a: Assembly, v: View, locales: seq<string>, x: Disk, y: Disk)
    requires SameAvailable(a, x, y)
    ensures ViewLoadable(a, v, locales, x) <==> ViewLoadable(a, v, locales, y)
  {
    hide AllLoadable, SameAvailable, Refs;
    forall l | l in locales ensures AllLoadable(a, Refs(v, l), l, x) <==> AllLoadable(a, Refs(v, l), l, y) {
      LoadableMoves(a, Refs(v, l), l, x, y);
    }
  }

  lemma {:induction false} AvailableElsewhere(a: Assembly, b: Assembly, x: Disk, y: Disk)
    requires SameAvailable(a, x, y) && b == a.(lend := b.lend)
    ensures SameAvailable(b, x, y)
  {
    hide Available;
    forall d ensures Available(b, x, d) <==> Available(b, y, d) {
      SameSources(a, b, x, d);
      SameSources(a, b, y, d);
    }
  }

  // ----- What a manifest activates -----

  ghost predicate CandidateLoads(a: Assembly, ro: Rollout, cohort: nat, disk: Disk) {
    (cohort < ro.percent * 100 || a.w.config.perRequestCohorts) && a.w.valid(ro.candidate) &&
    ViewLoadable(a, ro.candidate, a.w.Needed(ro.candidate), disk)
  }

  /** The stable view is loaded after the candidate, with the candidate's artifacts lent to it. */
  ghost predicate StableLoads(a: Assembly, stable: View, ro: Rollout, cohort: nat, candidate: Option<Release>, disk: Disk) {
    (cohort >= ro.percent * 100 || candidate.None? || a.w.config.perRequestCohorts) &&
    ViewLoadable(a.(lend := a.lend + BySha(candidate)), stable, a.w.Needed(stable), disk)
  }

  ghost function CandidateSide(a: Assembly, ro: Rollout, cohort: nat, raw: Bytes, etag: string, disk: Disk): Option<Release> {
    if CandidateLoads(a, ro, cohort, disk) then Some(Denoted(a.w, ro.candidate, raw, etag)) else None
  }

  ghost function StableSide(a: Assembly, stable: View, ro: Rollout, cohort: nat, raw: Bytes, etag: string, candidate: Option<Release>,
                            disk: Disk): Option<Release>
  {
    if StableLoads(a, stable, ro, cohort, candidate, disk) then Some(Denoted(a.w, stable, raw, etag)) else None
  }

  /** The snapshot a manifest with a rollout activates, by what can be loaded alone. */
  ghost function RolloutOutcome(a: Assembly, m: Manifest, ro: Rollout, cohort: nat, raw: Bytes, etag: string, disk: Disk)
    : Option<Snapshot>
  {
    var candidate := CandidateSide(a, ro, cohort, raw, etag, disk);
    var stable := StableSide(a, m.stable, ro, cohort, raw, etag, candidate, disk);
    var rel := if cohort < ro.percent * 100 && candidate.Some? then candidate else stable;
    if rel.Some? then Some(Snapshot(rel.value, a.origin, false, Some(Views(ro, stable, candidate)), cohort)) else None
  }

  /** The manifest decodes, is for the configured environment if there is one, and is signed unless
      it ships with the binary. */
  predicate Accepted(w: World, raw: Bytes, origin: Source) {
    w.parse(raw).Some? && (w.config.environment == "" || w.parse(raw).value.environment == w.config.environment) &&
    (origin == Bundled || w.signed(raw))
  }

  lemma {:induction false} VerifiedIff(w: World, raw: Bytes, origin: Source)
    ensures Verified(w, raw, origin).Ok? <==> Accepted(w, raw, origin)
    ensures Accepted(w, raw, origin) ==> Verified(w, raw, origin) == Ok(w.parse(raw).value)
  {
  }

  lemma {:induction false} RolloutWhen(w: World, m: Manifest)
    ensures RolloutOf(w, m) == if !w.config.disableRollout && m.rollout.ValidRollout? then Some(m.rollout.rollout) else None
  {
  }

  /** The snapshot a manifest activates for an installation id. */
  ghost function Activated(w: World, env: Env, raw: Bytes, etag: string, origin: Source, lend: map<Digest, Catalog>, key: string,
                         disk: Disk): Option<Snapshot>
  {
    if !Accepted(w, raw, origin) then None
    else
      var m := w.parse(raw).value;
      var a := Assembly(w, env, origin, lend);
      if !w.config.disableRollout && m.rollout.ValidRollout? then
        var ro := m.rollout.rollout;
        RolloutOutcome(a, m, ro, w.bucket(ro.salt + key) % 10000, raw, etag, disk)
      else if ViewLoadable(a, m.stable, w.Needed(m.stable), disk) then
        Some(Snapshot(Denoted(w, m.stable, raw, etag), origin, false, None, 0))
      else None
  }

  predicate Yields<T(==)>(r: Result<T>, o: Option<T>) {
    if o.Some? then r == Ok(o.value) else r.Err?
  }

  lemma {:induction false} IdAvailable(a: Assembly, mc: Machine)
    ensures SameAvailable(a, mc.disk, InstallationId(a.w, a.env, mc).1.disk)
  {
  }

  lemma {:induction false} AvailableAfter(a: Assembly, x: Disk, y: Disk, z: Disk)
    requires SameAvailable(a, x, y) && SameAvailable(a, y, z)
    ensures SameAvailable(a, x, z)
  {
    hide Available;
  }

  lemma {:induction false} CandidateIff(a: Assembly, ro: Rollout, cohort: nat, raw: Bytes, etag: string, disk: Disk, mc: Machine)
    requires Steadily(a) && Honest(a.w, a.lend) && SameAvailable(a, disk, mc.disk)
    ensures var (r, mc') := TryCandidate(a, ro.In(cohort) || a.w.config.perRequestCohorts, ro, raw, etag, mc);
            r == CandidateSide(a, ro, cohort, raw, etag, disk) && Honest(a.w, BySha(r)) && SameAvailable(a, disk, mc'.disk)
  {
    hide AssembleView, Denoted, ViewLoadable, World.Needed, SameAvailable, Steadily, Sourced, AllMerged, Digests, Members;
    AssembleViewIff(a, ro.candidate, raw, etag, mc);
    ViewIsComplete(a, ro.candidate, raw, etag, mc);
    ViewLoadableMoves(a, ro.candidate, a.w.Needed(ro.candidate), disk, mc.disk);
    AvailableAfter(a, disk, mc.disk, AssembleView(a, ro.candidate, raw, etag, mc).1.disk);
  }

  lemma {:induction false} StableIff(a: Assembly, stable: View, ro: Rollout, cohort: nat, candidate: Option<Release>, raw: Bytes,
                                     etag: string, disk: Disk, mc: Machine)
    requires Steadily(a) && Honest(a.w, a.lend) && Honest(a.w, BySha(candidate)) && SameAvailable(a, disk, mc.disk)
    ensures var b := a.(lend := a.lend + BySha(candidate));
            var wanted := !ro.In(cohort) || candidate.None? || a.w.config.perRequestCohorts;
            var r := TryStable(b, wanted, stable, raw, etag, mc).0;
            var side := StableSide(a, stable, ro, cohort, raw, etag, candidate, disk);
            (side.Some? ==> r == Ok(side)) && (side.None? ==> r.Err? || r.value.None?)
  {
    hide AssembleView, Denoted, ViewLoadable, World.Needed, SameAvailable, Sourced, Addressed, Steady, BySha;
    var b := a.(lend := a.lend + BySha(candidate));
    AvailableElsewhere(a, b, disk, mc.disk);
    AssembleViewIff(b, stable, raw, etag, mc);
    ViewLoadableMoves(b, stable, a.w.Needed(stable), disk, mc.disk);
  }

  lemma {:induction false} RolloutIff(a: Assembly, m: Manifest, ro: Rollout, raw: Bytes, etag: string, mc: Machine)
    requires Steadily(a) && Honest(a.w, a.lend)
    ensures var cohort := a.w.Cohort(ro.salt, InstallationId(a.w, a.env, mc).0);
            Yields(AssembleRollout(a, m, ro, raw, etag, mc).0, RolloutOutcome(a, m, ro, cohort, raw, etag, mc.disk))
  {
    hide InstallationId, TryCandidate, TryStable, CandidateSide, StableSide, Honest, SameAvailable, Steadily, BySha;
    var (key, mc0) := InstallationId(a.w, a.env, mc);
    var cohort := a.w.Cohort(ro.salt, key);
    IdAvailable(a, mc);
    CandidateIff(a, ro, cohort, raw, etag, mc.disk, mc0);
    var (candidate, mc1) := TryCandidate(a, ro.In(cohort) || a.w.config.perRequestCohorts, ro, raw, etag, mc0);
    StableIff(a, m.stable, ro, cohort, candidate, raw, etag, mc.disk, mc1);
  }

  /** Assembling a manifest activates exactly the snapshot that its loadable views make out, and
      fails when they make out none. */
  lemma {:induction false} AssembleIff(w: World, env: Env, raw: Bytes, etag: string, origin: Source, prev: Option<Snapshot>, mc: Machine)
    requires Steadily(Assembly(w, env, origin, map[])) && (prev.Some? ==> Sound(w, prev.value))
    ensures Yields(Assemble(w, env, raw, etag, origin, prev, mc).0,
                   Activated(w, env, raw, etag, origin, Artifacts(prev), InstallationId(w, env, mc).0, mc.disk))
  {
    hide InstallationId, AssembleView, AssembleRollout, RolloutOutcome, ViewLoadable, Denoted, Honest, SameAvailable, Addressed, Steady,
         Verified, RolloutOf, World.Needed, Artifacts, Sound, Accepted;
    SoundLends(w, prev);
    VerifiedIff(w, raw, origin);
    var v := Verified(w, raw, origin);
    if v.Ok? {
      var a := Assembly(w, env, origin, Artifacts(prev));
      var ro := RolloutOf(w, v.value);
      RolloutWhen(w, v.value);
      if ro.Some? {
        RolloutIff(a, v.value, ro.value, raw, etag, mc);
      } else {
        AssembleViewIff(a, v.value.stable, raw, etag, mc);
      }
    }
  }

  lemma {:induction false} NothingIsHonest(w: World)
    ensures Honest(w, map[])
  {
  }

  lemma {:induction false} LendingHelps(a: Assembly, b: Assembly, v: View, locales: seq<string>, disk: Disk)
    requires b == a.(lend := b.lend) && a.lend.Keys <= b.lend.Keys
    ensures ViewLoadable(a, v, locales, disk) ==> ViewLoadable(b, v, locales, disk)
  {
    hide Available, Readable, Refs;
    if ViewLoadable(a, v, locales, disk) {
      forall l, r | l in locales && r in Refs(v, l) ensures Loadable(b, r, l, disk) {
        assert AllLoadable(a, Refs(v, l), l, disk);
        assert Loadable(a, r, l, disk);
        SameSources(a, b, disk, r.sha);
      }
    }
  }

  lemma {:induction false} SameSources(a: Assembly, b: Assembly, disk: Disk, d: Digest)
    requires b == a.(lend := b.lend)
    ensures Available(a, disk, d) <==> Available(b, disk, d)
  {
  }

  // ----- Reuse -----

  /** When a view assembles with nothing lent, lending what any sound snapshot holds changes nothing
      about the release. */
  lemma {:induction false} ViewReused(w: World, env: Env, origin: Source, prev: Option<Snapshot>, v: View, raw: Bytes, etag: string,
                                      mc: Machine)
    requires Steadily(Assembly(w, env, origin, map[])) && (prev.Some? ==> Sound(w, prev.value))
    ensures var scratch := AssembleView(Assembly(w, env, origin, map[]), v, raw, etag, mc).0;
            scratch.Ok? ==> AssembleView(Assembly(w, env, origin, Artifacts(prev)), v, raw, etag, mc).0 == scratch
  {
    hide AssembleView, Honest, Denoted, World.Needed, Artifacts, Sound, SameAvailable, Addressed, Steady, Refs, Readable;
    SoundLends(w, prev);
    var a := Assembly(w, env, origin, map[]);
    var b := Assembly(w, env, origin, Artifacts(prev));
    NothingIsHonest(w);
    AssembleViewIff(a, v, raw, etag, mc);
    AssembleViewIff(b, v, raw, etag, mc);
    LendingHelps(a, b, v, w.Needed(v), mc.disk);
  }

  function RolloutIn(w: World, raw: Bytes, origin: Source): Option<Rollout> {
    match Verified(w, raw, origin)
    case Err(_) => None
    case Ok(m) => RolloutOf(w, m)
  }

  function StableIn(w: World, raw: Bytes): View {
    if w.parse(raw).Some? then w.parse(raw).value.stable else View("", 0, LocaleSet("", [], map[]), map[])
  }

  /** The candidate loads with the second assembly's artifacts lent, not with the first's. */
  ghost predicate CandidateGained(a: Assembly, b: Assembly, ro: Rollout, cohort: nat, disk: Disk) {
    CandidateLoads(b, ro, cohort, disk) && !CandidateLoads(a, ro, cohort, disk)
  }

  /** The same of a stable view loaded beside a candidate that both load. */
  ghost predicate StableGained(a: Assembly, b: Assembly, stable: View, ro: Rollout, cohort: nat, raw: Bytes, etag: string, disk: Disk) {
    var candidate := CandidateSide(a, ro, cohort, raw, etag, disk);
    StableLoads(b, stable, ro, cohort, candidate, disk) && !StableLoads(a, stable, ro, cohort, candidate, disk)
  }

  lemma {:induction false} CandidateHelped(a: Assembly, b: Assembly, ro: Rollout, cohort: nat, disk: Disk)
    requires b == a.(lend := b.lend) && a.lend == map[]
    ensures CandidateLoads(a, ro, cohort, disk) ==> CandidateLoads(b, ro, cohort, disk)
  {
    hide ViewLoadable, World.Needed;
    LendingHelps(a, b, ro.candidate, a.w.Needed(ro.candidate), disk);
  }

  /** A stable view that loads from scratch loads with more lent, and with any candidate beside it. */
  lemma {:induction false} StableHelped(a: Assembly, b: Assembly, v: View, x: Option<Release>, y: Option<Release>, disk: Disk)
    requires b == a.(lend := b.lend) && a.lend == map[] && (x.Some? ==> x == y)
    ensures ViewLoadable(a.(lend := a.lend + BySha(x)), v, a.w.Needed(v), disk) ==>
              ViewLoadable(b.(lend := b.lend + BySha(y)), v, b.w.Needed(v), disk)
  {
    hide ViewLoadable, World.Needed;
    var c, d := a.(lend := a.lend + BySha(x)), b.(lend := b.lend + BySha(y));
    assert c.lend.Keys <= d.lend.Keys;
    LendingHelps(c, d, v, a.w.Needed(v), disk);
  }

  lemma {:induction false} NoneLent(a: Assembly)
    requires a.lend == map[]
    ensures a.(lend := a.lend + BySha(None)) == a
  {
    assert a.lend + map[] == a.lend;
  }

  lemma {:induction false} OutcomeReused(a: Assembly, b: Assembly, m: Manifest, ro: Rollout, cohort: nat, raw: Bytes, etag: string, disk: Disk)
    requires b == a.(lend := b.lend) && a.lend == map[]
    ensures var x := RolloutOutcome(a, m, ro, cohort, raw, etag, disk);
            var y := RolloutOutcome(b, m, ro, cohort, raw, etag, disk);
            var gained := CandidateGained(a, b, ro, cohort, disk);
            x.Some? ==>
              y.Some? && (y.value.rel == x.value.rel <==> !(ro.In(cohort) && gained)) &&
              (y == x <==> !gained && !StableGained(a, b, m.stable, ro, cohort, raw, etag, disk))
  {
    hide ViewLoadable, World.Needed, BySha, Denoted;
    var c := CandidateSide(a, ro, cohort, raw, etag, disk);
    var d := CandidateSide(b, ro, cohort, raw, etag, disk);
    CandidateHelped(a, b, ro, cohort, disk);
    StableHelped(a, b, m.stable, c, d, disk);
    NoneLent(a);
    DenotedView(a.w, ro.candidate, raw, etag);
    DenotedView(a.w, m.stable, raw, etag);
  }

  lemma {:induction false} DenotedView(w: World, v: View, raw: Bytes, etag: string)
    ensures Denoted(w, v, raw, etag).view == v
  {
  }

  /** Reuse against reloading. When a manifest assembles from scratch, it assembles with what any
      sound snapshot lends. Without a rollout the snapshot is the same. With one, the active release
      is the same unless the installation is inside and its candidate loads only because artifacts
      are lent; and all loaded views are the same unless one of them loads only for that reason. */
  lemma {:induction false} ReuseRefinesReloading(w: World, env: Env, raw: Bytes, etag: string, origin: Source, prev: Option<Snapshot>,
                                                 mc: Machine)
    requires Steadily(Assembly(w, env, origin, map[])) && (prev.Some? ==> Sound(w, prev.value))
    ensures var scratch := Assemble(w, env, raw, etag, origin, None, mc).0;
            var reused := Assemble(w, env, raw, etag, origin, prev, mc).0;
            var a := Assembly(w, env, origin, map[]);
            var b := Assembly(w, env, origin, Artifacts(prev));
            scratch.Ok? ==>
              reused.Ok? &&
              match RolloutIn(w, raw, origin)
              case None => reused == scratch
              case Some(ro) =>
                var cohort := w.Cohort(ro.salt, InstallationId(w, env, mc).0);
                var gained := CandidateGained(a, b, ro, cohort, mc.disk);
                (reused.value.rel == scratch.value.rel <==> !(ro.In(cohort) && gained)) &&
                (reused == scratch <==> !gained && !StableGained(a, b, StableIn(w, raw), ro, cohort, raw, etag, mc.disk))
  {
    hide InstallationId, Assemble, RolloutOutcome, ViewLoadable, Denoted, Addressed, Steady, RolloutOf, World.Needed,
         Artifacts, Sound, CandidateGained, StableGained;
    AssembleIff(w, env, raw, etag, origin, None, mc);
    AssembleIff(w, env, raw, etag, origin, prev, mc);
    LentByNone();
    VerifiedIff(w, raw, origin);
    var v := Verified(w, raw, origin);
    if v.Ok? {
      RolloutWhen(w, v.value);
      var a := Assembly(w, env, origin, map[]);
      var b := Assembly(w, env, origin, Artifacts(prev));
      var ro := RolloutOf(w, v.value);
      if ro.Some? {
        OutcomeReused(a, b, v.value, ro.value, w.Cohort(ro.value.salt, InstallationId(w, env, mc).0), raw, etag, mc.disk);
      } else {
        LendingHelps(a, b, v.value.stable, w.Needed(v.value.stable), mc.disk);
      }
    }
  }

  lemma {:induction false} LentByNone()
    ensures Artifacts(None) == map[]
  {
  }
}
