/** The runtime client's protocol (client.go, release.go, store.go and rollout.go in runtimes/go):
    fetch, verify, cache, assemble, activate, persist, prune, crash and restore, as functions over
    the client's memory and its cache directory. */
module Delivery {
  import opened Digits
  import opened Locales
  import opened Fallback
  import opened Resolution

  // ----- What the client reads -----

  type Bytes = string
  type Digest = string

  /** One artifact of a locale: its namespace and the digest of its bytes. */
  datatype Ref = Ref(namespace: string, sha: Digest)

  /** One release of a manifest; artifacts lists each locale's namespaces in name order. */
  datatype View = View(releaseId: string, version: int, locales: LocaleSet, artifacts: map<string, seq<Ref>>)

  datatype Rollout = Rollout(id: string, percent: nat, salt: string, candidate: View)
  {
    predicate In(cohort: nat) {
      cohort < percent * 100
    }
  }

  datatype RolloutMember = NoRollout | InvalidRollout | ValidRollout(rollout: Rollout)

  datatype Manifest = Manifest(environment: string, stable: View, rollout: RolloutMember)

  datatype Artifact = Artifact(locale: string, namespace: string, messages: Catalog)

  datatype Error = SchemaError | SignatureError | IntegrityError | NetworkError

  datatype Result<+T> = Ok(value: T) | Err(error: Error)

  datatype Config = Config(
    edge: bool, cache: bool, environment: string, locales: seq<string>,
    disableRollout: bool, installationId: string, perRequestCohorts: bool)

  datatype Bundle = Bundle(manifest: Option<Bytes>, artifacts: map<Digest, Bytes>)

  /** What stays the same over a client's restarts: its configuration, the catalogs shipped with
      the binary, and the functions it computes with (SHA-256, the decoders, the signature check
      against the configured keys, a view's validation and the first four bytes of a digest). */
  datatype World = World(
    config: Config, bundle: Option<Bundle>,
    hash: Bytes -> Digest, parse: Bytes -> Option<Manifest>, signed: Bytes -> bool,
    decode: Bytes -> Option<Artifact>, valid: View -> bool, bucket: string -> nat, canon: Canonicalizer)
  {
    /** The client has a cache directory. */
    predicate Stores() {
      config.edge && config.cache
    }

    predicate Bundles(d: Digest) {
      bundle.Some? && d in bundle.value.artifacts
    }

    function Needed(v: View): seq<string> {
      NeededLocales(v.locales, canon, config.locales)
    }

    /** cohortOf. */
    function Cohort(salt: string, key: string): nat {
      bucket(salt + key) % 10000
    }
  }

  datatype ManifestAnswer = Unreachable(error: Error) | NotModified | Served(body: Bytes, etag: string)

  /** How everything outside the client answers one call, request by request and write by write:
      the edge, the file system and the random source. */
  datatype Env = Env(
    manifest: ManifestAnswer, artifact: (nat, Digest) -> Result<Bytes>,
    writes: nat -> bool, commits: bool, savesId: bool, newId: string,
    entries: seq<Digest>, removes: nat -> bool)

  // ----- What it keeps -----

  datatype Release = Release(
    view: View, raw: Bytes, etag: string, catalogs: map<string, Catalog>, bySha: map<Digest, Catalog>)

  /** The views loaded under one rollout. */
  datatype Views = Views(spec: Rollout, stable: Option<Release>, candidate: Option<Release>)

  datatype Source = Network | Persisted | Bundled | Memory

  datatype Snapshot = Snapshot(rel: Release, source: Source, starting: bool, ro: Option<Views>, cohort: nat)

  function BySha(rel: Option<Release>): map<Digest, Catalog> {
    if rel.Some? then rel.value.bySha else map[]
  }

  /** snapshot.artifacts: everything a snapshot can lend. */
  function Artifacts(s: Option<Snapshot>): map<Digest, Catalog> {
    if s.None? then map[]
    else if s.value.ro.None? then s.value.rel.bySha
    else BySha(s.value.ro.value.stable) + BySha(s.value.ro.value.candidate)
  }

  /** The commit record. The client reads and writes etag and raw; saver is history, the snapshot
      that was persisted, which no step reads. */
  datatype StateFile = Absent | Garbled | Saved(etag: string, raw: Bytes, saver: Snapshot)

  /** The cache directory. */
  datatype Disk = Disk(state: StateFile, artifacts: map<Digest, Bytes>, id: Option<string>)

  /** A running client apart from its snapshot: the cache directory now and every earlier state
      of it in this call, the digests asked of the edge and those written to the cache, and the
      installation id once read. */
  datatype Machine = Machine(
    disk: Disk, earlier: seq<Disk>, asked: seq<Digest>, saved: seq<Digest>, clock: nat, id: Option<string>)
  {
    /** An atomic write: a crash sees the old directory or the new one. */
    function Write(disk': Disk): Machine {
      this.(disk := disk', earlier := earlier + [disk], clock := clock + 1)
    }

    function Tick(): Machine {
      this.(clock := clock + 1)
    }
  }

  // ----- Loading artifacts -----

  datatype Blob = Blob(bytes: Bytes, remote: bool)

  datatype BlobSource = StoreSource | BundleSource | EdgeSource

  function SourcesFor(w: World, origin: Source): seq<BlobSource> {
    [StoreSource] + (if w.bundle.Some? then [BundleSource] else []) + (if origin == Network then [EdgeSource] else [])
  }

  function Get(w: World, env: Env, src: BlobSource, d: Digest, mc: Machine): Result<Bytes> {
    match src
    case StoreSource => if w.Stores() && d in mc.disk.artifacts then Ok(mc.disk.artifacts[d]) else Err(NetworkError)
    case BundleSource => if w.Bundles(d) then Ok(w.bundle.value.artifacts[d]) else Err(NetworkError)
    case EdgeSource => env.artifact(mc.clock, d)
  }

  /** fetchVerified: the first bytes that match the digest; bundled ones are trusted. */
  function Fetch(w: World, env: Env, d: Digest, sources: seq<BlobSource>, mc: Machine): (Result<Blob>, Machine) {
    if sources == [] then (Err(NetworkError), mc)
    else
      var src := sources[0];
      var body := Get(w, env, src, d, mc);
      var mc' := if src.EdgeSource? then mc.Tick().(asked := mc.asked + [d]) else mc;
      if body.Ok? && (src.BundleSource? || w.hash(body.value) == d) then (Ok(Blob(body.value, src.EdgeSource?)), mc')
      else if src.EdgeSource? then (Err(if body.Ok? then IntegrityError else body.error), mc')
      else Fetch(w, env, d, sources[1..], mc')
  }

  function ParseArtifact(w: World, body: Bytes, locale: string, namespace: string): Result<Catalog> {
    match w.decode(body)
    case None => Err(SchemaError)
    case Some(a) => if a.locale == locale && a.namespace == namespace then Ok(a.messages) else Err(SchemaError)
  }

  /** Caching an artifact is best effort. */
  function SaveArtifact(w: World, env: Env, d: Digest, body: Bytes, mc: Machine): Machine {
    if !w.Stores() then mc
    else if env.writes(mc.clock) then
      mc.Write(mc.disk.(artifacts := mc.disk.artifacts[d := body])).(saved := mc.saved + [d])
    else mc.Tick()
  }

  /** assembly: what loading one view works with. */
  datatype Assembly = Assembly(w: World, env: Env, origin: Source, lend: map<Digest, Catalog>)

  function LoadArtifact(a: Assembly, ref: Ref, locale: string, mc: Machine): (Result<Catalog>, Machine) {
    if ref.sha in a.lend then (Ok(a.lend[ref.sha]), mc)
    else
      var (got, mc1) := Fetch(a.w, a.env, ref.sha, SourcesFor(a.w, a.origin), mc);
      if got.Err? then (Err(got.error), mc1)
      else
        var cat := ParseArtifact(a.w, got.value.bytes, locale, ref.namespace);
        (cat, if cat.Ok? && got.value.remote then SaveArtifact(a.w, a.env, ref.sha, got.value.bytes, mc1) else mc1)
  }

  function Refs(v: View, locale: string): seq<Ref> {
    if locale in v.artifacts then v.artifacts[locale] else []
  }

  function LoadRefs(a: Assembly, refs: seq<Ref>, locale: string, mc: Machine): (r: (Result<seq<Catalog>>, Machine))
    ensures r.0.Ok? ==> |r.0.value| == |refs|
  {
    if refs == [] then (Ok([]), mc)
    else
      var (cat, mc1) := LoadArtifact(a, refs[0], locale, mc);
      if cat.Err? then (Err(cat.error), mc1)
      else
        var (rest, mc2) := LoadRefs(a, refs[1..], locale, mc1);
        (if rest.Ok? then Ok([cat.value] + rest.value) else rest, mc2)
  }

  /** The catalogs one over the other, later ones winning. */
  function Merge(cats: seq<Catalog>, under: Catalog): Catalog {
    if cats == [] then under else Merge(cats[1..], under + cats[0])
  }

  function Index(refs: seq<Ref>, cats: seq<Catalog>, under: map<Digest, Catalog>): map<Digest, Catalog>
    requires |refs| == |cats|
  {
    if refs == [] then under else Index(refs[1..], cats[1..], under[refs[0].sha := cats[0]])
  }

  datatype Loaded = Loaded(catalogs: map<string, Catalog>, bySha: map<Digest, Catalog>)

  function LoadLocales(a: Assembly, v: View, locales: seq<string>, acc: Loaded, mc: Machine): (Result<Loaded>, Machine) {
    if locales == [] then (Ok(acc), mc)
    else
      var refs := Refs(v, locales[0]);
      var (cats, mc1) := LoadRefs(a, refs, locales[0], mc);
      if cats.Err? then (Err(cats.error), mc1)
      else
        LoadLocales(a, v, locales[1..],
                    Loaded(acc.catalogs[locales[0] := Merge(cats.value, map[])], Index(refs, cats.value, acc.bySha)), mc1)
  }

  /** assembleView: every artifact the view needs, or an error. */
  function AssembleView(a: Assembly, v: View, raw: Bytes, etag: string, mc: Machine): (Result<Release>, Machine) {
    var (r, mc') := LoadLocales(a, v, a.w.Needed(v), Loaded(map[], map[]), mc);
    (if r.Ok? then Ok(Release(v, raw, etag, r.value.catalogs, r.value.bySha)) else Err(r.error), mc')
  }

  // ----- Assembling what a manifest activates -----

  function Verified(w: World, raw: Bytes, origin: Source): Result<Manifest> {
    match w.parse(raw)
    case None => Err(SchemaError)
    case Some(m) =>
      if w.config.environment != "" && m.environment != w.config.environment then Err(SchemaError)
      else if origin != Bundled && !w.signed(raw) then Err(SignatureError)
      else Ok(m)
  }

  function RolloutOf(w: World, m: Manifest): Option<Rollout> {
    if w.config.disableRollout || !m.rollout.ValidRollout? then None else Some(m.rollout.rollout)
  }

  /** installationID: configured, in memory, on disk, or new and saved. */
  function InstallationId(w: World, env: Env, mc: Machine): (string, Machine) {
    if mc.id.Some? then (mc.id.value, mc)
    else if w.config.installationId != "" then (w.config.installationId, mc.(id := Some(w.config.installationId)))
    else if w.Stores() && mc.disk.id.Some? then (mc.disk.id.value, mc.(id := mc.disk.id))
    else
      var mc1 := mc.(id := Some(env.newId));
      (env.newId, if w.Stores() && env.savesId then mc1.Write(mc.disk.(id := Some(env.newId))) else mc1)
  }

  function CandidateView(a: Assembly, ro: Rollout, raw: Bytes, etag: string, mc: Machine): (Result<Release>, Machine) {
    if !a.w.valid(ro.candidate) then (Err(SchemaError), mc) else AssembleView(a, ro.candidate, raw, etag, mc)
  }

  /** The candidate side of assembleRollout: nothing when the client does not want it. */
  function TryCandidate(a: Assembly, wanted: bool, ro: Rollout, raw: Bytes, etag: string, mc: Machine)
    : (Option<Release>, Machine)
  {
    if !wanted then (None, mc)
    else
      var (r, mc') := CandidateView(a, ro, raw, etag, mc);
      (if r.Ok? then Some(r.value) else None, mc')
  }

  function TryStable(a: Assembly, wanted: bool, v: View, raw: Bytes, etag: string, mc: Machine)
    : (Result<Option<Release>>, Machine)
  {
    if !wanted then (Ok(None), mc)
    else
      var (r, mc') := AssembleView(a, v, raw, etag, mc);
      (if r.Ok? then Ok(Some(r.value)) else Err(r.error), mc')
  }

  function AssembleRollout(a: Assembly, m: Manifest, ro: Rollout, raw: Bytes, etag: string, mc: Machine)
    : (Result<Snapshot>, Machine)
  {
    var (key, mc0) := InstallationId(a.w, a.env, mc);
    var cohort := a.w.Cohort(ro.salt, key);
    var (candidate, mc1) := TryCandidate(a, ro.In(cohort) || a.w.config.perRequestCohorts, ro, raw, etag, mc0);
    var (stable, mc2) := TryStable(a.(lend := a.lend + BySha(candidate)),
                                   !ro.In(cohort) || candidate.None? || a.w.config.perRequestCohorts, m.stable, raw, etag, mc1);
    (Choose(a.origin, ro, cohort, candidate, stable), mc2)
  }

  /** The snapshot of the loaded views: the candidate for an installation in it, else the stable
      view, whose failure then is the assembly's. */
  function Choose(origin: Source, ro: Rollout, cohort: nat, candidate: Option<Release>, stable: Result<Option<Release>>)
    : Result<Snapshot>
  {
    var loaded := if stable.Ok? then stable.value else None;
    var views := Some(Views(ro, loaded, candidate));
    if ro.In(cohort) && candidate.Some? then Ok(Snapshot(candidate.value, origin, false, views, cohort))
    else if loaded.Some? then Ok(Snapshot(loaded.value, origin, false, views, cohort))
    else Err(if stable.Err? then stable.error else NetworkError)
  }

  function Assemble(w: World, env: Env, raw: Bytes, etag: string, origin: Source, prev: Option<Snapshot>, mc: Machine)
    : (Result<Snapshot>, Machine)
  {
    match Verified(w, raw, origin)
    case Err(e) => (Err(e), mc)
    case Ok(m) =>
      var a := Assembly(w, env, origin, Artifacts(prev));
      var ro := RolloutOf(w, m);
      if ro.Some? then AssembleRollout(a, m, ro.value, raw, etag, mc)
      else
        var (rel, mc') := AssembleView(a, m.stable, raw, etag, mc);
        (if rel.Ok? then Ok(Snapshot(rel.value, origin, false, None, 0)) else Err(rel.error), mc')
  }

  // ----- Starting, refreshing and persisting -----

  function LoadPersisted(w: World, env: Env, mc: Machine): (Option<Snapshot>, Machine) {
    if !w.Stores() || !mc.disk.state.Saved? then (None, mc)
    else
      var (r, mc') := Assemble(w, env, mc.disk.state.raw, mc.disk.state.etag, Persisted, None, mc);
      (if r.Ok? then Some(r.value) else None, mc')
  }

  function LoadBundled(w: World, env: Env, mc: Machine): (Option<Snapshot>, Machine) {
    if w.bundle.None? || w.bundle.value.manifest.None? then (None, mc)
    else
      var (r, mc') := Assemble(w, env, w.bundle.value.manifest.value, "", Bundled, None, mc);
      (if r.Ok? then Some(r.value) else None, mc')
  }

  predicate Newer(a: Snapshot, b: Snapshot) {
    a.rel.view.version > b.rel.view.version
  }

  /** Starting up: the disk's release, unless the binary ships a newer one. */
  function Restore(w: World, env: Env, mc: Machine): (Option<Snapshot>, Machine) {
    var (persisted, mc1) := LoadPersisted(w, env, mc);
    var (bundled, mc2) := LoadBundled(w, env, mc1);
    (if bundled.Some? && (persisted.None? || Newer(bundled.value, persisted.value)) then Some(bundled.value.(starting := true))
     else if persisted.Some? then Some(persisted.value.(starting := true))
     else None, mc2)
  }

  /** The loop of prune over the directory's entries. */
  function Prune(env: Env, keep: set<Digest>, entries: seq<Digest>, mc: Machine): Machine {
    if entries == [] then mc
    else if entries[0] in mc.disk.artifacts && entries[0] !in keep then
      Prune(env, keep, entries[1..],
            if env.removes(mc.clock) then mc.Write(mc.disk.(artifacts := mc.disk.artifacts - {entries[0]})) else mc.Tick())
    else Prune(env, keep, entries[1..], mc)
  }

  /** persist: the commit record last, then the artifacts nothing refers to. */
  function Persist(w: World, env: Env, s: Snapshot, mc: Machine): Machine {
    if !w.Stores() || !env.commits then mc
    else
      Prune(env, Artifacts(Some(s)).Keys, env.entries, mc.Write(mc.disk.(state := Saved(s.rel.etag, s.rel.raw, s))))
  }

  /** What a refresh without a new release leaves: the starting mark goes, then the release counts
      as served from memory. */
  function Settle(s: Option<Snapshot>): Option<Snapshot> {
    if s.None? then s
    else if s.value.starting then Some(s.value.(starting := false))
    else Some(s.value.(source := Memory))
  }

  datatype Refreshed = Refreshed(snap: Option<Snapshot>, activated: bool, error: Option<Error>)

  /** Refresh, with settle. */
  function Refresh(w: World, env: Env, cur: Option<Snapshot>, mc: Machine): (Refreshed, Machine) {
    if !w.config.edge then (Refreshed(cur, false, None), mc)
    else match env.manifest
      case Unreachable(e) => (Refreshed(Settle(cur), false, Some(e)), mc)
      case NotModified => (Refreshed(Settle(cur), false, if cur.None? then Some(NetworkError) else None), mc)
      case Served(body, etag) =>
        var (r, mc') := Assemble(w, env, body, etag, Network, cur, mc);
        if r.Err? then (Refreshed(Settle(cur), false, Some(r.error)), mc')
        else (Refreshed(Some(r.value), true, None), Persist(w, env, r.value, mc'))
  }

  /** pick: the view a cohort key renders from. */
  function Pick(w: World, s: Snapshot, key: string): Release
    requires s.ro.Some?
  {
    var views := s.ro.value;
    if views.spec.In(w.Cohort(views.spec.salt, key)) && views.candidate.Some? then views.candidate.value
    else if views.stable.Some? then views.stable.value
    else s.rel
  }

  // ----- Runs -----

  datatype Process = Process(snap: Option<Snapshot>, id: Option<string>)

  /** A process that is up or down, and its cache directory. */
  datatype State = State(disk: Disk, up: Option<Process>)

  /** Start, refresh, and dying after some number of writes during either; Tamper is anything
      else that changes the cache directory. */
  datatype Event = Start(env: Env) | Refreshing(env: Env) | Crash(env: Env, after: nat) | Tamper(disk: Disk)

  function Boot(disk: Disk, id: Option<string>): Machine {
    Machine(disk, [], [], [], 0, id)
  }

  function Work(w: World, s: State, env: Env): (Option<Snapshot>, Machine) {
    if s.up.None? then Restore(w, env, Boot(s.disk, None))
    else
      var (r, mc) := Refresh(w, env, s.up.value.snap, Boot(s.disk, s.up.value.id));
      (r.snap, mc)
  }

  function Next(w: World, s: State, e: Event): State {
    match e
    case Start(env) => if s.up.Some? then s else Done(Work(w, s, env))
    case Refreshing(env) => if s.up.None? then s else Done(Work(w, s, env))
    case Crash(env, n) =>
      var mc := Work(w, s, env).1;
      State(if n < |mc.earlier| then mc.earlier[n] else mc.disk, None)
    case Tamper(disk) => s.(disk := disk)
  }

  function Done(r: (Option<Snapshot>, Machine)): State {
    State(r.1.disk, Some(Process(r.0, r.1.id)))
  }

  function After(w: World, s: State, events: seq<Event>): State
    decreases |events|
  {
    if events == [] then s else After(w, Next(w, s, events[0]), events[1..])
  }
}
