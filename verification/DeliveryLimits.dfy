/** Concrete runs of the client that end as its documentation says they cannot. */
module DeliveryLimits {
  import opened Digits
  import opened Fallback
  import opened Delivery
  import opened Durability
  import opened Soundness
  import opened Restart
  import opened Caching

  // ----- A small world -----

  /** Releases of one locale, whose only artifact has the given bytes; bytes are their own digest. */
  function OneView(version: int, sha: Digest): View {
    View("r", version, LocaleSet("en", ["en"], map[]), map["en" := [Ref("n", sha)]])
  }

  function OneRelease(version: int, sha: Digest, raw: Bytes): Release {
    Release(OneView(version, sha), raw, "", map["en" := map[]], map[sha := map[]])
  }

  function Everyone(candidate: View): Rollout {
    Rollout("r", 100, "", candidate)
  }

  function SmallWorld(parse: Bytes -> Option<Manifest>): World {
    World(Config(true, true, "", [], false, "i", false), None, b => b, parse, _ => true,
          _ => Some(Artifact("en", "n", map[])), _ => true, _ => 0, s => Some(s))
  }

  function SmallEnv(raw: Bytes, artifact: (nat, Digest) -> Result<Bytes>, writes: bool): Env {
    Env(Served(raw, ""), artifact, _ => writes, true, true, "", [], _ => true)
  }

  const EMPTY := Disk(Absent, map[], None)

  lemma {:induction false} OneArtifact(a: Assembly, v: View, ref: Ref, raw: Bytes, etag: string, mc: Machine)
    requires a.w.Needed(v) == ["en"] && Refs(v, "en") == [ref]
    ensures var (r, mc') := LoadArtifact(a, ref, "en", mc);
            AssembleView(a, v, raw, etag, mc) ==
            (if r.Ok? then Ok(Release(v, raw, etag, map["en" := r.value], map[ref.sha := r.value])) else Err(r.error), mc')
  {
    hide LoadArtifact, Refs, World.Needed;
    var (r, mc') := LoadArtifact(a, ref, "en", mc);
    assert [ref][1..] == [] && ["en"][1..] == [];
    if r.Ok? {
      var cats := [r.value];
      assert LoadRefs(a, [ref], "en", mc) == (Ok([r.value] + []), mc');
      assert cats + [] == cats && cats[1..] == [];
      assert map[] + r.value == r.value;
      assert Merge(cats, map[]) == Merge([], map[] + r.value) == r.value;
      assert Index([ref], cats, map[]) == map[ref.sha := r.value];
      var acc := Loaded(map["en" := r.value], map[ref.sha := r.value]);
      assert LoadLocales(a, v, ["en"], Loaded(map[], map[]), mc) == LoadLocales(a, v, [], acc, mc');
    }
  }

  lemma {:induction false} EdgeArtifact(a: Assembly, ref: Ref, mc: Machine)
    requires a.w == SmallWorld(a.w.parse) && a.origin == Network && ref.namespace == "n"
    requires ref.sha !in a.lend && ref.sha !in mc.disk.artifacts
    ensures var (r, mc') := LoadArtifact(a, ref, "en", mc);
            var mc1 := mc.Tick().(asked := mc.asked + [ref.sha]);
            match a.env.artifact(mc.clock, ref.sha)
            case Err(_) => r.Err? && mc' == mc1
            case Ok(b) => b == ref.sha ==> r == Ok(map[]) && mc' == SaveArtifact(a.w, a.env, b, b, mc1)
  {
    var edge := [EdgeSource];
    assert SourcesFor(a.w, a.origin) == [StoreSource] + edge;
    assert ([StoreSource] + edge)[1..] == edge;
    assert Fetch(a.w, a.env, ref.sha, [StoreSource] + edge, mc) == Fetch(a.w, a.env, ref.sha, edge, mc);
  }

  lemma {:induction false} StoredArtifact(a: Assembly, ref: Ref, mc: Machine)
    requires a.w == SmallWorld(a.w.parse) && ref.namespace == "n" && ref.sha !in a.lend
    requires ref.sha in mc.disk.artifacts && mc.disk.artifacts[ref.sha] == ref.sha
    ensures LoadArtifact(a, ref, "en", mc) == (Ok(map[]), mc)
  {
    assert SourcesFor(a.w, a.origin)[0] == StoreSource;
  }

  lemma {:induction false} SmallView(w: World, version: int, sha: Digest)
    requires w == SmallWorld(w.parse)
    ensures w.Needed(OneView(version, sha)) == ["en"] && Refs(OneView(version, sha), "en") == [Ref("n", sha)]
  {
  }

  lemma {:induction false} SmallIsAddressed(w: World)
    requires w == SmallWorld(w.parse)
    ensures Addressed(w)
  {
  }

  /** The client starts with nothing and refreshes once. */
  lemma {:induction false} StartsEmpty(w: World, env: Env)
    requires w == SmallWorld(w.parse)
    ensures Next(w, State(EMPTY, None), Start(env)) == State(EMPTY, Some(Process(None, None)))
  {
  }

  lemma {:induction false} TwoEvents(w: World, s: State, e: Event, f: Event)
    ensures After(w, s, [e, f]) == Next(w, Next(w, s, e), f)
  {
    hide Next;
    assert [e, f][1..] == [f] && [f][1..] == [];
    var s1 := Next(w, s, e);
    assert After(w, s1, [f]) == After(w, Next(w, s1, f), []);
  }

  // ----- A failed write -----

  function PlainWorld(): World {
    SmallWorld(_ => Some(Manifest("", OneView(1, "y"), NoRollout)))
  }

  function FailingDisk(): Env {
    SmallEnv("m", (n, d) => Ok(d), false)
  }

  lemma {:induction false} PlainFetched()
    ensures var (w, env) := (PlainWorld(), FailingDisk());
            Fetched(w, State(EMPTY, Some(Process(None, None))), env).0 == Ok(Snapshot(OneRelease(1, "y", "m"), Network, false, None, 0))
  {
    hide AssembleView, LoadArtifact, SaveArtifact, OneView;
    var (w, env, v) := (PlainWorld(), FailingDisk(), OneView(1, "y"));
    var a := Assembly(w, env, Network, map[]);
    var mc := Boot(EMPTY, None);
    SmallView(w, 1, "y");
    OneArtifact(a, v, Ref("n", "y"), "m", "", mc);
    EdgeArtifact(a, Ref("n", "y"), mc);
  }

  /** A refresh whose one artifact write fails commits its manifest all the same: the directory then
      names a release whose artifact it does not have. */
  lemma {:induction false} FailedWriteDangles()
    ensures var (w, env) := (PlainWorld(), FailingDisk());
            var s := After(w, State(EMPTY, None), [Start(env), Refreshing(env)]);
            s.disk.state.Saved? && s.disk.state.saver.rel == OneRelease(1, "y", "m") && !Committed(w, s.disk)
  {
    hide Fetched, Next, Committed, AlwaysCommitted, AlwaysCached;
    var (w, env) := (PlainWorld(), FailingDisk());
    var s1 := State(EMPTY, Some(Process(None, None)));
    TwoEvents(w, State(EMPTY, None), Start(env), Refreshing(env));
    StartsEmpty(w, env);
    PlainFetched();
    assert Committed(w, EMPTY) by { EmptyIsInv(w, EMPTY); }
    UnwrittenIff(w, s1, env);
    PlainSaved();
    assert !Holds(w, EMPTY, "y");
  }

  lemma {:induction false} PlainSaved()
    ensures var (w, env) := (PlainWorld(), FailingDisk());
            Next(w, State(EMPTY, Some(Process(None, None))), Refreshing(env)).up.value.snap ==
            Some(Snapshot(OneRelease(1, "y", "m"), Network, false, None, 0))
  {
    hide Assemble, Persist;
    PlainFetched();
  }

  // ----- A candidate that fails first -----

  function RolloutWorld(): World {
    SmallWorld(_ => Some(Manifest("", OneView(1, "y"), ValidRollout(Everyone(OneView(2, "y"))))))
  }

  function FlakyEdge(): Env {
    SmallEnv("m", (n, d) => if n == 0 then Err(NetworkError) else Ok(d), true)
  }

  /** The machine after the stable view's artifact was fetched at the second attempt and saved. */
  function AfterFlaky(): Machine {
    Machine(EMPTY.(artifacts := map["y" := "y"]), [EMPTY], ["y", "y"], ["y"], 3, Some("i"))
  }

  function FlakySnapshot(): Snapshot {
    Snapshot(OneRelease(1, "y", "m"), Network, false, Some(Views(Everyone(OneView(2, "y")), Some(OneRelease(1, "y", "m")), None)), 0)
  }

  lemma {:induction false} FlakyViews()
    ensures var a := Assembly(RolloutWorld(), FlakyEdge(), Network, map[]);
            var mc := Boot(EMPTY, Some("i"));
            var mc1 := mc.Tick().(asked := ["y"]);
            AssembleView(a, OneView(2, "y"), "m", "", mc).0.Err? && AssembleView(a, OneView(2, "y"), "m", "", mc).1 == mc1 &&
            AssembleView(a, OneView(1, "y"), "m", "", mc1) == (Ok(OneRelease(1, "y", "m")), AfterFlaky())
  {
    hide AssembleView, LoadArtifact, OneView;
    var a := Assembly(RolloutWorld(), FlakyEdge(), Network, map[]);
    var mc := Boot(EMPTY, Some("i"));
    var mc1 := mc.Tick().(asked := ["y"]);
    SmallView(a.w, 1, "y");
    SmallView(a.w, 2, "y");
    OneArtifact(a, OneView(2, "y"), Ref("n", "y"), "m", "", mc);
    EdgeArtifact(a, Ref("n", "y"), mc);
    assert [] + ["y"] == ["y"] && ["y"] + ["y"] == ["y", "y"];
    OneArtifact(a, OneView(1, "y"), Ref("n", "y"), "m", "", mc1);
    EdgeArtifact(a, Ref("n", "y"), mc1);
    assert [] + [EMPTY] == [EMPTY];
  }

  lemma {:induction false} FlakyFetched()
    ensures Fetched(RolloutWorld(), State(EMPTY, Some(Process(None, None))), FlakyEdge()) == (Ok(FlakySnapshot()), AfterFlaky())
  {
    hide AssembleView, OneView;
    FlakyViews();
    var a := Assembly(RolloutWorld(), FlakyEdge(), Network, map[]);
    NoneLent(a);
  }

  lemma {:induction false} FlakyPersist()
    ensures Persist(RolloutWorld(), FlakyEdge(), FlakySnapshot(), AfterFlaky()).disk ==
            Disk(Saved("", "m", FlakySnapshot()), map["y" := "y"], None)
  {
    hide Artifacts, OneView;
  }

  lemma {:induction false} FlakyRun()
    ensures var (w, env) := (RolloutWorld(), FlakyEdge());
            var s := After(w, State(EMPTY, None), [Start(env), Refreshing(env)]);
            s.disk == Disk(Saved("", "m", FlakySnapshot()), map["y" := "y"], None)
  {
    hide Fetched, FlakySnapshot, Work, Persist;
    var (w, env) := (RolloutWorld(), FlakyEdge());
    TwoEvents(w, State(EMPTY, None), Start(env), Refreshing(env));
    StartsEmpty(w, env);
    FlakyFetched();
    var s1 := State(EMPTY, Some(Process(None, None)));
    RefreshIs(w, s1, env);
    FlakyPersist();
  }

  lemma {:induction false} StoredView(w: World, env: Env, version: int, disk: Disk, id: Option<string>)
    requires w == SmallWorld(w.parse) && "y" in disk.artifacts && disk.artifacts["y"] == "y"
    ensures AssembleView(Assembly(w, env, Persisted, map[]), OneView(version, "y"), "m", "", Boot(disk, id)).0 ==
            Ok(OneRelease(version, "y", "m"))
  {
    hide AssembleView, LoadArtifact, OneView;
    var a := Assembly(w, env, Persisted, map[]);
    SmallView(w, version, "y");
    OneArtifact(a, OneView(version, "y"), Ref("n", "y"), "m", "", Boot(disk, id));
    StoredArtifact(a, Ref("n", "y"), Boot(disk, id));
  }

  lemma {:induction false} FlakyRel()
    ensures FlakySnapshot().rel == OneRelease(1, "y", "m")
  {
  }

  lemma {:induction false} RestartLoads(disk: Disk)
    requires disk == Disk(Saved("", "m", FlakySnapshot()), map["y" := "y"], None)
    ensures var r := LoadPersisted(RolloutWorld(), FlakyEdge(), Boot(disk, None)).0;
            r.Some? && r.value.rel == OneRelease(2, "y", "m")
  {
    hide AssembleView, OneView;
    StoredView(RolloutWorld(), FlakyEdge(), 2, disk, Some("i"));
  }

  /** The candidate and the stable view share an artifact that the edge refuses once: the run
      persists the stable release, and a restart activates the candidate, with every write and
      every id saved. */
  lemma {:induction false} RestartActivatesCandidate()
    ensures var (w, env) := (RolloutWorld(), FlakyEdge());
            var s := After(w, State(EMPTY, None), [Start(env), Refreshing(env)]);
            var r := LoadPersisted(w, env, Boot(s.disk, None)).0;
            Undisturbed(Start(env)) && Undisturbed(Refreshing(env)) && Addressed(w) && s.disk.state.Saved? &&
            s.disk.state.saver.rel == OneRelease(1, "y", "m") && r.Some? && r.value.rel == OneRelease(2, "y", "m")
  {
    hide After, LoadPersisted, OneRelease, FlakySnapshot, Addressed;
    var (w, env) := (RolloutWorld(), FlakyEdge());
    FlakyRun();
    var disk := Disk(Saved("", "m", FlakySnapshot()), map["y" := "y"], None);
    RestartLoads(disk);
    assert FlakySnapshot().rel == OneRelease(1, "y", "m") by { FlakyRel(); }
    SmallIsAddressed(w);
  }

  // ----- A candidate that loads only because it is lent -----

  /** The manifest "old" ships "y"; "new" ships "x" and offers everyone a candidate with "y". */
  function LendingWorld(): World {
    SmallWorld(raw =>
      if raw == "old" then Some(Manifest("", OneView(1, "y"), NoRollout))
      else Some(Manifest("", OneView(2, "x"), ValidRollout(Everyone(OneView(3, "y"))))))
  }

  function OnlyHas(d: Digest): Env {
    SmallEnv("new", (n, e) => if e == d then Ok(e) else Err(NetworkError), true)
  }

  function OldSnapshot(): Snapshot {
    Snapshot(OneRelease(1, "y", "old"), Network, false, None, 0)
  }

  lemma {:induction false} OldIsSound()
    ensures Sound(LendingWorld(), OldSnapshot())
  {
    hide AssembleView, LoadArtifact, SaveArtifact, OneView, Sound;
    var (w, env) := (LendingWorld(), OnlyHas("y"));
    var a := Assembly(w, env, Network, map[]);
    var mc := Boot(EMPTY, None);
    SmallView(w, 1, "y");
    OneArtifact(a, OneView(1, "y"), Ref("n", "y"), "old", "", mc);
    EdgeArtifact(a, Ref("n", "y"), mc);
    AssembleIsSound(w, env, "old", "", Network, None, mc);
  }

  lemma {:induction false} FromScratch()
    ensures var r := Assemble(LendingWorld(), OnlyHas("x"), "new", "", Network, None, Boot(EMPTY, None)).0;
            r.Ok? && r.value.rel == OneRelease(2, "x", "new")
  {
    hide AssembleView, LoadArtifact, SaveArtifact, OneView;
    var (w, env) := (LendingWorld(), OnlyHas("x"));
    var a := Assembly(w, env, Network, map[]);
    var mc := Boot(EMPTY, Some("i"));
    var mc1 := mc.Tick().(asked := ["y"]);
    SmallView(w, 3, "y");
    SmallView(w, 2, "x");
    OneArtifact(a, OneView(3, "y"), Ref("n", "y"), "new", "", mc);
    EdgeArtifact(a, Ref("n", "y"), mc);
    assert [] + ["y"] == ["y"];
    OneArtifact(a, OneView(2, "x"), Ref("n", "x"), "new", "", mc1);
    EdgeArtifact(a, Ref("n", "x"), mc1);
    NoneLent(a);
  }

  lemma {:induction false} WithLent()
    ensures var r := Assemble(LendingWorld(), OnlyHas("x"), "new", "", Network, Some(OldSnapshot()), Boot(EMPTY, None)).0;
            r.Ok? && r.value.rel == OneRelease(3, "y", "new")
  {
    hide AssembleView, LoadArtifact, OneView;
    var (w, env) := (LendingWorld(), OnlyHas("x"));
    var a := Assembly(w, env, Network, map["y" := map[]]);
    var mc := Boot(EMPTY, Some("i"));
    SmallView(w, 3, "y");
    OneArtifact(a, OneView(3, "y"), Ref("n", "y"), "new", "", mc);
    assert LoadArtifact(a, Ref("n", "y"), "en", mc) == (Ok(map[]), mc) by { LentArtifact(a, mc); }
  }

  lemma {:induction false} LentArtifact(a: Assembly, mc: Machine)
    requires a.lend == map["y" := map[]]
    ensures LoadArtifact(a, Ref("n", "y"), "en", mc) == (Ok(map[]), mc)
  {
  }

  /** With a steady edge that lacks the candidate's artifact, assembling from scratch activates the
      stable view, and assembling beside the active release, which holds it, the candidate. */
  lemma {:induction false} LentCandidateWins()
    ensures var (w, env, mc) := (LendingWorld(), OnlyHas("x"), Boot(EMPTY, None));
            var scratch := Assemble(w, env, "new", "", Network, None, mc).0;
            var reused := Assemble(w, env, "new", "", Network, Some(OldSnapshot()), mc).0;
            Steadily(Assembly(w, env, Network, map[])) && Sound(w, OldSnapshot()) &&
            scratch.Ok? && scratch.value.rel == OneRelease(2, "x", "new") &&
            reused.Ok? && reused.value.rel == OneRelease(3, "y", "new")
  {
    hide Assemble, OneRelease, OldSnapshot, Sound, Addressed;
    OldIsSound();
    FromScratch();
    WithLent();
    SmallIsAddressed(LendingWorld());
  }
}
