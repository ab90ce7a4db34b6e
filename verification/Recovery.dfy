/** A restart rebuilds the persisted release, and what a staged rollout changes about that. */
module Recovery {
  import opened Digits
  import opened Delivery
  import opened Durability
  import opened Soundness
  import opened Restart

  // ----- The commit record over runs -----

  /** The commit record holds the bytes of the manifest its sound snapshot came from. */
  ghost predicate SavedSound(w: World, state: StateFile) {
    state.Saved? ==> w.signed(state.raw) && Sound(w, state.saver) && state.raw == state.saver.rel.raw && state.etag == state.saver.rel.etag
  }

  ghost predicate AllSavedSound(w: World, mc: Machine) {
    SavedSound(w, mc.disk.state) && forall i :: 0 <= i < |mc.earlier| ==> SavedSound(w, mc.earlier[i].state)
  }

  lemma {:induction false} PruneSaves(w: World, env: Env, keep: set<Digest>, entries: seq<Digest>, mc: Machine)
    requires AllSavedSound(w, mc)
    ensures AllSavedSound(w, Prune(env, keep, entries, mc))
    decreases |entries|
  {
    hide SavedSound;
    if entries != [] {
      var mc1 := mc.Write(mc.disk.(artifacts := mc.disk.artifacts - {entries[0]}));
      PruneSaves(w, env, keep, entries[1..], mc1);
      PruneSaves(w, env, keep, entries[1..], mc.Tick());
      PruneSaves(w, env, keep, entries[1..], mc);
    }
  }

  lemma {:induction false} PersistSaves(w: World, env: Env, s: Snapshot, mc: Machine)
    requires AllSavedSound(w, mc) && Sound(w, s) && w.signed(s.rel.raw)
    ensures AllSavedSound(w, Persist(w, env, s, mc))
  {
    hide Prune, Artifacts, Sound;
    var mc1 := mc.Write(mc.disk.(state := Saved(s.rel.etag, s.rel.raw, s)));
    PruneSaves(w, env, Artifacts(Some(s)).Keys, env.entries, mc1);
  }

  lemma {:induction false} KeptIsSaved(w: World, state: StateFile, mc: Machine)
    requires Keeps(w, state, {}, mc) && SavedSound(w, state)
    ensures AllSavedSound(w, mc)
  {
    hide Sound;
  }

  lemma {:induction false} AssembleIsSigned(w: World, env: Env, raw: Bytes, etag: string, prev: Option<Snapshot>, mc: Machine)
    ensures Assemble(w, env, raw, etag, Network, prev, mc).0.Ok? ==> w.signed(raw)
  {
    hide AssembleView, AssembleRollout, RolloutOf, Artifacts;
  }

  lemma {:induction false} WorkSaves(w: World, s: State, env: Env)
    requires SoundState(w, s) && SavedSound(w, s.disk.state)
    ensures AllSavedSound(w, Work(w, s, env).1)
  {
    hide Assemble, LoadPersisted, LoadBundled, Keeps, Persist, Sound, SavedSound, AllSavedSound;
    var mc := Boot(s.disk, if s.up.None? then None else s.up.value.id);
    BootKeeps(w, s.disk, mc.id, {});
    KeptIsSaved(w, s.disk.state, mc);
    if s.up.None? {
      LoadKeeps(w, env, s.disk.state, {}, mc);
      LoadKeeps(w, env, s.disk.state, {}, LoadPersisted(w, env, mc).1);
      KeptIsSaved(w, s.disk.state, LoadBundled(w, env, LoadPersisted(w, env, mc).1).1);
    } else if env.manifest.Served? {
      var (r, mc1) := Assemble(w, env, env.manifest.body, env.manifest.etag, Network, s.up.value.snap, mc);
      AssembleKeeps(w, env, env.manifest.body, env.manifest.etag, Network, s.up.value.snap, s.disk.state, {}, mc);
      KeptIsSaved(w, s.disk.state, mc1);
      AssembleIsSound(w, env, env.manifest.body, env.manifest.etag, Network, s.up.value.snap, mc);
      if r.Ok? {
        AssembleIsSigned(w, env, env.manifest.body, env.manifest.etag, s.up.value.snap, mc);
        PersistSaves(w, env, r.value, mc1);
      }
    }
  }

  /** The invariant of undisturbed runs: everything on disk and in memory is sound and held. */
  ghost predicate Recoverable(w: World, s: State) {
    Inv(w, s) && SoundState(w, s) && SavedSound(w, s.disk.state)
  }

  lemma {:induction false} NextIsRecoverable(w: World, s: State, e: Event)
    requires Recoverable(w, s) && w.Stores() && Undisturbed(e)
    ensures Recoverable(w, Next(w, s, e))
  {
    hide Inv, Work, Sound, SavedSound, WritesSucceed;
    StepKeeps(w, s, e);
    WorkSaves(w, s, e.env);
    WorkIsSound(w, s, e.env);
  }

  lemma {:induction false} RunIsRecoverable(w: World, s: State, events: seq<Event>)
    requires Recoverable(w, s) && w.Stores() && forall e :: e in events ==> Undisturbed(e)
    ensures Recoverable(w, After(w, s, events))
    decreases |events|
  {
    hide Recoverable, Next;
    if events != [] {
      NextIsRecoverable(w, s, events[0]);
      RunIsRecoverable(w, Next(w, s, events[0]), events[1..]);
    }
  }

  // ----- Restarting -----

  /** Every artifact the view needs is labelled with the locale and namespace that refer to it. */
  ghost predicate Labelled(w: World, v: View) {
    forall l, r :: l in w.Needed(v) && r in Refs(v, l) ==> Readable(w, r, l)
  }

  lemma {:induction false} DigestsCover(v: View, locales: seq<string>, l: string, r: Ref)
    requires l in locales && r in Refs(v, l)
    ensures r.sha in Digests(v, locales)
  {
    if l != locales[0] {
      DigestsCover(v, locales[1..], l, r);
    }
  }

  lemma {:induction false} HeldIsAvailable(a: Assembly, disk: Disk, d: Digest)
    requires a.w.Stores() && Holds(a.w, disk, d)
    ensures Available(a, disk, d)
  {
  }

  /** A release whose artifacts are all held can be loaded again from the disk and the bundle alone
      if each is labelled; with nothing lent, only if. */
  lemma {:induction false} HeldLoads(a: Assembly, rel: Release, disk: Disk)
    requires a.w.Stores() && a.origin == Persisted && Complete(a.w, rel) && HoldsAll(a.w, disk, rel.bySha.Keys)
    ensures Labelled(a.w, rel.view) ==> ViewLoadable(a, rel.view, a.w.Needed(rel.view), disk)
    ensures a.lend == map[] && ViewLoadable(a, rel.view, a.w.Needed(rel.view), disk) ==> Labelled(a.w, rel.view)
  {
    hide Honest, World.Needed, Complete, Refs, Readable, Holds, Available, Digests, World.Stores;
    CompleteKeys(a.w, rel);
    var needed := a.w.Needed(rel.view);
    forall l, r | l in needed && r in Refs(rel.view, l) ensures Available(a, disk, r.sha) {
      DigestsCover(rel.view, needed, l, r);
      HeldIsAvailable(a, disk, r.sha);
    }
    if Labelled(a.w, rel.view) {
      LabelledLoads(a, rel.view, disk);
    }
    if a.lend == map[] && ViewLoadable(a, rel.view, needed, disk) {
      forall l, r | l in needed && r in Refs(rel.view, l) ensures Readable(a.w, r, l) {
        assert AllLoadable(a, Refs(rel.view, l), l, disk);
        assert Loadable(a, r, l, disk);
      }
    }
  }

  lemma {:induction false} LabelledLoads(a: Assembly, v: View, disk: Disk)
    requires Labelled(a.w, v) && forall l, r :: l in a.w.Needed(v) && r in Refs(v, l) ==> Available(a, disk, r.sha)
    ensures ViewLoadable(a, v, a.w.Needed(v), disk)
  {
    hide Available, Readable, Refs, World.Needed;
  }

  lemma {:induction false} CompleteKeys(w: World, rel: Release)
    requires Complete(w, rel)
    ensures rel.bySha.Keys == Digests(rel.view, w.Needed(rel.view))
  {
  }

  /** What the commit record's manifest is verified to be on a restart. */
  lemma {:induction false} SavedVerifies(w: World, state: StateFile)
    requires state.Saved? && SavedSound(w, state)
    ensures w.parse(state.raw).Some? && Verified(w, state.raw, Persisted) == Ok(w.parse(state.raw).value)
  {
    hide Loads, SoundViews, RolloutOf;
  }

  // ----- What a restart loads -----

  /** What the restart assembles, whatever the machine answers: it asks nothing of the edge. */
  lemma {:induction false} RestartIs(w: World, env: Env, disk: Disk)
    requires w.Stores() && Addressed(w) && disk.state.Saved?
    ensures LoadPersisted(w, env, Boot(disk, None)).0 ==
            Activated(w, env, disk.state.raw, disk.state.etag, Persisted, map[], InstallationId(w, env, Boot(disk, None)).0, disk)
  {
    hide Assemble, InstallationId, Activated, Addressed;
    AssembleIff(w, env, disk.state.raw, disk.state.etag, Persisted, None, Boot(disk, None));
    LentByNone();
  }

  /** Without a rollout a restart rebuilds exactly the persisted release, if and only if each of
      its artifacts is labelled with the locale and namespace the manifest gives it. A release
      assembled from lent artifacts, which are not read again, may lack that. */
  lemma {:induction false} RestartIff(w: World, s: State, env: Env)
    requires Recoverable(w, s) && w.Stores() && Addressed(w) && s.disk.state.Saved? && s.disk.state.saver.ro.None?
    ensures var r := LoadPersisted(w, env, Boot(s.disk, None)).0;
            var saved := s.disk.state.saver.rel;
            (r.Some? <==> Labelled(w, saved.view)) && (r.Some? ==> r.value.rel == saved)
  {
    hide LoadPersisted, InstallationId, Complete, Addressed, Holds, Labelled, RolloutOf, Trusted, SoundViews, Verified, ViewLoadable,
         Denoted, World.Needed, Accepted;
    var state := s.disk.state;
    SavedVerifies(w, state);
    VerifiedIff(w, state.raw, Persisted);
    RolloutWhen(w, w.parse(state.raw).value);
    RestartIs(w, env, s.disk);
    HeldLoads(Assembly(w, env, Persisted, map[]), state.saver.rel, s.disk);
    CompleteIsDenoted(w, state.saver.rel);
  }

  /** The installation id puts the restarted client in the cohort the commit record was written by. */
  predicate SameCohort(w: World, env: Env, disk: Disk) {
    disk.state.Saved? && disk.state.saver.ro.Some? ==>
      w.Cohort(disk.state.saver.ro.value.spec.salt, InstallationId(w, env, Boot(disk, None)).0) == disk.state.saver.cohort
  }

  /** The saved candidate could not be loaded for an installation inside its rollout, and can be
      loaded from the directory and the bundle now. */
  ghost predicate CandidateNow(w: World, env: Env, disk: Disk) {
    disk.state.Saved? && disk.state.saver.ro.Some? &&
    var (views, cohort) := (disk.state.saver.ro.value, disk.state.saver.cohort);
    views.spec.In(cohort) && views.candidate.None? &&
    CandidateLoads(Assembly(w, env, Persisted, map[]), views.spec, cohort, disk)
  }

  /** The persisted release can be loaded again: its artifacts are labelled, or, for the stable
      view of a client that loads the candidate for other cohorts, lent by that candidate. */
  ghost predicate Reloads(w: World, env: Env, disk: Disk)
    requires disk.state.Saved?
  {
    var saver := disk.state.saver;
    if saver.ro.Some? && w.config.perRequestCohorts && !saver.ro.value.spec.In(saver.cohort) then
      var a := Assembly(w, env, Persisted, map[]);
      StableLoads(a, saver.rel.view, saver.ro.value.spec, saver.cohort,
                  CandidateSide(a, saver.ro.value.spec, saver.cohort, saver.rel.raw, saver.rel.etag, disk), disk)
    else Labelled(w, saver.rel.view)
  }

  /** A restart ends with the candidate if that can be loaded only now; else it ends with the
      release that was persisted, exactly when that can be loaded again. */
  ghost predicate Restores(w: World, env: Env, disk: Disk, r: Option<Snapshot>)
    requires disk.state.Saved?
  {
    var saver := disk.state.saver;
    if CandidateNow(w, env, disk) then
      r.Some? && r.value.rel == Denoted(w, saver.ro.value.spec.candidate, saver.rel.raw, saver.rel.etag)
    else
      (Labelled(w, saver.rel.view) ==> Reloads(w, env, disk)) &&
      (r.Some? && r.value.rel == saver.rel <==> Reloads(w, env, disk))
  }

  /** The rollout's outcome when its manifest is assembled again from what is held. */
  lemma {:induction false} RolloutAgain(a: Assembly, m: Manifest, disk: Disk)
    requires a.w.Stores() && Addressed(a.w) && a.origin == Persisted && a.lend == map[]
    requires disk.state.Saved? && disk.state.saver.ro.Some?
    requires var saver := disk.state.saver; SoundViews(a.w, saver.rel, saver.cohort, m, saver.ro.value)
    requires HoldsAll(a.w, disk, Artifacts(Some(disk.state.saver)).Keys)
    ensures var saver := disk.state.saver;
            Restores(a.w, a.env, disk, RolloutOutcome(a, m, saver.ro.value.spec, saver.cohort, saver.rel.raw, saver.rel.etag, disk))
  {
    hide Addressed, Holds, Labelled, World.Stores, Complete, RolloutOf, ViewLoadable, Denoted, World.Needed;
    var saver := disk.state.saver;
    var views := saver.ro.value;
    var ro := views.spec;
    CompleteIsDenoted(a.w, saver.rel);
    HeldLoads(a, saver.rel, disk);
    NoneLent(a);
    var c := CandidateSide(a, ro, saver.cohort, saver.rel.raw, saver.rel.etag, disk);
    HeldLoads(a.(lend := a.lend + BySha(c)), saver.rel, disk);
    DenotedView(a.w, ro.candidate, saver.rel.raw, saver.rel.etag);
    DenotedView(a.w, m.stable, saver.rel.raw, saver.rel.etag);
  }

  /** With a rollout and an installation in the same cohort, a restart ends with the persisted
      release or with its candidate, by an exact condition. */
  lemma {:induction false} RestartUnderRollout(w: World, s: State, env: Env)
    requires Recoverable(w, s) && w.Stores() && Addressed(w) && s.disk.state.Saved? && s.disk.state.saver.ro.Some?
    requires SameCohort(w, env, s.disk)
    ensures Restores(w, env, s.disk, LoadPersisted(w, env, Boot(s.disk, None)).0)
  {
    hide LoadPersisted, InstallationId, Addressed, Holds, SoundViews, Verified, RolloutOf, Restores, Trusted, RolloutOutcome;
    var state := s.disk.state;
    SavedVerifies(w, state);
    VerifiedIff(w, state.raw, Persisted);
    RolloutWhen(w, w.parse(state.raw).value);
    RestartIs(w, env, s.disk);
    var m := w.parse(state.raw).value;
    RolloutOfSaver(w, state.saver, m);
    RolloutAgain(Assembly(w, env, Persisted, map[]), m, s.disk);
  }

  lemma {:induction false} RolloutOfSaver(w: World, saver: Snapshot, m: Manifest)
    requires saver.ro.Some? && SoundViews(w, saver.rel, saver.cohort, m, saver.ro.value)
    ensures RolloutOf(w, m) == Some(saver.ro.value.spec)
  {
  }

  /** After any undisturbed run from a directory without a release, crashes included, a restart in
      the same cohort ends as the commit record says. */
  lemma {:induction false} RestartRebuilds(w: World, disk: Disk, events: seq<Event>, env: Env)
    requires !disk.state.Saved? && w.Stores() && Addressed(w) && forall e :: e in events ==> Undisturbed(e)
    ensures var s := After(w, State(disk, None), events);
            s.disk.state.Saved? && SameCohort(w, env, s.disk) ==>
              Restores(w, env, s.disk, LoadPersisted(w, env, Boot(s.disk, None)).0)
  {
    hide Restores, SameCohort, LoadPersisted, Recoverable, Addressed;
    var s := After(w, State(disk, None), events);
    EmptyIsRecoverable(w, disk);
    RunIsRecoverable(w, State(disk, None), events);
    if s.disk.state.Saved? && SameCohort(w, env, s.disk) {
      RestartInCohort(w, s, env);
    }
  }

  lemma {:induction false} EmptyIsRecoverable(w: World, disk: Disk)
    requires !disk.state.Saved?
    ensures Recoverable(w, State(disk, None))
  {
    EmptyIsInv(w, disk);
  }

  // ----- Which release a start activates -----

  /** A start with a persisted and a bundled snapshot, either of which may have failed to load, ends
      with the bundled one when there is no other or its version is strictly greater, and else with
      the persisted one. */
  predicate Newest(persisted: Option<Snapshot>, bundled: Option<Snapshot>, r: Option<Snapshot>) {
    (r.Some? <==> persisted.Some? || bundled.Some?) &&
    (r.Some? ==> r.value.starting) &&
    (persisted.Some? && (bundled.Some? ==> persisted.value.rel.view.version >= bundled.value.rel.view.version) ==>
       r == Some(persisted.value.(starting := true))) &&
    (bundled.Some? && (persisted.Some? ==> bundled.value.rel.view.version > persisted.value.rel.view.version) ==>
       r == Some(bundled.value.(starting := true)))
  }

  /** What starting from a directory loads from it, and what it loads from the binary. */
  function FromDisk(w: World, env: Env, disk: Disk): Option<Snapshot> {
    LoadPersisted(w, env, Boot(disk, None)).0
  }

  function FromBinary(w: World, env: Env, disk: Disk): Option<Snapshot> {
    LoadBundled(w, env, LoadPersisted(w, env, Boot(disk, None)).1).0
  }

  /** A start activates the newer of what it can load, the persisted release when they are as new,
      and never a release older than one that loads. */
  lemma {:induction false} StartIsNewest(w: World, s: State, env: Env)
    requires s.up.None?
    ensures var (p, b) := (FromDisk(w, env, s.disk), FromBinary(w, env, s.disk));
            var up := Next(w, s, Start(env)).up;
            up.Some? && Newest(p, b, up.value.snap) &&
            (p.Some? ==> up.value.snap.value.rel.view.version >= p.value.rel.view.version) &&
            (b.Some? ==> up.value.snap.value.rel.view.version >= b.value.rel.view.version)
  {
    hide LoadPersisted, LoadBundled;
  }

  /** After any run, a start in the same cohort never goes below the version of the release the
      commit record names, if that can be loaded again; it is that release unless the binary ships a
      strictly newer one. */
  lemma {:induction false} StartNeverGoesBack(w: World, s: State, env: Env)
    requires Recoverable(w, s) && s.up.None? && w.Stores() && Addressed(w) && s.disk.state.Saved? && SameCohort(w, env, s.disk)
    requires !CandidateNow(w, env, s.disk) && Reloads(w, env, s.disk)
    ensures var saved := s.disk.state.saver.rel;
            var b := FromBinary(w, env, s.disk);
            var up := Next(w, s, Start(env)).up;
            up.Some? && up.value.snap.Some? && up.value.snap.value.rel.view.version >= saved.view.version &&
            (up.value.snap.value.rel == saved || (b.Some? && up.value.snap.value.rel == b.value.rel)) &&
            (b.None? || b.value.rel.view.version <= saved.view.version ==> up.value.snap.value.rel == saved)
  {
    hide LoadPersisted, LoadBundled, Recoverable, Addressed, SameCohort, Next, Reloads, CandidateNow, Labelled;
    RestartInCohort(w, s, env);
    StartIsNewest(w, s, env);
  }

  /** What a restart in the same cohort loads from the directory. */
  lemma {:induction false} RestartInCohort(w: World, s: State, env: Env)
    requires Recoverable(w, s) && w.Stores() && Addressed(w) && s.disk.state.Saved? && SameCohort(w, env, s.disk)
    ensures Restores(w, env, s.disk, LoadPersisted(w, env, Boot(s.disk, None)).0)
  {
    hide LoadPersisted, Recoverable, Addressed, SameCohort, Labelled;
    if s.disk.state.saver.ro.None? {
      RestartIff(w, s, env);
    } else {
      RestartUnderRollout(w, s, env);
    }
  }
}
