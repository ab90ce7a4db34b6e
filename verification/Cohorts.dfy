/** An installation whose id is configured, or saved whenever it is new, stays in its cohort over
    every run and restart. */
module Cohorts {
  import opened Digits
  import opened Delivery
  import opened Durability
  import opened Restart
  import opened Caching
  import opened Recovery

  /** The installation id the directory fixes. */
  function KeyOf(w: World, disk: Disk): Option<string> {
    if w.config.installationId != "" then Some(w.config.installationId) else disk.id
  }

  /** A snapshot's cohort is the one of the id the directory fixes. */
  predicate InCohort(w: World, disk: Disk, s: Snapshot) {
    s.ro.Some? ==> KeyOf(w, disk).Some? && s.cohort == w.Cohort(s.ro.value.spec.salt, KeyOf(w, disk).value)
  }

  predicate SavedInCohort(w: World, disk: Disk) {
    disk.state.Saved? ==> InCohort(w, disk, disk.state.saver)
  }

  predicate Keyed(w: World, mc: Machine) {
    (mc.id.Some? ==> KeyOf(w, mc.disk) == mc.id) && SavedInCohort(w, mc.disk) &&
    forall i :: 0 <= i < |mc.earlier| ==> SavedInCohort(w, mc.earlier[i])
  }

  /** A new id is saved, if there is none configured. */
  predicate SavesId(w: World, env: Env) {
    w.config.installationId != "" || env.savesId
  }

  lemma {:induction false} AddingIsKeyed(w: World, x: Machine, y: Machine)
    requires Keyed(w, x) && AddsOnly(x, y)
    ensures Keyed(w, y) && KeyOf(w, y.disk) == KeyOf(w, x.disk)
  {
    hide World.Cohort;
    forall i | 0 <= i < |y.earlier| ensures SavedInCohort(w, y.earlier[i]) {
      assert i < |x.earlier| ==> y.earlier[i] == x.earlier[i];
      assert i >= |x.earlier| ==> y.earlier[i].id == x.disk.id && y.earlier[i].state == x.disk.state;
    }
  }

  lemma {:induction false} IdIsKeyed(w: World, env: Env, mc: Machine)
    requires Keyed(w, mc) && w.Stores() && SavesId(w, env)
    ensures var (key, mc') := InstallationId(w, env, mc); Keyed(w, mc') && KeyOf(w, mc'.disk) == Some(key)
  {
    hide World.Cohort;
  }

  lemma {:induction false} ViewIsKeyed(a: Assembly, v: View, raw: Bytes, etag: string, mc: Machine)
    requires Keyed(a.w, mc)
    ensures var mc' := AssembleView(a, v, raw, etag, mc).1; Keyed(a.w, mc') && KeyOf(a.w, mc'.disk) == KeyOf(a.w, mc.disk)
  {
    hide AssembleView, AddsOnly, Keyed, KeyOf, Tracks, Tracked;
    ViewTracks(a, v, raw, etag, mc.disk, mc);
    AddingIsKeyed(a.w, mc, AssembleView(a, v, raw, etag, mc).1);
  }

  lemma {:induction false} RolloutIsKeyed(a: Assembly, m: Manifest, ro: Rollout, raw: Bytes, etag: string, mc: Machine)
    requires Keyed(a.w, mc) && a.w.Stores() && SavesId(a.w, a.env)
    ensures var (r, mc') := AssembleRollout(a, m, ro, raw, etag, mc);
            Keyed(a.w, mc') && (r.Ok? ==> InCohort(a.w, mc'.disk, r.value))
  {
    hide AssembleView, InstallationId, Keyed, KeyOf, World.Cohort, World.Stores, SavesId, Rollout.In;
    var (key, mc0) := InstallationId(a.w, a.env, mc);
    IdIsKeyed(a.w, a.env, mc);
    var cohort := a.w.Cohort(ro.salt, key);
    var wanted := ro.In(cohort) || a.w.config.perRequestCohorts;
    var (candidate, mc1) := TryCandidate(a, wanted, ro, raw, etag, mc0);
    ViewIsKeyed(a, ro.candidate, raw, etag, mc0);
    ViewIsKeyed(a.(lend := a.lend + BySha(candidate)), m.stable, raw, etag, mc1);
  }

  lemma {:induction false} AssembleIsKeyed(w: World, env: Env, raw: Bytes, etag: string, origin: Source, prev: Option<Snapshot>, mc: Machine)
    requires Keyed(w, mc) && w.Stores() && SavesId(w, env)
    ensures var (r, mc') := Assemble(w, env, raw, etag, origin, prev, mc);
            Keyed(w, mc') && (r.Ok? ==> InCohort(w, mc'.disk, r.value))
  {
    hide AssembleView, AssembleRollout, Keyed, KeyOf, World.Cohort, World.Stores, SavesId, Verified, RolloutOf, Artifacts;
    var v := Verified(w, raw, origin);
    if v.Ok? {
      var a := Assembly(w, env, origin, Artifacts(prev));
      var ro := RolloutOf(w, v.value);
      if ro.Some? {
        RolloutIsKeyed(a, v.value, ro.value, raw, etag, mc);
      } else {
        ViewIsKeyed(a, v.value.stable, raw, etag, mc);
      }
    }
  }

  lemma {:induction false} PruneIsKeyed(w: World, env: Env, keep: set<Digest>, entries: seq<Digest>, mc: Machine)
    requires Keyed(w, mc)
    ensures Keyed(w, Prune(env, keep, entries, mc))
    decreases |entries|
  {
    hide World.Cohort;
    if entries != [] {
      var mc1 := mc.Write(mc.disk.(artifacts := mc.disk.artifacts - {entries[0]}));
      PruneIsKeyed(w, env, keep, entries[1..], mc1);
      PruneIsKeyed(w, env, keep, entries[1..], mc.Tick());
      PruneIsKeyed(w, env, keep, entries[1..], mc);
    }
  }

  lemma {:induction false} PersistIsKeyed(w: World, env: Env, s: Snapshot, mc: Machine)
    requires Keyed(w, mc) && InCohort(w, mc.disk, s)
    ensures Keyed(w, Persist(w, env, s, mc))
  {
    hide Prune, World.Cohort, Artifacts;
    var mc1 := mc.Write(mc.disk.(state := Saved(s.rel.etag, s.rel.raw, s)));
    PruneIsKeyed(w, env, Artifacts(Some(s)).Keys, env.entries, mc1);
  }

  // ----- Whole runs -----

  predicate KeyedState(w: World, s: State) {
    SavedInCohort(w, s.disk) && (s.up.Some? && s.up.value.id.Some? ==> KeyOf(w, s.disk) == s.up.value.id)
  }

  predicate KeepsId(w: World, e: Event) {
    !e.Tamper? && SavesId(w, e.env)
  }

  lemma {:induction false} LoadIsKeyed(w: World, env: Env, mc: Machine)
    requires Keyed(w, mc) && w.Stores() && SavesId(w, env)
    ensures Keyed(w, LoadPersisted(w, env, mc).1) && Keyed(w, LoadBundled(w, env, mc).1)
  {
    hide Assemble, Keyed, SavesId, World.Stores, InCohort;
    if mc.disk.state.Saved? {
      AssembleIsKeyed(w, env, mc.disk.state.raw, mc.disk.state.etag, Persisted, None, mc);
    }
    if w.bundle.Some? && w.bundle.value.manifest.Some? {
      AssembleIsKeyed(w, env, w.bundle.value.manifest.value, "", Bundled, None, mc);
    }
  }

  lemma {:induction false} WorkIsKeyed(w: World, s: State, env: Env)
    requires KeyedState(w, s) && w.Stores() && SavesId(w, env)
    ensures Keyed(w, Work(w, s, env).1)
  {
    hide Assemble, LoadPersisted, LoadBundled, Persist, SavesId, World.Stores, InCohort, KeyOf;
    if s.up.None? {
      var mc := Boot(s.disk, None);
      LoadIsKeyed(w, env, mc);
      LoadIsKeyed(w, env, LoadPersisted(w, env, mc).1);
    } else {
      var mc := Boot(s.disk, s.up.value.id);
      assert Keyed(w, mc);
      if env.manifest.Served? {
        AssembleIsKeyed(w, env, env.manifest.body, env.manifest.etag, Network, s.up.value.snap, mc);
        var (r, mc1) := Assemble(w, env, env.manifest.body, env.manifest.etag, Network, s.up.value.snap, mc);
        if r.Ok? {
          PersistIsKeyed(w, env, r.value, mc1);
        }
      }
    }
  }

  lemma {:induction false} NextIsKeyed(w: World, s: State, e: Event)
    requires KeyedState(w, s) && w.Stores() && KeepsId(w, e)
    ensures KeyedState(w, Next(w, s, e))
  {
    hide Work, SavesId, World.Stores, InCohort, KeyOf;
    WorkIsKeyed(w, s, e.env);
  }

  lemma {:induction false} RunIsKeyed(w: World, s: State, events: seq<Event>)
    requires KeyedState(w, s) && w.Stores() && forall e :: e in events ==> KeepsId(w, e)
    ensures KeyedState(w, After(w, s, events))
    decreases |events|
  {
    hide KeyedState, Next, KeepsId;
    if events != [] {
      NextIsKeyed(w, s, events[0]);
      RunIsKeyed(w, Next(w, s, events[0]), events[1..]);
    }
  }

  /** After any run in which new ids are saved, whatever else fails or crashes, a restart is in the
      cohort that the commit record was written by. */
  lemma {:induction false} CohortIsKept(w: World, disk: Disk, events: seq<Event>, env: Env)
    requires !disk.state.Saved? && w.Stores() && forall e :: e in events ==> KeepsId(w, e)
    ensures SameCohort(w, env, After(w, State(disk, None), events).disk)
  {
    hide World.Cohort, KeepsId;
    RunIsKeyed(w, State(disk, None), events);
  }

  /** After any undisturbed run in which new ids are saved, a restart ends as the commit record
      says: with the release it names, or with its candidate if only that can be loaded now. */
  lemma {:induction false} RestartAfterRun(w: World, disk: Disk, events: seq<Event>, env: Env)
    requires !disk.state.Saved? && w.Stores() && Addressed(w)
    requires forall e :: e in events ==> Undisturbed(e) && KeepsId(w, e)
    ensures var s := After(w, State(disk, None), events);
            s.disk.state.Saved? ==> Restores(w, env, s.disk, LoadPersisted(w, env, Boot(s.disk, None)).0)
  {
    hide LoadPersisted, Addressed, SameCohort, Restores, After, KeepsId, Undisturbed;
    CohortIsKept(w, disk, events, env);
    RestartRebuilds(w, disk, events, env);
  }
}
