/** What a client asks of the edge, and what a staged rollout lets a cohort key see. */
module Rollouts {
  import opened Digits
  import opened Delivery
  import opened Durability
  import opened Soundness
  import opened Restart

  // ----- Requests to the edge -----

  /** Every digest asked of the edge since then is wanted, not lent, and was nowhere nearer. */
  ghost predicate AsksOnly(a: Assembly, wanted: set<Digest>, disk: Disk, before: seq<Digest>, mc: Machine) {
    (forall d :: Local(a.w, disk, d) ==> Local(a.w, mc.disk, d)) &&
    forall d :: d in mc.asked ==>
      d in before || (d in wanted && a.origin == Network && d !in a.lend && !Local(a.w, disk, d))
  }

  lemma {:induction false} FetchAsks(w: World, env: Env, d: Digest, src: BlobSource, rest: seq<BlobSource>, mc: Machine)
    ensures var here := Get(w, env, src, d, mc).Ok? && (src.BundleSource? || w.hash(Get(w, env, src, d, mc).value) == d);
            var mc' := Fetch(w, env, d, [src] + rest, mc).1;
            if src.EdgeSource? then mc'.asked == mc.asked + [d]
            else if here then mc' == mc
            else mc' == Fetch(w, env, d, rest, mc).1
  {
    hide Get;
    assert ([src] + rest)[1..] == rest;
  }

  lemma {:induction false} FetchNothing(w: World, env: Env, d: Digest, mc: Machine)
    ensures Fetch(w, env, d, [], mc).1 == mc
  {
  }

  lemma {:induction false} FetchAsksLast(a: Assembly, d: Digest, mc: Machine)
    ensures var mc' := Fetch(a.w, a.env, d, SourcesFor(a.w, a.origin), mc).1;
            mc'.asked == mc.asked || (mc'.asked == mc.asked + [d] && a.origin == Network && !Local(a.w, mc.disk, d))
  {
    hide Fetch;
    var last := if a.origin == Network then [EdgeSource] else [];
    var rest := (if a.w.bundle.Some? then [BundleSource] else []) + last;
    assert SourcesFor(a.w, a.origin) == [StoreSource] + rest;
    FetchAsks(a.w, a.env, d, StoreSource, rest, mc);
    assert [BundleSource] + last == rest || rest == last;
    FetchAsks(a.w, a.env, d, BundleSource, last, mc);
    assert [EdgeSource] + [] == [EdgeSource];
    FetchAsks(a.w, a.env, d, EdgeSource, [], mc);
    FetchNothing(a.w, a.env, d, mc);
  }

  lemma {:induction false} ArtifactAsks(a: Assembly, ref: Ref, l: string, disk: Disk, wanted: set<Digest>, before: seq<Digest>, mc: Machine)
    requires AsksOnly(a, wanted, disk, before, mc) && ref.sha in wanted
    ensures AsksOnly(a, wanted, disk, before, LoadArtifact(a, ref, l, mc).1)
  {
    hide Fetch, ParseArtifact, SourcesFor;
    if ref.sha !in a.lend {
      var (got, mc1) := Fetch(a.w, a.env, ref.sha, SourcesFor(a.w, a.origin), mc);
      FetchAsksLast(a, ref.sha, mc);
      FetchFinds(a.w, a.env, ref.sha, SourcesFor(a.w, a.origin), mc);
    }
  }

  lemma {:induction false} RefsAsk(a: Assembly, refs: seq<Ref>, l: string, disk: Disk, wanted: set<Digest>, before: seq<Digest>, mc: Machine)
    requires AsksOnly(a, wanted, disk, before, mc) && Shas(refs) <= wanted
    ensures AsksOnly(a, wanted, disk, before, LoadRefs(a, refs, l, mc).1)
  {
    hide LoadArtifact, AsksOnly;
    if refs != [] {
      var (cat, mc1) := LoadArtifact(a, refs[0], l, mc);
      assert refs[0] in refs && refs[0].sha in Shas(refs);
      ArtifactAsks(a, refs[0], l, disk, wanted, before, mc);
      assert Shas(refs[1..]) <= Shas(refs) by {
        assert forall r :: r in refs[1..] ==> r in refs;
      }
      RefsAsk(a, refs[1..], l, disk, wanted, before, mc1);
    }
  }

  lemma {:induction false} LocalesAsk(a: Assembly, v: View, locales: seq<string>, acc: Loaded, disk: Disk, wanted: set<Digest>,
                                      before: seq<Digest>, mc: Machine)
    requires AsksOnly(a, wanted, disk, before, mc) && Digests(v, locales) <= wanted
    ensures AsksOnly(a, wanted, disk, before, LoadLocales(a, v, locales, acc, mc).1)
    decreases |locales|
  {
    hide LoadRefs, AsksOnly, Shas, Refs, Index, Merge;
    if locales != [] {
      var refs := Refs(v, locales[0]);
      var (cats, mc1) := LoadRefs(a, refs, locales[0], mc);
      RefsAsk(a, refs, locales[0], disk, wanted, before, mc);
      if cats.Ok? {
        var acc' := Loaded(acc.catalogs[locales[0] := Merge(cats.value, map[])], Index(refs, cats.value, acc.bySha));
        LocalesAsk(a, v, locales[1..], acc', disk, wanted, before, mc1);
      }
    }
  }

  /** Assembling a view asks the edge only for artifacts the view needs that are neither lent, nor
      cached, nor bundled; and asks nothing at all unless it came from the network. */
  lemma {:induction false} ViewAsks(a: Assembly, v: View, raw: Bytes, etag: string, mc: Machine)
    ensures var mc' := AssembleView(a, v, raw, etag, mc).1;
            forall d :: d in mc'.asked ==>
              d in mc.asked ||
              (d in Digests(v, a.w.Needed(v)) && a.origin == Network && d !in a.lend && !Local(a.w, mc.disk, d))
  {
    hide LoadLocales, Digests, World.Needed, Local;
    var wanted := Digests(v, a.w.Needed(v));
    assert AsksOnly(a, wanted, mc.disk, mc.asked, mc);
    LocalesAsk(a, v, a.w.Needed(v), Loaded(map[], map[]), mc.disk, wanted, mc.asked, mc);
  }

  /** Outside a rollout nothing of its candidate is fetched: a client whose installation is outside
      the rollout, and that loads only its own side, asks for the stable view's artifacts alone. */
  lemma {:induction false} StableSideAsks(a: Assembly, m: Manifest, ro: Rollout, raw: Bytes, etag: string, mc: Machine)
    requires !ro.In(a.w.Cohort(ro.salt, InstallationId(a.w, a.env, mc).0)) && !a.w.config.perRequestCohorts
    ensures var mc' := AssembleRollout(a, m, ro, raw, etag, mc).1;
            forall d :: d in mc'.asked ==> d in mc.asked || d in Digests(m.stable, a.w.Needed(m.stable))
  {
    hide AssembleView, Digests, World.Needed, World.Cohort, Rollout.In, Local, Choose;
    var (key, mc0) := InstallationId(a.w, a.env, mc);
    assert mc0.asked == mc.asked;
    var a' := a.(lend := a.lend + BySha(None));
    ViewAsks(a', m.stable, raw, etag, mc0);
  }

  // ----- A limit of reuse -----

  /** A lent artifact skips the label check: one that its manifest labels wrongly loads while it
      is lent and not otherwise. */
  lemma {:induction false} LentSkipsLabel(a: Assembly, ref: Ref, l: string, mc: Machine)
    requires Steadily(a) && ref.sha in a.lend && !Readable(a.w, ref, l)
    ensures LoadArtifact(a, ref, l, mc).0.Ok? && LoadArtifact(a.(lend := map[]), ref, l, mc).0.Err?
  {
    hide LoadArtifact, Readable, Available, Addressed, Steady;
    ArtifactIff(a, ref, l, mc);
    ArtifactIff(a.(lend := map[]), ref, l, mc);
  }

  // ----- Cohort keys -----

  /** Any key renders from a complete release of the active manifest; with both views loaded its
      cohort alone decides which, and the installation's own cohort picks the active one. */
  lemma {:induction false} PickIsSound(w: World, s: Snapshot, key: string)
    requires Sound(w, s) && s.ro.Some?
    ensures var views := s.ro.value;
            var rel := Pick(w, s, key);
            var inside := views.spec.In(w.Cohort(views.spec.salt, key));
            Complete(w, rel) && rel.raw == s.rel.raw &&
            (views.stable.Some? && views.candidate.Some? ==>
               rel.view == if inside then views.spec.candidate else w.parse(s.rel.raw).value.stable) &&
            (w.Cohort(views.spec.salt, key) == s.cohort ==> rel == s.rel)
  {
    hide Complete, RolloutOf, World.Cohort, Rollout.In;
  }

  /** Raising a rollout's percentage only adds installations; 0 has none of them, 100 all. */
  lemma {:induction false} RolloutOnlyAdvances(w: World, ro: Rollout, percent: nat, key: string)
    requires ro.percent <= percent
    ensures var cohort := w.Cohort(ro.salt, key);
            (ro.In(cohort) ==> ro.(percent := percent).In(cohort)) &&
            !ro.(percent := 0).In(cohort) && ro.(percent := 100).In(cohort)
  {
  }

  function Below(n: nat): set<nat> {
    if n == 0 then {} else Below(n - 1) + {n - 1}
  }

  lemma {:induction false} BelowCount(n: nat)
    ensures |Below(n)| == n && forall c: nat :: c in Below(n) <==> c < n
  {
    if n > 0 {
      BelowCount(n - 1);
    }
  }

  /** A rollout at a percentage has exactly that share of the ten thousand cohorts, and every key is
      in one of them. */
  lemma {:induction false} RolloutShare(w: World, ro: Rollout, key: string)
    requires ro.percent <= 100
    ensures |set c: nat | c < 10000 && ro.In(c)| == ro.percent * 100
    ensures w.Cohort(ro.salt, key) < 10000
  {
    BelowCount(ro.percent * 100);
    assert (set c: nat | c < 10000 && ro.In(c)) == Below(ro.percent * 100);
  }
}
