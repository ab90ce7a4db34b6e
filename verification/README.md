# Glossa: a verified model of its hard parts

Glossa publishes translated messages as signed releases and renders them in client runtimes. This
project models, in Dafny, the parts of it whose correctness is least obvious, and proves what its
documentation and tests promise of them. Each part is a set of specification functions, the
imperative code (loops, classes and methods in the source's own shape) proved to compute those
functions, and theorems about them.

* **Lifting MF1 to MF2** (`Mf1`, `Mf2`, `Lifting`, `Converter` and the proof files): nested ICU
  `plural`, `selectordinal` and `select` become one flat `.match`. A lifted select shows all its cases
  with the merged key the argument picks; the nested one shows its first match. The two messages show
  the same for every assignment of values and every plural-rule function when every select lists its
  argument's merged keys, each once; for other messages the theorems say exactly when they do, and
  which messages can be lifted at all (`LiftingSuccess`). The unconditional claim is false, and the
  project names the messages for which it fails.
* **The runtime client** (`Delivery`, `Client`, `Durability`, `Caching`, `Soundness`, `Restart`,
  `Recovery`, `Cohorts`, `Rollouts`, `DeliveryLimits`): fetch, verify, cache, assemble, activate,
  persist, prune, crash and restart, with staged rollouts, as a state machine over memory, cache
  directory, bundle and edge. Every write is a separate state of the directory, so a crash can fall
  between any two, and any write can fail.
* **Fallback, negotiation and resolution** (`Locales`, `Fallback`, `FallbackProofs`, `Resolution`): a
  depth-first walk of a possibly cyclic graph, RFC 4647 lookup, and partial loading.
* **Canonical JSON** (`CanonicalNumbers`, `Utf16`, `CanonicalJson`, `CanonicalMeaning`,
  `CanonicalWriter`): the printer of RFC 8785 is injective, so a signature determines what it covers,
  and what it prints is JSON for the value.
* **Exact decimals** (`Digits`, `Numbers`, `Decimals`): literal text to coefficient and exponent and
  back, against the real number denoted.
* **Markup** (`Brackets`, `Markup`, `MarkupProofs`, `MarkupTree`, `MarkupBuilder`, `HtmlMeaning`,
  `TextRuns`): a stack machine over a mutable tree, its HTML and styled runs, and a balance checker.
* **Smaller parts**: variable roots (`Roots`), the small ICU parser and its language (`MiniFormat`,
  `MiniFormatProofs`, `MiniFormatNormal`, `MiniFormatGrammar`, `MiniParser`) and the rate-limited
  reporter (`Reporter`).

What lies outside the source is a parameter: SHA-256, the manifest and artifact decoders, the
signature check and a view's validation are functions in `Delivery.World`; the edge, the file system
and the random source answer request by request and write by write through `Delivery.Env`; the plural
rules are `Mf2.Rules`; BCP 47 canonicalization is a `Locales.Canonicalizer`; the function a formatted
MF1 argument maps to is an `Mf1.Mapping`; how JavaScript rounds large integers is a `num` function.
Theorems hold for every value of these unless a `requires` names a hypothesis, such as a hash without
collisions (`Restart.Injective`).

Where code and documentation disagree, the code is modelled:

* `runtimes/go/negotiate.go:27` says a chain always ends at the source locale. It contains the source,
  and ends there exactly when every locale after the source's first place in the documented expansion
  also stands before it (`FallbackProofs.ChainEndsAtSource`, `FallbackProofs.SourceInTheMiddle`).
* `runtimes/go/store.go:14-18` says a crash never leaves a manifest pointing at missing artifacts.
  Caching an artifact is best effort (`runtimes/go/release.go:191-197`), and a refresh that could not
  write one commits its manifest all the same (`DeliveryLimits.FailedWriteDangles`). Over
  every run the commit record is complete in every state if and only if each release committed has
  only artifacts that were held before or written during the refresh that commits it
  (`Caching.RunCommittedIff`); with no failed artifact write it always is (`Durability.RunKeeps`).
* `runtimes/go/client.go:353-355` says a restart computes the same side of a rollout. It does in the
  same cohort, unless the candidate could not be loaded when the stable view was persisted and can be
  loaded at the restart (`Recovery.RestartUnderRollout`, `DeliveryLimits.RestartActivatesCandidate`).
  A lent artifact skips the label check, so a restart also needs the labels to be right
  (`Recovery.RestartIff`, `Rollouts.LentSkipsLabel`).
* Lending parsed artifacts to a refresh (`runtimes/go/release.go:68-70`) can change which side of a
  rollout it activates: a candidate whose artifacts the edge does not serve loads if the active
  release holds them (`Restart.ReuseRefinesReloading`, `DeliveryLimits.LentCandidateWins`).

## Model

| member | source | states |
|---|---|---|
| LiftingTheorem.LiftingPreservesMeaning | messageformat/mf1.go:125-152 | when every select lists its argument's merged keys, each once, the lifted message shows the same pieces as the nested one, for every environment, plural rule and mapping |
| LiftingTheorem.LiftingIsExact | messageformat/mf1.go:313-383 | with each merged key at most once per select, the lifted and the nested message show the same if and only if no select on the evaluated path lacks the key its argument picks and thereby loses text |
| LiftingTheorem.LosslessUnlessRepeated | messageformat/mf1.go:313-383 | with repeated keys, and no text lost, they show the same if and only if no later case with a picked key shows anything |
| LiftingTheorem.LiftingUnlessRepeated | messageformat/mf1.go:313-383 | for any keys the parser lets through, if every select on the path chooses the case its picked key names, they show the same if and only if no later case with that key shows anything |
| LiftingTheorem.LiftedShows | messageformat/mf1.go:313-383 | what the lifted message shows, for every message the converter takes: in place of each select, all its cases with the picked merged key, one after the other |
| LiftingTheorem.DifferentKeysLoseText | messageformat/mf1.go:178-203 | the unconditional claim fails: two selects on one argument with different keys lose the first one's text |
| LiftingLimits.RepeatedKeyRepeatsText | messageformat/mf1.go:205-212 | a select with both =1 and =01 shows A nested and AB lifted |
| LiftingTheorem.LiftedIsValid | messageformat/mf1.go:215-300 | each variable is declared once, selectors are declared, variants are exactly the key assignments of the columns, at most 4096, distinct, all-catch-all last, and no pattern has adjacent texts |
| LiftingTheorem.LiftedPatternIsMerged | messageformat/mf1.go:125-152 | a message that lifts to a plain pattern has no select, and the pattern no adjacent texts |
| LiftingSuccess.LiftSucceedsIff | messageformat/mf1.go:125-152 | a message is lifted exactly when any two selects on one argument agree in kind and offset, every formatted argument maps, and the product over its arguments of the merged keys and catch-alls is at most 4096, which is then the number of variants |
| Mf1.NormalizeExactKeyIsCanonical | messageformat/mf1.go:205-212 | an exact key is normalized to its number's canonical text exactly when it fits an int64 or has no leading zero |
| Mf1.OverlongExactKeyIsLost | messageformat/mf1.go:205-212 | any other exact key equals no number's normalized text, so nothing selects it |
| Mf2.BestIsPreferred | messageformat/engine_exact.go:172-207 | when each column prefers at most one key, pattern selection picks the variant with each preferred key or the catch-all |
| LiftingProofs.NumberSelection | messageformat/engine_exact.go:172-207 | a number selects its exact key if listed, else its plural category, else nothing |
| Mf2.PercentSelectsShown | messageformat/engine_exact.go:172-207 | exact selection of a percent picks the key that a hundred times its value picks, however either is written |
| LiftingProofs.ChosenIsPicked | messageformat/mf1.go:340-360 | the case a nested select shows is the one whose merged key its argument picks |
| VariantProofs.ProductMembers | messageformat/mf1.go:280-294 | the product of the columns holds exactly the key assignments |
| VariantProofs.ProductShape | messageformat/mf1.go:272-300 | it has product-of-counts many elements, no two alike, the all-catch-all last |
| VariantProofs.SelectionIsTarget | messageformat/engine_exact.go:172-207 | formatting the planned message picks the variant at the target keys of the environment |
| PlanProofs.PlanOk | messageformat/mf1.go:215-243 | planning gives every selector its columns and declarations, and they resolve to the selector's value or its value less the offset |
| CollectProofs.CollectMessage | messageformat/mf1.go:156-203 | after collecting, every case of every select is registered under its argument's one selector and every name is recorded |
| Lifting.UniqueName | messageformat/mf1.go:261-268 | the search for a fresh local terminates with a name nothing uses |
| Converter.MessageConverter.Convert | messageformat/mf1.go:125-152 | the converter object returns the specified lifted message, and one exactly when the tokens meet those three conditions |
| Converter.MessageConverter.Collect | messageformat/mf1.go:156-176 | the recursive walk leaves the specified selectors, index and names |
| Converter.MessageConverter.AddSelector | messageformat/mf1.go:178-203 | merges a select into its argument's record in place |
| Converter.MessageConverter.PlanColumns | messageformat/mf1.go:215-243 | fills columns and records and returns the declarations |
| Converter.MessageConverter.UniqueName | messageformat/mf1.go:261-268 | the loop finds the specified fresh name and reserves it |
| Converter.MessageConverter.BuildVariants | messageformat/mf1.go:272-300 | fails exactly above 4096 variants, else builds the product with empty patterns |
| Converter.MessageConverter.AppendMatching | messageformat/mf1.go:362-369 | appends an element to exactly the variants that satisfy the filter |
| Converter.MessageConverter.AddParts | messageformat/mf1.go:313-337 | appends to every variant, in order, the leaves its keys admit |
| Caching.RunCommittedIff | runtimes/go/store.go:14-18 | over every run of starts, refreshes and crashes between any two writes, whichever writes fail, the release on disk is complete in every state if and only if every release committed has only artifacts held before or saved by its refresh |
| Caching.StepCommittedIff | runtimes/go/client.go:356-370 | the same of one event, for each point it can crash at |
| Caching.UnwrittenIff | runtimes/go/release.go:191-197 | with no artifact write succeeding, a refresh that commits leaves the release on disk complete if and only if all its artifacts were held before |
| Caching.AssembleTracks | runtimes/go/release.go:68-119 | after assembling, what is held is what was held before and what was saved meanwhile; nothing is saved but from the network |
| DeliveryLimits.FailedWriteDangles | runtimes/go/store.go:14-18 | a run of one start and one refresh whose artifact write fails ends with a commit record whose artifact is missing |
| Durability.RunKeeps | runtimes/go/store.go:14-18 | over every such run with no failed artifact write, disk and bundle have every artifact of the release on disk and of the active one |
| Durability.AssembleKeeps | runtimes/go/release.go:68-98 | assembling keeps the commit record, loses no held artifact in any intermediate state, and ends holding all it assembled |
| Durability.PruneKeeps | runtimes/go/store.go:121-138 | pruning removes nothing the commit record needs, in any intermediate state |
| Durability.PruneRemoves | runtimes/go/store.go:121-138 | when removals succeed, exactly the listed artifacts that are not kept are gone |
| Durability.PruneOnlyRemoves | runtimes/go/store.go:121-138 | however removals fail, nothing else is gone and nothing else changes |
| Durability.PersistKeeps | runtimes/go/client.go:356-370 | every state of the directory during persist has the artifacts its own commit record needs |
| Soundness.AlwaysSound | runtimes/go/client.go:243-254 | over every run, tampering with the directory included, the client has no release or a complete one from one trusted manifest |
| Soundness.AssembleIsSound | runtimes/go/release.go:68-119 | whatever is assembled is complete: the needed locales, each the ordered merge of its namespaces, each artifact hashed to its digest or bundled |
| Soundness.ViewIsComplete | runtimes/go/release.go:86-98 | a view assembles completely or not at all |
| Soundness.FailureChangesNothing | runtimes/go/client.go:312-351 | a failed refresh or a 304 leaves the active release, its rollout views and the commit record as they were |
| Restart.ReuseRefinesReloading | runtimes/go/release.go:68-82 | a manifest that assembles from scratch assembles with what any sound snapshot lends, and to the same snapshot without a rollout; with one, to the same active release unless the installation's candidate loads only because it is lent, and to the same snapshot unless one of its views does |
| Restart.AssembleIff | runtimes/go/rollout.go:168-198 | a manifest activates exactly the snapshot that its loadable views, the rollout and the cohort make out, and fails exactly when they make out none |
| Restart.ViewReused | runtimes/go/release.go:170-189 | if a view assembles from scratch, assembling it with what any sound snapshot lends gives the same release |
| DeliveryLimits.LentCandidateWins | runtimes/go/release.go:68-82 | a manifest that activates its stable view from scratch and its candidate beside a release that holds the candidate's artifact |
| Restart.AssembleViewIff | runtimes/go/release.go:154-214 | a view assembles exactly when each artifact is lent, or available and rightly labelled; the result then depends on content alone |
| Restart.CompleteIsDenoted | runtimes/go/release.go:86-98 | a complete release is the one its view denotes, wherever its artifacts came from |
| Cohorts.RestartAfterRun | runtimes/go/client.go:262-275 | after any run with no failed artifact write in which new ids are saved, a restart ends with the candidate if only now it can be loaded, else with the release the directory names exactly when that can be loaded again |
| Cohorts.CohortIsKept | runtimes/go/rollout.go:251-271 | after any run in which new ids are saved, whatever else fails, a restart is in the cohort the commit record was written by |
| Recovery.RestartRebuilds | runtimes/go/client.go:262-275 | after any run with no failed artifact write, a restart in the cohort of the commit record ends as that theorem says |
| Recovery.RestartIff | runtimes/go/client.go:262-275 | without a rollout it rebuilds exactly the persisted release if and only if every artifact is rightly labelled |
| Recovery.RestartUnderRollout | runtimes/go/rollout.go:168-198 | with a rollout it ends with the candidate exactly when that was not loaded before and can be now; else with the persisted release exactly when its artifacts are rightly labelled, or lent by a candidate loaded for other cohorts |
| Recovery.StartIsNewest | runtimes/go/client.go:243-260 | a start activates the persisted release unless the binary ships one of a strictly greater version, something exactly when one of the two loads, and nothing older than what loads |
| Recovery.StartNeverGoesBack | runtimes/go/client.go:243-275 | it never goes below the version of the release the directory names, if that can be loaded again |
| DeliveryLimits.RestartActivatesCandidate | runtimes/go/client.go:353-355 | a run with all writes succeeding that persists the stable release, and whose restart activates the candidate |
| Recovery.RunIsRecoverable | runtimes/go/client.go:312-370 | every undisturbed run keeps disk and memory sound, signed and held |
| Rollouts.ViewAsks | runtimes/go/release.go:200-214 | the edge is asked only for needed artifacts that are not lent, cached or bundled, and only for network releases |
| Rollouts.StableSideAsks | runtimes/go/rollout.go:162-198 | the stable side never asks for a candidate's artifact |
| Rollouts.PickIsSound | runtimes/go/rollout.go:223-233 | any key renders from a complete view of the active manifest, by cohort alone when both are loaded, and the installation's cohort picks the active release |
| Rollouts.RolloutOnlyAdvances | runtimes/go/rollout.go:67-83 | raising the percentage only adds installations; 0 has none, 100 all |
| Rollouts.RolloutShare | runtimes/go/rollout.go:67-83 | exactly the percentage's share of the ten thousand cohorts is in a rollout, and every key is in one of them |
| Rollouts.LentSkipsLabel | runtimes/go/release.go:171-173 | a wrongly labelled artifact loads while it is lent and not otherwise |
| Client.Client.FetchVerified | runtimes/go/release.go:200-214 | the loop over sources returns the first bytes that match |
| Client.Client.Load | runtimes/go/release.go:170-189 | loads one artifact, caching it when it came from the edge |
| Client.Client.LoadLocale | runtimes/go/release.go:154-168 | the merging loop gives the ordered merge and the index of all namespaces |
| Client.Client.LoadView | runtimes/go/release.go:86-98 | the loop over the needed locales assembles the specified release |
| Client.Client.LoadRollout | runtimes/go/rollout.go:168-198 | assembles candidate and stable views in order, lending between them |
| Client.Client.LoadManifest | runtimes/go/release.go:68-82 | verifies a manifest and assembles what it activates |
| Client.Client.ReadInstallationId | runtimes/go/rollout.go:251-271 | configured, in memory, persisted or new, once per process |
| Client.Client.RestoreSnapshot | runtimes/go/client.go:243-260 | the start event on the object: the persisted release, or the bundled one when its version is strictly greater; the object is then valid, its directory complete in every state if it was before, and everything active held |
| Client.Client.RefreshSnapshot | runtimes/go/client.go:298-351 | one refresh with settle is the refresh event on the object's state; a valid object stays valid, and with no failed artifact write a directory that holds everything holds everything in each state |
| Client.Client.PersistSnapshot | runtimes/go/client.go:356-370 | commits the manifest last, then prunes |
| Client.Client.PruneEntries | runtimes/go/store.go:123-138 | the loop over directory entries removes the unkept ones it can |
| FallbackProofs.ExplicitChain | runtimes/go/manifest.go:187-206 | with an entry, a chain is the active locale, all reachable from it and from the default targets, and the source |
| FallbackProofs.ImplicitChain | runtimes/go/manifest.go:187-206 | without one, the active locale, its listed truncations, all reachable from the default by paths avoiding those, and the source |
| FallbackProofs.VisitIsReachability | runtimes/go/manifest.go:208-233 | the walk, which terminates on cycles, adds exactly what is reachable without passing a locale seen before |
| FallbackProofs.ChainIsDocumented | runtimes/go/manifest.go:187-206 | the chain is the depth-first preorder expansion with repeats dropped |
| FallbackProofs.ChainShape | runtimes/go/manifest.go:187-206 | no locale twice, the active one first, the source among them |
| FallbackProofs.ChainEndsAtSource | runtimes/go/manifest.go:187-206 | the last step adds the source exactly when the fallbacks do not lead to it; the chain ends there exactly when every locale after its first place in the documented expansion also stands before that place |
| FallbackProofs.SourceInTheMiddle | runtimes/go/manifest.go:187-206 | a chain that does not end at its source |
| Fallback.ChainBuilder.Build | runtimes/go/manifest.go:187-206 | the builder with its seen set produces the specified chain |
| Fallback.ChainBuilder.Visit | runtimes/go/manifest.go:223-227 | one visit adds a locale and its unseen fallbacks depth first |
| Locales.TruncationsAreRfc4647 | runtimes/go/locale.go:70-81 | the truncations are the fallbacks of section 3.4 of RFC 4647 |
| Locales.SplitJoins | runtimes/go/locale.go:70-81 | the subtags have no hyphen and, joined by hyphens, are the tag |
| Locales.TruncationsAreCuts | runtimes/go/locale.go:70-81 | the truncations are exactly the beginnings of the tag up to a hyphen that ends no single-character subtag, longest first |
| Locales.LookupIsFirstServed | runtimes/go/locale.go:85-98 | lookup finds the first served tag's longest available form, and nothing exactly when no tag is served |
| Locales.LookupIsLongestForm | runtimes/go/locale.go:85-98 | on the tags themselves: the longest available beginning of the first requested tag that has one, and nothing exactly when none has |
| Locales.ComputeTruncations | runtimes/go/locale.go:70-81 | the countdown loop computes the truncations |
| Locales.ComputeLookup | runtimes/go/locale.go:85-98 | the loops compute lookup |
| Locales.ComputeCanonicalizeAll | runtimes/go/locale.go:52-66 | canonical forms in order, malformed tags and repeats dropped |
| Resolution.ResolvesFromFirst | runtimes/go/release.go:228-253 | a message comes from the first chain locale that has it, after exactly the steps before, and fails only when none has |
| Resolution.WalkFollowsChain | runtimes/go/release.go:228-253 | steps follow the chain, and only the last can be found |
| Resolution.PartialAgreesWithFull | runtimes/go/release.go:138-151 | resolving over the needed locales alone gives the same locale, chain, steps and message as over all, never not-loaded |
| Resolution.ComputeResolve | runtimes/go/release.go:228-253 | the loop computes the resolution |
| Resolution.ComputeNeededLocales | runtimes/go/release.go:138-151 | the nested loops compute the needed locales |
| Resolution.NeededAre | runtimes/go/release.go:138-151 | a client loads exactly the shipped locales in the chains its configured tags negotiate, or all when none is configured |
| Resolution.MiddlewareAgrees | runtimes/go/middleware.go:82-106 | deciding resolver by resolver picks the locale the manifest negotiates from the concatenated list, with and without a release |
| Resolution.DeciderIsFirst | runtimes/go/middleware.go:82-106 | the locale is what the first resolver that serves anything serves, under its name, and the source under its own when none does |
| Resolution.LookupAppendNew | runtimes/go/middleware.go:108-115 | dropping repeats does not change what is looked up |
| Resolution.ComputeNegotiation | runtimes/go/middleware.go:82-106 | the loop over resolvers computes the negotiation |
| CanonicalJson.CanonIsInjective | runtimes/go/jcs.go:112-214 | two values have equal canonical text exactly when they are equal |
| CanonicalJson.Decodes | runtimes/go/jcs.go:112-214 | a value's text followed by a delimiter tells the value and where it ends |
| CanonicalJson.SignedBytesDetermine | runtimes/go/jcs.go:32-45 | the signed bytes of a manifest agree exactly when all members but the signatures do |
| CanonicalJson.StringDecodes | runtimes/go/jcs.go:187-214 | escaped strings are uniquely decodable |
| CanonicalJson.Utf8Injective | runtimes/go/jcs.go:187-214 | the UTF-8 bytes of a text determine it |
| CanonicalMeaning.CanonDenotes | runtimes/go/jcs.go:112-178 | read by the grammar of RFC 8259, a value's canonical text is that value, with no white space and the names of objects in ascending order |
| CanonicalMeaning.EscapeIsShortest | runtimes/go/jcs.go:187-214 | no other text that a reader takes for the character is shorter than its escape, and its hex digits are lower case |
| CanonicalMeaning.OctetsMean | runtimes/go/jcs.go:187-214 | a character's octets are those of the table in section 3 of RFC 3629 |
| CanonicalNumbers.NumberTextMeans | runtimes/go/jcs.go:218-261 | in all four layouts a number's text denotes its digits times ten to n minus their count |
| CanonicalNumbers.NumberTextInjective | runtimes/go/jcs.go:218-261 | equal number texts have equal sign, digits and point position |
| CanonicalNumbers.LayoutIff | runtimes/go/jcs.go:218-261 | an exponent is written exactly for a point more than 21 places on or more than six zeros after it, and a point exactly when digits follow it |
| CanonicalNumbers.LiteralForm | runtimes/go/jcs.go:218-261 | the text has no trailing zero in its fraction, and with an exponent one digit before the point, a sign either way and no leading zero |
| Utf16.Total | runtimes/go/jcs.go:180-183 | the order of names is total, equal only for equal names |
| Utf16.LessIff | runtimes/go/jcs.go:180-183 | a name is before another exactly when its code units are a proper prefix of the other's or smaller where they first differ |
| Utf16.UnitsMean | runtimes/go/jcs.go:180-183 | a character's code units are itself or the surrogate pair that stands for it |
| Utf16.Transitive | runtimes/go/jcs.go:180-183 | and transitive |
| Utf16.AscendingUnique | runtimes/go/jcs.go:159-164 | a set of names has one ascending list, however it is collected |
| Utf16.NotScalarOrder | runtimes/go/jcs.go:180-183 | it differs from the order of scalar values |
| CanonicalWriter.Buffer.WriteCanonical | runtimes/go/jcs.go:112-130 | the recursive writer appends the canonical text |
| CanonicalWriter.Buffer.WriteObject | runtimes/go/jcs.go:159-178 | members collected in any order are written sorted |
| CanonicalWriter.Buffer.WriteString | runtimes/go/jcs.go:187-214 | the loop over characters writes the escaped string |
| CanonicalWriter.SortNames | runtimes/go/jcs.go:160-164 | the sorted list has the same names, ascending |
| Decimals.NormalizedIsCanonical | messageformat/decimal.go:198-216 | two decimals have the same normalized literal exactly when they are the same number |
| Decimals.PartsOfText | messageformat/decimal.go:128-134 | cutting the text finds the coefficient and exponent of the number written |
| Decimals.DecimalOfMeans | messageformat/decimal.go:136-159 | the literal written for a coefficient and exponent is in the grammar and denotes them |
| Decimals.ScanText | messageformat/decimal.go:24-58 | reading a literal's text gives the literal back |
| Decimals.ScannedText | messageformat/decimal.go:24-58 | a text that reads as a literal is that literal's text |
| Decimals.ParseDecimalIff | messageformat/decimal.go:48-75 | a text is accepted exactly when it is a literal of the grammar with at most a thousand characters and an exponent of at most a thousand either way |
| Decimals.Shift | messageformat/decimal.go:166-169 | exactly the value times the power of ten |
| Decimals.Add | messageformat/decimal.go:172-181 | exactly the value plus the integer |
| Decimals.RoundInteger | messageformat/decimal.go:184-196 | the nearest integer, ties away from zero |
| Decimals.RoundIntegerLaws | messageformat/decimal.go:184-196 | within one half, odd, monotone and idempotent |
| Decimals.Equal | messageformat/decimal.go:219-228 | the comparison holds exactly for equal numbers |
| Decimals.FormsAreShort | messageformat/decimal.go:24-58 | plain and normalized forms of a parsed literal have at most 2003 characters |
| Decimals.Normalize | messageformat/decimal.go:202-216 | the loop over trailing zeros computes the normal form |
| HtmlMeaning.HtmlInvertsToText | runtimes/go/markup.go:146-232 | dropping tags and unescaping entities gives the joined values, and the non-void tags are well nested |
| HtmlMeaning.SafeNamesBecomeTags | runtimes/go/markup.go:49-55 | exactly the listed names become elements around their content, br and wbr a tag before it, and every other name leaves its content alone |
| HtmlMeaning.BalancedMarkupKeepsTags | runtimes/go/markup.go:146-232 | for balanced markup the HTML's tags are exactly the opens and closes of safe elements, in order |
| MarkupProofs.HtmlIsStream | runtimes/go/markup.go:146-232 | serializing the tree gives what the parts write straight out with only a stack of names |
| MarkupTree.AddStands | runtimes/go/markup.go:163-176 | appending under the target keeps the open safe elements on the rightmost spine |
| MarkupTree.OpenStands | runtimes/go/markup.go:188-194 | opening a safe element extends the spine |
| MarkupTree.TextStands | runtimes/go/markup.go:163-172 | text merged into the last child changes that child alone |
| MarkupTree.CloseStands | runtimes/go/markup.go:195-202 | closing shortens the spine and changes no node |
| MarkupTree.StandsForForest | runtimes/go/markup.go:146-204 | the root's children are the forest with everything still open closed |
| MarkupBuilder.TreeBuilder.Take | runtimes/go/markup.go:177-202 | one part changes nodes and stack as specified |
| MarkupBuilder.TreeBuilder.PushText | runtimes/go/markup.go:163-172 | merges with a text just before, drops empty text |
| MarkupBuilder.TreeBuilder.Parts | runtimes/go/markup.go:146-204 | the nodes built represent the forest of the parts |
| MarkupBuilder.HtmlWriter.WriteChildren | runtimes/go/markup.go:218-232 | the recursive writer appends the HTML of the represented trees |
| MarkupBuilder.ComputeHtml | runtimes/go/markup.go:211-216 | the HTML of the parts |
| MarkupBuilder.RunWriter.WalkChildren | runtimes/go/markup.go:234-254 | the recursive walk appends the runs of the represented trees |
| MarkupBuilder.ComputeRuns | runtimes/go/markup.go:129-133 | the runs of the parts |
| TextRuns.RunsEncodeParts | runtimes/go/markup.go:234-266 | runs are the parts' characters, each in the style of the open safe elements, with no empty run and no two adjacent ones alike |
| TextRuns.EncodingUnique | runtimes/go/markup.go:256-266 | a styled text has only one such list of runs |
| TextRuns.StyleMeans | runtimes/go/markup.go:234-254 | text is bold inside b or strong, italic inside i or em, underlined inside u, and by no other element |
| Brackets.ReportsNothingIff | messageformat/compat.go:383-415 | no finding exactly when every pattern is in the Dyck grammar by name, and each name reported at most once |
| Brackets.AcceptsIsBalanced | messageformat/compat.go:417-439 | a strict stack accepts exactly the derivable bracket sequences |
| Brackets.CloseFacts | messageformat/compat.go:417-439 | a close reports nothing exactly when it matches the innermost open element |
| Brackets.WhatIsReported | messageformat/compat.go:400-439 | a close with nothing to close, the elements a close crosses with its own, and what stays open at the end are reported, each for that reason and no other name |
| Brackets.Checker.ApplyClose | messageformat/compat.go:417-439 | the search from the top and its reports are as specified |
| Brackets.Checker.Check | messageformat/compat.go:383-415 | the loops over patterns and elements give the specified findings |
| Roots.RootIsBound | messageformat/arguments.go:152-167 | root finds a variable exactly when the name is bound to it, and as many steps as locals plus one always suffice |
| Roots.PathIsAcyclic | messageformat/arguments.go:152-167 | a chain of bindings that ends outside the locals repeats no name |
| Roots.ArgumentsAreRoots | messageformat/arguments.go:89-104 | the arguments are exactly the external variables the uses are bound to, each once |
| Roots.ArgumentsAreExternal | messageformat/arguments.go:89-104 | and never a local |
| Roots.FindRoot | messageformat/arguments.go:154-167 | the bounded loop computes the root |
| Roots.Analysis.ObserveUse | messageformat/arguments.go:170-190 | records a use: order of first appearance, the input annotation or the first annotated use |
| MiniFormatProofs.ParseUndoesPrint | packages/format/src/parse.ts:78-85 | the text of a normal-form tree, quoted by the documented rules, parses back to that tree |
| MiniFormatNormal.ParseIsTotal | packages/format/src/parse.ts:78-85 | every text is an error at an offset within it, or parses completely to a normal-form tree that printing and parsing reproduces |
| MiniFormatGrammar.ParseIff | packages/format/src/parse.ts:78-280 | the parser accepts exactly the texts of a grammar with white space, quoting and repeated cases, each with the tree its parts make |
| MiniFormatGrammar.SpelledParses | packages/format/src/parse.ts:112-280 | with any ECMAScript white space around names and types, after commas, around case keys and after cases, and any quoting, a text parses to what it means |
| MiniFormatGrammar.SpacesDoNotMatter | packages/format/src/parse.ts:112-280 | every normal-form tree parses back from its text with any other white space at those places |
| MiniFormatProofs.TextReads | packages/format/src/parse.ts:142-159 | quoted text reads back as itself in the middle of any literal |
| MiniParser.Parser.ParseMessage | packages/format/src/parse.ts:121-180 | the loop over a moving position gives the specified nodes, rest or error offset |
| MiniParser.Parser.ReadQuoted | packages/format/src/parse.ts:142-159 | the apostrophe rules |
| MiniParser.Parser.ParsePlaceholder | packages/format/src/parse.ts:182-210 | a variable, plural or select, or the error at its offset |
| MiniParser.Parser.ParsePluralCases | packages/format/src/parse.ts:212-255 | fills both case records, later cases winning |
| MiniParser.Parser.ParseSelectCases | packages/format/src/parse.ts:257-279 | fills the case record |
| MiniParser.ParseText | packages/format/src/parse.ts:78-85 | the tree, or the error with its offset |
| Reporter.SuppressedWithinWindow | runtimes/go/report.go:72-86 | identical errors within the window are suppressed and counted, unless the map starts over |
| Reporter.ReportCarriesCount | runtimes/go/report.go:72-86 | the next report carries the number suppressed in between |
| Reporter.AdmitIsBounded | runtimes/go/report.go:88-104 | the map never tracks more than 4096 errors |
| Reporter.Limiter.AdmitError | runtimes/go/report.go:72-86 | one admission: verdict, count and new map |
| Reporter.Limiter.EvictEntries | runtimes/go/report.go:90-104 | the loop drops expired entries, then everything if still full |

## Left out

- LiftingTheorem.LiftingIsExact: for selects with each merged key at most once and exact keys that fit an int64 or have no leading zero, which LiftingTheorem.LiftingUnlessRepeated and LiftingTheorem.LosslessUnlessRepeated do without; all of them take numeric values for plural arguments.
- Durability.RunKeeps: assumes that no artifact write fails; Caching.RunCommittedIff is the exact condition for the release on disk without that. Both assume the same bundle and configuration throughout and no other process changing the directory.
- Recovery.RestartRebuilds: the directory's commit record carries, for the statement only, the snapshot that was persisted; no step reads it. The trace of saved digests in a machine is of the same kind.
- Restart.ReuseRefinesReloading: needs a hash without collisions, bundled artifacts that hash to their names, and an edge whose artifact answers do not change during one call.
- MiniFormatProofs.ParseUndoesPrint: exact keys are numbers that JavaScript's integers hold, and a case named `__proto__`, which a plain object cannot hold, is treated like any other.
- Markup nodes are indices into the list of all nodes in creation order rather than pointers; aliasing between trees is not modelled.
- Namespaces of a locale are listed in name order in the manifest; sorting a map's keys is not modelled there.
- Validation of manifests and views, decoding of manifests and artifacts, signatures, SHA-256 and random ids are parameters.
- HTTP, retry and the circuit breaker, the file system below atomic renames, goroutines, timers and jitter; refreshes are serialized by one mutex and are steps here.
- Error reports of the client (bad messages, load failures) beyond which step failed.
- The MF1 and MF2 text parsers, CLDR plural tables, number and date formatting: a shown value is a piece that names the value, its function and attributes; options and attributes are string maps.
- The number grammar's regular expression is a scanner, proved to read exactly the generated texts; Money and the percent wrappers are left out.
- JSON tokenizing: canonical JSON starts at the value tree with unique names and doubles as shortest digits; finding those digits is left out.
- Inferred argument types, options walks, selector kinds and the rest of the compatibility checks: easy members.
- The codecs `model_json.go`, `engine_convert.go`, `convert.ts`, `schema.ts` and the lookup table `mf1_functions.go`: mechanical.
- Studio, the command line, the platform services and their storage.
