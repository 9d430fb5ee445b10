# DARWIN inference host: verified models

A Dafny model of the parts of the DARWIN assistant whose correctness is not visible in any
one function: the prompt-cache engine behind every reply, the directory protocol that
publishes converted Core ML models, the cron explainer, the streaming and batching
algorithms, the guards around memory consolidation, and the warm-set manager.

`dafny verify dfyconfig.toml` checks everything.

## What is modelled

**Prompt caches** (`KvModel`, `EngineSpec`, `EngineOutcomes`, `EngineSafety`, `EngineAliasing`,
`Engine`). A KV
cache entry is a free term: the weights that computed it, the entries it attended to, and
its token, so equality of caches is the strongest notion of "same state" a decode could
observe. `EngineSpec` is the engine as a state machine: the resident model, the caches of the
base persona, the agents and the classifier, the warm set, the promoted adapter and the
fingerprinted files on disk; the outcome of every load, prefill, file access and decode is an
argument of the step. `Engine.InferenceEngine` is the same machine as a class with the fields
the engine reassigns, its decode loop, the seam trim and the trim on every exit; each method
is proved to take the machine exactly one step, and its contract says how every turn ends:
with which tokens, what was spoken, and what ended it. `EngineOutcomes` holds the machine
itself against plain tables: which weights are live after each outcome of the loads, whose
cache is built or restored, what an operation leaves alone, and that a promotion or rollback
followed by a reload is live on every generation surface at the next load.

The central question is whether a reply can ever be decoded against KV state that other
weights computed. It cannot while the process lives (`EngineAliasing`), but it can through the
disk store: the fingerprint identifies an adapter by its manifest's creation field only. Two
adapters for one checkpoint with the same stamp, for instance two without a creation date, or
a dedicated classifier configured with the main model's own id, let a file written under one
set of weights be restored under another. `EngineSafety.PureIffStoreUnambiguous` gives the
exact condition on an installation whose two static prompts tokenize to something.

`classify` never retries an unreadable reply: the parser answers it with the escalation
fallback, and the cached turn stands. Only a decode that raises, or an exception the parser
does not catch, rebuilds the cache.

**Sliced decode** (`SlicedDecode`). The background pass gives the lock back between slices;
whatever runs meanwhile may replace the shared model.

**Sentences and speech** (`Basics`, `Text`, `Sentences`, `Speech`). The incremental splitter, for any
character classes in which the four terminators are not alphanumeric, against a splitter of
whole texts, and that splitter against the texts themselves: decimals, domain names, and where
a sentence does end; and the numbered sentence events of a spoken reply.

**Publishing** (`Publish`, `FastBudget`). Workers of both backends interleave at the
granularity of one file-system call over one shared directory, with crashes anywhere;
renaming a directory follows the `rename()` page of POSIX.1-2017 (System Interfaces). What
"complete" means is what the validate-load accepts. `FastBudget` is the sequential view: one
backend object per process start, and the attempt count that has to survive the publish that
replaces its own directory. `FastBudget.ConversionIsARun` ties the two together. The budget is only as good as the
marker: `FastBudget.BudgetAlwaysHoldsIff` says in which starts it has to be writable.

**Cron** (`Cron`, `CronTexts`). A field's phrase is structured and has a meaning: the values it names on
the field's cycle. The firing set comes from a separate reading of the same field, and
`CronTexts` says of each form one can write what that reading is, in numbers, and which
phrase it gets. In the
summary code, `?` is treated like `*`, but a lone `?` never gets past its field, so that
branch is dead; the rule is proved with `*` alone. The code's comment attributes its
either-or rule for the two day fields to POSIX and Vixie cron alike. It is Vixie's: minute,
hour and month must match, then either day field. The `crontab` utility, INPUT FILES,
POSIX.1-2017, lets month and day of month together name dates, so a restricted month does not
bind the weekday there. The model follows the code; `Cron.RulesAgreeIff` says exactly which
expressions the two rules run alike.

**Batches, frames, walks** (`EmbedBatches`, `FixedGraphs`, `Vad`, `Framing`, `JsonWalk`). Each
is a loop proved equal to a simple definition over the whole input, and the definition to what
it means in plain numbers. Framing equals the newline
split of the stream exactly when no newline follows a dropped leftover: the line such a
newline ends has lost its beginning, and is delivered all the same.

**Memory consolidation** (`Consolidation`, `Habits`). The model's output, already decoded,
becomes a bounded edit of the facts; a reply without slips is carried out to the letter, and
how each slip is read is a lemma of its own. Habit words are folded into stem groups; the folding is
meant to keep one user word from counting as two concepts, and does so unless that word is a
stem of two of the habit's words that the habit does not otherwise connect
(`Habits.OneWordOneConcept`, `Habits.SharedStemCountsTwice`).

**Warm set** (`WarmSet`, `OrderedDict`). Greedy admission, the pinned base, and the fallback on
a failed load. Residents are always within the plan, so the eviction loop never removes
anything: `WarmSet.SelectKeeps` shows that a request never drops a resident.

Assumptions that appear as hypotheses: a decoder's vector for a row depends on the row's real
tokens only (`EmbedBatches.RowWise`), a fixed graph respects its mask
(`FixedGraphs.Computes`), size estimates are not negative, and, for the one lemma about the
vacate target, a directory name is never minted twice.

## Model

| member | source | states |
|---|---|---|
| KvModel.FeedAppend | inference/server.py:4316-4363 | prefilling in two installments gives the KV state of one pass |
| KvModel.FeedEntries | inference/server.py:4316-4363 | every entry is computed by the weights from exactly the entries before it and its own token |
| KvModel.FeedTake | inference/server.py:4331-4340 | trimming the cache is the same as never having fed the trimmed tokens |
| KvModel.FeedInjective | inference/server.py:2928-2951 | equal KV states come from equal weights and equal tokens, so a mixed cache is a different cache |
| KvModel.DifferentCachesDecodeDifferently | inference/server.py:2918-2924 | a decode against a different cache is told apart on its first token by some sampler |
| KvModel.DecodeExact | inference/server.py:4341-4363 | a decode emits what the sampler picks on prompt and text so far, and ends at the first stop token or at the budget |
| EngineSpec.RestoredOnlyOnExactFingerprint | inference/server.py:3045-3069 | a cache is taken from the disk only under exactly the wanted fingerprint, and is prefilled otherwise; either way it is recorded with its prefix and that prefix's length |
| EngineSpec.SavedThenRestored | inference/server.py:3019-3069 | what one build saved the next build restores unchanged, and a build under any other fingerprint ignores it |
| EngineSpec.TurnTrimsBack | inference/server.py:4364-4376 | after any exit the cache holds exactly the part of its prefix the prompt agrees with, the recorded length is the real one, and it has not grown |
| EngineSpec.TurnKeepsPure | inference/server.py:4132-4146 | a turn leaves a cache of the live weights a cache of the live weights, whatever the decode appended |
| EngineSpec.CachedDecodeIsFreshDecode | inference/server.py:4331-4363 | trimmed cache plus fed suffix is the KV state of the whole prompt, so cached decode emits the tokens of a fresh run, whatever the tokenizer did at the seam |
| EngineSpec.ImpureCacheCorruptsSomeReply | inference/server.py:2918-2924 | a cache that is not the live weights' own corrupts some reply: the invariant is not stronger than needed |
| EngineOutcomes.LoadTable | inference/server.py:3501-3542 | for every outcome of the four loads, the weights and the quantization that end up live |
| EngineOutcomes.LoadRows | inference/server.py:3487-3580 | a fitting adapter is fused whenever that load succeeds, on the requested checkpoint and again on the base; a mismatched or unreadable one counts as none; without one, plain and then base |
| EngineOutcomes.StampsTellCreation | inference/server.py:3572-3580 | adapters are told apart by their creation field alone, an absent or empty one reading "promoted" |
| EngineOutcomes.EnsureLlmOutcome | inference/server.py:3474-3542 | loading leaves a resident model alone; otherwise the table decides it, the persona cache is built for it under what was really loaded, and nothing of another model is touched |
| EngineOutcomes.EnsureClassifierOutcome | inference/server.py:3741-3774 | the configured classifier if it loads, and otherwise the main model from then on, each with a cache of its own |
| EngineOutcomes.BuildWrites | inference/server.py:4177-4248 | a build writes its own file, and only when it had to prefill |
| EngineOutcomes.LruKeepsNewest | inference/server.py:1876-1890 | an LRU keeps everything that fits, and else the newest entries in order |
| EngineOutcomes.AgentHit | inference/server.py:4268-4271 | an agent seen before gets its own cache back, which becomes the newest; the others keep their order |
| EngineOutcomes.AgentMiss | inference/server.py:4272-4286 | a new agent gets a cache of the live weights for its own persona; a fifth pushes out the one that has not spoken for longest |
| EngineOutcomes.RunBounded | inference/server.py:3398-3407 | in every reachable state at most four agents have a cache, each of them one |
| EngineOutcomes.GenerateLeaves | inference/server.py:4698-4733 | a generate turn touches the base cache alone: what the turn left, or, if it raised, one built anew |
| EngineOutcomes.ConverseLeaves | inference/server.py:6507-6540 | a converse turn changes the cache it ran on, no other agent's, and not the base's if an agent spoke |
| EngineOutcomes.ClassifyLeaves | inference/server.py:5636-5667 | a classify turn touches the classifier cache alone |
| EngineOutcomes.WhoAnswers | inference/server.py:3683-3722 | with a main model there is always an answer: the requested model if it is planned and is or can be made resident, else the base; an extra is the plain checkpoint of its id |
| EngineOutcomes.ReloadOutcome | inference/server.py:3603-3628 | a reload drops the model, its caches, the base entry and the alias; extras keep their order, and a dedicated classifier and the files stay |
| EngineOutcomes.ReloadGoesLive | inference/server.py:3582-3602 | after a promotion or rollback and a reload, the next load puts exactly the weights it calls for behind the model, the warm set's base entry and the classifier alias |
| EngineSafety.LoadLlmLoadable | inference/server.py:3474-3542 | an upper bound on what the load fallbacks can leave resident; EngineOutcomes.LoadTable is the exact outcome |
| EngineSafety.AcceptsUnique | inference/server.py:3045-3069 | under an unambiguous store at most one set of live weights accepts a stored file |
| EngineSafety.BuildCachePure | inference/server.py:4177-4248 | a restored or prefilled cache belongs to the weights it is built for, and the store stays consistent |
| EngineSafety.EnsureLocalPure | inference/server.py:3701-3722 | loading, seeding and selecting keep every cache with its weights |
| EngineSafety.AgentCachePure | inference/server.py:4258-4286 | an agent's cache, found or built, belongs to the live weights |
| EngineSafety.GeneratePure | inference/server.py:4698-4733 | a generate turn, with its rebuild after a failure, keeps every cache with its weights |
| EngineSafety.ConversePure | inference/server.py:6468-6623 | a converse turn on any persona keeps every cache with its weights |
| EngineSafety.ClassifyPure | inference/server.py:5636-5667 | a classify turn keeps every cache with its weights |
| EngineSafety.StepPure | inference/server.py:3582-3628 | every operation, adapter reload and promotion included, keeps the invariant |
| EngineSafety.RunPure | inference/server.py:3582-3628 | so does every run |
| EngineSafety.UnambiguousRunsArePure | inference/server.py:2928-2951 | with distinct stamps and a separate classifier id, no run ever holds a cache of other weights |
| EngineSafety.StampClashMixes | inference/server.py:3572-3580 | two adapters with one stamp: some run decodes against the other's cache |
| EngineSafety.SharedClassifierIdMixes | inference/server.py:4048-4096 | a classifier configured with the main model's id: some run restores its file into another model's alias |
| EngineSafety.PureIffStoreUnambiguous | inference/server.py:2928-2951 | caches always belong to the live weights if and only if the store is unambiguous |
| EngineSafety.UndatedAdaptersClash | inference/server.py:3579 | two adapters without a creation date make the store ambiguous |
| EngineAliasing.EnsureLocalAligned | inference/server.py:3701-3722 | the answering id is resident and is the requested one or the base; the base entry is the live model |
| EngineAliasing.StepAligned | inference/server.py:3590-3602 | no operation lets two holders of the main model disagree |
| EngineAliasing.ReachableAligned | inference/server.py:3582-3628 | in every reachable state the engine field, the classifier alias and the warm set's base entry hold one model |
| Engine.CommonPrefix | inference/server.py:6528-6535 | the seam loop finds the longest common prefix |
| Engine.DecodeLoop | inference/server.py:6567-6605 | how a decode ends, in full: the tokens, what has been spoken, and which of stop, abort, exception, failed synthesis or empty suffix ended it |
| Engine.EndingUnique | inference/server.py:6567-6605 | that contract leaves one ending: the decode, the world and the voice determine it |
| Engine.CachedTurn | inference/server.py:4331-4376 | seam trim, decode and exit trim together are one turn of the machine, ending as the decode of the kept cache plus suffix does |
| Engine.CachedDecodeIsFresh | inference/server.py:4331-4363 | on a cache of the live weights that decode is the fresh run on the whole prompt |
| Engine.LruInsert | inference/server.py:1876-1890 | the inserted key is newest and the oldest go until the bound holds |
| Engine.InferenceEngine.constructor | inference/server.py:3340-3410 | a new engine is the machine's initial state |
| Engine.InferenceEngine.PrefillCache | inference/server.py:4177-4248 | restore on an exact fingerprint, else prefill and save |
| Engine.InferenceEngine.EnsureModel | inference/server.py:3474-3542 | which of the four loads ends up live, for every outcome: the fitting adapter first, then the plain checkpoint, then the same on the base; under which reported quantization and stamp; and the persona cache built for it |
| Engine.InferenceEngine.EnsureClassifierModel | inference/server.py:3741-3774 | the dedicated classifier, or the alias of the main model |
| Engine.InferenceEngine.GetAgentGenCache | inference/server.py:4258-4286 | hit, build or uncached, with the LRU bound |
| Engine.InferenceEngine.Reload | inference/server.py:3582-3628 | every holder of the old model is evicted, extras are kept |
| Engine.InferenceEngine.EnsureLocalModel | inference/server.py:3701-3722 | who answers, resident under the reported id |
| Engine.InferenceEngine.GenerateCached | inference/server.py:4316-4379 | one cached turn on the base cache, and how it ends |
| Engine.InferenceEngine.ClassifyCached | inference/server.py:4098-4149 | one cached turn on the classifier cache, which no peer can abort, and how it ends |
| Engine.InferenceEngine.Generate | inference/server.py:4698-4769 | the whole request is one step of the machine; over an unambiguous store the cached turn ends as a fresh run on the live weights would, and only a raised one falls back to the uncached call, on the model resident under the reported id |
| Engine.InferenceEngine.Classify | inference/server.py:5636-5667 | the same for classify: a reply the parser cannot read is answered with the escalation fallback from the cached turn, and only an exception escaping the parser, or a raised decode, rebuilds and falls back |
| Engine.InferenceEngine.SelectCache | inference/server.py:6507-6521 | the cache a converse turn runs on: the agent's, the base's, or none |
| Engine.InferenceEngine.StoreTurn | inference/server.py:6536-6540 | the trimmed length goes back to the cache's own home and nowhere else |
| Engine.InferenceEngine.Converse | inference/server.py:6468-6638 | the same for converse on base, agent or no cache: the turn ends as the decode of the weights resident under the reported id does, for the reason that ended it, with the events the text deserves |
| Engine.HeardIsSpoken | inference/server.py:6553-6605 | a finished reply has announced the first audible sentences of its text, an unfinished one a prefix of them |
| SlicedDecode.DecodeSlice | inference/server.py:4608-4615 | a slice makes progress, and what is still owed is unchanged |
| SlicedDecode.DecodeInSlices | inference/server.py:4598-4618 | decoding in slices emits what one uninterrupted decode emits |
| SlicedDecode.PrefillInSlices | inference/server.py:4573-4597 | the chunks feed every token once, in order |
| SlicedDecode.RunInterruptible | inference/server.py:4527-4619 | the text is a fresh run's on the weights captured at the start, whatever replaces the model between slices; each prompt token is fed exactly once |
| Text.InkStrip | inference/server.py:2897-2907 | stripping removes no non-whitespace character |
| Text.StripIs | inference/server.py:2897-2907 | strip takes off exactly the white space around a text |
| Text.SplitOnJoined | apps/cronwise/main.py:162-163 | splitting undoes joining: no piece is lost, merged or made up |
| Sentences.SplitCompleteSentences | inference/server.py:2852-2907 | the one-pass splitter computes the reference split |
| Sentences.CutsShift | inference/server.py:2852-2907 | no decision depends on text before the last cut |
| Sentences.CutsStable | inference/server.py:2852-2907 | a cut taken early is never taken back, and only the last character is held back |
| Sentences.SplitResume | inference/server.py:2852-2907 | splitting in installments, carrying the remainder, is splitting the whole |
| Sentences.ChunkIndependence | inference/server.py:2852-2907 | streamed sentences plus the final flush are the split of the whole text, however it is cut into chunks |
| Sentences.StreamIsPrefix | inference/server.py:6593-6598 | before the flush the streamed sentences are a prefix of the final ones |
| Sentences.SplitKeepsInk | inference/server.py:2852-2907 | sentences and remainder carry all non-whitespace characters of the text, in order |
| Sentences.FirstSentence | inference/server.py:2866-2900 | the first terminator that is neither inside a number or dotted name nor still undecided ends the first sentence |
| Sentences.LastSentence | inference/server.py:2901-2907 | a text without one is the last sentence, or kept back whole before the end of the reply |
| Sentences.DecimalPoint | inference/server.py:2869-2871 | a period between two digits ends nothing: the text around it is one sentence |
| Sentences.DomainDot | inference/server.py:2878-2886 | nor does one between an alphanumeric and an ASCII letter |
| Sentences.StrongEnd | inference/server.py:2866-2900 | an exclamation mark, a question mark and a line break each end a sentence at once |
| Sentences.PeriodEnd | inference/server.py:2866-2900 | so does every other period, except that one at the very end of an unfinished reply waits if something alphanumeric precedes it |
| Sentences.SentencesAreTrimmed | inference/server.py:2897-2907 | no sentence is empty or starts or ends with white space, and the remainder is the end of the text as it was |
| Speech.SpeakSentences | inference/server.py:6593-6598 | the speaking loop stops at the cap and at a synthesis that raises |
| Speech.Hear | inference/server.py:6593-6606 | what one decoded piece, or the end of the reply, makes the speaker do |
| Speech.SpeakAllEvents | inference/server.py:6553-6565 | events continue the numbering and are capped at five in all |
| Speech.CompletedTurnEvents | inference/server.py:6567-6606 | a completed turn announces the first audible sentences of the batch split, numbered from 0, at most five |
| Speech.InterruptedTurnEvents | inference/server.py:6576-6589 | an interrupted turn has announced a prefix of what the text so far deserves |
| Speech.HeardExact | inference/server.py:6553-6565 | a sentence with audio is heard, one without is passed over, and a synthesis that raises ends it |
| Speech.AnnouncedExact | inference/server.py:6559-6565 | one event per sentence heard, numbered from 0, for the first five |
| Publish.OthersKeepTheirConversion | inference/coreml_embed.py:526-554 | no worker deletes, moves or rewrites another's live conversion directory |
| Publish.StepSafe | inference/coreml_embed.py:470-554 | every file-system call of every worker keeps the protocol's invariant |
| Publish.RunSafe | inference/coreml_rerank.py:423-500 | so does every interleaving, both backends sharing the parent directory |
| Publish.CacheNeverPartial | inference/coreml_embed.py:470-554 | the cache path is absent, still the initial package, or a complete package validated before publication |
| Publish.NeverRestored | inference/coreml_embed.py:504-524 | once replaced, the initial package never comes back |
| Publish.VacateOnlyLosesToAnotherVacate | inference/coreml_embed.py:504-517 | the minted empty directory is still there to remove and its name free to rename to; the vacate fails only if the cache is already gone |
| Publish.RacesNeverLoseTheCache | inference/coreml_embed.py:494-524 | a cache that was there is there again when nobody is publishing, unless a worker died, or had its rename failed by the file system, in that window |
| Publish.RaisedLeavesNothing | inference/coreml_embed.py:526-528 | a worker whose conversion raised removes its own directory and leaves everything else as it was |
| Publish.LoserKeepsWinner | inference/coreml_embed.py:518-541 | a worker that lost the race keeps the winner's package, and removes its own and the old cache it had moved aside |
| Publish.SweepTakesLeaksOnly | inference/coreml_embed.py:542-552 | a leaked directory with contents is swept; an empty one, perhaps a fresh vacate target, is not |
| Publish.NoteAddsOne | inference/coreml_shared.py:58-72 | noting an attempt adds one to the count and touches no package |
| FastBudget.StartRaisesAttempts | inference/coreml_shared.py:80-109 | a fruitless background rebuild strictly raises the count the next start reads; no start lowers it |
| FastBudget.RebuildsBounded | inference/coreml_shared.py:75-109 | over any starts with any outcomes, at most as many background rebuilds as the budget has left, three for a fresh count |
| FastBudget.ThreeRebuilds | inference/coreml_shared.py:44-77 | a cache with no attempt on record is rebuilt at most three times, exactly three if they all fail and starts go on, and never once it has the short graph |
| FastBudget.FirstConversionCharged | inference/coreml_embed.py:379-393 | a first conversion charges the budget for a short graph it did not get |
| FastBudget.FailingRebuildsSpendItAll | inference/coreml_embed.py:379-453 | rebuilds that always fail happen at each start until the budget is spent, and never again |
| FastBudget.UnwritableMarkerHasNoBudget | inference/coreml_shared.py:58-72 | where the marker can never be written every start rebuilds |
| FastBudget.FailingBudgetHoldsIff | inference/coreml_shared.py:58-109 | when every rebuild fails, the budget holds exactly if there are too few starts to spend it or each start that spends it can write the marker |
| FastBudget.BudgetAlwaysHoldsIff | inference/coreml_shared.py:75-109 | over a usable cache the budget holds for every outcome exactly under that condition on where markers can be written |
| FastBudget.NoteSurvivesRebuilds | inference/coreml_shared.py:58-109 | a noted attempt is read by the next start, leaves the package as it was, and is still counted after any number of rebuilds have replaced the directory it was noted in |
| FastBudget.CoreMLBackend.ConvertAtomic | inference/coreml_embed.py:470-524 | the cache is replaced by the new package with the carried count, or left alone |
| FastBudget.CoreMLBackend.UpgradeFastGraph | inference/coreml_embed.py:423-453 | the models are swapped only for ones with a short graph; otherwise the attempt is noted |
| FastBudget.CoreMLBackend.EnsureLoaded | inference/coreml_embed.py:322-393 | what one start does to cache and models, and when it is unavailable |
| FastBudget.ConversionIsARun | inference/coreml_embed.py:470-554 | the sequential conversion is a run of the interleaved protocol and leaves nothing else behind |
| Cron.FiredSetFires | apps/cronwise/main.py:73-83 | the expanded, folded list is the firing set |
| Cron.DegenerateIsHonest | apps/cronwise/main.py:125-139 | a range whose ends read alike is described by what it fires on |
| Cron.WildcardIsHonest | apps/cronwise/main.py:183-193 | so is a wildcard step |
| Cron.RangeStepIsHonest | apps/cronwise/main.py:215-237 | so is a stepped range |
| Cron.StartIsHonest | apps/cronwise/main.py:239-247 | so is a step from a value |
| Cron.RangeIsHonest | apps/cronwise/main.py:254-263 | so is a plain range, round the end of the week included |
| Cron.PartIsHonest | apps/cronwise/main.py:142-266 | one element is described exactly when it is valid, and its phrase names exactly its firing set |
| Cron.FieldIsHonest | apps/cronwise/main.py:142-266 | the same for a field: comma lists are unions, both Sundays one day |
| CronTexts.FieldValues | apps/cronwise/main.py:35-42 | the range of each field, and that only the weekday names one value twice |
| CronTexts.ValueText | apps/cronwise/main.py:86-94 | a value is an integer in range, or an English month or weekday abbreviation in its own field; anything else is an error |
| CronTexts.SpaceAround | apps/cronwise/main.py:154 | white space around a field does not matter |
| CronTexts.AsteriskText | apps/cronwise/main.py:249-251 | an asterisk is every value |
| CronTexts.SingleText | apps/cronwise/main.py:265-266 | a value alone is that value |
| CronTexts.RangeText | apps/cronwise/main.py:253-263 | "a-b" names exactly the values from a to b, both ends included, and is an error the wrong way round |
| CronTexts.RangeStepText | apps/cronwise/main.py:215-237 | "a-b/n" names every n-th value from a as far as b |
| CronTexts.StartStepText | apps/cronwise/main.py:239-247 | "v/n" names every n-th value from v to the end of the field |
| CronTexts.WildcardStepText | apps/cronwise/main.py:183-193 | "*/n" names every n-th value from the first |
| CronTexts.ListText | apps/cronwise/main.py:161-165 | a comma list is valid exactly when every piece is, and names what any piece names |
| CronTexts.OneFiringIsSingle | apps/cronwise/main.py:106-112 | whatever its form, an element that fires once is described by that one value |
| CronTexts.WildcardPhrase | apps/cronwise/main.py:183-193 | a wildcard step is put as "every n" exactly when it fires more than once at equal gaps round the cycle, and spelled out otherwise |
| CronTexts.StartPhrase | apps/cronwise/main.py:239-247 | so is a step from a value |
| CronTexts.RangeStepPhraseIs | apps/cronwise/main.py:215-237 | so is a stepped range, whose end must also be the field's or be fired on |
| CronTexts.DegeneratePhrase | apps/cronwise/main.py:125-139 | a range whose ends read alike is a whole week, one value, or spelled out |
| Cron.CadenceIsUniform | apps/cronwise/main.py:171-247 | an "every N" phrase is used only when all cyclic gaps, the wrap included, are N |
| Cron.Compute | apps/cronwise/main.py:269-329 | the answer for every payload: which problem is reported first, or the phrases and their summary |
| Cron.QuestionMarkIsInvalid | apps/cronwise/main.py:317-320 | a lone question mark is never a valid field |
| Cron.SummaryIsHonest | apps/cronwise/main.py:310-329 | a valid expression's summary holds at exactly the minutes the job runs, under the rule the code applies |
| CronTexts.NineOnWeekdays | apps/cronwise/main.py:269-329 | "0 9 * * 1-5" runs at nine on Mondays to Fridays |
| CronTexts.FirstsAndMondays | apps/cronwise/main.py:301-315 | "0 0 1 * 1" runs on the first of each month and on every Monday |
| Cron.RulesAgreeIff | apps/cronwise/main.py:310-320 | that rule and the one POSIX words give the same minutes exactly when month or weekday is an asterisk, or the month field names every month and the day of month is restricted too or the weekday field names every day |
| EmbedBatches.PackEmbedChunks | inference/server.py:1694-1737 | the running maximum and sum compute the greedy packing |
| EmbedBatches.PackingIsSound | inference/server.py:1694-1737 | the ranges tile the rows; each is one row or within every cap, and could not have taken the next row |
| EmbedBatches.WasteBounded | inference/server.py:1705-1711 | the packing's forwards together compute on at most the waste factor times the tokens packed |
| EmbedBatches.SortRowsSorted | inference/server.py:1757 | the plan's order is by length, ties in input order |
| EmbedBatches.PlanEmbedBatches | inference/server.py:1740-1764 | the chunks of the sorted rows, as original indices; each is one row, or has few enough rows, and padding it to any of them computes on few enough tokens; all together within the waste factor of the input's tokens |
| EmbedBatches.EachRowOnce | inference/server.py:1740-1764 | every row is in the plan at exactly one place, and nothing else is |
| EmbedBatches.PlanIsCheap | inference/server.py:1705-1755 | every chunk of the plan with several rows is within every cap, and rows times longest, summed over the plan, is at most the waste factor times the real tokens of the input |
| EmbedBatches.PlanFitsCaps | inference/server.py:1694-1764 | in plain numbers: a chunk is one row or fits the row cap, the token budget and the waste factor, and with the first row of the next chunk it would not |
| EmbedBatches.DefaultPlan | inference/server.py:1587-1589 | as configured: at most 32 rows, rows times longest at most 4096 unless it is one row, and never more than twice the chunk's or the plan's real tokens |
| EmbedBatches.SortTokens | inference/server.py:1757-1758 | sorting the rows loses and repeats none of their tokens |
| EmbedBatches.EmbedChunk | inference/server.py:4807-4818 | a padded forward gives each row its own vector |
| EmbedBatches.EmbedBatch | inference/server.py:4781-4822 | results land in input order and are what embedding each text alone would give |
| FixedGraphs.PadRoundTrip | inference/coreml_embed.py:218-234 | the mask undoes the padding, up to the graph's length |
| FixedGraphs.PredictRows | inference/coreml_rerank.py:696-709 | routing to the short graph changes no result and truncates nothing the long graph would have kept |
| Vad.NewWindow | inference/coreml_vad.py:187-214 | ring plus chunk is the next window of the zero-prefixed stream, and the new ring follows it |
| Vad.WindowSamples | inference/coreml_vad.py:187-214 | sample for sample: 64 samples of what came before, zeros at the start, and then the 512 of the chunk |
| Vad.StateStable | inference/coreml_vad.py:666-672 | the state after a window is the fold of the model over the windows up to it |
| Vad.StreamingVAD.PushChunk | inference/coreml_vad.py:666-672 | verdict k is the model's on window k and the folded state; a wrong length or a step that raises leaves the position unchanged |
| Vad.StreamingVAD.Reset | inference/coreml_vad.py:659-661 | a reset starts a new, empty stream |
| Framing.DrainLines | apps/_sdk/harness.py:104-121 | the complete lines and the leftover of the buffer, an overlong leftover dropped |
| Framing.UnframedFrames | apps/_sdk/harness.py:104-121 | writing the newlines back gives the bytes that came in, and no line holds one |
| Framing.FramesUnframed | apps/_sdk/harness.py:104-121 | any lines without newlines, written one after another, are framed back as they were |
| Framing.BufferBounded | apps/_sdk/harness.py:135-153 | the retained buffer stays within the cap between reads |
| Framing.FramesResume | apps/_sdk/harness.py:104-121 | splitting read by read, carrying the leftover, is splitting the whole |
| Framing.FramingIsExact | apps/_sdk/harness.py:104-153 | the lines received are the newline split of the stream exactly when no newline follows a dropped leftover |
| Framing.NoDropNoLoss | apps/_sdk/harness.py:104-153 | when nothing is dropped, lines and leftover are those of the whole stream |
| Framing.HandledExact | apps/_sdk/harness.py:141-149 | blank lines are skipped, every other line is handled in order, the first stop included, and nothing after it |
| Framing.Run | apps/_sdk/harness.py:135-153 | the handler sees the received non-blank lines in order, up to the first stop |
| JsonWalk.CountAndDepth | apps/datalint/main.py:43-65 | the explicit stack computes the recursive node count and height, and terminates |
| JsonWalk.ScalarWalk | apps/datalint/main.py:43-65 | a scalar and an empty container are one node of height one |
| JsonWalk.ArrayWalk | apps/datalint/main.py:43-65 | an array's element adds its nodes, and its height below the array's |
| JsonWalk.ObjectWalk | apps/datalint/main.py:43-65 | so does an object's value; its key adds nothing |
| Habits.HabitStemGroups | inference/server.py:6873-6902 | the greedy fold over the sorted words |
| Habits.GroupsOrderIndependent | inference/server.py:6873-6902 | the grouping does not depend on the order the set is iterated in |
| Habits.EachWordOneGroup | inference/server.py:6873-6902 | each word is in exactly one group, and matches exactly that one group's leader |
| Habits.GroupsAreComponents | inference/server.py:6861-6902 | the groups are exactly the connected components of the match relation |
| Habits.OneWordOneConcept | inference/server.py:6926-6952 | a user word counts for at most one concept exactly when it is not a stem of two of the habit's words that the habit does not otherwise connect |
| Habits.SharedStemCountsTwice | inference/server.py:6926-6952 | "check" counts as two concepts of a habit that says "checked" and "checking" |
| Habits.MatchIs | inference/server.py:6861-6870 | two words match when equal, or when one of at least five letters begins the other; "with" and "without" do not |
| Habits.ContentWords | inference/server.py:6844-6858 | the words found are exactly the maximal letter runs that are long enough and no filler |
| Habits.ContentWordText | inference/server.py:6844-6858 | a content word is a run of at least four letters standing alone that is no filler |
| Habits.SupportedOrderIndependent | inference/server.py:6905-6956 | the verdict depends on the set of habit words alone |
| Habits.SupportedIff | inference/server.py:6905-6956 | without groups: three separate lines each mention enough of the habit, two unrelated words of it if it has three or more, any word otherwise |
| Habits.HabitTextIs | inference/server.py:6922-6923 | a habit's words come from its slug, underscores and dots read as spaces, and its value |
| Habits.HabitSupported | inference/server.py:6905-6956 | given the words, the verdict is positive exactly when three separate user lines each name enough concepts |
| Habits.HabitEvidenced | inference/server.py:6905-6956 | the verdict on a fact, from its slug and value and the users' lines |
| Consolidation.UpsertsExact | inference/server.py:7008-7030 | the upserts are, for each key, the first value offered for it that would change it |
| Consolidation.DeletesExact | inference/server.py:7031-7045 | the deletes are the stored keys named and not shielded |
| Consolidation.MemoryExact | inference/server.py:5599-5621 | the memory is every stored fact that is not bookkeeping, at its last value |
| Consolidation.MemoryKeys | inference/server.py:5599 | a key is in it exactly when some fact has it and it does not begin with "meta." |
| Consolidation.NamespacedIffDotted | inference/server.py:6739-6743 | a key is namespaced exactly when dots part it into two or more segments, none of them blank |
| Consolidation.UpsertItemText | inference/server.py:7010-7025 | how an upsert item is read: key and value members in either order, or a single pair; trimmed, dotted, not bookkeeping; anything else dropped |
| Consolidation.DeleteItemText | inference/server.py:7033-7043 | how a delete item is read: a stored key, or a stored key before an equals sign |
| Consolidation.ListsText | inference/server.py:6997-7007 | which replies have the two lists |
| Consolidation.CleanReplyIsParsed | inference/server.py:6959-7050 | a reply of at most twelve changes, each of them one and no key twice, is carried out to the letter |
| Consolidation.ShieldedExact | inference/server.py:7011-7025 | the shield covers every key a valid upsert names, whether or not it changes anything |
| Consolidation.SaidAgainIsKept | inference/server.py:6970-6976 | a fact said again at its stored value is neither written nor deleted; given a new value it is written and not deleted |
| Consolidation.CapText | inference/server.py:7046-7050 | upserts first, deletes in what remains of twelve, and nothing else is cut |
| Consolidation.ParseConsolidation | inference/server.py:6959-7050 | the two loops and the cap compute the parsed edit |
| Consolidation.ParsedIsGuarded | inference/server.py:6966-6983 | whatever the model emits: at most twelve changes, deletes only of stored, unshielded facts, nothing about bookkeeping |
| Consolidation.FilterHabits | inference/server.py:5626-5633 | the filter keeps every other upsert, and a habit exactly when the users' lines evidence it |
| Consolidation.Consolidate | inference/server.py:5586-5634 | from the stored facts, the users' lines and the reply: nothing when every stored fact is bookkeeping; otherwise a reply without slips is carried out to the letter except for unevidenced habits, and any other gives the parsed edit without them, under the same guards |
| Consolidation.OrderIrrelevant | inference/server.py:6976-6980 | deletes first or upserts first gives the same facts |
| Consolidation.PassIsBounded | inference/server.py:6997-7050 | applying the edit changes at most twelve facts, no bookkeeping fact, and keeps every reaffirmed one |
| Consolidation.AppliedExact | inference/server.py:6959-6983 | a named upsert takes its value, a named delete is gone, and every other fact is what it was |
| WarmSet.PlanWarmSet | inference/server.py:1963-2002 | the admission loop computes the plan |
| WarmSet.AdmitGreedy | inference/server.py:1991-2001 | an id left out would have broken the budget when it was considered |
| WarmSet.WarmPlanGreedy | inference/server.py:1963-2002 | the same for the whole plan: a configured id is in it, or would have broken the budget; the base alone when there is no budget for more |
| WarmSet.WarmPlanSound | inference/server.py:1963-2002 | base first, no repeats, extras only within the budget |
| WarmSet.SelectKeeps | inference/server.py:2190-2234 | a request keeps the residents within the plan, drops none, and answers with the requested model or the base under the id it reports |
| WarmSet.AnswererIsNewest | inference/server.py:2206-2224 | whoever answers has become the newest resident, and the others keep their order |
| WarmSet.EvictsOldest | inference/server.py:2257-2271 | eviction keeps the base and otherwise removes the oldest, down to the capacity |
| WarmSet.ResidentsFitBudget | inference/server.py:2149-2168 | while an extra is resident, everything resident fits the budget |
| WarmSet.RunsRespectBudget | inference/server.py:2149-2271 | in every reachable state driven by requests, seeding and reload |
| WarmSet.LocalWarmManager.SelectModel | inference/server.py:2190-2234 | selection with its single fallback, which terminates |
| WarmSet.LocalWarmManager.Insert | inference/server.py:2236-2271 | insertion and the eviction loop |

## Left out

- Sockets, request validation and the asyncio dispatch; only the peer-gone poll is kept, as a world that may abort at any step.
- Model loading, tokenizers, synthesis, Core ML conversion and prediction: uninterpreted functions or outcomes.
- Floating-point numerics: pooling, normalization and the scrubbing of non-finite values.
- The read of the promoted manifest and the load of its weights are one step; an adapter promoted between the two would be stamped with the older manifest.
- A cache object shared by reference (the agent's state dictionary) is a value that is written back; the write-back is proved, the sharing is not represented.
- The fallback estimate of a cache's growth when a layer has no integer offset: layer 0 is taken to have one.
- Speculative decoding with a draft model, beyond the fact that such a turn leaves the caches alone.
- The compiled sidecar of a converted model, log throttling, and the pruning policy for agent caches on disk (a pruned file is a lost file).
- Attempt counts under overlapping processes or a crash in mid-rebuild: only the safety and availability of the cache path are proved for interleavings.
- Vixie cron's treatment of a day field that starts with an asterisk but has a step: the code, and the model, call it restricted.
- The exact English of the cron phrases, the text of error messages, and character tables.
- Decoding the model's JSON text; duplicate member names are taken to be resolved already.
- FastBudget.BudgetAlwaysHoldsIff: is about a usable cache; a cache that must first be converted is covered with writable markers only (FastBudget.RebuildsBounded).
- Consolidation.SaidAgainIsKept: says nothing of a key that is not stored and contains an equals sign, because a delete of it is read as naming the part before the sign (Consolidation.DeleteItemText).
- Publish.VacateOnlyLosesToAnotherVacate: asks that no directory name is minted twice; the safety results do not.
- WarmSet.ResidentsFitBudget: speaks of the residents between requests, not of the moment during a load.
- The batch cap of the reranker and the empty-batch shortcuts of both backends.
