/** The inference engine's prompt caches as a state machine: the resident model, the KV
    caches of the base persona, of each agent persona and of the classifier, the warm-set
    entry of the base model, and the fingerprinted cache files on disk. Everything the
    engine cannot control (which loads raise, which files can be read or written, how far a
    decode got before it stopped) is an argument of the step. */
module EngineSpec {
  import opened Basics
  import opened OrderedDict
  import opened KvModel
  import WarmSet

  const AGENT_PERSONA_CACHE_MAX: nat := 4

  // ---- configuration and state ------------------------------------------------------

  /** Fixed for one installation. `quant` is the requested quantization ("auto" loads the
      configured id as it is); `variantId` the checkpoint id derived for any other value;
      `clsId` the dedicated classifier ("" = use the main model); `slug` the sanitized form of
      an agent's name that its cache file is named after. The last three fields are the
      tokenizer of a checkpoint and its rendering of the two static prompt prefixes. */
  datatype Config = Config(
    llmId: string, quant: string, variantId: string, clsId: string, plan: seq<string>, persona: string, slug: string -> string,
    encode: (string, string) -> seq<Token>,
    personaPrefix: (string, string) -> string,
    clsPrefix: string -> string)

  ghost predicate ValidConfig(cfg: Config) {
    cfg.plan != [] && cfg.plan[0] == cfg.llmId && cfg.llmId != "" && cfg.quant != ""
  }

  /** A prefilled cache, the recorded length of its static part, and the tokens that were
      prefilled into it. */
  datatype PrefixCache = PrefixCache(kv: seq<Kv>, len: nat, prefix: seq<Token>)

  datatype Fingerprint = Fingerprint(modelId: string, quant: string, prefix: string, adapter: string)

  datatype Stored = Stored(fp: Fingerprint, kv: seq<Kv>)

  datatype Engine = Engine(
    model: Option<Weights>,
    loadedQuant: string,
    activeStamp: string,
    gen: Option<PrefixCache>,
    agents: Dict<PrefixCache>,
    clsId: string,
    clsModel: Option<Weights>,
    cls: Option<PrefixCache>,
    resident: Dict<Weights>,
    promoted: Option<Adapter>,
    disk: map<string, Stored>)

  function Boot(cfg: Config, promoted: Option<Adapter>, disk: map<string, Stored>): Engine {
    Engine(None, "", "", None, [], cfg.clsId, None, None, [], promoted, disk)
  }

  // ---- loading the model ----------------------------------------------------------------

  /** The stamp the loader puts on an adapter: the manifest's creation field, or a constant
      when the manifest has none. */
  function Stamp(a: Option<Adapter>): string {
    match a
    case None => ""
    case Some(x) => "lora:" + (if x.created.Some? && x.created.value != "" then x.created.value else "promoted")
  }

  /** Which of the loads would succeed, and whether the promoted manifest can be read. */
  datatype Loads = Loads(manifest: bool, fused: bool, plain: bool, baseFused: bool, basePlain: bool)

  datatype Loaded = Loaded(w: Weights, quant: string)

  function LoadId(cfg: Config): string {
    if cfg.quant == "auto" then cfg.llmId else cfg.variantId
  }

  /** The promoted adapter, if it was made for checkpoint `id`. */
  function PromotedFor(promoted: Option<Adapter>, id: string, n: Loads): Option<Adapter> {
    if promoted.Some? && n.manifest && promoted.value.base == id then promoted else None
  }

  function LoadOne(id: string, adapter: Option<Adapter>, fused: bool, plain: bool): Option<Weights> {
    if adapter.Some? && fused then Some(Weights(id, adapter))
    else if plain then Some(Weights(id, None))
    else None
  }

  function LoadLlm(cfg: Config, promoted: Option<Adapter>, n: Loads): Option<Loaded> {
    match LoadOne(LoadId(cfg), PromotedFor(promoted, LoadId(cfg), n), n.fused, n.plain)
    case Some(w) => Some(Loaded(w, cfg.quant))
    case None =>
      if LoadId(cfg) == cfg.llmId then None
      else match LoadOne(cfg.llmId, PromotedFor(promoted, cfg.llmId, n), n.baseFused, n.basePlain)
        case Some(w) => Some(Loaded(w, "auto"))
        case None => None
  }

  // ---- building a cache -------------------------------------------------------------------

  /** `raises`: the build failed (cache not trimmable, out of memory, no persona).
      `readable`: the stored file, if any, can be read. `saved`: the new file was written. */
  datatype Build = Build(raises: bool, readable: bool, saved: bool)

  function QuantStamp(cfg: Config, e: Engine): string {
    if e.loadedQuant == "" then cfg.quant else e.loadedQuant
  }

  /** Restore the cache from `slot` when its fingerprint is exactly the wanted one, else
      prefill it on weights `w` and save it. The recorded length is the token count of the
      prefix in both cases. */
  function BuildCache(cfg: Config, e: Engine, slot: string, modelId: string, w: Weights, prefix: string, b: Build): (r: (Engine, Option<PrefixCache>))
    ensures r.0 == e.(disk := r.0.disk)
    ensures b.raises <==> r.1.None?
  {
    if b.raises then (e, None)
    else
      var toks := cfg.encode(w.id, prefix);
      var fp := Fingerprint(modelId, QuantStamp(cfg, e), prefix, e.activeStamp);
      if b.readable && slot in e.disk && e.disk[slot].fp == fp then
        (e, Some(PrefixCache(e.disk[slot].kv, |toks|, toks)))
      else
        var kv := Feed(w, [], toks);
        (if b.saved then e.(disk := e.disk[slot := Stored(fp, kv)]) else e,
         Some(PrefixCache(kv, |toks|, toks)))
  }

  /** A cache comes from the disk only under exactly the wanted fingerprint, and otherwise
      from a prefill; either way it is recorded with the prefix and its length. */
  lemma RestoredOnlyOnExactFingerprint(cfg: Config, e: Engine, slot: string, modelId: string, w: Weights, prefix: string, b: Build)
    ensures var pc := BuildCache(cfg, e, slot, modelId, w, prefix, b).1;
      pc.Some? ==>
        && pc.value.prefix == cfg.encode(w.id, prefix) && pc.value.len == |pc.value.prefix|
        && (|| pc.value.kv == Feed(w, [], pc.value.prefix)
            || (slot in e.disk && e.disk[slot] == Stored(Fingerprint(modelId, QuantStamp(cfg, e), prefix, e.activeStamp), pc.value.kv)))
  {
  }

  /** What one build saved, the next build restores: the same cache, and nothing written. A
      build for any other fingerprint ignores it and prefills. */
  lemma SavedThenRestored(cfg: Config, e: Engine, slot: string, modelId: string, w: Weights, prefix: string, b: Build, w': Weights, again: Build)
    requires !b.raises && b.saved && !again.raises && again.readable
    ensures var (e1, pc) := BuildCache(cfg, e, slot, modelId, w, prefix, b);
      && BuildCache(cfg, e1, slot, modelId, w, prefix, again) == (e1, pc)
      && forall id, q, p, a ::
           (id, q, p, a) != (modelId, QuantStamp(cfg, e), prefix, e.activeStamp) && q != "" ==>
             BuildCache(cfg, e1.(loadedQuant := q, activeStamp := a), slot, id, w', p, again).1
               == Some(PrefixCache(Feed(w', [], cfg.encode(w'.id, p)), |cfg.encode(w'.id, p)|, cfg.encode(w'.id, p)))
  {
    hide Feed;
  }

  function BuildGenerateCache(cfg: Config, e: Engine, b: Build): Engine
    requires e.model.Some?
  {
    var w := e.model.value;
    var (e1, pc) := BuildCache(cfg, e, "persona", cfg.llmId, w, cfg.personaPrefix(w.id, cfg.persona), b);
    e1.(gen := pc)
  }

  /** Load the main model and prefill its persona cache, unless it is resident. */
  function EnsureLlm(cfg: Config, e: Engine, n: Loads, b: Build): Engine {
    if e.model.Some? then e
    else match LoadLlm(cfg, e.promoted, n)
      case None => e.(activeStamp := "")
      case Some(l) =>
        BuildGenerateCache(cfg, e.(model := Some(l.w), loadedQuant := l.quant, activeStamp := Stamp(l.w.adapter)), b)
  }

  function ClsCacheId(cfg: Config, e: Engine): string {
    if e.clsId != "" then e.clsId else cfg.llmId
  }

  function BuildClassifierCache(cfg: Config, e: Engine, b: Build): Engine
    requires e.clsModel.Some?
  {
    var w := e.clsModel.value;
    var (e1, pc) := BuildCache(cfg, e, "classifier", ClsCacheId(cfg, e), w, cfg.clsPrefix(w.id), b);
    e1.(cls := pc)
  }

  /** Resolve the classify model: the dedicated one, or the main model when there is none or
      it will not load; then build its cache. `clsModel` stays `None` if nothing loads. */
  function EnsureClassifier(cfg: Config, e: Engine, dedicatedLoads: bool, n: Loads, b: Build, bCls: Build): Engine {
    if e.clsModel.Some? then e
    else if e.clsId != "" && dedicatedLoads then
      BuildClassifierCache(cfg, e.(clsModel := Some(Weights(e.clsId, None))), bCls)
    else
      var e1 := EnsureLlm(cfg, e.(clsId := ""), n, b);
      if e1.model.None? then e1 else BuildClassifierCache(cfg, e1.(clsModel := e1.model), bCls)
  }

  function AgentSlot(cfg: Config, name: string): string {
    "persona-" + cfg.slug(name)
  }

  /** Oldest entries go until at most `max` remain. */
  function LruTrim<V>(d: Dict<V>, max: nat): Dict<V> {
    if |d| <= max then d else d[|d| - max..]
  }

  /** The agent's cache, built on first use; `None` in the second component means this turn
      runs uncached. */
  function AgentCache(cfg: Config, e: Engine, name: string, text: string, b: Build): (Engine, Option<PrefixCache>)
    requires e.model.Some?
  {
    match Get(e.agents, name)
    case Some(pc) => (e.(agents := PutNewest(e.agents, name, pc)), Some(pc))
    case None =>
      var w := e.model.value;
      var (e1, built) := BuildCache(cfg, e, AgentSlot(cfg, name), cfg.llmId, w, cfg.personaPrefix(w.id, text), b);
      match built
      case None => (e1, None)
      case Some(pc) => (e1.(agents := LruTrim(PutNewest(e1.agents, name, pc), AGENT_PERSONA_CACHE_MAX)), built)
  }

  /** Drop everything that was computed with the current weights. */
  function ReloadLora(cfg: Config, e: Engine): Engine {
    var e1 := e.(model := None, activeStamp := "", gen := None, agents := [], resident := Remove(e.resident, cfg.llmId));
    if e.clsId == "" then e1.(clsModel := None, cls := None) else e1
  }

  // ---- one cached turn --------------------------------------------------------------------

  /** `trim_prompt_cache`: forget the last `n` positions, or all of them. */
  function Trim(kv: seq<Kv>, n: nat): seq<Kv> {
    if n <= |kv| then kv[..|kv| - n] else []
  }

  /** `prefix_tokens[:cache_len]`. */
  function StaticTokens(pc: PrefixCache): (r: seq<Token>)
    ensures |r| <= pc.len
  {
    if pc.len <= |pc.prefix| then pc.prefix[..pc.len] else pc.prefix
  }

  /** What a turn leaves behind. The cache is first trimmed to the part of its prefix that
      the prompt really starts with; `grown` is whatever the decode appended before it
      ended, was aborted, or raised; the exit trims back to the recorded length. */
  function AfterTurn(pc: PrefixCache, prompt: seq<Token>, grown: seq<Kv>): PrefixCache {
    var c := CommonLen(StaticTokens(pc), prompt);
    var kv := Trim(pc.kv, pc.len - c) + grown;
    PrefixCache(if |kv| > c then Trim(kv, |kv| - c) else kv, c, pc.prefix)
  }

  ghost predicate Recorded(pc: PrefixCache) {
    pc.len <= |pc.prefix| && |pc.kv| == pc.len
  }

  /** The cache holds exactly the KV state of the recorded part of its prefix, all of it
      computed by `w`. */
  ghost predicate Pure(w: Weights, pc: PrefixCache) {
    pc.len <= |pc.prefix| && pc.kv == Feed(w, [], pc.prefix[..pc.len])
  }

  /** However a turn exits, a cache whose recorded length is right afterwards holds exactly
      the agreed part of its prefix, its recorded length is right, and has not grown. */
  lemma TurnTrimsBack(pc: PrefixCache, prompt: seq<Token>, grown: seq<Kv>)
    requires Recorded(pc)
    ensures var r := AfterTurn(pc, prompt, grown);
      && Recorded(r)
      && r.len <= pc.len && r.prefix == pc.prefix
      && r.kv == pc.kv[..r.len]
      && r.len <= |prompt| && prompt[..r.len] == pc.prefix[..r.len]
      && (r.len < pc.len && r.len < |prompt| ==> prompt[r.len] != pc.prefix[r.len])
  {
    var c := CommonLen(pc.prefix[..pc.len], prompt);
    assert pc.prefix[..pc.len][..c] == pc.prefix[..c];
    assert (pc.kv[..c] + grown)[..c] == pc.kv[..c];
  }

  lemma TurnKeepsPure(w: Weights, pc: PrefixCache, prompt: seq<Token>, grown: seq<Kv>)
    requires Pure(w, pc)
    ensures Pure(w, AfterTurn(pc, prompt, grown))
  {
    TurnTrimsBack(pc, prompt, grown);
    var r := AfterTurn(pc, prompt, grown);
    FeedTake(w, [], pc.prefix[..pc.len], r.len);
    assert pc.prefix[..pc.len][..r.len] == pc.prefix[..r.len];
  }

  /** Cached decode refines uncached decode: whatever the tokenizer did at the seam, the
      trimmed cache plus the fed suffix is the KV state of the whole prompt, so the same
      sampler emits the same tokens as a fresh run. */
  lemma CachedDecodeIsFreshDecode(s: Sampler, w: Weights, pc: PrefixCache, prompt: seq<Token>, grown: seq<Kv>, budget: nat)
    requires Pure(w, pc)
    ensures var r := AfterTurn(pc, prompt, grown);
      && r.len <= |prompt|
      && Feed(w, r.kv, prompt[r.len..]) == Feed(w, [], prompt)
      && Decode(s, w, Feed(w, r.kv, prompt[r.len..]), 0, budget) == FreshDecode(s, w, prompt, budget)
  {
    TurnTrimsBack(pc, prompt, grown);
    TurnKeepsPure(w, pc, prompt, grown);
    var r := AfterTurn(pc, prompt, grown);
    assert prompt == prompt[..r.len] + prompt[r.len..];
    FeedAppend(w, [], prompt[..r.len], prompt[r.len..]);
  }

  /** A cache that agrees with the weights on every prompt is pure: the invariant the runs
      keep is not stronger than what correct replies need. */
  lemma ImpureCacheCorruptsSomeReply(w: Weights, pc: PrefixCache, prompt: seq<Token>)
    requires Recorded(pc) && !Pure(w, pc)
    requires pc.prefix[..pc.len] <= prompt && |prompt| > pc.len
    ensures exists s: Sampler :: Decode(s, w, Feed(w, pc.kv, prompt[pc.len..]), 0, 1) != FreshDecode(s, w, prompt, 1)
  {
    var head := prompt[..pc.len];
    assert head == pc.prefix[..pc.len];
    assert prompt == head + prompt[pc.len..];
    FeedAppend(w, [], head, prompt[pc.len..]);
    var bad, good := Feed(w, pc.kv, prompt[pc.len..]), Feed(w, [], prompt);
    assert bad[..pc.len] == pc.kv;
    assert good[..pc.len] == Feed(w, [], head);
    DifferentCachesDecodeDifferently(w, bad, good);
  }

  // ---- operations and runs ------------------------------------------------------------------

  /** Everything outside the engine's control during one operation. `cached`: the turn gets
      as far as its cache, that is, no draft model takes it and the voice loads. */
  datatype Nature = Nature(loads: Loads, build: Build, cacheBuild: Build, rebuild: Build,
                           extraLoads: bool, dedicatedLoads: bool, cached: bool, grown: seq<Kv>, raises: bool)

  datatype Op =
    | Promote(adapter: Option<Adapter>)
    | LoseFiles(slots: set<string>)
    | Restart
    | Reload
    | Warm(nature: Nature)
    | WarmClassifier(nature: Nature)
    | Generate(localId: string, prompt: seq<Token>, nature: Nature)
    | Converse(localId: string, agent: Option<(string, string)>, prompt: seq<Token>, nature: Nature)
    | Classify(prompt: seq<Token>, nature: Nature)

  function LocalLoader(llmId: string, model: Option<Weights>, extrasLoad: bool): string -> Option<Weights> {
    (id: string) =>
      if id == llmId then model
      else if extrasLoad then Some(Weights(id, None)) else None
  }

  /** Seed the pinned base entry, then let the warm-set manager pick who answers.
      The second component is the answering id, `None` when nothing could be loaded. */
  function EnsureLocal(cfg: Config, e: Engine, localId: string, n: Nature): (Engine, Option<string>)
    requires ValidConfig(cfg)
  {
    var e1 := EnsureLlm(cfg, e, n.loads, n.build);
    if e1.model.None? then (e1, None)
    else
      var seeded := if Get(e1.resident, cfg.llmId).None? then e1.resident + [(cfg.llmId, e1.model.value)] else e1.resident;
      var (resident, r) := WarmSet.Select(cfg.plan, seeded, localId, LocalLoader(cfg.llmId, e1.model, n.extraLoads));
      (e1.(resident := resident), if r.Selected? then Some(r.id) else None)
  }

  /** Seeding the base entry and picking the answerer, as the warm set's own steps. */
  lemma EnsureLocalUnfolds(cfg: Config, e: Engine, localId: string, n: Nature)
    requires ValidConfig(cfg)
    ensures var e1 := EnsureLlm(cfg, e, n.loads, n.build);
      EnsureLocal(cfg, e, localId, n) ==
        if e1.model.None? then (e1, None)
        else
          var seeded := WarmSet.Step(cfg.plan, e1.resident, WarmSet.SeedBase(e1.model.value));
          var (resident, r) := WarmSet.Select(cfg.plan, seeded, localId, LocalLoader(cfg.llmId, e1.model, n.extraLoads));
          (e1.(resident := resident), if r.Selected? then Some(r.id) else None)
  {
    hide EnsureLlm, WarmSet.Select, LocalLoader;
  }

  /** A decode with no suffix left to feed is an error; any other turn may raise too. */
  predicate TurnRaises(after: PrefixCache, prompt: seq<Token>, n: Nature) {
    n.raises || after.len == |prompt|
  }

  function DoGenerate(cfg: Config, e: Engine, localId: string, prompt: seq<Token>, n: Nature): Engine
    requires ValidConfig(cfg)
  {
    var (e1, who) := EnsureLocal(cfg, e, localId, n);
    if who != Some(cfg.llmId) || !n.cached || e1.gen.None? || e1.model.None? then e1
    else
      var e2 := e1.(gen := Some(AfterTurn(e1.gen.value, prompt, n.grown)));
      if TurnRaises(e2.gen.value, prompt, n) then BuildGenerateCache(cfg, e2, n.rebuild) else e2
  }

  function DoConverse(cfg: Config, e: Engine, localId: string, agent: Option<(string, string)>, prompt: seq<Token>, n: Nature): Engine
    requires ValidConfig(cfg)
  {
    var (e1, who) := EnsureLocal(cfg, e, localId, n);
    if who != Some(cfg.llmId) || !n.cached || e1.model.None? then e1
    else match agent
      case None =>
        if e1.gen.None? then e1
        else e1.(gen := Some(AfterTurn(e1.gen.value, prompt, n.grown)))
      case Some((name, text)) =>
        var (e2, pc) := AgentCache(cfg, e1, name, text, n.cacheBuild);
        if pc.None? then e2
        else e2.(agents := Assign(e2.agents, name, AfterTurn(pc.value, prompt, n.grown)))
  }

  function DoClassify(cfg: Config, e: Engine, prompt: seq<Token>, n: Nature): Engine {
    var e1 := EnsureClassifier(cfg, e, n.dedicatedLoads, n.loads, n.build, n.cacheBuild);
    if e1.clsModel.None? || e1.cls.None? then e1
    else
      var e2 := e1.(cls := Some(AfterTurn(e1.cls.value, prompt, n.grown)));
      if TurnRaises(e2.cls.value, prompt, n) then BuildClassifierCache(cfg, e2, n.rebuild) else e2
  }

  function Step(cfg: Config, e: Engine, op: Op): Engine
    requires ValidConfig(cfg)
  {
    match op
    case Promote(a) => e.(promoted := a)
    case LoseFiles(slots) => e.(disk := e.disk - slots)
    case Restart => Boot(cfg, e.promoted, e.disk)
    case Reload => ReloadLora(cfg, e)
    case Warm(n) => EnsureLlm(cfg, e, n.loads, n.build)
    case WarmClassifier(n) => EnsureClassifier(cfg, e, n.dedicatedLoads, n.loads, n.build, n.cacheBuild)
    case Generate(id, prompt, n) => DoGenerate(cfg, e, id, prompt, n)
    case Converse(id, agent, prompt, n) => DoConverse(cfg, e, id, agent, prompt, n)
    case Classify(prompt, n) => DoClassify(cfg, e, prompt, n)
  }

  function Run(cfg: Config, e: Engine, ops: seq<Op>): Engine
    requires ValidConfig(cfg)
    decreases |ops|
  {
    if ops == [] then e else Run(cfg, Step(cfg, e, ops[0]), ops[1..])
  }
}
