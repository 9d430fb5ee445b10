/** The engine's steps as tables: for every outcome of the loads and of the prefill, which
    weights end up live, which caches exist and for whom, and what stays as it was. Nothing
    here mentions how a step is composed; the tables are what the step functions of
    `EngineSpec`, which all the run theorems are about, are held against. */
module EngineOutcomes {
  import opened Basics
  import opened OrderedDict
  import opened KvModel
  import opened EngineSpec
  import opened EngineAliasing
  import WarmSet

  // ---- which weights are loaded ---------------------------------------------------------------

  /** The promoted adapter was made for checkpoint `id`, and its manifest says so. */
  ghost predicate Fits(promoted: Option<Adapter>, n: Loads, id: string) {
    promoted.Some? && n.manifest && promoted.value.base == id
  }

  /** The loader's four attempts in order. `first` is the configured checkpoint, or its
      quantized variant when one is requested; the second pair is tried only for a variant,
      and is reported under its own quantization. */
  ghost predicate Serves(cfg: Config, promoted: Option<Adapter>, n: Loads, model: Option<Weights>, quant: string) {
    var first := if cfg.quant == "auto" then cfg.llmId else cfg.variantId;
    var fuse, fuseBase := Fits(promoted, n, first) && n.fused, Fits(promoted, n, cfg.llmId) && n.baseFused;
    if fuse then model == Some(Weights(first, promoted)) && quant == cfg.quant
    else if n.plain then model == Some(Weights(first, None)) && quant == cfg.quant
    else if first == cfg.llmId then model == None
    else if fuseBase then model == Some(Weights(cfg.llmId, promoted)) && quant == "auto"
    else if n.basePlain then model == Some(Weights(cfg.llmId, None)) && quant == "auto"
    else model == None
  }

  /** The loader fuses a fitting adapter whenever that load succeeds, and only then falls back
      to the plain checkpoint; on a variant that will not load it starts again with the base. */
  lemma LoadTable(cfg: Config, promoted: Option<Adapter>, n: Loads)
    ensures var l := LoadLlm(cfg, promoted, n);
      Serves(cfg, promoted, n, if l.None? then None else Some(l.value.w), if l.None? then "" else l.value.quant)
  {
  }

  /** The rows one by one. A fitting adapter is fused whenever that load succeeds, on the
      requested checkpoint and again on the base; one made for another checkpoint, or without
      a readable manifest, counts as none. */
  lemma LoadRows(cfg: Config, a: Adapter, n: Loads)
    ensures cfg.quant == "auto" && n.manifest && a.base == cfg.llmId && n.fused ==>
      LoadLlm(cfg, Some(a), n) == Some(Loaded(Weights(cfg.llmId, Some(a)), "auto"))
    ensures cfg.quant != "auto" && n.manifest && a.base == cfg.variantId && n.fused ==>
      LoadLlm(cfg, Some(a), n) == Some(Loaded(Weights(cfg.variantId, Some(a)), cfg.quant))
    ensures cfg.quant != "auto" && n.manifest && a.base == cfg.llmId != cfg.variantId && !n.plain && n.baseFused ==>
      LoadLlm(cfg, Some(a), n) == Some(Loaded(Weights(cfg.llmId, Some(a)), "auto"))
    ensures !n.manifest || (a.base != cfg.llmId && a.base != cfg.variantId) ==>
      LoadLlm(cfg, Some(a), n) == LoadLlm(cfg, None, n)
    ensures LoadLlm(cfg, None, n) ==
      if cfg.quant == "auto" then
        if n.plain then Some(Loaded(Weights(cfg.llmId, None), "auto")) else None
      else if n.plain then Some(Loaded(Weights(cfg.variantId, None), cfg.quant))
      else if cfg.variantId != cfg.llmId && n.basePlain then Some(Loaded(Weights(cfg.llmId, None), "auto"))
      else None
    ensures n.plain ==> LoadLlm(cfg, Some(a), n.(fused := false)) == LoadLlm(cfg, None, n)
  {
  }

  /** What two adapters' stamps tell apart: their creation fields, an absent or empty one
      reading "promoted". */
  lemma StampsTellCreation(a: Adapter, b: Adapter)
    ensures Stamp(None) == "" && Stamp(Some(a)) != ""
    ensures a.created.Some? && b.created.Some? && a.created.value != "" && b.created.value != "" ==>
      (Stamp(Some(a)) == Stamp(Some(b)) <==> a.created == b.created)
    ensures a.created == None || a.created == Some("") ==>
      (Stamp(Some(a)) == Stamp(Some(b)) <==> b.created in {None, Some(""), Some("promoted")})
  {
    Suffixes("lora:", if a.created.Some? && a.created.value != "" then a.created.value else "promoted",
             if b.created.Some? && b.created.value != "" then b.created.value else "promoted");
  }

  lemma Suffixes(head: string, a: string, b: string)
    ensures head + a == head + b <==> a == b
  {
    assert (head + a)[|head|..] == a && (head + b)[|head|..] == b;
  }

  // ---- which caches exist, and whose they are --------------------------------------------------

  /** Prefilled by `w` from `prefix`, or restored from a file that was saved for exactly this
      checkpoint, quantization, prefix and adapter. */
  ghost predicate BuiltFor(cfg: Config, disk: map<string, Stored>, slot: string, fp: Fingerprint, w: Weights, b: Build, pc: Option<PrefixCache>) {
    var toks := cfg.encode(w.id, fp.prefix);
    if b.raises then pc == None
    else if b.readable && slot in disk && disk[slot].fp == fp then pc == Some(PrefixCache(disk[slot].kv, |toks|, toks))
    else pc == Some(PrefixCache(Feed(w, [], toks), |toks|, toks))
  }

  /** A build writes its own slot or nothing: exactly when it prefilled and the write worked,
      the file is the prefilled cache under the fingerprint it was wanted for. */
  lemma BuildWrites(cfg: Config, e: Engine, slot: string, modelId: string, w: Weights, prefix: string, b: Build)
    ensures var (e', pc) := BuildCache(cfg, e, slot, modelId, w, prefix, b);
      var fp := Fingerprint(modelId, QuantStamp(cfg, e), prefix, e.activeStamp);
      && BuiltFor(cfg, e.disk, slot, fp, w, b, pc)
      && e' == e.(disk := if b.raises || !b.saved || (b.readable && slot in e.disk && e.disk[slot].fp == fp) then e.disk
                          else e.disk[slot := Stored(fp, Feed(w, [], cfg.encode(w.id, prefix)))])
  {
    hide Feed;
  }

  lemma BuildGenerateOutcome(cfg: Config, e: Engine, b: Build)
    requires e.model.Some?
    ensures var e' := BuildGenerateCache(cfg, e, b);
      var w := e.model.value;
      && e' == e.(gen := e'.gen, disk := e'.disk)
      && BuiltFor(cfg, e.disk, "persona", Fingerprint(cfg.llmId, QuantStamp(cfg, e), cfg.personaPrefix(w.id, cfg.persona), e.activeStamp), w, b, e'.gen)
  {
    hide Feed;
  }

  lemma BuildClassifierOutcome(cfg: Config, e: Engine, b: Build)
    requires e.clsModel.Some?
    ensures var e' := BuildClassifierCache(cfg, e, b);
      var w := e.clsModel.value;
      && e' == e.(cls := e'.cls, disk := e'.disk)
      && BuiltFor(cfg, e.disk, "classifier", Fingerprint(if e.clsId == "" then cfg.llmId else e.clsId, QuantStamp(cfg, e), cfg.clsPrefix(w.id), e.activeStamp), w, b, e'.cls)
  {
    hide Feed;
  }

  /** Warming the main model: the table above decides the weights, the cache is the persona's
      under the quantization and the stamp of what was really loaded, and nothing that belongs
      to another model is touched. A resident model is left alone. */
  lemma EnsureLlmOutcome(cfg: Config, e: Engine, n: Loads, b: Build)
    ensures var e' := EnsureLlm(cfg, e, n, b);
      && e' == e.(model := e'.model, loadedQuant := e'.loadedQuant, activeStamp := e'.activeStamp, gen := e'.gen, disk := e'.disk)
      && (e.model.Some? ==> e' == e)
      && (e.model.None? ==> Serves(cfg, e.promoted, n, e'.model, e'.loadedQuant))
      && (e.model.None? && e'.model.None? ==> e' == e.(activeStamp := ""))
      && (e.model.None? && e'.model.Some? && e'.loadedQuant != "" ==>
            var w := e'.model.value;
            && e'.activeStamp == Stamp(w.adapter)
            && BuiltFor(cfg, e.disk, "persona", Fingerprint(cfg.llmId, e'.loadedQuant, cfg.personaPrefix(w.id, cfg.persona), e'.activeStamp), w, b, e'.gen))
  {
    hide BuiltFor, BuildGenerateCache, Serves, LoadLlm;
    LoadTable(cfg, e.promoted, n);
    NothingLoaded(cfg, e.promoted, n, e.loadedQuant);
    var l := LoadLlm(cfg, e.promoted, n);
    if e.model.None? && l.Some? {
      BuildGenerateOutcome(cfg, e.(model := Some(l.value.w), loadedQuant := l.value.quant, activeStamp := Stamp(l.value.w.adapter)), b);
    }
  }

  /** The classifier: a configured model that loads, and otherwise the main model, for good. */
  lemma EnsureClassifierOutcome(cfg: Config, e: Engine, dedicated: bool, n: Loads, b: Build, bCls: Build)
    ensures var e' := EnsureClassifier(cfg, e, dedicated, n, b, bCls);
      var main := EnsureLlm(cfg, e, n, b);
      && e' == e.(model := e'.model, loadedQuant := e'.loadedQuant, activeStamp := e'.activeStamp, gen := e'.gen, disk := e'.disk,
                  clsId := e'.clsId, clsModel := e'.clsModel, cls := e'.cls)
      && (e.clsModel.Some? ==> e' == e)
      && (e.clsModel.None? && e.clsId != "" && dedicated ==>
            && e'.clsModel == Some(Weights(e.clsId, None)) && e'.clsId == e.clsId
            && e'.model == e.model && e'.gen == e.gen
            && BuiltFor(cfg, e.disk, "classifier", Fingerprint(e.clsId, QuantStamp(cfg, e), cfg.clsPrefix(e.clsId), e.activeStamp), Weights(e.clsId, None), bCls, e'.cls))
      && (e.clsModel.None? && !(e.clsId != "" && dedicated) ==>
            && e'.clsId == "" && e'.clsModel == main.model
            && e'.model == main.model && e'.gen == main.gen
            && (e'.clsModel.Some? ==>
                  var w := e'.clsModel.value;
                  BuiltFor(cfg, main.disk, "classifier", Fingerprint(cfg.llmId, QuantStamp(cfg, main), cfg.clsPrefix(w.id), main.activeStamp), w, bCls, e'.cls)))
  {
    hide BuiltFor, BuildClassifierCache, EnsureLlm, Serves, QuantStamp;
    EnsureLlmOutcome(cfg, e, n, b);
    EnsureLlmIgnoresClassifier(cfg, e, n, b);
    if e.clsModel.None? && e.clsId != "" && dedicated {
      BuildClassifierOutcome(cfg, e.(clsModel := Some(Weights(e.clsId, None))), bCls);
      SameQuantStamp(cfg, e, e.(clsModel := Some(Weights(e.clsId, None))));
    } else if e.clsModel.None? && EnsureLlm(cfg, e, n, b).model.Some? {
      var main := EnsureLlm(cfg, e, n, b);
      BuildClassifierOutcome(cfg, main.(clsId := "", clsModel := main.model), bCls);
      SameQuantStamp(cfg, main, main.(clsId := "", clsModel := main.model));
    }
  }

  lemma SameQuantStamp(cfg: Config, e: Engine, e': Engine)
    ensures e.loadedQuant == e'.loadedQuant ==> QuantStamp(cfg, e) == QuantStamp(cfg, e')
  {
  }

  lemma EnsureLlmIgnoresClassifier(cfg: Config, e: Engine, n: Loads, b: Build)
    ensures EnsureLlm(cfg, e.(clsId := ""), n, b) == EnsureLlm(cfg, e, n, b).(clsId := "")
  {
    hide LoadLlm, Feed, Stamp;
  }

  // ---- the agents' caches -------------------------------------------------------------------------

  /** An agent seen before gets the cache it had, which becomes the newest. */
  lemma AgentHit(cfg: Config, e: Engine, older: Dict<PrefixCache>, name: string, pc: PrefixCache, newer: Dict<PrefixCache>, text: string, b: Build)
    requires e.model.Some? && UniqueKeys(e.agents) && e.agents == older + [(name, pc)] + newer
    ensures AgentCache(cfg, e, name, text, b) == (e.(agents := older + newer + [(name, pc)]), Some(pc))
  {
    hide BuildCache;
    assert e.agents[|older|] == (name, pc);
    GetIs(e.agents, name, pc);
    RemoveOne(older, name, pc, newer);
  }

  /** A new agent gets a cache of the live weights for its own persona; a fifth one pushes out
      the agent that has not spoken for longest. Without a cache nothing changes. */
  lemma AgentMiss(cfg: Config, e: Engine, name: string, text: string, b: Build)
    requires e.model.Some? && |e.agents| <= 4 && forall a :: a in e.agents ==> a.0 != name
    ensures var (e', pc) := AgentCache(cfg, e, name, text, b);
      var w := e.model.value;
      && BuiltFor(cfg, e.disk, "persona-" + cfg.slug(name), Fingerprint(cfg.llmId, QuantStamp(cfg, e), cfg.personaPrefix(w.id, text), e.activeStamp), w, b, pc)
      && e' == e.(agents := e'.agents, disk := e'.disk)
      && (pc.None? ==> e' == e)
      && (pc.Some? && |e.agents| < 4 ==> e'.agents == e.agents + [(name, pc.value)])
      && (pc.Some? && |e.agents| == 4 ==> e'.agents == e.agents[1..] + [(name, pc.value)])
  {
    hide Feed;
    RemoveAbsent(e.agents, name);
  }

  /** Which entries an LRU of at most `max` keeps: all while they fit, else the newest. */
  lemma LruKeepsNewest<V>(older: Dict<V>, newer: Dict<V>, max: nat)
    ensures |older + newer| <= max ==> LruTrim(older + newer, max) == older + newer
    ensures |newer| == max ==> LruTrim(older + newer, max) == newer
  {
    if |newer| == max {
      assert (older + newer)[|older + newer| - max..] == newer;
      assert older == [] ==> older + newer == newer;
    }
  }

  ghost predicate AgentsBounded(e: Engine) {
    UniqueKeys(e.agents) && |e.agents| <= 4
  }

  lemma AgentCacheBounded(cfg: Config, e: Engine, name: string, text: string, b: Build)
    requires e.model.Some? && AgentsBounded(e)
    ensures AgentsBounded(AgentCache(cfg, e, name, text, b).0)
  {
    hide BuildCache;
    var hit := Get(e.agents, name);
    if hit.Some? {
      RemoveUnique(e.agents, name);
      PutNewestUnique(e.agents, name, hit.value);
    } else {
      var w := e.model.value;
      var (e1, built) := BuildCache(cfg, e, AgentSlot(cfg, name), cfg.llmId, w, cfg.personaPrefix(w.id, text), b);
      if built.Some? {
        PutNewestUnique(e1.agents, name, built.value);
      }
    }
  }

  lemma StepBounded(cfg: Config, e: Engine, op: Op)
    requires ValidConfig(cfg) && AgentsBounded(e)
    ensures AgentsBounded(Step(cfg, e, op))
  {
    hide EnsureLlm, EnsureClassifier, EnsureLocal, AgentCache, AfterTurn, AgentsBounded, BuildCache;
    match op {
      case Promote(a) => SameAgents(e, e.(promoted := a));
      case LoseFiles(slots) => SameAgents(e, e.(disk := e.disk - slots));
      case Restart => NoAgents(Boot(cfg, e.promoted, e.disk));
      case Reload => NoAgents(ReloadLora(cfg, e));
      case Warm(n) =>
        EnsureLlmOutcome(cfg, e, n.loads, n.build);
        SameAgents(e, Step(cfg, e, op));
      case WarmClassifier(n) =>
        EnsureClassifierOutcome(cfg, e, n.dedicatedLoads, n.loads, n.build, n.cacheBuild);
        SameAgents(e, Step(cfg, e, op));
      case Generate(id, prompt, n) =>
        GenerateLeaves(cfg, e, id, prompt, n);
        SameAgents(e, Step(cfg, e, op));
      case Converse(id, agent, prompt, n) => ConverseBounded(cfg, e, id, agent, prompt, n);
      case Classify(prompt, n) =>
        ClassifyLeaves(cfg, e, prompt, n);
        SameAgents(e, Step(cfg, e, op));
    }
  }

  lemma SameAgents(e: Engine, e': Engine)
    ensures e'.agents == e.agents && AgentsBounded(e) ==> AgentsBounded(e')
  {
  }

  lemma NoAgents(e: Engine)
    ensures e.agents == [] ==> AgentsBounded(e)
  {
  }

  lemma ConverseBounded(cfg: Config, e: Engine, id: string, agent: Option<(string, string)>, prompt: seq<Token>, n: Nature)
    requires ValidConfig(cfg) && AgentsBounded(e)
    ensures AgentsBounded(DoConverse(cfg, e, id, agent, prompt, n))
  {
    hide EnsureLlm, EnsureLocal, AgentCache, AfterTurn;
    EnsureLocalLeaves(cfg, e, id, n);
    var (e1, who) := EnsureLocal(cfg, e, id, n);
    if agent.Some? && e1.model.Some? {
      AgentCacheBounded(cfg, e1, agent.value.0, agent.value.1, n.cacheBuild);
    }
  }

  /** In every reachable state at most four agents have a cache, each of them one. */
  lemma {:induction false} RunBounded(cfg: Config, e: Engine, ops: seq<Op>)
    requires ValidConfig(cfg) && AgentsBounded(e)
    ensures AgentsBounded(Run(cfg, e, ops))
    decreases |ops|
  {
    if ops != [] {
      StepBounded(cfg, e, ops[0]);
      RunBounded(cfg, Step(cfg, e, ops[0]), ops[1..]);
    }
  }

  // ---- what an operation leaves alone ----------------------------------------------------------------

  lemma EnsureLocalLeaves(cfg: Config, e: Engine, id: string, n: Nature)
    requires ValidConfig(cfg)
    ensures var e' := EnsureLocal(cfg, e, id, n).0;
      e' == EnsureLlm(cfg, e, n.loads, n.build).(resident := e'.resident)
      && e'.agents == e.agents && e'.clsId == e.clsId && e'.clsModel == e.clsModel && e'.cls == e.cls && e'.promoted == e.promoted
  {
    hide EnsureLlm, WarmSet.Select, LocalLoader;
    EnsureLlmOutcome(cfg, e, n.loads, n.build);
  }

  /** `generate` works on the base's cache alone. If the turn raised, that cache is built
      anew; otherwise it is what the turn left. */
  lemma GenerateLeaves(cfg: Config, e: Engine, id: string, prompt: seq<Token>, n: Nature)
    requires ValidConfig(cfg)
    ensures var e1 := EnsureLocal(cfg, e, id, n).0;
      var e' := DoGenerate(cfg, e, id, prompt, n);
      && e' == e1.(gen := e'.gen, disk := e'.disk)
      && e'.agents == e.agents && e'.clsId == e.clsId && e'.clsModel == e.clsModel && e'.cls == e.cls && e'.promoted == e.promoted
      && (EnsureLocal(cfg, e, id, n).1 != Some(cfg.llmId) || !n.cached ==> e' == e1)
      && (EnsureLocal(cfg, e, id, n).1 == Some(cfg.llmId) && n.cached && e1.model.Some? && e1.gen.Some? ==>
            var after, w := AfterTurn(e1.gen.value, prompt, n.grown), e1.model.value;
            if n.raises || after.len == |prompt|
            then BuiltFor(cfg, e1.disk, "persona", Fingerprint(cfg.llmId, QuantStamp(cfg, e1), cfg.personaPrefix(w.id, cfg.persona), e1.activeStamp), w, n.rebuild, e'.gen)
            else e'.gen == Some(after) && e'.disk == e1.disk)
  {
    hide EnsureLlm, EnsureLocal, AfterTurn, BuildGenerateCache, BuiltFor, QuantStamp;
    EnsureLocalLeaves(cfg, e, id, n);
    var e1 := EnsureLocal(cfg, e, id, n).0;
    if e1.model.Some? && e1.gen.Some? {
      var e2 := e1.(gen := Some(AfterTurn(e1.gen.value, prompt, n.grown)));
      BuildGenerateOutcome(cfg, e2, n.rebuild);
      SameQuantStamp(cfg, e1, e2);
    }
  }

  /** A `converse` turn changes the cache it ran on, the base's or the agent's, and no other
      agent's; an agent's turn leaves the base's cache alone, and the other way round. */
  lemma ConverseLeaves(cfg: Config, e: Engine, id: string, agent: Option<(string, string)>, prompt: seq<Token>, n: Nature)
    requires ValidConfig(cfg) && AgentsBounded(e)
    ensures var (e1, who) := EnsureLocal(cfg, e, id, n);
      var e' := DoConverse(cfg, e, id, agent, prompt, n);
      && e' == e1.(gen := e'.gen, agents := e'.agents, disk := e'.disk)
      && e'.clsId == e.clsId && e'.clsModel == e.clsModel && e'.cls == e.cls && e'.promoted == e.promoted
      && (who != Some(cfg.llmId) || !n.cached ==> e' == e1)
      && (agent.None? ==> e'.agents == e.agents && e'.disk == e1.disk)
      && (agent.Some? ==> e'.gen == e1.gen)
      && (agent.Some? ==> forall a :: a in e'.agents && a.0 != agent.value.0 ==> a in e.agents)
      && (who == Some(cfg.llmId) && n.cached && e1.gen.Some? && e1.model.Some? && agent.None? ==> e'.gen == Some(AfterTurn(e1.gen.value, prompt, n.grown)))
      && (who == Some(cfg.llmId) && n.cached && e1.model.Some? && agent.Some? ==>
            var pc := AgentCache(cfg, e1, agent.value.0, agent.value.1, n.cacheBuild).1;
            pc.Some? ==> e'.agents != [] && e'.agents[|e'.agents| - 1] == (agent.value.0, AfterTurn(pc.value, prompt, n.grown)))
  {
    hide EnsureLlm, EnsureLocal, AgentCache, AfterTurn, Feed;
    EnsureLocalLeaves(cfg, e, id, n);
    var (e1, who) := EnsureLocal(cfg, e, id, n);
    if agent.Some? && e1.model.Some? {
      var (e2, pc) := AgentCache(cfg, e1, agent.value.0, agent.value.1, n.cacheBuild);
      AgentCacheNewest(cfg, e1, agent.value.0, agent.value.1, n.cacheBuild);
      if pc.Some? {
        var d := Assign(e2.agents, agent.value.0, AfterTurn(pc.value, prompt, n.grown));
        forall a | a in d && a.0 != agent.value.0 ensures a in e.agents {
          var i :| 0 <= i < |d| && d[i] == a;
          assert e2.agents[i] in e2.agents;
        }
      }
    }
  }

  lemma AgentCacheNewest(cfg: Config, e: Engine, name: string, text: string, b: Build)
    requires e.model.Some?
    ensures var (e', pc) := AgentCache(cfg, e, name, text, b);
      && e' == e.(agents := e'.agents, disk := e'.disk)
      && (forall a :: a in e'.agents && a.0 != name ==> a in e.agents)
      && (pc.Some? ==> e'.agents != [] && e'.agents[|e'.agents| - 1] == (name, pc.value))
      && (pc.None? ==> e' == e)
  {
    hide BuildCache;
    var (e1, built) := BuildCache(cfg, e, AgentSlot(cfg, name), cfg.llmId, e.model.value, cfg.personaPrefix(e.model.value.id, text), b);
    if built.Some? {
      var d := PutNewest(e1.agents, name, built.value);
      assert forall a :: a in LruTrim(d, AGENT_PERSONA_CACHE_MAX) ==> a in d;
    }
    if built.None? {
      BuildRaises(cfg, e, AgentSlot(cfg, name), cfg.llmId, e.model.value, cfg.personaPrefix(e.model.value.id, text), b);
    }
  }

  lemma BuildRaises(cfg: Config, e: Engine, slot: string, modelId: string, w: Weights, prefix: string, b: Build)
    ensures BuildCache(cfg, e, slot, modelId, w, prefix, b).1.None? ==> BuildCache(cfg, e, slot, modelId, w, prefix, b).0 == e
  {
    hide Feed;
  }

  /** `classify` works on the classifier's cache alone. */
  lemma ClassifyLeaves(cfg: Config, e: Engine, prompt: seq<Token>, n: Nature)
    ensures var e1 := EnsureClassifier(cfg, e, n.dedicatedLoads, n.loads, n.build, n.cacheBuild);
      var e' := DoClassify(cfg, e, prompt, n);
      && e' == e1.(cls := e'.cls, disk := e'.disk)
      && e'.agents == e.agents && e'.promoted == e.promoted && e'.resident == e.resident
      && (e.model.Some? || (e.clsId != "" && n.dedicatedLoads) ==> e'.model == e.model && e'.gen == e.gen)
      && (e1.clsModel.Some? && e1.cls.Some? ==>
            var after, w := AfterTurn(e1.cls.value, prompt, n.grown), e1.clsModel.value;
            if n.raises || after.len == |prompt|
            then BuiltFor(cfg, e1.disk, "classifier", Fingerprint(if e1.clsId == "" then cfg.llmId else e1.clsId, QuantStamp(cfg, e1), cfg.clsPrefix(w.id), e1.activeStamp), w, n.rebuild, e'.cls)
            else e'.cls == Some(after) && e'.disk == e1.disk)
  {
    hide EnsureLlm, EnsureClassifier, AfterTurn, BuildClassifierCache, BuiltFor, QuantStamp, Serves;
    var e1 := EnsureClassifier(cfg, e, n.dedicatedLoads, n.loads, n.build, n.cacheBuild);
    if e1.clsModel.Some? && e1.cls.Some? {
      var e2 := e1.(cls := Some(AfterTurn(e1.cls.value, prompt, n.grown)));
      BuildClassifierOutcome(cfg, e2, n.rebuild);
      SameQuantStamp(cfg, e1, e2);
    }
    EnsureClassifierOutcome(cfg, e, n.dedicatedLoads, n.loads, n.build, n.cacheBuild);
    EnsureLlmOutcome(cfg, e, n.loads, n.build);
  }

  /** With a main model there is always an answer: from the requested model if it is planned
      and is or can be made resident, and from the base otherwise. An extra becomes resident
      as the plain checkpoint of its own id. */
  lemma WhoAnswers(cfg: Config, e: Engine, id: string, n: Nature)
    requires ValidConfig(cfg) && WarmSet.NoDuplicates(cfg.plan) && Aligned(cfg, e)
    ensures var (e1, who) := EnsureLocal(cfg, e, id, n);
      && (who.None? <==> e1.model.None?)
      && (e1.model.Some? ==>
            who == if id != "" && id in cfg.plan && (n.extraLoads || Resident(e, id)) then Some(id) else Some(cfg.llmId))
      && (forall r :: r in e1.resident ==> r in e.resident || (r.0 == cfg.llmId && e1.model == Some(r.1)) || r.1 == Weights(r.0, None))
  {
    hide EnsureLlm, EnsureLocal, WarmSet.Select, WarmSet.Step, WarmSet.Inv, Aligned;
    EnsureLlmAligned(cfg, e, n.loads, n.build);
    EnsureLlmOutcome(cfg, e, n.loads, n.build);
    EnsureLocalUnfolds(cfg, e, id, n);
    var e1 := EnsureLlm(cfg, e, n.loads, n.build);
    if e1.model.Some? {
      Selects(cfg, e1, id, n.extraLoads);
    }
  }

  lemma Selects(cfg: Config, e: Engine, id: string, extrasLoad: bool)
    requires ValidConfig(cfg) && WarmSet.NoDuplicates(cfg.plan) && Aligned(cfg, e) && e.model.Some?
    ensures var seeded := WarmSet.Step(cfg.plan, e.resident, WarmSet.SeedBase(e.model.value));
      var r := WarmSet.Select(cfg.plan, seeded, id, LocalLoader(cfg.llmId, e.model, extrasLoad)).1;
      && r.Selected?
      && r.id == (if id != "" && id in cfg.plan && (extrasLoad || Resident(e, id)) then id else cfg.llmId)
      && (forall x :: x in WarmSet.Select(cfg.plan, seeded, id, LocalLoader(cfg.llmId, e.model, extrasLoad)).0 ==>
            x in e.resident || (x.0 == cfg.llmId && e.model == Some(x.1)) || x.1 == Weights(x.0, None))
  {
    hide WarmSet.Inv, UniqueKeys;
    var seeded := WarmSet.Step(cfg.plan, e.resident, WarmSet.SeedBase(e.model.value));
    var load := LocalLoader(cfg.llmId, e.model, extrasLoad);
    WarmSet.StepKeepsInv(cfg.plan, e.resident, WarmSet.SeedBase(e.model.value));
    WarmSet.SelectKeeps(cfg.plan, seeded, id, load);
    BaseSeeded(cfg, e);
    if Resident(e, id) {
      var w :| (id, w) in e.resident;
      assert (id, w) in seeded;
    }
  }

  lemma BaseSeeded(cfg: Config, e: Engine)
    requires ValidConfig(cfg) && e.model.Some?
    ensures var seeded := WarmSet.Step(cfg.plan, e.resident, WarmSet.SeedBase(e.model.value));
      Get(seeded, cfg.llmId).Some? && forall r :: r in seeded && r.0 != cfg.llmId ==> r in e.resident
  {
    var seeded := e.resident + [(cfg.llmId, e.model.value)];
    assert seeded[|e.resident|] == (cfg.llmId, e.model.value);
  }

  // ---- a reload goes live everywhere ---------------------------------------------------------------

  /** A reload drops the model, every cache it computed, the base's warm entry, and the
      classifier if it is the main model's alias. It keeps the extras, in their order, a
      dedicated classifier with its cache, and the files. */
  lemma ReloadOutcome(cfg: Config, e: Engine)
    ensures var e' := ReloadLora(cfg, e);
      && e'.model == None && e'.activeStamp == "" && e'.gen == None && e'.agents == []
      && (forall r :: r in e'.resident <==> r in e.resident && r.0 != cfg.llmId)
      && (forall older, w, newer :: UniqueKeys(e.resident) && e.resident == older + [(cfg.llmId, w)] + newer ==> e'.resident == older + newer)
      && (if e.clsId == "" then e'.clsModel == None && e'.cls == None else e'.clsModel == e.clsModel && e'.cls == e.cls)
      && e'.clsId == e.clsId && e'.promoted == e.promoted && e'.disk == e.disk && e'.loadedQuant == e.loadedQuant
  {
    hide Remove;
    forall older, w, newer | UniqueKeys(e.resident) && e.resident == older + [(cfg.llmId, w)] + newer
      ensures Remove(e.resident, cfg.llmId) == older + newer
    {
      RemoveOne(older, cfg.llmId, w, newer);
    }
  }

  /** After a promotion or a rollback and a reload, whichever operation comes first, the next
      load puts exactly the weights the promotion calls for behind every generation surface:
      the model itself, the base entry of the warm set, and the classifier's alias. */
  lemma ReloadGoesLive(cfg: Config, e: Engine, promoted: Option<Adapter>, id: string, n: Nature, w: Weights, quant: string)
    requires ValidConfig(cfg) && WarmSet.NoDuplicates(cfg.plan) && Aligned(cfg, e)
    requires Serves(cfg, promoted, n.loads, Some(w), quant)
    ensures var e0 := Step(cfg, Step(cfg, e, Promote(promoted)), Reload);
      var (e1, who) := EnsureLocal(cfg, e0, id, n);
      && e1.model == Some(w)
      && (forall v :: (cfg.llmId, v) in e1.resident ==> v == w)
      && (who == Some(cfg.llmId) ==> (cfg.llmId, w) in e1.resident)
      && (e.clsId == "" ==> EnsureClassifier(cfg, e0, n.dedicatedLoads, n.loads, n.build, n.cacheBuild).clsModel == Some(w))
  {
    hide EnsureLocal, EnsureLlm, EnsureClassifier, WarmSet.Inv, Remove;
    StepAligned(cfg, e, Promote(promoted));
    var e0' := Step(cfg, e, Promote(promoted));
    StepAligned(cfg, e0', Reload);
    var e0 := Step(cfg, e0', Reload);
    EnsureLocalAligned(cfg, e0, id, n);
    EnsureLocalLeaves(cfg, e0, id, n);
    EnsureLlmOutcome(cfg, e0, n.loads, n.build);
    ServesUnique(cfg, promoted, n.loads, Some(w), quant, EnsureLlm(cfg, e0, n.loads, n.build).model, EnsureLlm(cfg, e0, n.loads, n.build).loadedQuant);
    EnsureClassifierOutcome(cfg, e0, n.dedicatedLoads, n.loads, n.build, n.cacheBuild);
  }

  lemma NothingLoaded(cfg: Config, promoted: Option<Adapter>, n: Loads, quant: string)
    ensures LoadLlm(cfg, promoted, n).None? ==> Serves(cfg, promoted, n, None, quant)
  {
  }

  lemma ServesUnique(cfg: Config, promoted: Option<Adapter>, n: Loads, a: Option<Weights>, qa: string, b: Option<Weights>, qb: string)
    requires Serves(cfg, promoted, n, a, qa) && Serves(cfg, promoted, n, b, qb)
    ensures a == b && (a.Some? ==> qa == qb)
  {
  }
}
