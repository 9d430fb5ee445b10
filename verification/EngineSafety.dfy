/** No reply is ever decoded against KV state of other weights -- exactly for those
    installations whose adapter stamps and classifier id cannot confuse the disk store. */
module EngineSafety {
  import opened Basics
  import opened OrderedDict
  import opened KvModel
  import opened EngineSpec
  import WarmSet

  // ---- which weights can be live ------------------------------------------------------------

  /** The weights the main model can end up with when only adapters from `pool` are ever
      promoted, together with the quantization the loader then reports. */
  ghost predicate Loadable(cfg: Config, pool: set<Adapter>, w: Weights, quant: string) {
    && ((quant == cfg.quant && w.id == LoadId(cfg)) || (quant == "auto" && w.id == cfg.llmId))
    && (w.adapter.Some? ==> w.adapter.value in pool && w.adapter.value.base == w.id)
  }

  lemma LoadLlmLoadable(cfg: Config, pool: set<Adapter>, promoted: Option<Adapter>, n: Loads)
    requires promoted.Some? ==> promoted.value in pool
    ensures var l := LoadLlm(cfg, promoted, n); l.Some? ==> Loadable(cfg, pool, l.value.w, l.value.quant)
  {
  }

  // ---- the condition -----------------------------------------------------------------------

  ghost predicate Clash(cfg: Config, a: Adapter, b: Adapter) {
    && a.base == b.base
    && (a.base == LoadId(cfg) || a.base == cfg.llmId)
    && Stamp(Some(a)) == Stamp(Some(b))
  }

  /** Two adapters for the same loadable checkpoint always carry different stamps. */
  ghost predicate StampsDistinct(cfg: Config, pool: set<Adapter>) {
    forall a, b :: a in pool && b in pool && Clash(cfg, a, b) ==> a == b
  }

  /** A dedicated classifier configured with the main model's own id is only harmless if the
      main model can never differ from the plain checkpoint under the same prompt template. */
  ghost predicate ClassifierSeparate(cfg: Config, pool: set<Adapter>) {
    cfg.clsId == cfg.llmId ==>
      forall w: Weights, q: string :: Loadable(cfg, pool, w, q) && cfg.clsPrefix(w.id) == cfg.clsPrefix(cfg.llmId) ==>
        w == Weights(cfg.llmId, None)
  }

  ghost predicate StoreUnambiguous(cfg: Config, pool: set<Adapter>) {
    StampsDistinct(cfg, pool) && ClassifierSeparate(cfg, pool)
  }

  // ---- the invariant ------------------------------------------------------------------------

  /** Weights `w` that, when live, would accept a file with fingerprint `fp` in `slot`. */
  ghost predicate Accepts(cfg: Config, pool: set<Adapter>, slot: string, fp: Fingerprint, w: Weights) {
    || (&& fp.modelId == cfg.llmId
        && Loadable(cfg, pool, w, fp.quant)
        && fp.adapter == Stamp(w.adapter)
        && (slot == "classifier" ==> fp.prefix == cfg.clsPrefix(w.id)))
    || (&& slot == "classifier" && cfg.clsId != "" && fp.modelId == cfg.clsId
        && w == Weights(cfg.clsId, None)
        && fp.prefix == cfg.clsPrefix(w.id))
  }

  ghost predicate DiskPure(cfg: Config, pool: set<Adapter>, disk: map<string, Stored>) {
    forall slot, w {:trigger Accepts(cfg, pool, slot, disk[slot].fp, w)} :: slot in disk && Accepts(cfg, pool, slot, disk[slot].fp, w) ==>
      disk[slot].kv == Feed(w, [], cfg.encode(w.id, disk[slot].fp.prefix))
  }

  ghost predicate CachesPure(e: Engine) {
    && (e.gen.Some? ==> e.model.Some? && Pure(e.model.value, e.gen.value))
    && (forall a :: a in e.agents ==> e.model.Some? && Pure(e.model.value, a.1))
    && (e.cls.Some? ==> e.clsModel.Some? && Pure(e.clsModel.value, e.cls.value))
  }

  /** Every holder of a model object holds the live one: the classifier alias, and the
      warm-set entry of the base. */
  ghost predicate OneGeneration(cfg: Config, e: Engine) {
    && (e.clsId == "" ==> e.clsModel == None || (e.model.Some? && e.clsModel == e.model))
    && (e.clsId != "" ==> e.clsId == cfg.clsId && (e.clsModel.Some? ==> e.clsModel.value == Weights(cfg.clsId, None)))
    && (forall r :: r in e.resident && r.0 == cfg.llmId ==> e.model == Some(r.1))
  }

  ghost predicate Inv(cfg: Config, pool: set<Adapter>, e: Engine) {
    && (e.promoted.Some? ==> e.promoted.value in pool)
    && (e.model.Some? ==> Loadable(cfg, pool, e.model.value, e.loadedQuant) && e.activeStamp == Stamp(e.model.value.adapter) && e.loadedQuant != "")
    && OneGeneration(cfg, e)
    && CachesPure(e)
    && WarmSet.Inv(cfg.plan, e.resident)
    && DiskPure(cfg, pool, e.disk)
  }

  // ---- the store cannot confuse two weights ---------------------------------------------------

  lemma AcceptsUnique(cfg: Config, pool: set<Adapter>, slot: string, fp: Fingerprint, w: Weights, w': Weights)
    requires ValidConfig(cfg) && StoreUnambiguous(cfg, pool)
    requires Accepts(cfg, pool, slot, fp, w) && Accepts(cfg, pool, slot, fp, w')
    ensures w == w'
  {
  }

  lemma BuildCachePure(cfg: Config, pool: set<Adapter>, e: Engine, slot: string, modelId: string, w: Weights, prefix: string, b: Build)
    requires ValidConfig(cfg) && StoreUnambiguous(cfg, pool)
    requires DiskPure(cfg, pool, e.disk)
    requires Accepts(cfg, pool, slot, Fingerprint(modelId, QuantStamp(cfg, e), prefix, e.activeStamp), w)
    ensures var (e', pc) := BuildCache(cfg, e, slot, modelId, w, prefix, b);
      && DiskPure(cfg, pool, e'.disk)
      && (pc.Some? ==> Pure(w, pc.value))
  {
    if !b.raises {
      var fp := Fingerprint(modelId, QuantStamp(cfg, e), prefix, e.activeStamp);
      var toks := cfg.encode(w.id, prefix);
      assert toks[..|toks|] == toks;
      if b.readable && slot in e.disk && e.disk[slot].fp == fp {
        assert Accepts(cfg, pool, slot, e.disk[slot].fp, w);
      } else {
        var disk' := e.disk[slot := Stored(fp, Feed(w, [], toks))];
        forall s, w' | s in disk' && Accepts(cfg, pool, s, disk'[s].fp, w')
          ensures disk'[s].kv == Feed(w', [], cfg.encode(w'.id, disk'[s].fp.prefix))
        {
          if s == slot {
            AcceptsUnique(cfg, pool, slot, fp, w, w');
          } else {
            assert Accepts(cfg, pool, s, e.disk[s].fp, w');
          }
        }
      }
    }
  }

  lemma BuildGeneratePure(cfg: Config, pool: set<Adapter>, e: Engine, b: Build)
    requires ValidConfig(cfg) && StoreUnambiguous(cfg, pool)
    requires Inv(cfg, pool, e.(gen := None)) && e.model.Some?
    ensures Inv(cfg, pool, BuildGenerateCache(cfg, e, b))
  {
    var w := e.model.value;
    BuildCachePure(cfg, pool, e, "persona", cfg.llmId, w, cfg.personaPrefix(w.id, cfg.persona), b);
  }

  lemma EnsureLlmPure(cfg: Config, pool: set<Adapter>, e: Engine, n: Loads, b: Build)
    requires ValidConfig(cfg) && StoreUnambiguous(cfg, pool) && Inv(cfg, pool, e)
    ensures Inv(cfg, pool, EnsureLlm(cfg, e, n, b))
    ensures var e' := EnsureLlm(cfg, e, n, b);
      e'.clsId == e.clsId && e'.clsModel == e.clsModel && e'.cls == e.cls && e'.agents == e.agents && e'.promoted == e.promoted
  {
    if e.model.None? {
      LoadLlmLoadable(cfg, pool, e.promoted, n);
      var l := LoadLlm(cfg, e.promoted, n);
      if l.Some? {
        var e1 := e.(model := Some(l.value.w), loadedQuant := l.value.quant, activeStamp := Stamp(l.value.w.adapter));
        BuildGeneratePure(cfg, pool, e1, b);
      }
    }
  }

  lemma BuildClassifierPure(cfg: Config, pool: set<Adapter>, e: Engine, b: Build)
    requires ValidConfig(cfg) && StoreUnambiguous(cfg, pool)
    requires Inv(cfg, pool, e.(cls := None)) && e.clsModel.Some?
    ensures Inv(cfg, pool, BuildClassifierCache(cfg, e, b))
  {
    var w := e.clsModel.value;
    BuildCachePure(cfg, pool, e, "classifier", ClsCacheId(cfg, e), w, cfg.clsPrefix(w.id), b);
  }

  lemma EnsureClassifierPure(cfg: Config, pool: set<Adapter>, e: Engine, dedicated: bool, n: Loads, b: Build, bCls: Build)
    requires ValidConfig(cfg) && StoreUnambiguous(cfg, pool) && Inv(cfg, pool, e)
    ensures Inv(cfg, pool, EnsureClassifier(cfg, e, dedicated, n, b, bCls))
  {
    if e.clsModel.None? {
      if e.clsId != "" && dedicated {
        BuildClassifierPure(cfg, pool, e.(clsModel := Some(Weights(e.clsId, None))), bCls);
      } else {
        EnsureLlmPure(cfg, pool, e.(clsId := ""), n, b);
        var e1 := EnsureLlm(cfg, e.(clsId := ""), n, b);
        if e1.model.Some? {
          BuildClassifierPure(cfg, pool, e1.(clsModel := e1.model), bCls);
        }
      }
    }
  }

  lemma SelectPure(cfg: Config, pool: set<Adapter>, e: Engine, localId: string, extrasLoad: bool)
    requires ValidConfig(cfg) && WarmSet.NoDuplicates(cfg.plan) && Inv(cfg, pool, e) && e.model.Some?
    ensures var seeded := WarmSet.Step(cfg.plan, e.resident, WarmSet.SeedBase(e.model.value));
      Inv(cfg, pool, e.(resident := WarmSet.Select(cfg.plan, seeded, localId, LocalLoader(cfg.llmId, e.model, extrasLoad)).0))
  {
    hide WarmSet.Select, WarmSet.Inv, UniqueKeys, DiskPure, Loadable, Pure;
    var op := WarmSet.SeedBase(e.model.value);
    WarmSet.StepKeepsInv(cfg.plan, e.resident, op);
    var seeded := WarmSet.Step(cfg.plan, e.resident, op);
    WarmSet.SelectKeeps(cfg.plan, seeded, localId, LocalLoader(cfg.llmId, e.model, extrasLoad));
  }

  lemma EnsureLocalPure(cfg: Config, pool: set<Adapter>, e: Engine, localId: string, n: Nature)
    requires ValidConfig(cfg) && WarmSet.NoDuplicates(cfg.plan) && StoreUnambiguous(cfg, pool) && Inv(cfg, pool, e)
    ensures var (e', who) := EnsureLocal(cfg, e, localId, n);
      Inv(cfg, pool, e') && (who.Some? ==> e'.model.Some?)
  {
    hide EnsureLlm, EnsureLocal, WarmSet.Select, WarmSet.Step, Inv, LocalLoader, StoreUnambiguous;
    EnsureLlmPure(cfg, pool, e, n.loads, n.build);
    EnsureLocalUnfolds(cfg, e, localId, n);
    var e1 := EnsureLlm(cfg, e, n.loads, n.build);
    if e1.model.Some? {
      SelectPure(cfg, pool, e1, localId, n.extraLoads);
    }
  }

  /** The dictionary an agent's cache lives in keeps its other entries as they were. */
  lemma AgentCachePure(cfg: Config, pool: set<Adapter>, e: Engine, name: string, text: string, b: Build)
    requires ValidConfig(cfg) && StoreUnambiguous(cfg, pool) && Inv(cfg, pool, e) && e.model.Some?
    ensures var (e', pc) := AgentCache(cfg, e, name, text, b);
      Inv(cfg, pool, e') && e'.model == e.model && (pc.Some? ==> Pure(e.model.value, pc.value))
  {
    if Get(e.agents, name).None? {
      var w := e.model.value;
      assert AgentSlot(cfg, name)[0] == 'p' && AgentSlot(cfg, name) != "classifier";
      BuildCachePure(cfg, pool, e, AgentSlot(cfg, name), cfg.llmId, w, cfg.personaPrefix(w.id, text), b);
      var (e1, built) := BuildCache(cfg, e, AgentSlot(cfg, name), cfg.llmId, w, cfg.personaPrefix(w.id, text), b);
      if built.Some? {
        var d := PutNewest(e1.agents, name, built.value);
        var t := LruTrim(d, AGENT_PERSONA_CACHE_MAX);
        forall a | a in t ensures a in d {
        }
      }
    }
  }

  lemma GeneratePure(cfg: Config, pool: set<Adapter>, e: Engine, id: string, prompt: seq<Token>, n: Nature)
    requires ValidConfig(cfg) && WarmSet.NoDuplicates(cfg.plan) && StoreUnambiguous(cfg, pool) && Inv(cfg, pool, e)
    ensures Inv(cfg, pool, DoGenerate(cfg, e, id, prompt, n))
  {
    EnsureLocalPure(cfg, pool, e, id, n);
    var (e1, who) := EnsureLocal(cfg, e, id, n);
    if who == Some(cfg.llmId) && e1.gen.Some? {
      TurnKeepsPure(e1.model.value, e1.gen.value, prompt, n.grown);
      var e2 := e1.(gen := Some(AfterTurn(e1.gen.value, prompt, n.grown)));
      assert Inv(cfg, pool, e2);
      if TurnRaises(e2.gen.value, prompt, n) {
        BuildGeneratePure(cfg, pool, e2, n.rebuild);
      }
    }
  }

  lemma BaseTurnPure(cfg: Config, pool: set<Adapter>, e: Engine, prompt: seq<Token>, grown: seq<Kv>)
    requires Inv(cfg, pool, e) && e.gen.Some?
    ensures Inv(cfg, pool, e.(gen := Some(AfterTurn(e.gen.value, prompt, grown))))
  {
    hide AfterTurn, DiskPure;
    TurnKeepsPure(e.model.value, e.gen.value, prompt, grown);
  }

  lemma AgentTurnPure(cfg: Config, pool: set<Adapter>, e: Engine, name: string, pc: PrefixCache, prompt: seq<Token>, grown: seq<Kv>)
    requires Inv(cfg, pool, e) && e.model.Some? && Pure(e.model.value, pc)
    ensures Inv(cfg, pool, e.(agents := Assign(e.agents, name, AfterTurn(pc, prompt, grown))))
  {
    hide AfterTurn, DiskPure;
    TurnKeepsPure(e.model.value, pc, prompt, grown);
    var d := Assign(e.agents, name, AfterTurn(pc, prompt, grown));
    forall a | a in d ensures Pure(e.model.value, a.1) {
      var i :| 0 <= i < |d| && d[i] == a;
      assert e.agents[i] in e.agents;
    }
  }

  lemma ConversePure(cfg: Config, pool: set<Adapter>, e: Engine, id: string, agent: Option<(string, string)>, prompt: seq<Token>, n: Nature)
    requires ValidConfig(cfg) && WarmSet.NoDuplicates(cfg.plan) && StoreUnambiguous(cfg, pool) && Inv(cfg, pool, e)
    ensures Inv(cfg, pool, DoConverse(cfg, e, id, agent, prompt, n))
  {
    hide EnsureLocal, AgentCache, AfterTurn, Inv;
    EnsureLocalPure(cfg, pool, e, id, n);
    var (e1, who) := EnsureLocal(cfg, e, id, n);
    if who == Some(cfg.llmId) {
      match agent {
        case None =>
          if e1.gen.Some? {
            BaseTurnPure(cfg, pool, e1, prompt, n.grown);
          }
        case Some((name, text)) =>
          AgentCachePure(cfg, pool, e1, name, text, n.cacheBuild);
          var (e2, pc) := AgentCache(cfg, e1, name, text, n.cacheBuild);
          if pc.Some? {
            AgentTurnPure(cfg, pool, e2, name, pc.value, prompt, n.grown);
          }
      }
    }
  }

  lemma ClassifyPure(cfg: Config, pool: set<Adapter>, e: Engine, prompt: seq<Token>, n: Nature)
    requires ValidConfig(cfg) && StoreUnambiguous(cfg, pool) && Inv(cfg, pool, e)
    ensures Inv(cfg, pool, DoClassify(cfg, e, prompt, n))
  {
    EnsureClassifierPure(cfg, pool, e, n.dedicatedLoads, n.loads, n.build, n.cacheBuild);
    var e1 := EnsureClassifier(cfg, e, n.dedicatedLoads, n.loads, n.build, n.cacheBuild);
    if e1.clsModel.Some? && e1.cls.Some? {
      TurnKeepsPure(e1.clsModel.value, e1.cls.value, prompt, n.grown);
      var e2 := e1.(cls := Some(AfterTurn(e1.cls.value, prompt, n.grown)));
      assert Inv(cfg, pool, e2);
      if TurnRaises(e2.cls.value, prompt, n) {
        BuildClassifierPure(cfg, pool, e2, n.rebuild);
      }
    }
  }

  lemma LoseFilesPure(cfg: Config, pool: set<Adapter>, disk: map<string, Stored>, slots: set<string>)
    requires DiskPure(cfg, pool, disk)
    ensures DiskPure(cfg, pool, disk - slots)
  {
    forall slot, w | slot in disk - slots && Accepts(cfg, pool, slot, (disk - slots)[slot].fp, w)
      ensures (disk - slots)[slot].kv == Feed(w, [], cfg.encode(w.id, (disk - slots)[slot].fp.prefix))
    {
      assert Accepts(cfg, pool, slot, disk[slot].fp, w);
    }
  }

  lemma StepPure(cfg: Config, pool: set<Adapter>, e: Engine, op: Op)
    requires ValidConfig(cfg) && WarmSet.NoDuplicates(cfg.plan) && StoreUnambiguous(cfg, pool) && Inv(cfg, pool, e)
    requires op.Promote? && op.adapter.Some? ==> op.adapter.value in pool
    ensures Inv(cfg, pool, Step(cfg, e, op))
  {
    hide AfterTurn, BuildCache, EnsureLlm, EnsureClassifier, DoGenerate, DoConverse, DoClassify, StoreUnambiguous;
    match op {
      case Promote(a) =>
      case LoseFiles(slots) => LoseFilesPure(cfg, pool, e.disk, slots);
      case Restart =>
      case Reload => WarmSet.StepKeepsInv(cfg.plan, e.resident, WarmSet.PopBase);
      case Warm(n) => EnsureLlmPure(cfg, pool, e, n.loads, n.build);
      case WarmClassifier(n) => EnsureClassifierPure(cfg, pool, e, n.dedicatedLoads, n.loads, n.build, n.cacheBuild);
      case Generate(id, prompt, n) => GeneratePure(cfg, pool, e, id, prompt, n);
      case Converse(id, agent, prompt, n) => ConversePure(cfg, pool, e, id, agent, prompt, n);
      case Classify(prompt, n) => ClassifyPure(cfg, pool, e, prompt, n);
    }
  }

  // ---- all runs ---------------------------------------------------------------------------------

  ghost predicate PromotesOnly(pool: set<Adapter>, ops: seq<Op>) {
    forall op :: op in ops && op.Promote? && op.adapter.Some? ==> op.adapter.value in pool
  }

  lemma {:induction false} RunPure(cfg: Config, pool: set<Adapter>, e: Engine, ops: seq<Op>)
    requires ValidConfig(cfg) && WarmSet.NoDuplicates(cfg.plan) && StoreUnambiguous(cfg, pool) && Inv(cfg, pool, e)
    requires PromotesOnly(pool, ops)
    ensures Inv(cfg, pool, Run(cfg, e, ops))
    decreases |ops|
  {
    if ops != [] {
      assert ops[0] in ops;
      StepPure(cfg, pool, e, ops[0]);
      RunPure(cfg, pool, Step(cfg, e, ops[0]), ops[1..]);
    }
  }

  /** The engine, after any run over adapters from `pool`, holds only caches of the live
      weights. */
  ghost predicate AlwaysPure(cfg: Config, pool: set<Adapter>)
    requires ValidConfig(cfg)
  {
    forall ops :: PromotesOnly(pool, ops) ==> CachesPure(Run(cfg, Boot(cfg, None, map[]), ops))
  }

  lemma UnambiguousRunsArePure(cfg: Config, pool: set<Adapter>)
    requires ValidConfig(cfg) && WarmSet.NoDuplicates(cfg.plan) && StoreUnambiguous(cfg, pool)
    ensures AlwaysPure(cfg, pool)
  {
    forall ops | PromotesOnly(pool, ops) ensures CachesPure(Run(cfg, Boot(cfg, None, map[]), ops)) {
      RunPure(cfg, pool, Boot(cfg, None, map[]), ops);
    }
  }

  /** The two static prompts tokenize to something, under every checkpoint's tokenizer. */
  ghost predicate PrefixesHaveTokens(cfg: Config) {
    forall id :: cfg.encode(id, cfg.personaPrefix(id, cfg.persona)) != [] && cfg.encode(id, cfg.clsPrefix(id)) != []
  }

  // ---- the converse: an ambiguous store really does mix weights ------------------------------------

  /** Loads under which the main model ends up as `w`, given that `w.adapter` is promoted. */
  function LoadsTo(cfg: Config, w: Weights): Loads {
    var first := w.id == LoadId(cfg);
    Loads(true, first && w.adapter.Some?, first && w.adapter.None?, w.adapter.Some?, true)
  }

  function QuantOf(cfg: Config, w: Weights): string {
    if w.id == LoadId(cfg) then cfg.quant else "auto"
  }

  function Smooth(cfg: Config, w: Weights, dedicatedLoads: bool): Nature {
    var ok := Build(false, true, true);
    Nature(LoadsTo(cfg, w), ok, ok, ok, true, dedicatedLoads, true, [], false)
  }

  lemma LoadsToReaches(cfg: Config, pool: set<Adapter>, w: Weights, quant: string)
    requires Loadable(cfg, pool, w, quant)
    ensures LoadLlm(cfg, w.adapter, LoadsTo(cfg, w)) == Some(Loaded(w, QuantOf(cfg, w)))
  {
  }

  lemma RunSnoc(cfg: Config, e: Engine, ops: seq<Op>, op: Op)
    requires ValidConfig(cfg)
    ensures Run(cfg, e, ops + [op]) == Step(cfg, Run(cfg, e, ops), op)
    decreases |ops|
  {
    if ops != [] {
      assert (ops + [op])[1..] == ops[1..] + [op];
      RunSnoc(cfg, Step(cfg, e, ops[0]), ops[1..], op);
    }
  }

  lemma RunThree(cfg: Config, e: Engine, a: Op, b: Op, c: Op)
    requires ValidConfig(cfg)
    ensures Run(cfg, e, [a, b, c]) == Step(cfg, Step(cfg, Step(cfg, e, a), b), c)
  {
    assert [a, b, c] == ([] + [a] + [b]) + [c];
    RunSnoc(cfg, e, [] + [a] + [b], c);
    RunSnoc(cfg, e, [] + [a], b);
    RunSnoc(cfg, e, [], a);
  }

  /** Two adapters with one stamp: promote one, prefill, promote the other, reload. */
  function StampClashOps(a: Adapter, b: Adapter, n: Nature): seq<Op> {
    [Promote(Some(a)), Warm(n), Promote(Some(b))] + [Reload] + [Warm(n)]
  }

  function StampClashEnd(cfg: Config, a: Adapter, b: Adapter, n: Nature): Engine {
    var e := EnsureLlm(cfg, Boot(cfg, Some(a), map[]), n.loads, n.build);
    EnsureLlm(cfg, ReloadLora(cfg, e.(promoted := Some(b))), n.loads, n.build)
  }

  lemma StampClashRun(cfg: Config, a: Adapter, b: Adapter, n: Nature)
    requires ValidConfig(cfg)
    ensures Run(cfg, Boot(cfg, None, map[]), StampClashOps(a, b, n)) == StampClashEnd(cfg, a, b, n)
  {
    var e0 := Boot(cfg, None, map[]);
    var three := [Promote(Some(a)), Warm(n), Promote(Some(b))];
    RunThree(cfg, e0, three[0], three[1], three[2]);
    RunSnoc(cfg, e0, three, Reload);
    RunSnoc(cfg, e0, three + [Reload], Warm(n));
  }

  lemma StampClashState(cfg: Config, pool: set<Adapter>, a: Adapter, b: Adapter)
    requires ValidConfig(cfg)
    requires cfg.encode(a.base, cfg.personaPrefix(a.base, cfg.persona)) != []
    requires a in pool && b in pool && a != b && Clash(cfg, a, b)
    ensures !CachesPure(StampClashEnd(cfg, a, b, Smooth(cfg, Weights(a.base, Some(a)), true)))
  {
    var wa, wb := Weights(a.base, Some(a)), Weights(b.base, Some(b));
    var n := Smooth(cfg, wa, true);
    LoadsToReaches(cfg, pool, wa, QuantOf(cfg, wa));
    LoadsToReaches(cfg, pool, wb, QuantOf(cfg, wb));
    var toks := cfg.encode(a.base, cfg.personaPrefix(a.base, cfg.persona));
    var e := EnsureLlm(cfg, Boot(cfg, Some(a), map[]), n.loads, n.build);
    assert e.disk["persona"].kv == Feed(wa, [], toks);
    var end := StampClashEnd(cfg, a, b, n);
    assert end.model == Some(wb) && end.gen == Some(PrefixCache(Feed(wa, [], toks), |toks|, toks));
    assert toks[..|toks|] == toks;
    if Pure(wb, end.gen.value) {
      FeedInjective(wa, toks, wb, toks);
    }
  }

  lemma StampClashMixes(cfg: Config, pool: set<Adapter>, a: Adapter, b: Adapter)
    requires ValidConfig(cfg)
    requires PrefixesHaveTokens(cfg)
    requires a in pool && b in pool && a != b && Clash(cfg, a, b)
    ensures !AlwaysPure(cfg, pool)
  {
    var n := Smooth(cfg, Weights(a.base, Some(a)), true);
    StampClashRun(cfg, a, b, n);
    StampClashState(cfg, pool, a, b);
    assert PromotesOnly(pool, StampClashOps(a, b, n));
  }

  /** A dedicated classifier under the main model's own id: its file is later restored into
      the alias of a main model with other weights. */
  function SharedIdOps(w: Weights, own: Nature, alias: Nature): seq<Op> {
    [Promote(w.adapter), Warm(own), WarmClassifier(own)] + [Restart] + [Warm(alias)] + [WarmClassifier(alias)]
  }

  function SharedIdFirst(cfg: Config, w: Weights, own: Nature): Engine {
    EnsureClassifier(cfg, EnsureLlm(cfg, Boot(cfg, w.adapter, map[]), own.loads, own.build),
                     own.dedicatedLoads, own.loads, own.build, own.cacheBuild)
  }

  function SharedIdEnd(cfg: Config, first: Engine, alias: Nature): Engine {
    EnsureClassifier(cfg, EnsureLlm(cfg, Boot(cfg, first.promoted, first.disk), alias.loads, alias.build),
                     alias.dedicatedLoads, alias.loads, alias.build, alias.cacheBuild)
  }

  lemma SharedIdRun(cfg: Config, w: Weights, own: Nature, alias: Nature)
    requires ValidConfig(cfg)
    ensures Run(cfg, Boot(cfg, None, map[]), SharedIdOps(w, own, alias)) == SharedIdEnd(cfg, SharedIdFirst(cfg, w, own), alias)
  {
    var e0 := Boot(cfg, None, map[]);
    var three := [Promote(w.adapter), Warm(own), WarmClassifier(own)];
    RunThree(cfg, e0, three[0], three[1], three[2]);
    RunSnoc(cfg, e0, three, Restart);
    RunSnoc(cfg, e0, three + [Restart], Warm(alias));
    RunSnoc(cfg, e0, three + [Restart] + [Warm(alias)], WarmClassifier(alias));
  }

  lemma SharedIdFirstState(cfg: Config, pool: set<Adapter>, w: Weights, quant: string)
    requires ValidConfig(cfg)
    requires cfg.clsId == cfg.llmId && Loadable(cfg, pool, w, quant)
    ensures var first := SharedIdFirst(cfg, w, Smooth(cfg, w, true));
      var prefix := cfg.clsPrefix(cfg.llmId);
      && first.promoted == w.adapter
      && "classifier" in first.disk
      && first.disk["classifier"] == Stored(Fingerprint(cfg.llmId, QuantOf(cfg, w), prefix, Stamp(w.adapter)),
                                            Feed(Weights(cfg.llmId, None), [], cfg.encode(cfg.llmId, prefix)))
  {
    LoadsToReaches(cfg, pool, w, quant);
    var own := Smooth(cfg, w, true);
    var e := EnsureLlm(cfg, Boot(cfg, w.adapter, map[]), own.loads, own.build);
    assert e.model == Some(w) && "classifier" !in e.disk;
    assert e.clsId == cfg.llmId && e.clsModel.None?;
  }

  lemma SharedIdEndState(cfg: Config, pool: set<Adapter>, w: Weights, quant: string, first: Engine, kv: seq<Kv>)
    requires ValidConfig(cfg) && Loadable(cfg, pool, w, quant)
    requires first.promoted == w.adapter && "classifier" in first.disk
    requires first.disk["classifier"] == Stored(Fingerprint(cfg.llmId, QuantOf(cfg, w), cfg.clsPrefix(w.id), Stamp(w.adapter)), kv)
    ensures var end := SharedIdEnd(cfg, first, Smooth(cfg, w, false));
      var toks := cfg.encode(w.id, cfg.clsPrefix(w.id));
      end.clsModel == Some(w) && end.cls == Some(PrefixCache(kv, |toks|, toks))
  {
    LoadsToReaches(cfg, pool, w, quant);
    var alias := Smooth(cfg, w, false);
    var e := EnsureLlm(cfg, Boot(cfg, first.promoted, first.disk), alias.loads, alias.build);
    assert e.model == Some(w) && e.disk["classifier"] == first.disk["classifier"];
    assert e.clsModel.None? && e.loadedQuant == QuantOf(cfg, w);
  }

  lemma SharedClassifierIdMixes(cfg: Config, pool: set<Adapter>, w: Weights, quant: string)
    requires ValidConfig(cfg)
    requires PrefixesHaveTokens(cfg)
    requires cfg.clsId == cfg.llmId && Loadable(cfg, pool, w, quant)
    requires cfg.clsPrefix(w.id) == cfg.clsPrefix(cfg.llmId) && w != Weights(cfg.llmId, None)
    ensures !AlwaysPure(cfg, pool)
  {
    hide EnsureClassifier, EnsureLlm, Feed, SharedIdFirst, SharedIdEnd, Step;
    var own, alias := Smooth(cfg, w, true), Smooth(cfg, w, false);
    var prefix := cfg.clsPrefix(w.id);
    var toks, toks' := cfg.encode(cfg.llmId, prefix), cfg.encode(w.id, prefix);
    var kv := Feed(Weights(cfg.llmId, None), [], toks);
    SharedIdRun(cfg, w, own, alias);
    SharedIdFirstState(cfg, pool, w, quant);
    SharedIdEndState(cfg, pool, w, quant, SharedIdFirst(cfg, w, own), kv);
    assert toks'[..|toks'|] == toks';
    if kv == Feed(w, [], toks') {
      FeedInjective(Weights(cfg.llmId, None), toks, w, toks');
    }
    assert PromotesOnly(pool, SharedIdOps(w, own, alias));
  }

  /** Main theorem. Over all runs of generate, converse, classify, promotion, reload,
      restart and lost files, every live cache belongs to the live weights if and only if
      stamps tell the adapters apart and the classifier id cannot alias the main model. */
  lemma PureIffStoreUnambiguous(cfg: Config, pool: set<Adapter>)
    requires ValidConfig(cfg) && WarmSet.NoDuplicates(cfg.plan)
    requires PrefixesHaveTokens(cfg)
    ensures AlwaysPure(cfg, pool) <==> StoreUnambiguous(cfg, pool)
  {
    if StoreUnambiguous(cfg, pool) {
      UnambiguousRunsArePure(cfg, pool);
    } else if !StampsDistinct(cfg, pool) {
      var a, b :| a in pool && b in pool && Clash(cfg, a, b) && a != b;
      StampClashMixes(cfg, pool, a, b);
    } else {
      var w: Weights, q: string :| Loadable(cfg, pool, w, q) && cfg.clsPrefix(w.id) == cfg.clsPrefix(cfg.llmId) && w != Weights(cfg.llmId, None);
      SharedClassifierIdMixes(cfg, pool, w, q);
    }
  }

  /** The concrete failure: two adapters whose manifests carry no creation date. */
  lemma UndatedAdaptersClash(cfg: Config, bits: nat, bits': nat)
    requires bits != bits'
    ensures var pool := {Adapter(bits, cfg.llmId, None), Adapter(bits', cfg.llmId, None)};
      !StoreUnambiguous(cfg, pool)
  {
    assert Clash(cfg, Adapter(bits, cfg.llmId, None), Adapter(bits', cfg.llmId, None));
  }
}
