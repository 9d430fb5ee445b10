/** The model object has several holders: the engine's own field, the classifier's alias and
    the warm set's pinned base entry. Whatever the configuration, they never disagree: a
    reload that changes the weights evicts every other holder first. */
module EngineAliasing {
  import opened Basics
  import opened OrderedDict
  import opened KvModel
  import opened EngineSpec
  import opened EngineSafety
  import WarmSet

  ghost predicate Aligned(cfg: Config, e: Engine) {
    OneGeneration(cfg, e) && WarmSet.Inv(cfg.plan, e.resident)
  }

  ghost predicate Resident(e: Engine, id: string) {
    exists w :: (id, w) in e.resident
  }

  lemma EnsureLlmAligned(cfg: Config, e: Engine, n: Loads, b: Build)
    requires Aligned(cfg, e)
    ensures Aligned(cfg, EnsureLlm(cfg, e, n, b))
    ensures e.model.Some? ==> EnsureLlm(cfg, e, n, b).model == e.model
  {
    hide LoadLlm;
  }

  lemma EnsureClassifierAligned(cfg: Config, e: Engine, dedicated: bool, n: Loads, b: Build, bCls: Build)
    requires Aligned(cfg, e)
    ensures Aligned(cfg, EnsureClassifier(cfg, e, dedicated, n, b, bCls))
  {
    hide EnsureLlm;
    if e.clsModel.None? && !(e.clsId != "" && dedicated) {
      EnsureLlmAligned(cfg, e.(clsId := ""), n, b);
      EnsureLlmKeepsClassifier(cfg, e.(clsId := ""), n, b);
    }
  }

  lemma EnsureLlmKeepsClassifier(cfg: Config, e: Engine, n: Loads, b: Build)
    ensures var e' := EnsureLlm(cfg, e, n, b);
      e'.clsId == e.clsId && e'.clsModel == e.clsModel && e'.resident == e.resident
  {
  }

  lemma SelectAligned(cfg: Config, e: Engine, localId: string, extrasLoad: bool)
    requires ValidConfig(cfg) && WarmSet.NoDuplicates(cfg.plan) && Aligned(cfg, e) && e.model.Some?
    ensures var seeded := WarmSet.Step(cfg.plan, e.resident, WarmSet.SeedBase(e.model.value));
      var (resident, r) := WarmSet.Select(cfg.plan, seeded, localId, LocalLoader(cfg.llmId, e.model, extrasLoad));
      && Aligned(cfg, e.(resident := resident))
      && (r.Selected? ==> (r.id, r.v) in resident && (r.id == localId || r.id == cfg.llmId))
  {
    hide WarmSet.Select, WarmSet.Inv, UniqueKeys;
    var op := WarmSet.SeedBase(e.model.value);
    WarmSet.StepKeepsInv(cfg.plan, e.resident, op);
    var seeded := WarmSet.Step(cfg.plan, e.resident, op);
    WarmSet.SelectKeeps(cfg.plan, seeded, localId, LocalLoader(cfg.llmId, e.model, extrasLoad));
  }

  /** Whoever answers is resident under the reported id, which is the requested id or the
      base's; if it is the base, it is the live model. */
  lemma EnsureLocalAligned(cfg: Config, e: Engine, localId: string, n: Nature)
    requires ValidConfig(cfg) && WarmSet.NoDuplicates(cfg.plan) && Aligned(cfg, e)
    ensures var (e', who) := EnsureLocal(cfg, e, localId, n);
      && Aligned(cfg, e')
      && (who.Some? ==> e'.model.Some? && Resident(e', who.value) && (who.value == localId || who.value == cfg.llmId))
  {
    hide EnsureLlm, EnsureLocal, WarmSet.Select, WarmSet.Step, Aligned, LocalLoader;
    EnsureLlmAligned(cfg, e, n.loads, n.build);
    EnsureLocalUnfolds(cfg, e, localId, n);
    var e1 := EnsureLlm(cfg, e, n.loads, n.build);
    if e1.model.Some? {
      SelectAligned(cfg, e1, localId, n.extraLoads);
    }
  }

  lemma AgentCacheAligned(cfg: Config, e: Engine, name: string, text: string, b: Build)
    requires Aligned(cfg, e) && e.model.Some?
    ensures var e' := AgentCache(cfg, e, name, text, b).0;
      e' == e.(agents := e'.agents, disk := e'.disk)
  {
  }

  lemma StepAligned(cfg: Config, e: Engine, op: Op)
    requires ValidConfig(cfg) && WarmSet.NoDuplicates(cfg.plan) && Aligned(cfg, e)
    ensures Aligned(cfg, Step(cfg, e, op))
  {
    hide EnsureLlm, EnsureClassifier, EnsureLocal, AgentCache, AfterTurn;
    match op {
      case Promote(a) =>
      case LoseFiles(slots) =>
      case Restart =>
      case Reload => WarmSet.StepKeepsInv(cfg.plan, e.resident, WarmSet.PopBase);
      case Warm(n) => EnsureLlmAligned(cfg, e, n.loads, n.build);
      case WarmClassifier(n) => EnsureClassifierAligned(cfg, e, n.dedicatedLoads, n.loads, n.build, n.cacheBuild);
      case Generate(id, prompt, n) => EnsureLocalAligned(cfg, e, id, n);
      case Converse(id, agent, prompt, n) =>
        EnsureLocalAligned(cfg, e, id, n);
        var (e1, who) := EnsureLocal(cfg, e, id, n);
        if agent.Some? && e1.model.Some? {
          AgentCacheAligned(cfg, e1, agent.value.0, agent.value.1, n.cacheBuild);
        }
      case Classify(prompt, n) => EnsureClassifierAligned(cfg, e, n.dedicatedLoads, n.loads, n.build, n.cacheBuild);
    }
  }

  /** In every reachable state, for every configuration and every adapter pool, all holders
      of the main model hold the one in use. */
  lemma {:induction false} RunAligned(cfg: Config, e: Engine, ops: seq<Op>)
    requires ValidConfig(cfg) && WarmSet.NoDuplicates(cfg.plan) && Aligned(cfg, e)
    ensures Aligned(cfg, Run(cfg, e, ops))
    decreases |ops|
  {
    if ops != [] {
      StepAligned(cfg, e, ops[0]);
      RunAligned(cfg, Step(cfg, e, ops[0]), ops[1..]);
    }
  }

  lemma ReachableAligned(cfg: Config, promoted: Option<Adapter>, disk: map<string, Stored>, ops: seq<Op>)
    requires ValidConfig(cfg) && WarmSet.NoDuplicates(cfg.plan)
    ensures Aligned(cfg, Run(cfg, Boot(cfg, promoted, disk), ops))
  {
    RunAligned(cfg, Boot(cfg, promoted, disk), ops);
  }
}
