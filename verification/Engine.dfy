/** The inference engine itself: the fields its operations reassign, its decode loops, and
    the trimming every exit performs. Each operation is proved to take the state machine of
    `EngineSpec` one step, and each reply to be the reply of an uncached run. All of it runs
    under the engine's one lock. */
module Engine {
  import opened Basics
  import opened OrderedDict
  import opened KvModel
  import opened EngineSpec
  import Safety = EngineSafety
  import Aliasing = EngineAliasing
  import Outcomes = EngineOutcomes
  import WarmSet
  import Sentences
  import Speech

  /** What the world does at one step of a decode: nothing, the peer is found gone, or the
      decode raises. */
  datatype Signal = Proceed | PeerGone | Crash

  /** How a turn ended. The tokens are those whose text was collected before it did. */
  datatype Turn =
    | Reply(w: Weights, tokens: seq<Token>)
    | Aborted(w: Weights, tokens: seq<Token>)
    | Raised(tokens: seq<Token>)
    | Unavailable
  {
    predicate Replied() {
      Reply? || Aborted?
    }
  }

  /** What the reply parser makes of a text: the classification, the contract's fallback for a
      text it cannot read, or an exception it does not catch. */
  datatype Classification = Intent(name: string) | EscalateToCloud | ParserRaises

  /** The piece of text a token adds, given the tokens before it. */
  type Detokenizer = (seq<Token>, Token) -> string

  /** The speaking side of a `converse` turn. */
  datatype Voice = Voice(alphabet: Sentences.Alphabet, text: Detokenizer, synth: Speech.Synthesizer)

  function Pieces(text: Detokenizer, tokens: seq<Token>): (r: seq<string>)
    ensures |r| == |tokens|
  {
    seq(|tokens|, i requires 0 <= i < |tokens| => text(tokens[..i], tokens[i]))
  }

  /** What a voice has made of `tokens` so far, and with the final flush; the silent voice
      makes nothing of them. */
  ghost function HeardBy(voice: Option<Voice>, tokens: seq<Token>): Speech.Speaker {
    match voice
    case None => Speech.Silent()
    case Some(v) => Speech.AbsorbAll(v.alphabet, v.synth, Speech.Silent(), Pieces(v.text, tokens))
  }

  ghost function FlushedBy(voice: Option<Voice>, tokens: seq<Token>): Speech.Speaker {
    match voice
    case None => Speech.Silent()
    case Some(v) => Speech.Flush(v.alphabet, v.synth, HeardBy(voice, tokens))
  }

  lemma HeardNothing(voice: Option<Voice>)
    ensures HeardBy(voice, []) == Speech.Silent()
  {
  }

  lemma HeardBySnoc(v: Voice, tokens: seq<Token>, tok: Token)
    ensures HeardBy(Some(v), tokens + [tok]) == Speech.Absorb(v.alphabet, v.synth, HeardBy(Some(v), tokens), v.text(tokens, tok))
  {
    assert (tokens + [tok])[..|tokens|] == tokens;
    assert forall i :: 0 <= i < |tokens| ==> (tokens + [tok])[..i] == tokens[..i];
    assert Pieces(v.text, tokens + [tok]) == Pieces(v.text, tokens) + [v.text(tokens, tok)];
    Speech.AbsorbAllSnoc(v.alphabet, v.synth, Speech.Silent(), Pieces(v.text, tokens), v.text(tokens, tok));
  }

  /** The world raises at step `k`; the prefill counts as part of step 0. */
  predicate CrashesAt(world: nat -> Signal, budget: nat, k: nat) {
    world(k).Crash? && (k < budget || k == 0)
  }

  /** Up to and including the step before the last token of `tokens`, nothing interrupted the
      decode and nothing went wrong with the voice. */
  ghost predicate Undisturbed(world: nat -> Signal, voice: Option<Voice>, tokens: seq<Token>) {
    forall i :: 0 <= i < |tokens| ==> world(i).Proceed? && !HeardBy(voice, tokens[..i]).failed
  }

  /** How a turn ends when the decode would emit `all`: the first thing that goes wrong
      decides. `unfed`: there is nothing left to feed. */
  ghost predicate EndsAs(turn: Turn, sp: Speech.Speaker, w: Weights, all: seq<Token>, world: nat -> Signal, budget: nat, unfed: bool, voice: Option<Voice>) {
    match turn
    case Unavailable => false
    case Reply(w', t) =>
      w' == w && t == all && Undisturbed(world, voice, t) && !unfed && !CrashesAt(world, budget, |t|)
      && sp == FlushedBy(voice, t) && !HeardBy(voice, t).failed && !sp.failed
    case Aborted(w', t) =>
      w' == w && t < all && Undisturbed(world, voice, t) && !unfed && world(|t|).PeerGone?
      && sp == HeardBy(voice, t) && !sp.failed
    case Raised(t) =>
      t <= all && Undisturbed(world, voice, t) &&
      if unfed then t == [] && sp == HeardBy(voice, [])
      else if HeardBy(voice, t).failed then sp == HeardBy(voice, t)
      else if CrashesAt(world, budget, |t|) then sp == HeardBy(voice, t)
      else t == all && sp == FlushedBy(voice, t) && sp.failed
  }

  lemma UndisturbedSnoc(world: nat -> Signal, voice: Option<Voice>, tokens: seq<Token>, tok: Token)
    requires Undisturbed(world, voice, tokens) && world(|tokens|).Proceed? && !HeardBy(voice, tokens).failed
    ensures Undisturbed(world, voice, tokens + [tok])
  {
    hide HeardBy;
    assert (tokens + [tok])[..|tokens|] == tokens;
    forall i | 0 <= i < |tokens| ensures (tokens + [tok])[..i] == tokens[..i] {
    }
  }

  /** A turn stopped at `t` and another that got past it cannot both have ended as they
      should. */
  lemma StoppedBefore(turn: Turn, sp: Speech.Speaker, w: Weights, all: seq<Token>, world: nat -> Signal, budget: nat, unfed: bool, voice: Option<Voice>, longer: seq<Token>)
    requires EndsAs(turn, sp, w, all, world, budget, unfed, voice) && |all| <= budget && !HeardBy(voice, []).failed
    requires turn.tokens < longer <= all && Undisturbed(world, voice, longer)
    ensures unfed
  {
    hide HeardBy, FlushedBy;
    assert longer[..|turn.tokens|] == turn.tokens;
  }

  /** The ending is determined: nothing but the decode, the world and the voice decides how a
      turn ends, with what tokens, and what has been spoken. */
  lemma EndingUnique(a: Turn, sa: Speech.Speaker, b: Turn, sb: Speech.Speaker, w: Weights, all: seq<Token>, world: nat -> Signal, budget: nat, unfed: bool, voice: Option<Voice>)
    requires EndsAs(a, sa, w, all, world, budget, unfed, voice)
    requires EndsAs(b, sb, w, all, world, budget, unfed, voice)
    requires |all| <= budget
    ensures a == b && sa == sb
  {
    hide HeardBy, FlushedBy;
    HeardNothing(voice);
    assert a.tokens <= all && b.tokens <= all;
    if |a.tokens| < |b.tokens| {
      assert a.tokens < b.tokens;
      StoppedBefore(a, sa, w, all, world, budget, unfed, voice, b.tokens);
    } else if |b.tokens| < |a.tokens| {
      assert b.tokens < a.tokens;
      StoppedBefore(b, sb, w, all, world, budget, unfed, voice, a.tokens);
    } else {
      assert a.tokens == b.tokens;
    }
  }

  method CommonPrefix(cached: seq<Token>, full: seq<Token>) returns (common: nat)
    ensures common == CommonLen(cached, full)
  {
    common := 0;
    while common < |cached| && common < |full|
      invariant common <= |cached| && common <= |full|
      invariant forall k :: 0 <= k < common ==> cached[k] == full[k]
    {
      if cached[common] != full[common] {
        break;
      }
      common := common + 1;
    }
    assert cached[..common] == full[..common];
    CommonLenUnique(cached, full, common);
  }

  /** The shared decode loop. `kv` is the cache after the seam trim; `live` is the cache as
      the loop leaves it. A prompt with nothing left to feed is an error. `voice`, when
      given, hears every piece and the final flush. */
  method DecodeLoop(w: Weights, kv: seq<Kv>, suffix: seq<Token>, s: Sampler, budget: nat, world: nat -> Signal, voice: Option<Voice>)
    returns (turn: Turn, live: seq<Kv>, sp: Speech.Speaker)
    requires voice.Some? ==> Sentences.ValidAlphabet(voice.value.alphabet)
    ensures kv <= live
    ensures EndsAs(turn, sp, w, Decode(s, w, Feed(w, kv, suffix), 0, budget), world, budget, suffix == [], voice)
  {
    hide Feed, Decode, Owes, HeardBy, FlushedBy, Undisturbed, Speech.Absorb, Speech.Flush;
    live, sp := kv, Speech.Silent();
    var out: seq<Token> := [];
    HeardNothing(voice);
    StartUndisturbed(world, voice);
    if suffix == [] || world(0).Crash? {
      return Raised(out), live, sp;
    }
    live := Feed(w, kv, suffix);
    ghost var all := Decode(s, w, live, 0, budget);
    OwesAll(s, w, live, budget);
    var exhausted := false;
    while |out| < budget && !exhausted
      invariant |out| <= budget && kv <= live
      invariant if exhausted then all == out && !CrashesAt(world, budget, |out|) else Owes(s, w, live, out, budget, all)
      invariant sp == HeardBy(voice, out) && !sp.failed
      invariant Undisturbed(world, voice, out) && !world(0).Crash?
      decreases budget - |out|, !exhausted
    {
      OwesOneLess(s, w, live, out, budget, all);
      if world(|out|).Crash? {
        return Raised(out), live, sp;
      }
      var tok := s.pick(w, live, |out|);
      if s.stop(tok) {
        exhausted := true;
      } else {
        if world(|out|).PeerGone? {
          return Aborted(w, out), live, sp;
        }
        UndisturbedSnoc(world, voice, out, tok);
        HeardNextPiece(voice, out, tok);
        live := Feed(w, live, [tok]);
        if voice.Some? {
          sp := Speech.Hear(voice.value.alphabet, voice.value.synth, sp, voice.value.text(out, tok), false);
        }
        out := out + [tok];
        if sp.failed {
          OwesOneLess(s, w, live, out, budget, all);
          return Raised(out), live, sp;
        }
      }
    }
    if !exhausted {
      OwesOneLess(s, w, live, out, budget, all);
    }
    FlushedAfter(voice, out);
    if voice.Some? {
      sp := Speech.Hear(voice.value.alphabet, voice.value.synth, sp, "", true);
      if sp.failed {
        return Raised(out), live, sp;
      }
    }
    return Reply(w, out), live, sp;
  }

  lemma StartUndisturbed(world: nat -> Signal, voice: Option<Voice>)
    ensures Undisturbed(world, voice, [])
  {
  }

  /** The silent voice stays silent; a real one absorbs the next piece. */
  lemma HeardNextPiece(voice: Option<Voice>, tokens: seq<Token>, tok: Token)
    ensures voice.None? ==> HeardBy(voice, tokens + [tok]) == HeardBy(voice, tokens)
    ensures voice.Some? ==>
      HeardBy(voice, tokens + [tok]) == Speech.Absorb(voice.value.alphabet, voice.value.synth, HeardBy(voice, tokens), voice.value.text(tokens, tok))
  {
    if voice.Some? {
      HeardBySnoc(voice.value, tokens, tok);
    }
  }

  lemma FlushedAfter(voice: Option<Voice>, tokens: seq<Token>)
    ensures voice.None? ==> FlushedBy(voice, tokens) == HeardBy(voice, tokens) == Speech.Silent()
    ensures voice.Some? ==> FlushedBy(voice, tokens) == Speech.Flush(voice.value.alphabet, voice.value.synth, HeardBy(voice, tokens))
  {
  }

  /** What decoding against a prefix cache emits: trim to the seam, feed the rest. */
  ghost function CachedDecode(s: Sampler, w: Weights, pc: PrefixCache, prompt: seq<Token>, budget: nat): seq<Token> {
    var c := CommonLen(StaticTokens(pc), prompt);
    Decode(s, w, Feed(w, Trim(pc.kv, pc.len - c), prompt[c..]), 0, budget)
  }

  lemma CachedDecodeIsFresh(s: Sampler, w: Weights, pc: PrefixCache, prompt: seq<Token>, budget: nat)
    requires Pure(w, pc)
    ensures CachedDecode(s, w, pc, prompt, budget) == FreshDecode(s, w, prompt, budget)
  {
    CachedDecodeIsFreshDecode(s, w, pc, prompt, [], budget);
    TurnTrimsBack(pc, prompt, []);
  }

  /** A turn against one prefix cache: trim it to the seam the tokenizer really produced,
      decode, and trim everything past the static part on every exit. `junk` is whatever
      else the interrupted or finished generator left in the cache. */
  method CachedTurn(pc0: PrefixCache, w: Weights, prompt: seq<Token>, s: Sampler, budget: nat, world: nat -> Signal, junk: seq<Kv>, voice: Option<Voice>)
    returns (pc: PrefixCache, turn: Turn, sp: Speech.Speaker, ghost grown: seq<Kv>)
    requires voice.Some? ==> Sentences.ValidAlphabet(voice.value.alphabet)
    ensures pc == AfterTurn(pc0, prompt, grown)
    ensures EndsAs(turn, sp, w, CachedDecode(s, w, pc0, prompt, budget), world, budget, pc.len == |prompt|, voice)
  {
    hide Feed, Decode, EndsAs, CachedDecode, AfterTurn, Trim, StaticTokens;
    var common := CommonPrefix(StaticTokens(pc0), prompt);
    var kv, len := pc0.kv, pc0.len;
    SeamTrim(pc0, prompt, s, w, budget);
    if common < len {
      kv, len := Trim(kv, len - common), common;
    }
    var suffix := prompt[len..];
    var live;
    turn, live, sp := DecodeLoop(w, kv, suffix, s, budget, world, voice);
    grown := live[|kv|..] + junk;
    assert live + junk == kv + grown;
    live := live + junk;
    var added := |live| - len;
    ExitTrim(pc0, prompt, grown);
    if added > 0 {
      live := Trim(live, added);
    }
    pc := PrefixCache(live, len, pc0.prefix);
  }

  /** At the seam: what is kept, and what the rest of the prompt decodes to. */
  lemma SeamTrim(pc: PrefixCache, prompt: seq<Token>, s: Sampler, w: Weights, budget: nat)
    ensures var c := CommonLen(StaticTokens(pc), prompt);
      && c <= pc.len && c <= |prompt|
      && (c == pc.len ==> Trim(pc.kv, pc.len - c) == pc.kv)
      && CachedDecode(s, w, pc, prompt, budget) == Decode(s, w, Feed(w, Trim(pc.kv, pc.len - c), prompt[c..]), 0, budget)
  {
    hide Feed, Decode;
  }

  lemma ExitTrim(pc: PrefixCache, prompt: seq<Token>, grown: seq<Kv>)
    ensures var c := CommonLen(StaticTokens(pc), prompt);
      var kv := Trim(pc.kv, pc.len - c) + grown;
      AfterTurn(pc, prompt, grown) == PrefixCache(if |kv| > c then Trim(kv, |kv| - c) else kv, c, pc.prefix)
  {
  }

  /** `od[key] = value; od.move_to_end(key)`, then pop from the old end down to `max`. */
  method LruInsert<V(!new)>(od: Dict<V>, key: string, value: V, max: nat) returns (r: Dict<V>)
    ensures r == LruTrim(PutNewest(od, key, value), max)
  {
    r := PutNewest(od, key, value);
    ghost var all := r;
    while |r| > max
      invariant |r| <= |all| && r == all[|all| - |r|..]
      invariant |r| >= max || r == all
    {
      r := r[1..];
    }
  }

  class InferenceEngine {
    const cfg: Config
    const manager: WarmSet.LocalWarmManager<Weights>
    var model: Option<Weights>
    var quantLoaded: string
    var activeAdapter: string
    var genCache: Option<seq<Kv>>
    var genCacheLen: nat
    var genPrefixTokens: seq<Token>
    var agentGenCaches: Dict<PrefixCache>
    var classifierId: string
    var clsModel: Option<Weights>
    var clsCache: Option<seq<Kv>>
    var clsCacheLen: nat
    var clsPrefixTokens: seq<Token>
    var promoted: Option<Adapter>
    var disk: map<string, Stored>

    ghost predicate Valid()
      reads this, manager
    {
      && ValidConfig(cfg)
      && manager.Valid() && manager.plan == cfg.plan && manager.baseId == cfg.llmId
    }

    /** The fields as a state of the machine. A recorded length or prefix beside a cache that
        is gone is dead, and does not show. */
    ghost function State(): EngineSpec.Engine
      reads this, manager
    {
      EngineSpec.Engine(
        model, quantLoaded, activeAdapter,
        if genCache.None? then None else Some(PrefixCache(genCache.value, genCacheLen, genPrefixTokens)),
        agentGenCaches, classifierId, clsModel,
        if clsCache.None? then None else Some(PrefixCache(clsCache.value, clsCacheLen, clsPrefixTokens)),
        manager.resident, promoted, disk)
    }

    constructor (cfg: Config, configured: seq<string>, budget: real, size: WarmSet.Sizes, disk: map<string, Stored>, promoted: Option<Adapter>)
      requires ValidConfig(cfg) && cfg.plan == WarmSet.WarmPlan(cfg.llmId, configured, budget, size)
      ensures Valid() && this.cfg == cfg && fresh(manager)
      ensures State() == Boot(cfg, promoted, disk)
    {
      this.cfg := cfg;
      manager := new WarmSet.LocalWarmManager(cfg.llmId, configured, budget, size);
      model, quantLoaded, activeAdapter := None, "", "";
      genCache, genCacheLen, genPrefixTokens := None, 0, [];
      agentGenCaches := [];
      classifierId, clsModel := cfg.clsId, None;
      clsCache, clsCacheLen, clsPrefixTokens := None, 0, [];
      this.promoted, this.disk := promoted, disk;
    }

    // ---- building caches ----------------------------------------------------------------

    /** Restore or prefill; the fields of the cache's owner are the caller's to set. */
    method PrefillCache(slot: string, modelId: string, w: Weights, prefix: string, b: Build) returns (pc: Option<PrefixCache>)
      requires Valid()
      modifies this`disk
      ensures Valid() && (State(), pc) == BuildCache(cfg, old(State()), slot, modelId, w, prefix, b)
    {
      var tokens := cfg.encode(w.id, prefix);
      if b.raises {
        return None;
      }
      var quant := if quantLoaded != "" then quantLoaded else cfg.quant;
      var want := Fingerprint(modelId, quant, prefix, activeAdapter);
      if b.readable && slot in disk && disk[slot].fp == want {
        return Some(PrefixCache(disk[slot].kv, |tokens|, tokens));
      }
      var kv := Feed(w, [], tokens);
      if b.saved {
        disk := disk[slot := Stored(want, kv)];
      }
      return Some(PrefixCache(kv, |tokens|, tokens));
    }

    method BuildGenCache(b: Build)
      requires Valid() && model.Some?
      modifies this
      ensures Valid() && State() == BuildGenerateCache(cfg, old(State()), b)
      ensures model == old(model) && quantLoaded == old(quantLoaded) && activeAdapter == old(activeAdapter)
    {
      var w := model.value;
      var state := PrefillCache("persona", cfg.llmId, w, cfg.personaPrefix(w.id, cfg.persona), b);
      if state.None? {
        genCache := None;
        return;
      }
      genCache, genCacheLen, genPrefixTokens := Some(state.value.kv), state.value.len, state.value.prefix;
    }

    method EnsureModel(n: Loads, b: Build)
      requires Valid()
      modifies this
      ensures Valid() && State() == EnsureLlm(cfg, old(State()), n, b)
      ensures old(model).Some? ==> State() == old(State())
      ensures old(model).None? ==>
        && Outcomes.Serves(cfg, old(promoted), n, model, quantLoaded)
        && activeAdapter == (if model.None? then "" else Stamp(model.value.adapter))
    {
      hide LoadLlm, BuildGenerateCache, Outcomes.Serves, WarmSet.Inv, WarmSet.NoDuplicates, WarmSet.Capacity;
      Outcomes.LoadTable(cfg, promoted, n);
      Outcomes.NothingLoaded(cfg, promoted, n, quantLoaded);
      if model.Some? {
        return;
      }
      activeAdapter := "";
      var loaded := LoadLlm(cfg, promoted, n);
      if loaded.None? {
        return;
      }
      model, quantLoaded := Some(loaded.value.w), loaded.value.quant;
      activeAdapter := Stamp(loaded.value.w.adapter);
      BuildGenCache(b);
    }

    method BuildClsCache(b: Build)
      requires Valid() && clsModel.Some?
      modifies this
      ensures Valid() && State() == BuildClassifierCache(cfg, old(State()), b)
      ensures clsModel == old(clsModel)
    {
      var w := clsModel.value;
      var cacheId := if classifierId != "" then classifierId else cfg.llmId;
      var state := PrefillCache("classifier", cacheId, w, cfg.clsPrefix(w.id), b);
      if state.None? {
        clsCache := None;
        return;
      }
      clsCache, clsCacheLen, clsPrefixTokens := Some(state.value.kv), state.value.len, state.value.prefix;
    }

    method EnsureClassifierModel(dedicatedLoads: bool, n: Loads, b: Build, bCls: Build)
      requires Valid()
      modifies this
      ensures Valid() && State() == EnsureClassifier(cfg, old(State()), dedicatedLoads, n, b, bCls)
    {
      hide EnsureLlm, BuildClassifierCache, WarmSet.Inv, WarmSet.NoDuplicates, WarmSet.Capacity;
      if clsModel.Some? {
        return;
      }
      if classifierId != "" {
        if dedicatedLoads {
          clsModel := Some(Weights(classifierId, None));
        } else {
          classifierId := "";
        }
      }
      if clsModel.None? {
        EnsureModel(n, b);
        if model.None? {
          return;
        }
        clsModel := model;
      }
      BuildClsCache(bCls);
    }

    /** The agent's cache, or `None` when this turn has to run uncached. */
    method GetAgentGenCache(name: string, text: string, b: Build) returns (pc: Option<PrefixCache>)
      requires Valid() && model.Some?
      modifies this
      ensures Valid() && (State(), pc) == AgentCache(cfg, old(State()), name, text, b)
      ensures model == old(model)
    {
      pc := Get(agentGenCaches, name);
      if pc.Some? {
        agentGenCaches := PutNewest(agentGenCaches, name, pc.value);
        return;
      }
      var w := model.value;
      pc := PrefillCache(AgentSlot(cfg, name), cfg.llmId, w, cfg.personaPrefix(w.id, text), b);
      if pc.Some? {
        agentGenCaches := LruInsert(agentGenCaches, name, pc.value, AGENT_PERSONA_CACHE_MAX);
      }
    }

    /** Evict everything that was computed with, or points at, the old model object. */
    method Reload()
      requires Valid()
      modifies this, manager
      ensures Valid() && State() == ReloadLora(cfg, old(State()))
    {
      hide Remove, WarmSet.Inv, UniqueKeys, WarmSet.NoDuplicates, WarmSet.Capacity;
      manager.PopBase();
      model, activeAdapter, agentGenCaches := None, "", [];
      genCache, genCacheLen := None, 0;
      if classifierId == "" {
        clsModel := None;
        clsCache, clsCacheLen := None, 0;
      }
    }

    /** The id and weights that answer this turn, or `None` when nothing could be loaded. */
    method EnsureLocalModel(localId: string, n: Nature) returns (who: Option<(string, Weights)>)
      requires Valid()
      modifies this, manager
      ensures Valid()
      ensures State() == EnsureLocal(cfg, old(State()), localId, n).0
      ensures EnsureLocal(cfg, old(State()), localId, n).1 == (if who.None? then None else Some(who.value.0))
      ensures who.Some? ==> model.Some?
      ensures who.Some? ==> who.value in manager.resident && Get(manager.resident, who.value.0) == Some(who.value.1)
    {
      EnsureModel(n.loads, n.build);
      if model.None? {
        return None;
      }
      if Get(manager.resident, cfg.llmId).None? {
        manager.SeedBase(model.value);
      }
      var m, extras, llmId := model, n.extraLoads, cfg.llmId;
      WarmSet.SelectKeeps(cfg.plan, manager.resident, localId, LocalLoader(llmId, m, extras));
      var r := manager.SelectModel(localId, LocalLoader(llmId, m, extras));
      if r.BaseLoadFailed? {
        return None;
      }
      GetIs(manager.resident, r.id, r.v);
      return Some((r.id, r.v));
    }

    // ---- the operations -----------------------------------------------------------------

    method GenerateCached(prompt: seq<Token>, s: Sampler, budget: nat, world: nat -> Signal, junk: seq<Kv>)
      returns (turn: Turn, ghost grown: seq<Kv>)
      requires Valid() && model.Some? && genCache.Some?
      modifies this`genCache, this`genCacheLen
      ensures Valid()
      ensures State() == old(State()).(gen := Some(AfterTurn(old(State()).gen.value, prompt, grown)))
      ensures CacheTurnEnds(model.value, old(State()).gen.value, turn, s, prompt, budget, world, grown)
    {
      hide AfterTurn, EndsAs, CachedDecode;
      var pc, sp;
      pc, turn, sp, grown := CachedTurn(PrefixCache(genCache.value, genCacheLen, genPrefixTokens), model.value, prompt, s, budget, world, junk, None);
      assert pc.prefix == genPrefixTokens by {
        AfterTurnKeepsPrefix(old(State()).gen.value, prompt, grown);
      }
      SilentVoice(turn, sp, model.value, CachedDecode(s, model.value, old(State()).gen.value, prompt, budget), world, budget, pc.len == |prompt|);
      genCache, genCacheLen := Some(pc.kv), pc.len;
    }

    method ClassifyCached(prompt: seq<Token>, s: Sampler, budget: nat, crashes: nat -> bool, junk: seq<Kv>)
      returns (turn: Turn, ghost grown: seq<Kv>)
      requires Valid() && clsModel.Some? && clsCache.Some?
      modifies this`clsCache, this`clsCacheLen
      ensures Valid()
      ensures State() == old(State()).(cls := Some(AfterTurn(old(State()).cls.value, prompt, grown)))
      ensures CacheTurnEnds(clsModel.value, old(State()).cls.value, turn, s, prompt, budget, NeverGone(crashes), grown)
    {
      hide AfterTurn, EndsAs, CachedDecode;
      var pc, sp;
      pc, turn, sp, grown := CachedTurn(PrefixCache(clsCache.value, clsCacheLen, clsPrefixTokens), clsModel.value, prompt, s, budget, NeverGone(crashes), junk, None);
      assert pc.prefix == clsPrefixTokens by {
        AfterTurnKeepsPrefix(old(State()).cls.value, prompt, grown);
      }
      SilentVoice(turn, sp, clsModel.value, CachedDecode(s, clsModel.value, old(State()).cls.value, prompt, budget), NeverGone(crashes), budget, pc.len == |prompt|);
      clsCache, clsCacheLen := Some(pc.kv), pc.len;
    }

    /** One `generate` request: the cached turn on the base, or the uncached one on whoever
        answers; a failed cached turn rebuilds the cache and answers uncached. `first` is the
        cached turn, if there was one. */
    method Generate(localId: string, prompt: seq<Token>, n: Nature, s: Sampler, plain: Option<Sampler>, budget: nat, world: nat -> Signal, junk: seq<Kv>, ghost pool: set<Adapter>)
      returns (turn: Turn, ghost first: Option<Turn>, ghost grown: seq<Kv>, ghost raised: bool)
      requires Valid()
      modifies this, manager
      ensures Valid()
      ensures State() == DoGenerate(cfg, old(State()), localId, prompt, n.(grown := grown, raises := raised))
      ensures var (e1, who) := EnsureLocal(cfg, old(State()), localId, n);
        && (turn.Unavailable? <==> who.None?)
        && (first.Some? <==> who == Some(cfg.llmId) && n.cached && e1.gen.Some?)
        && (first.Some? ==> e1.model.Some? && CacheTurnEnds(e1.model.value, e1.gen.value, first.value, s, prompt, budget, world, grown))
        && (first.Some? && Trusted(cfg, pool, old(State())) ==> DecodesFresh(s, e1.model, e1.gen, prompt, budget))
        && (Aliasing.Aligned(cfg, old(State())) && turn.Replied() ==> Get(manager.resident, who.value) == Some(turn.w))
      ensures first.Some? ==> raised == first.value.Raised?
      ensures FallsBack(turn, first, raised, plain, prompt, budget)
    {
      hide AfterTurn, Pure, CacheTurnEnds, DecodesFresh, EnsureLocal, BuildGenerateCache, Trusted, LocalLoader, Aliasing.Aligned, DoGenerate, WarmSet.Inv, WarmSet.NoDuplicates, WarmSet.Capacity;
      first, grown, raised := None, n.grown, n.raises;
      ghost var before := State();
      var who := EnsureLocalModel(localId, n);
      ghost var ready := State();
      GenerateUnfolds(cfg, before, localId, prompt, n, grown, raised);
      if who.None? {
        return Unavailable, first, grown, raised;
      }
      var answerer := who.value.1;
      if who.value.0 == cfg.llmId && n.cached && genCache.Some? {
        BaseAnswers(cfg, pool, before, localId, n, answerer);
        answerer := model.value;
        assert Aliasing.Aligned(cfg, before) ==> Get(manager.resident, cfg.llmId) == Some(answerer);
        turn, grown := GenerateCached(prompt, s, budget, world, junk);
        CachedTurnEnds(model.value, ready.gen.value, turn, s, prompt, budget, world, grown);
        first, raised := Some(turn), turn.Raised?;
        GenerateUnfolds(cfg, before, localId, prompt, n, grown, raised);
        if !turn.Raised? {
          return;
        }
        BuildGenCache(n.rebuild);
      }
      turn := UncachedTurn(answerer, prompt, plain, budget);
    }

    /** One `classify` request, greedy and never aborted. The parser answers for every reply,
        with the contract's fallback for one it cannot read; only an exception it does not
        catch is treated like a failed decode. */
    method Classify(prompt: seq<Token>, n: Nature, s: Sampler, plain: Option<Sampler>, budget: nat, crashes: nat -> bool, parse: seq<Token> -> Classification, junk: seq<Kv>, ghost pool: set<Adapter>)
      returns (answer: Option<Classification>, turn: Turn, ghost first: Option<Turn>, ghost grown: seq<Kv>, ghost raised: bool)
      requires Valid()
      modifies this
      ensures Valid()
      ensures State() == DoClassify(cfg, old(State()), prompt, n.(grown := grown, raises := raised))
      ensures var e1 := EnsureClassifier(cfg, old(State()), n.dedicatedLoads, n.loads, n.build, n.cacheBuild);
        && (turn.Unavailable? <==> e1.clsModel.None?)
        && (first.Some? <==> e1.clsModel.Some? && e1.cls.Some?)
        && (first.Some? ==> CacheTurnEnds(e1.clsModel.value, e1.cls.value, first.value, s, prompt, budget, NeverGone(crashes), grown))
        && (first.Some? && Trusted(cfg, pool, old(State())) ==> DecodesFresh(s, e1.clsModel, e1.cls, prompt, budget))
        && (turn.Replied() ==> e1.clsModel == Some(turn.w))
      ensures first.Some? ==> !first.value.Unavailable? && raised == (first.value.Raised? || parse(first.value.tokens).ParserRaises?)
      ensures FallsBack(turn, first, raised, plain, prompt, budget) && !turn.Aborted?
      ensures answer == if turn.Reply? && !parse(turn.tokens).ParserRaises? then Some(parse(turn.tokens)) else None
    {
      hide AfterTurn, Pure, CacheTurnEnds, DecodesFresh, EnsureClassifier, BuildClassifierCache, Trusted, DoClassify, WarmSet.Inv, WarmSet.NoDuplicates, WarmSet.Capacity;
      answer, first, grown, raised := None, None, n.grown, n.raises;
      ghost var before := State();
      EnsureClassifierModel(n.dedicatedLoads, n.loads, n.build, n.cacheBuild);
      ghost var ready := State();
      ClassifyUnfolds(cfg, before, prompt, n, grown, raised);
      if clsModel.None? {
        return answer, Unavailable, first, grown, raised;
      }
      if clsCache.Some? {
        ClassifierAnswers(cfg, pool, before, n);
        turn, grown := ClassifyCached(prompt, s, budget, crashes, junk);
        CachedTurnEnds(clsModel.value, ready.cls.value, turn, s, prompt, budget, NeverGone(crashes), grown);
        var failed := turn.Raised? || parse(turn.tokens).ParserRaises?;
        first, raised := Some(turn), failed;
        ClassifyUnfolds(cfg, before, prompt, n, grown, raised);
        if !failed {
          answer := Some(parse(turn.tokens));
          return;
        }
        BuildClsCache(n.rebuild);
      }
      turn := UncachedTurn(clsModel.value, prompt, plain, budget);
      if turn.Reply? && !parse(turn.tokens).ParserRaises? {
        answer := Some(parse(turn.tokens));
      }
    }

    /** The cache state a `converse` turn runs on: the agent's, the base's, or none. */
    method SelectCache(agent: Option<(string, string)>, n: Nature) returns (pc: Option<PrefixCache>)
      requires Valid() && model.Some?
      modifies this
      ensures Valid() && (State(), pc) == TurnCache(cfg, old(State()), agent, n)
      ensures model == old(model) && (agent.None? ==> pc == State().gen)
    {
      hide AgentCache;
      if agent.Some? {
        pc := GetAgentGenCache(agent.value.0, agent.value.1, n.cacheBuild);
      } else if genCache.Some? {
        pc := Some(PrefixCache(genCache.value, genCacheLen, genPrefixTokens));
      } else {
        pc := None;
      }
    }

    /** Write the trimmed cache and its length back to where they live. */
    method StoreTurn(agent: Option<(string, string)>, after: PrefixCache)
      requires Valid() && (agent.None? ==> after.prefix == genPrefixTokens)
      modifies this`genCache, this`genCacheLen, this`agentGenCaches
      ensures Valid()
      ensures State() == if agent.None? then old(State()).(gen := Some(after)) else old(State()).(agents := Assign(old(State()).agents, agent.value.0, after))
    {
      if agent.Some? {
        agentGenCaches := Assign(agentGenCaches, agent.value.0, after);
      } else {
        genCache, genCacheLen := Some(after.kv), after.len;
      }
    }

    /** One `converse` request. The cache is trimmed and its length written back where it
        lives on every exit; the events are those of the spoken part of the reply. */
    method Converse(localId: string, agent: Option<(string, string)>, prompt: seq<Token>, n: Nature, s: Sampler, budget: nat, world: nat -> Signal, junk: seq<Kv>, voice: Voice, ghost pool: set<Adapter>)
      returns (turn: Turn, sp: Speech.Speaker, ghost grown: seq<Kv>)
      requires Valid() && Sentences.ValidAlphabet(voice.alphabet)
      modifies this, manager
      ensures Valid()
      ensures State() == DoConverse(cfg, old(State()), localId, agent, prompt, n.(grown := grown))
      ensures var (e1, who) := EnsureLocal(cfg, old(State()), localId, n);
        && (turn.Unavailable? <==> who.None? || !n.cached)
        && (!turn.Unavailable? ==>
              var w, pc := Get(manager.resident, who.value), FoundCache(cfg, e1, who, agent, n);
              && w.Some?
              && EndsAs(turn, sp, w.value, TurnDecode(s, w.value, pc, prompt, budget), world, budget, Unfed(pc, prompt, grown), Some(voice))
              && (Trusted(cfg, pool, old(State())) ==> TurnDecode(s, w.value, pc, prompt, budget) == FreshDecode(s, w.value, prompt, budget)))
      ensures Spoken(voice, turn, sp.events)
    {
      hide AfterTurn, Pure, EndsAs, TurnDecode, Unfed, EnsureLocal, TurnCache, Trusted, Spoken, HeardBy, FlushedBy, LocalLoader, Aliasing.Aligned, DoConverse, WarmSet.Inv, WarmSet.NoDuplicates, WarmSet.Capacity;
      grown := n.grown;
      ghost var before := State();
      var who := EnsureLocalModel(localId, n);
      ConverseUnfolds(cfg, before, localId, agent, prompt, n, grown);
      if who.None? || !n.cached {
        NothingSpoken(voice);
        return Unavailable, Speech.Silent(), grown;
      }
      var pc: Option<PrefixCache> := None;
      if who.value.0 == cfg.llmId {
        TurnAnswers(cfg, pool, before, localId, agent, n, who.value.1);
        pc := SelectCache(agent, n);
      }
      var after;
      after, turn, sp, grown := SpokenTurn(pc, who.value.1, prompt, s, budget, world, junk, voice);
      if pc.Some? ==> Pure(who.value.1, pc.value) {
        TurnDecodeIsFresh(s, who.value.1, pc, prompt, budget);
      }
      ConverseUnfolds(cfg, before, localId, agent, prompt, n, grown);
      if pc.Some? {
        StoreTurn(agent, after.value);
      }
    }
  }

  lemma AfterTurnKeepsPrefix(pc: PrefixCache, prompt: seq<Token>, grown: seq<Kv>)
    ensures AfterTurn(pc, prompt, grown).prefix == pc.prefix
  {
  }

  /** Single-call generation without a cache; `None` is a call that raised. */
  method UncachedTurn(w: Weights, prompt: seq<Token>, plain: Option<Sampler>, budget: nat) returns (turn: Turn)
    ensures turn == if plain.None? then Raised([]) else Reply(w, FreshDecode(plain.value, w, prompt, budget))
  {
    if plain.None? {
      return Raised([]);
    }
    return Reply(w, FreshDecode(plain.value, w, prompt, budget));
  }

  /** Without a cached turn that succeeded, the answer is the single uncached call's. */
  ghost predicate FallsBack(turn: Turn, first: Option<Turn>, raised: bool, plain: Option<Sampler>, prompt: seq<Token>, budget: nat) {
    if first.Some? && !raised then turn == first.value
    else
      || turn.Unavailable?
      || (plain.None? && turn == Raised([]))
      || (plain.Some? && turn.Reply? && turn.tokens == FreshDecode(plain.value, turn.w, prompt, budget))
  }

  /** How a silent turn on the prefix cache `pc` of weights `w` ended. */
  ghost predicate CacheTurnEnds(w: Weights, pc: PrefixCache, turn: Turn, s: Sampler, prompt: seq<Token>, budget: nat, world: nat -> Signal, grown: seq<Kv>) {
    var unfed := AfterTurn(pc, prompt, grown).len == |prompt|;
    EndsAs(turn, Speech.Silent(), w, CachedDecode(s, w, pc, prompt, budget), world, budget, unfed, None)
  }

  /** What a decode on that cache emits is what a fresh run on the whole prompt emits. */
  ghost predicate DecodesFresh(s: Sampler, w: Option<Weights>, pc: Option<PrefixCache>, prompt: seq<Token>, budget: nat) {
    w.Some? && pc.Some? && CachedDecode(s, w.value, pc.value, prompt, budget) == FreshDecode(s, w.value, prompt, budget)
  }

  lemma CachedTurnEnds(w: Weights, pc: PrefixCache, turn: Turn, s: Sampler, prompt: seq<Token>, budget: nat, world: nat -> Signal, grown: seq<Kv>)
    requires CacheTurnEnds(w, pc, turn, s, prompt, budget, world, grown)
    ensures EndedNormally(turn, w, AfterTurn(pc, prompt, grown).len == |prompt|)
    ensures turn.Aborted? ==> exists i :: world(i).PeerGone?
    ensures Pure(w, pc) ==> DecodesFresh(s, Some(w), Some(pc), prompt, budget)
  {
    hide Pure, CachedDecode;
    if Pure(w, pc) {
      CachedDecodeIsFresh(s, w, pc, prompt, budget);
    }
  }

  predicate EndedNormally(turn: Turn, w: Weights, unfed: bool) {
    !turn.Unavailable? && (turn.Replied() ==> turn.w == w) && (unfed ==> turn.Raised?)
  }

  lemma SilentVoice(turn: Turn, sp: Speech.Speaker, w: Weights, all: seq<Token>, world: nat -> Signal, budget: nat, unfed: bool)
    requires EndsAs(turn, sp, w, all, world, budget, unfed, None)
    ensures sp == Speech.Silent()
  {
  }

  /** A world in which the peer never leaves: `classify` does not poll for it. */
  function NeverGone(crashes: nat -> bool): nat -> Signal {
    (i: nat) => if crashes(i) then Crash else Proceed
  }

  /** A state reached by a run over an unambiguous store. */
  ghost predicate Trusted(cfg: Config, pool: set<Adapter>, e: EngineSpec.Engine) {
    Safety.StoreUnambiguous(cfg, pool) && Safety.Inv(cfg, pool, e)
  }

  lemma GenerateUnfolds(cfg: Config, e: EngineSpec.Engine, localId: string, prompt: seq<Token>, n: Nature, grown: seq<Kv>, raised: bool)
    requires ValidConfig(cfg)
    ensures var (e1, who) := EnsureLocal(cfg, e, localId, n);
      DoGenerate(cfg, e, localId, prompt, n.(grown := grown, raises := raised)) ==
        if who != Some(cfg.llmId) || !n.cached || e1.gen.None? || e1.model.None? then e1
        else
          var e2 := e1.(gen := Some(AfterTurn(e1.gen.value, prompt, grown)));
          if raised || e2.gen.value.len == |prompt| then BuildGenerateCache(cfg, e2, n.rebuild) else e2
  {
    hide AfterTurn, BuildGenerateCache;
  }

  /** When the base answers, it answers with the live model, and its cache belongs to it. */
  lemma BaseAnswers(cfg: Config, pool: set<Adapter>, e: EngineSpec.Engine, localId: string, n: Nature, w: Weights)
    requires ValidConfig(cfg) && WarmSet.NoDuplicates(cfg.plan)
    ensures var (e1, who) := EnsureLocal(cfg, e, localId, n);
      && (Aliasing.Aligned(cfg, e) && (cfg.llmId, w) in e1.resident ==> e1.model == Some(w))
      && (Trusted(cfg, pool, e) && e1.gen.Some? ==> e1.model.Some? && Pure(e1.model.value, e1.gen.value))
  {
    hide EnsureLocal, Pure;
    if Aliasing.Aligned(cfg, e) {
      Aliasing.EnsureLocalAligned(cfg, e, localId, n);
    }
    if Trusted(cfg, pool, e) {
      Safety.EnsureLocalPure(cfg, pool, e, localId, n);
    }
  }

  lemma ClassifyUnfolds(cfg: Config, e: EngineSpec.Engine, prompt: seq<Token>, n: Nature, grown: seq<Kv>, raised: bool)
    ensures var e1 := EnsureClassifier(cfg, e, n.dedicatedLoads, n.loads, n.build, n.cacheBuild);
      DoClassify(cfg, e, prompt, n.(grown := grown, raises := raised)) ==
        if e1.clsModel.None? || e1.cls.None? then e1
        else
          var e2 := e1.(cls := Some(AfterTurn(e1.cls.value, prompt, grown)));
          if raised || e2.cls.value.len == |prompt| then BuildClassifierCache(cfg, e2, n.rebuild) else e2
  {
    hide AfterTurn, BuildClassifierCache, EnsureClassifier;
  }

  lemma ClassifierAnswers(cfg: Config, pool: set<Adapter>, e: EngineSpec.Engine, n: Nature)
    requires ValidConfig(cfg)
    ensures var e1 := EnsureClassifier(cfg, e, n.dedicatedLoads, n.loads, n.build, n.cacheBuild);
      Trusted(cfg, pool, e) && e1.cls.Some? ==> e1.clsModel.Some? && Pure(e1.clsModel.value, e1.cls.value)
  {
    hide EnsureClassifier, Pure;
    if Trusted(cfg, pool, e) {
      Safety.EnsureClassifierPure(cfg, pool, e, n.dedicatedLoads, n.loads, n.build, n.cacheBuild);
    }
  }

  /** What a `converse` turn on the base finds. */
  function TurnCache(cfg: Config, e: EngineSpec.Engine, agent: Option<(string, string)>, n: Nature): (EngineSpec.Engine, Option<PrefixCache>)
    requires e.model.Some?
  {
    match agent
    case None => (e, e.gen)
    case Some((name, text)) => AgentCache(cfg, e, name, text, n.cacheBuild)
  }

  lemma ConverseUnfolds(cfg: Config, e: EngineSpec.Engine, localId: string, agent: Option<(string, string)>, prompt: seq<Token>, n: Nature, grown: seq<Kv>)
    requires ValidConfig(cfg)
    ensures var (e1, who) := EnsureLocal(cfg, e, localId, n);
      DoConverse(cfg, e, localId, agent, prompt, n.(grown := grown)) ==
        if who != Some(cfg.llmId) || !n.cached || e1.model.None? then e1
        else
          var (e2, pc) := TurnCache(cfg, e1, agent, n);
          if pc.None? then e2
          else if agent.None? then e2.(gen := Some(AfterTurn(pc.value, prompt, grown)))
          else e2.(agents := Assign(e2.agents, agent.value.0, AfterTurn(pc.value, prompt, grown)))
  {
    hide AfterTurn, AgentCache;
  }

  /** The cache a `converse` turn finds: only the base has any. */
  ghost function FoundCache(cfg: Config, e: EngineSpec.Engine, who: Option<string>, agent: Option<(string, string)>, n: Nature): Option<PrefixCache> {
    if who == Some(cfg.llmId) && e.model.Some? then TurnCache(cfg, e, agent, n).1 else None
  }

  /** What a turn emits if nothing interrupts it: against its cache, or on the whole prompt. */
  ghost function TurnDecode(s: Sampler, w: Weights, pc: Option<PrefixCache>, prompt: seq<Token>, budget: nat): seq<Token> {
    if pc.None? then FreshDecode(s, w, prompt, budget) else CachedDecode(s, w, pc.value, prompt, budget)
  }

  /** The turn has nothing left to feed: an empty prompt, or one the cache covers entirely. */
  ghost predicate Unfed(pc: Option<PrefixCache>, prompt: seq<Token>, grown: seq<Kv>) {
    prompt == [] || (pc.Some? && AfterTurn(pc.value, prompt, grown).len == |prompt|)
  }

  lemma TurnDecodeIsFresh(s: Sampler, w: Weights, pc: Option<PrefixCache>, prompt: seq<Token>, budget: nat)
    requires pc.Some? ==> Pure(w, pc.value)
    ensures TurnDecode(s, w, pc, prompt, budget) == FreshDecode(s, w, prompt, budget)
  {
    hide Pure, CachedDecode;
    if pc.Some? {
      CachedDecodeIsFresh(s, w, pc.value, prompt, budget);
    }
  }

  /** On a trusted state, whichever cache the turn finds belongs to the weights that answer. */
  lemma TurnAnswers(cfg: Config, pool: set<Adapter>, e: EngineSpec.Engine, localId: string, agent: Option<(string, string)>, n: Nature, w: Weights)
    requires ValidConfig(cfg) && WarmSet.NoDuplicates(cfg.plan)
    ensures var e1 := EnsureLocal(cfg, e, localId, n).0;
      Trusted(cfg, pool, e) && e1.model.Some? && (cfg.llmId, w) in e1.resident ==>
        var pc := TurnCache(cfg, e1, agent, n).1;
        pc.Some? ==> Pure(w, pc.value)
  {
    hide EnsureLocal, Pure, AgentCache;
    var e1 := EnsureLocal(cfg, e, localId, n).0;
    if Trusted(cfg, pool, e) && e1.model.Some? && (cfg.llmId, w) in e1.resident {
      Safety.EnsureLocalPure(cfg, pool, e, localId, n);
      if agent.Some? {
        Safety.AgentCachePure(cfg, pool, e1, agent.value.0, agent.value.1, n.cacheBuild);
      }
    }
  }

  /** The events match the text: a finished reply announces the first audible sentences of
      the whole text, numbered from 0 and at most five; an unfinished one a prefix of what
      the text decoded so far deserves. */
  ghost predicate Spoken(voice: Voice, turn: Turn, events: seq<Speech.Event>) {
    match turn
    case Unavailable => events == []
    case _ =>
      var due := Speech.Announced(voice.synth, Sentences.Split(voice.alphabet, Joined(Pieces(voice.text, turn.tokens)), true).0);
      events <= due && (turn.Reply? ==> events == due)
  }

  lemma NothingSpoken(voice: Voice)
    ensures Spoken(voice, Unavailable, Speech.Silent().events)
  {
  }

  lemma HeardIsSpoken(voice: Voice, turn: Turn, sp: Speech.Speaker, w: Weights, all: seq<Token>, world: nat -> Signal, budget: nat, unfed: bool)
    requires Sentences.ValidAlphabet(voice.alphabet)
    requires EndsAs(turn, sp, w, all, world, budget, unfed, Some(voice))
    ensures Spoken(voice, turn, sp.events)
  {
    hide Speech.AbsorbAll, Speech.Flush, Speech.Announced, Sentences.Split, Undisturbed;
    Speech.CompletedTurnEvents(voice.alphabet, voice.synth, Pieces(voice.text, turn.tokens));
    Speech.InterruptedTurnEvents(voice.alphabet, voice.synth, Pieces(voice.text, turn.tokens));
  }

  /** A spoken turn, on a prefix cache or, without one, on the whole prompt. */
  method SpokenTurn(pc: Option<PrefixCache>, w: Weights, prompt: seq<Token>, s: Sampler, budget: nat, world: nat -> Signal, junk: seq<Kv>, voice: Voice)
    returns (after: Option<PrefixCache>, turn: Turn, sp: Speech.Speaker, ghost grown: seq<Kv>)
    requires Sentences.ValidAlphabet(voice.alphabet)
    ensures after == if pc.None? then None else Some(AfterTurn(pc.value, prompt, grown))
    ensures pc.Some? ==> after.value.prefix == pc.value.prefix
    ensures !turn.Unavailable? && Spoken(voice, turn, sp.events)
    ensures EndsAs(turn, sp, w, TurnDecode(s, w, pc, prompt, budget), world, budget, Unfed(pc, prompt, grown), Some(voice))
  {
    hide Feed, Decode, HeardBy, FlushedBy, Pure, Spoken, CachedDecode, Undisturbed;
    if pc.Some? {
      var live;
      live, turn, sp, grown := CachedTurn(pc.value, w, prompt, s, budget, world, junk, Some(voice));
      after := Some(live);
      AfterTurnKeepsPrefix(pc.value, prompt, grown);
      HeardIsSpoken(voice, turn, sp, w, CachedDecode(s, w, pc.value, prompt, budget), world, budget, live.len == |prompt|);
      assert prompt == [] ==> live.len == |prompt|;
    } else {
      var live;
      turn, live, sp := DecodeLoop(w, [], prompt, s, budget, world, Some(voice));
      after, grown := None, junk;
      HeardIsSpoken(voice, turn, sp, w, FreshDecode(s, w, prompt, budget), world, budget, prompt == []);
    }
  }
}
