/** The background decode that gives the engine lock back between slices. While the lock is
    free any other operation may run, including one that replaces the model; the pass keeps
    its own reference to the weights it started with, and a private cache. */
module SlicedDecode {
  import opened KvModel
  import opened Basics

  /** The part of the engine other operations may change between slices. */
  class Shared {
    var model: Option<Weights>

    constructor (m: Option<Weights>)
      ensures model == m
    {
      model := m;
    }

    /** Whatever runs while the lock is free: `to` is what it leaves. */
    method Yield(to: Option<Weights>)
      modifies this
      ensures model == to
    {
      model := to;
    }
  }

  /** A private cache, with a record of every token ever fed to it. */
  class PrivateCache {
    const w: Weights
    var kv: seq<Kv>
    ghost var fed: seq<Token>

    ghost predicate Valid()
      reads this
    {
      kv == Feed(w, [], fed)
    }

    constructor (w: Weights)
      ensures Valid() && this.w == w && fed == []
    {
      this.w, kv, fed := w, [], [];
    }

    method Append(toks: seq<Token>)
      requires Valid()
      modifies this
      ensures Valid() && fed == old(fed) + toks && kv == Feed(w, old(kv), toks)
    {
      FeedAppend(w, [], fed, toks);
      kv := Feed(w, kv, toks);
      fed := fed + toks;
    }
  }

  datatype Pass = Text(w: Weights, tokens: seq<Token>) | LoadFailed | EmptyPrompt

  /** At most `chunk` tokens, under one hold of the lock. */
  method DecodeSlice(cache: PrivateCache, s: Sampler, out0: seq<Token>, budget: nat, chunk: nat, ghost all: seq<Token>)
    returns (out: seq<Token>, exhausted: bool)
    requires cache.Valid() && chunk > 0
    requires Owes(s, cache.w, cache.kv, out0, budget, all)
    modifies cache
    ensures cache.Valid()
    ensures out0 <= out && cache.fed == old(cache.fed) + out[|out0|..]
    ensures if exhausted then out == all else |out| > |out0| && Owes(s, cache.w, cache.kv, out, budget, all)
  {
    hide Owes, Decode, Feed;
    out, exhausted := out0, false;
    var i := 0;
    while i < chunk && !exhausted
      invariant cache.Valid()
      invariant out0 <= out && cache.fed == old(cache.fed) + out[|out0|..]
      invariant if exhausted then out == all else |out| == |out0| + i && Owes(s, cache.w, cache.kv, out, budget, all)
      decreases chunk - i, !exhausted
    {
      OwesOneLess(s, cache.w, cache.kv, out, budget, all);
      if |out| == budget || s.stop(s.pick(cache.w, cache.kv, |out|)) {
        exhausted := true;
      } else {
        var t := s.pick(cache.w, cache.kv, |out|);
        OneMoreFed(old(cache.fed), out, |out0|, t);
        cache.Append([t]);
        out := out + [t];
        i := i + 1;
      }
    }
  }

  lemma OneMoreFed(fed: seq<Token>, out: seq<Token>, k: nat, t: Token)
    requires k <= |out|
    ensures (fed + out[k..]) + [t] == fed + (out + [t])[k..]
  {
  }

  /** The decode, giving the lock back after every slice. */
  method DecodeInSlices(shared: Shared, cache: PrivateCache, s: Sampler, budget: nat, chunk: nat, others: nat -> Option<Weights>)
    returns (out: seq<Token>)
    requires cache.Valid() && chunk > 0
    modifies shared, cache
    ensures cache.Valid()
    ensures out == Decode(s, cache.w, old(cache.kv), 0, budget)
    ensures cache.fed == old(cache.fed) + out
  {
    hide Decode, Feed, Owes;
    out := [];
    ghost var all := Decode(s, cache.w, cache.kv, 0, budget);
    OwesAll(s, cache.w, cache.kv, budget);
    var exhausted, slice := false, 0;
    while !exhausted
      invariant cache.Valid() && cache.fed == old(cache.fed) + out
      invariant if exhausted then out == all else Owes(s, cache.w, cache.kv, out, budget, all)
      invariant |out| <= budget
      decreases !exhausted, budget - |out|
    {
      ghost var before := out;
      out, exhausted := DecodeSlice(cache, s, out, budget, chunk, all);
      MoreFed(old(cache.fed), before, out);
      if !exhausted {
        OwesOneLess(s, cache.w, cache.kv, out, budget, all);
      }
      shared.Yield(others(slice));
      slice := slice + 1;
    }
  }

  lemma MoreFed(fed: seq<Token>, before: seq<Token>, out: seq<Token>)
    requires before <= out
    ensures (fed + before) + out[|before|..] == fed + out
  {
  }

  /** All but the last prompt token, in slices. */
  method PrefillInSlices(shared: Shared, cache: PrivateCache, toks: seq<Token>, chunk: nat, others: nat -> Option<Weights>)
    requires cache.Valid() && cache.fed == [] && chunk > 0
    modifies shared, cache
    ensures cache.Valid() && cache.fed == toks
  {
    var n, pos, slice := |toks|, 0, 0;
    while pos < n
      invariant pos <= n && cache.Valid() && cache.fed == toks[..pos]
    {
      var stop := if pos + chunk <= n then pos + chunk else n;
      cache.Append(toks[pos..stop]);
      assert toks[..pos] + toks[pos..stop] == toks[..stop];
      pos := stop;
      shared.Yield(others(slice));
      slice := slice + 1;
    }
  }

  /** The whole pass. However the work is sliced and whatever runs in between, the text is
      that of one uninterrupted run on the weights resident at the start, and the cache has
      been fed every prompt token exactly once, in order, then the reply. */
  method RunInterruptible(shared: Shared, load: Option<Weights>, prompt: Weights -> seq<Token>, s: Sampler, budget: nat,
                          prefillChunk: nat, decodeChunk: nat, whilePrefilling: nat -> Option<Weights>, whileDecoding: nat -> Option<Weights>)
    returns (r: Pass, ghost fed: seq<Token>)
    requires prefillChunk > 0 && decodeChunk > 0
    modifies shared
    ensures var start := if old(shared.model).Some? then old(shared.model) else load;
      match start
      case None => r == LoadFailed && shared.model == old(shared.model)
      case Some(w) =>
        if prompt(w) == [] then r == EmptyPrompt
        else r == Text(w, FreshDecode(s, w, prompt(w), budget)) && fed == prompt(w) + r.tokens
  {
    fed := [];
    if shared.model.None? {
      if load.None? {
        return LoadFailed, fed;
      }
      shared.model := load;
    }
    var w := shared.model.value;
    var toks := prompt(w);
    var cache := new PrivateCache(w);
    var n := if |toks| > 0 then |toks| - 1 else 0;
    PrefillInSlices(shared, cache, toks[..n], prefillChunk, whilePrefilling);
    if toks[n..] == [] {
      return EmptyPrompt, cache.fed;
    }
    cache.Append(toks[n..]);
    assert toks[..n] + toks[n..] == toks;
    var out := DecodeInSlices(shared, cache, s, budget, decodeChunk, whileDecoding);
    return Text(w, out), cache.fed;
  }
}
