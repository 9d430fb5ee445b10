/** A transformer's KV cache, and decoding against it.

    A cache entry is a free term: the weights that computed it, the entries it attended to,
    and the token. Any concrete numeric cache is an image of these terms, so equality here
    is the strongest notion of "the same KV state" a decode could observe. */
module KvModel {
  import opened Basics

  type Token = nat

  /** A personal LoRA adapter as the daemon stages it: its weights, and the two manifest
      fields the loader reads. */
  datatype Adapter = Adapter(bits: nat, base: string, created: Option<string>)

  /** What `load` returned: a checkpoint id, possibly with an adapter fused in. */
  datatype Weights = Weights(id: string, adapter: Option<Adapter>)

  datatype Kv = Kv(of: Weights, past: seq<Kv>, tok: Token)

  /** Run `toks` through the model on top of `kv`, extending the cache in place. */
  function Feed(w: Weights, kv: seq<Kv>, toks: seq<Token>): (r: seq<Kv>)
    ensures |r| == |kv| + |toks|
    ensures kv <= r
    decreases |toks|
  {
    if toks == [] then kv else Feed(w, kv + [Kv(w, kv, toks[0])], toks[1..])
  }

  /** The next-token choice (any function of weights, cache and step, so a seeded random
      sampler is covered) and the end-of-text test. */
  datatype Sampler = Sampler(pick: (Weights, seq<Kv>, nat) -> Token, stop: Token -> bool)

  /** The tokens a decode emits from `kv`, at most `budget` of them. */
  function Decode(s: Sampler, w: Weights, kv: seq<Kv>, step: nat, budget: nat): (r: seq<Token>)
    ensures |r| <= budget
    decreases budget
  {
    if budget == 0 then []
    else
      var t := s.pick(w, kv, step);
      if s.stop(t) then [] else [t] + Decode(s, w, Feed(w, kv, [t]), step + 1, budget - 1)
  }

  /** An uncached run: a fresh cache, the whole prompt. */
  function FreshDecode(s: Sampler, w: Weights, prompt: seq<Token>, budget: nat): seq<Token> {
    Decode(s, w, Feed(w, [], prompt), 0, budget)
  }

  /** A decode that emits `all` in full has emitted `out`, and goes on from `kv`. */
  ghost predicate Owes(s: Sampler, w: Weights, kv: seq<Kv>, out: seq<Token>, budget: nat, all: seq<Token>) {
    |out| <= budget && all == out + Decode(s, w, kv, |out|, budget - |out|)
  }

  lemma OwesAll(s: Sampler, w: Weights, kv: seq<Kv>, budget: nat)
    ensures Owes(s, w, kv, [], budget, Decode(s, w, kv, 0, budget))
  {
    assert [] + Decode(s, w, kv, 0, budget) == Decode(s, w, kv, 0, budget);
  }

  /** One more step of it. */
  lemma OwesOneLess(s: Sampler, w: Weights, kv: seq<Kv>, out: seq<Token>, budget: nat, all: seq<Token>)
    requires Owes(s, w, kv, out, budget, all)
    ensures |out| <= budget && (|out| == budget ==> out == all)
    ensures |out| < budget ==>
      var t := s.pick(w, kv, |out|);
      if s.stop(t) then out == all else out < all && Owes(s, w, Feed(w, kv, [t]), out + [t], budget, all)
  {
    hide Feed;
    if |out| < budget {
      var t := s.pick(w, kv, |out|);
      Onto(out, t, Decode(s, w, Feed(w, kv, [t]), |out| + 1, budget - |out| - 1));
    }
  }

  /** Length of the longest common prefix. */
  function CommonLen(a: seq<Token>, b: seq<Token>): (n: nat)
    ensures n <= |a| && n <= |b| && a[..n] == b[..n]
    ensures n < |a| && n < |b| ==> a[n] != b[n]
  {
    if a == [] || b == [] || a[0] != b[0] then 0
    else
      var n := CommonLen(a[1..], b[1..]);
      assert a[..n + 1] == [a[0]] + a[1..][..n] && b[..n + 1] == [b[0]] + b[1..][..n];
      n + 1
  }

  lemma CommonLenUnique(a: seq<Token>, b: seq<Token>, n: nat)
    requires n <= |a| && n <= |b| && a[..n] == b[..n]
    requires n < |a| && n < |b| ==> a[n] != b[n]
    ensures n == CommonLen(a, b)
  {
    var c := CommonLen(a, b);
    assert forall k :: 0 <= k < n ==> a[..n][k] == a[k] && b[..n][k] == b[k];
    assert forall k :: 0 <= k < c ==> a[..c][k] == a[k] && b[..c][k] == b[k];
  }

  lemma {:induction false} FeedAppend(w: Weights, kv: seq<Kv>, a: seq<Token>, b: seq<Token>)
    ensures Feed(w, kv, a + b) == Feed(w, Feed(w, kv, a), b)
    decreases |a|
  {
    if a == [] {
      assert a + b == b;
    } else {
      assert (a + b)[1..] == a[1..] + b;
      FeedAppend(w, kv + [Kv(w, kv, a[0])], a[1..], b);
    }
  }

  /** Causality: trimming the cache is the same as never having fed the trimmed tokens. */
  lemma FeedTake(w: Weights, kv: seq<Kv>, toks: seq<Token>, k: nat)
    requires k <= |toks|
    ensures Feed(w, kv, toks)[..|kv| + k] == Feed(w, kv, toks[..k])
  {
    assert toks == toks[..k] + toks[k..];
    FeedAppend(w, kv, toks[..k], toks[k..]);
  }

  /** Equal caches come from equal weights and equal tokens. */
  lemma {:induction false} FeedInjective(w: Weights, a: seq<Token>, w': Weights, b: seq<Token>)
    requires a != [] || b != []
    requires Feed(w, [], a) == Feed(w', [], b)
    ensures w == w' && a == b
    decreases |a|
  {
    assert |a| == |b|;
    var n := |a| - 1;
    assert a == a[..n] + [a[n]] && b == b[..n] + [b[n]];
    FeedAppend(w, [], a[..n], [a[n]]);
    FeedAppend(w', [], b[..n], [b[n]]);
    var p, q := Feed(w, [], a[..n]), Feed(w', [], b[..n]);
    assert Feed(w, p, [a[n]]) == p + [Kv(w, p, a[n])];
    assert Feed(w', q, [b[n]]) == q + [Kv(w', q, b[n])];
    assert Feed(w, [], a)[n] == Kv(w, p, a[n]);
    assert Feed(w', [], b)[n] == Kv(w', q, b[n]);
    if n > 0 {
      FeedInjective(w, a[..n], w', b[..n]);
    }
  }

  /** Two different cache states are told apart by some sampler, on the very next token. */
  lemma DifferentCachesDecodeDifferently(w: Weights, kv: seq<Kv>, other: seq<Kv>)
    requires kv != other
    ensures exists s: Sampler :: Decode(s, w, kv, 0, 1) != Decode(s, w, other, 0, 1)
  {
    var s := Sampler((_: Weights, c: seq<Kv>, _: nat) => if c == kv then 0 else 1, (_: Token) => false);
    assert Decode(s, w, kv, 0, 1)[0] == 0;
    assert Decode(s, w, other, 0, 1)[0] == 1;
  }

  /** Every entry was computed by `w` from exactly the entries before it and its own token. */
  lemma FeedEntries(w: Weights, kv: seq<Kv>, toks: seq<Token>, i: nat)
    requires i < |toks|
    ensures Feed(w, kv, toks)[|kv| + i] == Kv(w, Feed(w, kv, toks)[..|kv| + i], toks[i])
  {
    var front := toks[..i];
    FeedTake(w, kv, toks, i);
    assert toks == front + ([toks[i]] + toks[i + 1..]);
    FeedAppend(w, kv, front, [toks[i]] + toks[i + 1..]);
    var k := Feed(w, kv, front);
    FeedAppend(w, k, [toks[i]], toks[i + 1..]);
    assert Feed(w, k, [toks[i]]) == k + [Kv(w, k, toks[i])];
  }

  /** Token by token, what the sampler picks on the cache extended by the tokens before. */
  ghost predicate Emitted(s: Sampler, w: Weights, kv: seq<Kv>, step: nat, out: seq<Token>) {
    forall i :: 0 <= i < |out| ==> out[i] == s.pick(w, Feed(w, kv, out[..i]), step + i) && !s.stop(out[i])
  }

  /** A decode emits what the sampler picks, and ends at the first stop token or when the
      budget is spent. */
  lemma {:induction false} DecodeExact(s: Sampler, w: Weights, kv: seq<Kv>, step: nat, budget: nat)
    ensures var out := Decode(s, w, kv, step, budget);
      && Emitted(s, w, kv, step, out)
      && (|out| < budget ==> s.stop(s.pick(w, Feed(w, kv, out), step + |out|)))
    decreases budget
  {
    hide Feed, Decode, Emitted;
    DecodeStep(s, w, kv, step, budget);
    NothingEmitted(s, w, kv, step);
    var t := s.pick(w, kv, step);
    if budget > 0 && !s.stop(t) {
      var rest := Decode(s, w, Feed(w, kv, [t]), step + 1, budget - 1);
      DecodeExact(s, w, Feed(w, kv, [t]), step + 1, budget - 1);
      EmittedCons(s, w, kv, step, rest);
      FeedAppend(w, kv, [t], rest);
    }
  }

  lemma NothingEmitted(s: Sampler, w: Weights, kv: seq<Kv>, step: nat)
    ensures Emitted(s, w, kv, step, []) && Feed(w, kv, []) == kv
  {
  }

  lemma EmittedCons(s: Sampler, w: Weights, kv: seq<Kv>, step: nat, rest: seq<Token>)
    requires var t := s.pick(w, kv, step); !s.stop(t) && Emitted(s, w, Feed(w, kv, [t]), step + 1, rest)
    ensures Emitted(s, w, kv, step, [s.pick(w, kv, step)] + rest)
  {
    hide Feed;
    var t := s.pick(w, kv, step);
    var out := [t] + rest;
    forall i | 0 <= i < |out| ensures out[i] == s.pick(w, Feed(w, kv, out[..i]), step + i) && !s.stop(out[i]) {
      if i == 0 {
        NothingEmitted(s, w, kv, step);
      } else {
        FeedAppend(w, kv, [t], rest[..i - 1]);
        assert out[..i] == [t] + rest[..i - 1];
      }
    }
  }

  lemma DecodeStep(s: Sampler, w: Weights, kv: seq<Kv>, step: nat, budget: nat)
    ensures Decode(s, w, kv, step, budget) ==
      if budget == 0 || s.stop(s.pick(w, kv, step)) then []
      else [s.pick(w, kv, step)] + Decode(s, w, Feed(w, kv, [s.pick(w, kv, step)]), step + 1, budget - 1)
  {
    hide Feed;
  }
}
