/** The streaming voice-activity detector: a context ring and a recurrent state threaded
    through fixed-size chunks. `S` is a sample, `T` the recurrent state, `P` a probability. */
module Vad {

  const CHUNK: nat := 512
  const CONTEXT: nat := 64
  const MODEL_INPUT: nat := CONTEXT + CHUNK

  type Model<!S, !T, P> = (seq<S>, T) -> (P, T)

  datatype Verdict<P> = Prob(p: P) | WrongLength(n: nat) | StepRaised

  function Zeros<S>(n: nat, zero: S): (r: seq<S>)
    ensures |r| == n && forall i :: 0 <= i < n ==> r[i] == zero
  {
    seq(n, _ => zero)
  }

  /** The last `CONTEXT` samples of the chunk, padded in front if it is short. */
  function NextContext<S>(chunk: seq<S>, zero: S): (r: seq<S>)
    ensures |r| == CONTEXT
  {
    if |chunk| >= CONTEXT then chunk[|chunk| - CONTEXT..] else Zeros(CONTEXT - |chunk|, zero) + chunk
  }

  // ---- the whole-input definition -------------------------------------------------------------

  /** Input `k`: the window of `MODEL_INPUT` samples that starts `CHUNK * k` samples into the
      stream with `CONTEXT` zeros in front. */
  function Window<S>(stream: seq<S>, zero: S, k: nat): (r: seq<S>)
    requires CHUNK * (k + 1) <= |stream|
    ensures |r| == MODEL_INPUT
  {
    (Zeros(CONTEXT, zero) + stream)[CHUNK * k..CHUNK * k + MODEL_INPUT]
  }

  function StateAfter<S, T, P>(model: Model<S, T, P>, stream: seq<S>, zero: S, initial: T, k: nat): T
    requires CHUNK * k <= |stream|
  {
    if k == 0 then initial
    else model(Window(stream, zero, k - 1), StateAfter(model, stream, zero, initial, k - 1)).1
  }

  function ProbAt<S, T, P>(model: Model<S, T, P>, stream: seq<S>, zero: S, initial: T, k: nat): P
    requires CHUNK * (k + 1) <= |stream|
  {
    model(Window(stream, zero, k), StateAfter(model, stream, zero, initial, k)).0
  }

  /** Later samples change no earlier window. */
  lemma WindowStable<S>(stream: seq<S>, more: seq<S>, zero: S, k: nat)
    requires CHUNK * (k + 1) <= |stream|
    ensures Window(stream + more, zero, k) == Window(stream, zero, k)
  {
    var z := Zeros(CONTEXT, zero);
    assert z + (stream + more) == (z + stream) + more;
  }

  lemma {:induction false} StateStable<S, T, P>(model: Model<S, T, P>, stream: seq<S>, more: seq<S>, zero: S, initial: T, k: nat)
    requires CHUNK * k <= |stream|
    ensures StateAfter(model, stream + more, zero, initial, k) == StateAfter(model, stream, zero, initial, k)
  {
    if k > 0 {
      StateStable(model, stream, more, zero, initial, k - 1);
      WindowStable(stream, more, zero, k - 1);
    }
  }

  /** The ring holds the samples just before the stream's end. */
  function Ring<S>(stream: seq<S>, zero: S): seq<S> {
    (Zeros(CONTEXT, zero) + stream)[|stream|..]
  }

  lemma NewWindow<S>(stream: seq<S>, chunk: seq<S>, zero: S, k: nat)
    requires |stream| == CHUNK * k && |chunk| == CHUNK
    ensures Ring(stream, zero) + chunk == Window(stream + chunk, zero, k)
    ensures NextContext(chunk, zero) == Ring(stream + chunk, zero)
  {
    var z := Zeros(CONTEXT, zero);
    assert z + (stream + chunk) == (z + stream) + chunk;
    assert ((z + stream) + chunk)[|stream|..] == (z + stream)[|stream|..] + chunk;
  }

  /** Sample `j` of input `k`: 64 samples of what came before, then the 512 of the chunk. */
  lemma WindowSamples<S>(stream: seq<S>, zero: S, k: nat, j: nat)
    requires 512 * (k + 1) <= |stream| && j < 576
    ensures Window(stream, zero, k)[j] == if 512 * k + j < 64 then zero else stream[512 * k + j - 64]
  {
  }

  class StreamingVAD<S(!new), T(!new), P(!new)> {
    const model: Model<S, T, P>
    const zero: S
    const initial: T
    var context: seq<S>
    var state: T
    /** The samples accepted since the last reset, and the verdicts given for them. */
    ghost var stream: seq<S>
    ghost var probs: seq<P>

    ghost predicate Valid()
      reads this
    {
      && |stream| == CHUNK * |probs|
      && context == Ring(stream, zero)
      && state == StateAfter(model, stream, zero, initial, |probs|)
      && forall k :: 0 <= k < |probs| ==> probs[k] == ProbAt(model, stream, zero, initial, k)
    }

    constructor (model: Model<S, T, P>, zero: S, initial: T)
      ensures Valid() && stream == [] && this.model == model && this.zero == zero && this.initial == initial
    {
      this.model, this.zero, this.initial := model, zero, initial;
      context, state := Zeros(CONTEXT, zero), initial;
      stream, probs := [], [];
    }

    method Reset()
      modifies this
      ensures Valid() && stream == [] && probs == []
    {
      context, state := Zeros(CONTEXT, zero), initial;
      stream, probs := [], [];
    }

    /** One chunk. A wrong length and a step that raises leave the position as it was, so the
        same chunk can be pushed again. */
    method PushChunk(chunk: seq<S>, raises: bool) returns (r: Verdict<P>)
      requires Valid()
      modifies this
      ensures Valid()
      ensures match r
        case WrongLength(n) => n == |chunk| != CHUNK
        case StepRaised => |chunk| == CHUNK && raises
        case Prob(p) => |chunk| == CHUNK && !raises && stream == old(stream) + chunk && probs == old(probs) + [p]
      ensures !r.Prob? ==> stream == old(stream) && probs == old(probs) && context == old(context) && state == old(state)
    {
      if |chunk| != CHUNK {
        return WrongLength(|chunk|);
      }
      if raises {
        return StepRaised;
      }
      ghost var k := |probs|;
      NewWindow(stream, chunk, zero, k);
      StateStable(model, stream, chunk, zero, initial, k);
      var (prob, next) := model(context + chunk, state);
      state := next;
      context := NextContext(chunk, zero);
      ghost var before := stream;
      stream, probs := stream + chunk, probs + [prob];
      forall j | 0 <= j < |probs| ensures probs[j] == ProbAt(model, stream, zero, initial, j) {
        if j < k {
          WindowStable(before, chunk, zero, j);
          StateStable(model, before, chunk, zero, initial, j);
        }
      }
      return Prob(prob);
    }
  }
}
