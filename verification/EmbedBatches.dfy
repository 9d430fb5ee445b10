/** Batched embedding: rows are packed, shortest first, into padded forwards that stay under
    a row cap, a padded-token budget and a waste factor, and every result is written back to
    the slot of its input. */
module EmbedBatches {
  import opened Basics

  const EMBED_BATCH_CHUNK: nat := 32
  const EMBED_CHUNK_TOKEN_BUDGET: nat := 4096
  const EMBED_CHUNK_WASTE_FACTOR: nat := 2

  datatype Caps = Caps(rows: nat, tokens: nat, waste: nat)

  const DEFAULT_CAPS: Caps := Caps(EMBED_BATCH_CHUNK, EMBED_CHUNK_TOKEN_BUDGET, EMBED_CHUNK_WASTE_FACTOR)

  function MaxOf(lengths: seq<nat>, s: nat, e: nat): (m: nat)
    requires s <= e <= |lengths|
    ensures forall i :: s <= i < e ==> lengths[i] <= m
    decreases e - s
  {
    if s == e then 0
    else
      var m := MaxOf(lengths, s, e - 1);
      if lengths[e - 1] > m then lengths[e - 1] else m
  }

  function SumOf(lengths: seq<nat>, s: nat, e: nat): nat
    requires s <= e <= |lengths|
    decreases e - s
  {
    if s == e then 0 else SumOf(lengths, s, e - 1) + lengths[e - 1]
  }

  /** A chunk of `rows` rows, the longest `longest`, with `tokens` real tokens, would break a
      cap: its padded forward computes on `rows * longest` tokens. */
  predicate BreaksCap(caps: Caps, rows: nat, longest: nat, tokens: nat) {
    var padded := rows * longest;
    rows > caps.rows || padded > caps.tokens || padded > caps.waste * tokens
  }

  predicate WithinCaps(caps: Caps, lengths: seq<nat>, s: nat, e: nat)
    requires s <= e <= |lengths|
  {
    !BreaksCap(caps, e - s, MaxOf(lengths, s, e), SumOf(lengths, s, e))
  }

  /** Where the chunk that starts at `s` and has reached `e` closes. */
  function CloseAt(caps: Caps, lengths: seq<nat>, s: nat, e: nat): (r: nat)
    requires s < e <= |lengths|
    ensures e <= r <= |lengths|
    decreases |lengths| - e
  {
    if e == |lengths| || !WithinCaps(caps, lengths, s, e + 1) then e else CloseAt(caps, lengths, s, e + 1)
  }

  function Chunks(caps: Caps, lengths: seq<nat>, s: nat): (r: seq<(nat, nat)>)
    requires s <= |lengths|
    decreases |lengths| - s
  {
    if s == |lengths| then []
    else
      var e := CloseAt(caps, lengths, s, s + 1);
      [(s, e)] + Chunks(caps, lengths, e)
  }

  /** The chunks still to come while the one from `s` has reached `e`. */
  function ChunksFrom(caps: Caps, lengths: seq<nat>, s: nat, e: nat): seq<(nat, nat)>
    requires s < e <= |lengths|
  {
    var r := CloseAt(caps, lengths, s, e);
    [(s, r)] + Chunks(caps, lengths, r)
  }

  /** `ranges` are closed, the chunk from `s` has reached `i`, and going on from there gives
      the whole packing. */
  ghost predicate OnTrack(caps: Caps, lengths: seq<nat>, ranges: seq<(nat, nat)>, s: nat, i: nat) {
    && i <= |lengths|
    && if i == 0 then s == 0 && ranges == []
       else s < i && Chunks(caps, lengths, 0) == ranges + ChunksFrom(caps, lengths, s, i)
  }

  lemma FirstRow(caps: Caps, lengths: seq<nat>)
    requires lengths != []
    ensures OnTrack(caps, lengths, [], 0, 1)
  {
    assert [] + ChunksFrom(caps, lengths, 0, 1) == ChunksFrom(caps, lengths, 0, 1);
  }

  /** Row `i` closes the running chunk if it would break a cap, and joins it otherwise. */
  lemma NextRow(caps: Caps, lengths: seq<nat>, ranges: seq<(nat, nat)>, s: nat, i: nat)
    requires s < i < |lengths|
    ensures OnTrack(caps, lengths, ranges, s, i) ==>
      if WithinCaps(caps, lengths, s, i + 1) then OnTrack(caps, lengths, ranges, s, i + 1)
      else OnTrack(caps, lengths, ranges + [(s, i)], i, i + 1)
  {
    hide WithinCaps;
    if !WithinCaps(caps, lengths, s, i + 1) {
      assert ChunksFrom(caps, lengths, s, i) == [(s, i)] + ChunksFrom(caps, lengths, i, i + 1);
      assert ranges + ([(s, i)] + ChunksFrom(caps, lengths, i, i + 1)) == (ranges + [(s, i)]) + ChunksFrom(caps, lengths, i, i + 1);
    }
  }

  lemma LastRow(caps: Caps, lengths: seq<nat>, ranges: seq<(nat, nat)>, s: nat)
    requires OnTrack(caps, lengths, ranges, s, |lengths|)
    ensures s < |lengths| || lengths == []
    ensures Chunks(caps, lengths, 0) == if s < |lengths| then ranges + [(s, |lengths|)] else ranges
  {
    if lengths != [] {
      assert ChunksFrom(caps, lengths, s, |lengths|) == [(s, |lengths|)];
    }
  }

  method PackEmbedChunks(caps: Caps, lengths: seq<nat>) returns (ranges: seq<(nat, nat)>)
    ensures ranges == Chunks(caps, lengths, 0)
  {
    hide MaxOf, SumOf, BreaksCap, WithinCaps, CloseAt, Chunks, OnTrack;
    ranges := [];
    var start, curMax, realTokens := 0, 0, 0;
    RowsEmpty(lengths, 0);
    NothingPacked(caps, lengths);
    for i := 0 to |lengths|
      invariant start <= i && OnTrack(caps, lengths, ranges, start, i)
      invariant if i == 0 then start == 0 && ranges == [] else start < i
      invariant curMax == MaxOf(lengths, start, i) && realTokens == SumOf(lengths, start, i)
    {
      var n := lengths[i];
      var rows := i - start + 1;
      var newMax := if n > curMax then n else curMax;
      RowJoins(caps, lengths, start, i);
      RowJoins(caps, lengths, i, i);
      RowsEmpty(lengths, i);
      if i == 0 {
        FirstRow(caps, lengths);
      } else {
        NextRow(caps, lengths, ranges, start, i);
      }
      if i > start && BreaksCap(caps, rows, newMax, realTokens + n) {
        ranges := ranges + [(start, i)];
        start := i;
        newMax := n;
        realTokens := 0;
      }
      curMax := newMax;
      realTokens := realTokens + n;
    }
    LastRow(caps, lengths, ranges, start);
    if start < |lengths| {
      ranges := ranges + [(start, |lengths|)];
    }
  }

  lemma NothingPacked(caps: Caps, lengths: seq<nat>)
    ensures OnTrack(caps, lengths, [], 0, 0)
  {
  }

  lemma RowsEmpty(lengths: seq<nat>, s: nat)
    requires s <= |lengths|
    ensures MaxOf(lengths, s, s) == 0 && SumOf(lengths, s, s) == 0
  {
  }

  /** What the running maximum and sum become when row `e` joins, and what the caps say then. */
  lemma RowJoins(caps: Caps, lengths: seq<nat>, s: nat, e: nat)
    requires s <= e < |lengths|
    ensures var m, n := MaxOf(lengths, s, e), lengths[e];
      var m' := if n > m then n else m;
      && MaxOf(lengths, s, e + 1) == m' && SumOf(lengths, s, e + 1) == SumOf(lengths, s, e) + n
      && (WithinCaps(caps, lengths, s, e + 1) <==>
            !BreaksCap(caps, e - s + 1, m', SumOf(lengths, s, e) + n))
  {
  }

  // ---- what the packing promises -----------------------------------------------------------

  /** Contiguous, non-empty ranges from `s` to `n`. */
  ghost predicate Tiles(ranges: seq<(nat, nat)>, s: nat, n: nat)
    decreases |ranges|
  {
    if ranges == [] then s == n
    else ranges[0].0 == s && s < ranges[0].1 <= n && Tiles(ranges[1..], ranges[0].1, n)
  }

  /** A range is one row or within every cap, and could not have taken the next row. */
  ghost predicate GreedyRange(caps: Caps, lengths: seq<nat>, r: (nat, nat)) {
    && r.0 < r.1 <= |lengths|
    && (r.1 == r.0 + 1 || WithinCaps(caps, lengths, r.0, r.1))
    && (r.1 == |lengths| || !WithinCaps(caps, lengths, r.0, r.1 + 1))
  }

  lemma {:induction false} CloseAtGreedy(caps: Caps, lengths: seq<nat>, s: nat, e: nat)
    requires s < e <= |lengths| && (e == s + 1 || WithinCaps(caps, lengths, s, e))
    ensures GreedyRange(caps, lengths, (s, CloseAt(caps, lengths, s, e)))
    decreases |lengths| - e
  {
    hide WithinCaps;
    if e < |lengths| && WithinCaps(caps, lengths, s, e + 1) {
      CloseAtGreedy(caps, lengths, s, e + 1);
    }
  }

  lemma {:induction false} PackingIsSound(caps: Caps, lengths: seq<nat>, s: nat)
    requires s <= |lengths|
    ensures Tiles(Chunks(caps, lengths, s), s, |lengths|)
    ensures forall r :: r in Chunks(caps, lengths, s) ==> GreedyRange(caps, lengths, r)
    decreases |lengths| - s
  {
    hide GreedyRange, CloseAt;
    if s < |lengths| {
      CloseAtGreedy(caps, lengths, s, s + 1);
      PackingIsSound(caps, lengths, CloseAt(caps, lengths, s, s + 1));
    }
  }

  function Padded(lengths: seq<nat>, r: (nat, nat)): nat
    requires r.0 <= r.1 <= |lengths|
  {
    (r.1 - r.0) * MaxOf(lengths, r.0, r.1)
  }

  ghost function TotalPadded(caps: Caps, lengths: seq<nat>, s: nat): nat
    requires s <= |lengths|
    decreases |lengths| - s
  {
    if s == |lengths| then 0
    else
      var e := CloseAt(caps, lengths, s, s + 1);
      Padded(lengths, (s, e)) + TotalPadded(caps, lengths, e)
  }

  lemma {:induction false} SumSplit(lengths: seq<nat>, s: nat, m: nat, e: nat)
    requires s <= m <= e <= |lengths|
    ensures SumOf(lengths, s, e) == SumOf(lengths, s, m) + SumOf(lengths, m, e)
    decreases e - m
  {
    if m < e {
      SumSplit(lengths, s, m, e - 1);
    }
  }

  lemma RangeWaste(caps: Caps, lengths: seq<nat>, r: (nat, nat))
    requires caps.waste >= 1 && GreedyRange(caps, lengths, r)
    ensures Padded(lengths, r) <= caps.waste * SumOf(lengths, r.0, r.1)
  {
    if r.1 == r.0 + 1 {
      var n := lengths[r.0];
      assert MaxOf(lengths, r.0, r.0) == 0 && SumOf(lengths, r.0, r.0) == 0;
      assert MaxOf(lengths, r.0, r.1) == n && SumOf(lengths, r.0, r.1) == n;
      assert caps.waste * n >= n by {
        assert (caps.waste - 1) * n >= 0;
      }
    }
  }

  /** All forwards together compute on at most `waste` times the real tokens. */
  lemma {:induction false} WasteBounded(caps: Caps, lengths: seq<nat>, s: nat)
    requires s <= |lengths| && caps.waste >= 1
    ensures TotalPadded(caps, lengths, s) <= caps.waste * SumOf(lengths, s, |lengths|)
    decreases |lengths| - s
  {
    hide GreedyRange, CloseAt, Padded, MaxOf;
    if s < |lengths| {
      var e := CloseAt(caps, lengths, s, s + 1);
      CloseAtGreedy(caps, lengths, s, s + 1);
      RangeWaste(caps, lengths, (s, e));
      WasteBounded(caps, lengths, e);
      SumSplit(lengths, s, e, |lengths|);
      assert caps.waste * (SumOf(lengths, s, e) + SumOf(lengths, e, |lengths|))
        == caps.waste * SumOf(lengths, s, e) + caps.waste * SumOf(lengths, e, |lengths|);
    }
  }

  // ---- the plan ------------------------------------------------------------------------------

  ghost predicate AllBelow(order: seq<nat>, n: nat) {
    forall p :: 0 <= p < |order| ==> order[p] < n
  }

  /** Insert row `i` after every row that is not longer. */
  function InsertRow(lengths: seq<nat>, order: seq<nat>, i: nat): (r: seq<nat>)
    requires i < |lengths| && AllBelow(order, |lengths|)
    ensures |r| == |order| + 1 && AllBelow(r, |lengths|)
    ensures forall j: nat :: j in r <==> j == i || j in order
  {
    if order == [] then [i]
    else
      var last := order[|order| - 1];
      assert order == order[..|order| - 1] + [last];
      if lengths[last] <= lengths[i] then order + [i]
      else InsertRow(lengths, order[..|order| - 1], i) + [last]
  }

  /** `sorted(range(n), key=lengths)`: stable. */
  function SortRows(lengths: seq<nat>, n: nat): (order: seq<nat>)
    requires n <= |lengths|
    ensures |order| == n && AllBelow(order, |lengths|)
    ensures forall j: nat :: j in order <==> j < n
    decreases n
  {
    if n == 0 then [] else InsertRow(lengths, SortRows(lengths, n - 1), n - 1)
  }

  ghost predicate Before(lengths: seq<nat>, i: nat, j: nat) {
    i < |lengths| && j < |lengths| && (lengths[i] < lengths[j] || (lengths[i] == lengths[j] && i < j))
  }

  ghost predicate StablySorted(lengths: seq<nat>, order: seq<nat>) {
    forall p, q :: 0 <= p < q < |order| ==> Before(lengths, order[p], order[q])
  }

  lemma {:induction false} InsertKeepsSorted(lengths: seq<nat>, order: seq<nat>, i: nat)
    requires i < |lengths| && AllBelow(order, |lengths|) && AllBelow(order, i) && StablySorted(lengths, order)
    ensures StablySorted(lengths, InsertRow(lengths, order, i))
  {
    if order != [] {
      var front, last := order[..|order| - 1], order[|order| - 1];
      if lengths[last] > lengths[i] {
        InsertKeepsSorted(lengths, front, i);
        var r := InsertRow(lengths, front, i);
        forall p | 0 <= p < |r| ensures Before(lengths, r[p], last) {
          assert r[p] in r;
          if r[p] != i {
            var q :| 0 <= q < |front| && front[q] == r[p];
            assert Before(lengths, order[q], order[|order| - 1]);
          }
        }
      } else {
        forall p | 0 <= p < |order| ensures Before(lengths, order[p], i) {
          assert p < |order| - 1 ==> Before(lengths, order[p], order[|order| - 1]);
        }
      }
    }
  }

  lemma {:induction false} SortRowsSorted(lengths: seq<nat>, n: nat)
    requires n <= |lengths|
    ensures StablySorted(lengths, SortRows(lengths, n))
  {
    if n > 0 {
      SortRowsSorted(lengths, n - 1);
      var order := SortRows(lengths, n - 1);
      forall p | 0 <= p < |order| ensures order[p] < n - 1 {
        assert order[p] in order;
      }
      InsertKeepsSorted(lengths, order, n - 1);
    }
  }

  function Gather(lengths: seq<nat>, order: seq<nat>): (r: seq<nat>)
    requires AllBelow(order, |lengths|)
    ensures |r| == |order| && forall k :: 0 <= k < |order| ==> r[k] == lengths[order[k]]
  {
    seq(|order|, k requires 0 <= k < |order| => lengths[order[k]])
  }

  /** The chunks of the length-sorted rows, as lists of original indices. */
  ghost predicate IsPlan(caps: Caps, lengths: seq<nat>, plan: seq<seq<nat>>) {
    var order := SortRows(lengths, |lengths|);
    var ranges := Chunks(caps, Gather(lengths, order), 0);
    && |plan| == |ranges|
    && forall k :: 0 <= k < |plan| ==> ranges[k].0 <= ranges[k].1 <= |order| && plan[k] == order[ranges[k].0..ranges[k].1]
  }

  method PlanEmbedBatches(caps: Caps, lengths: seq<nat>) returns (plan: seq<seq<nat>>)
    ensures IsPlan(caps, lengths, plan)
    ensures PlanBelow(plan, |lengths|)
    ensures forall k :: 0 <= k < |plan| ==> plan[k] != [] && (|plan[k]| > 1 ==> FitsCaps(caps, lengths, plan[k]))
    ensures caps.waste >= 1 ==> PlanCost(lengths, plan) <= caps.waste * SumOf(lengths, 0, |lengths|)
  {
    hide FitsCaps, PlanBelow, Chunks, SortRows, GreedyRange, PlanCost, SumOf;
    var order := SortRows(lengths, |lengths|);
    var ranges := PackEmbedChunks(caps, Gather(lengths, order));
    PackingIsSound(caps, Gather(lengths, order), 0);
    forall k | 0 <= k < |ranges| ensures ranges[k].0 <= ranges[k].1 <= |order| {
      TilesOrdered(ranges, 0, |order|, k);
    }
    plan := seq(|ranges|, k requires 0 <= k < |ranges| && ranges[k].0 <= ranges[k].1 <= |order| => order[ranges[k].0..ranges[k].1]);
    assert IsPlan(caps, lengths, plan);
    PlanFitsCaps(caps, lengths, plan);
    if caps.waste >= 1 {
      PlanIsCheap(caps, lengths, plan);
    }
  }

  lemma {:induction false} TilesFind(ranges: seq<(nat, nat)>, s: nat, n: nat, x: nat) returns (k: nat)
    requires Tiles(ranges, s, n) && s <= x < n
    ensures k < |ranges| && ranges[k].0 <= x < ranges[k].1
    decreases |ranges|
  {
    if x < ranges[0].1 {
      k := 0;
    } else {
      k := TilesFind(ranges[1..], ranges[0].1, n, x);
      k := k + 1;
    }
  }

  lemma {:induction false} TilesOrdered(ranges: seq<(nat, nat)>, s: nat, n: nat, k: nat)
    requires Tiles(ranges, s, n) && k < |ranges|
    ensures s <= ranges[k].0 < ranges[k].1 <= n
    ensures forall k' :: 0 <= k' < k ==> ranges[k'].1 <= ranges[k].0
    decreases |ranges|
  {
    if k > 0 {
      TilesOrdered(ranges[1..], ranges[0].1, n, k - 1);
      forall k' | 0 <= k' < k ensures ranges[k'].1 <= ranges[k].0 {
        if k' > 0 {
          assert ranges[k'] == ranges[1..][k' - 1];
        }
      }
    }
  }

  /** Row `i` is entry `j` of chunk `k`. */
  ghost predicate At(plan: seq<seq<nat>>, k: int, j: int, i: int) {
    0 <= k < |plan| && 0 <= j < |plan[k]| && plan[k][j] == i
  }

  ghost predicate Planned(plan: seq<seq<nat>>, i: int) {
    exists k, j :: At(plan, k, j, i)
  }

  lemma PlanPosition(caps: Caps, lengths: seq<nat>, plan: seq<seq<nat>>, k: int, j: int, i: int)
    requires IsPlan(caps, lengths, plan) && At(plan, k, j, i)
    ensures var order := SortRows(lengths, |lengths|);
      var ranges := Chunks(caps, Gather(lengths, order), 0);
      k < |ranges| &&
      var r := ranges[k];
      r.0 + j < r.1 <= |order| && order[r.0 + j] == i && 0 <= i < |lengths|
  {
    hide SortRows, Chunks;
  }

  lemma SortedInjective(lengths: seq<nat>, order: seq<nat>, x: nat, y: nat)
    requires StablySorted(lengths, order) && x < |order| && y < |order|
    ensures order[x] == order[y] ==> x == y
  {
    if x < y {
      assert Before(lengths, order[x], order[y]);
    } else if y < x {
      assert Before(lengths, order[y], order[x]);
    }
  }

  lemma EveryRowPlanned(caps: Caps, lengths: seq<nat>, plan: seq<seq<nat>>, i: nat) returns (k: nat, j: nat)
    requires IsPlan(caps, lengths, plan) && i < |lengths|
    ensures At(plan, k, j, i)
  {
    hide SortRows, Chunks, GreedyRange;
    var order := SortRows(lengths, |lengths|);
    PackingIsSound(caps, Gather(lengths, order), 0);
    assert i in order;
    var x: nat :| x < |order| && order[x] == i;
    k := TilesFind(Chunks(caps, Gather(lengths, order), 0), 0, |order|, x);
    j := x - Chunks(caps, Gather(lengths, order), 0)[k].0;
  }

  /** Every row is in the plan, at exactly one place, and nothing else is. */
  lemma EachRowOnce(caps: Caps, lengths: seq<nat>, plan: seq<seq<nat>>)
    requires IsPlan(caps, lengths, plan)
    ensures forall i :: 0 <= i < |lengths| <==> Planned(plan, i)
    ensures forall i, k, j, k', j' :: At(plan, k, j, i) && At(plan, k', j', i) ==> k == k' && j == j'
  {
    hide SortRows, Chunks, GreedyRange, IsPlan;
    var n := |lengths|;
    var order := SortRows(lengths, n);
    PackingIsSound(caps, Gather(lengths, order), 0);
    SortRowsSorted(lengths, n);
    forall i | 0 <= i < n ensures Planned(plan, i) {
      var k, j := EveryRowPlanned(caps, lengths, plan, i);
    }
    forall i, k, j | At(plan, k, j, i) ensures 0 <= i < n {
      PlanPosition(caps, lengths, plan, k, j, i);
    }
    forall i, k, j, k', j' | At(plan, k, j, i) && At(plan, k', j', i) ensures k == k' && j == j' {
      PlanPosition(caps, lengths, plan, k, j, i);
      PlanPosition(caps, lengths, plan, k', j', i);
      var ranges := Chunks(caps, Gather(lengths, order), 0);
      SortedInjective(lengths, order, ranges[k].0 + j, ranges[k'].0 + j');
      TilesOrdered(ranges, 0, n, k);
      TilesOrdered(ranges, 0, n, k');
    }
  }

  // ---- what the plan costs -------------------------------------------------------------------

  /** The lengths of one chunk's rows. */
  function ChunkLengths(lengths: seq<nat>, chunk: seq<nat>): (r: seq<nat>)
    requires AllBelow(chunk, |lengths|)
    ensures |r| == |chunk|
  {
    Gather(lengths, chunk)
  }

  ghost predicate PlanBelow(plan: seq<seq<nat>>, n: nat) {
    forall k :: 0 <= k < |plan| ==> AllBelow(plan[k], n)
  }

  /** The tokens all padded forwards of a plan compute on: rows times longest, chunk by chunk. */
  ghost function PlanCost(lengths: seq<nat>, plan: seq<seq<nat>>): nat
    requires PlanBelow(plan, |lengths|)
  {
    if plan == [] then 0
    else |plan[0]| * MaxOf(ChunkLengths(lengths, plan[0]), 0, |plan[0]|) + PlanCost(lengths, plan[1..])
  }

  lemma {:induction false} MaxOfSlice(a: seq<nat>, s: nat, e: nat)
    requires s <= e <= |a|
    ensures MaxOf(a[s..e], 0, e - s) == MaxOf(a, s, e) && SumOf(a[s..e], 0, e - s) == SumOf(a, s, e)
    decreases e
  {
    if s < e {
      MaxOfSlice(a, s, e - 1);
      MaxOfPrefix(a[s..e], e - 1 - s);
      assert a[s..e][..e - 1 - s] == a[s..e - 1];
    }
  }

  lemma {:induction false} MaxOfPrefix(a: seq<nat>, k: nat)
    requires k <= |a|
    ensures MaxOf(a, 0, k) == MaxOf(a[..k], 0, k) && SumOf(a, 0, k) == SumOf(a[..k], 0, k)
    decreases k
  {
    if k > 0 {
      MaxOfPrefix(a, k - 1);
      MaxOfPrefix(a[..k], k - 1);
      assert a[..k][..k - 1] == a[..k - 1];
    }
  }

  /** The chunks of the packing, as lists of rows. */
  function Slices(caps: Caps, lengths: seq<nat>, order: seq<nat>, s: nat): (r: seq<seq<nat>>)
    requires AllBelow(order, |lengths|) && s <= |order|
    ensures PlanBelow(r, |lengths|)
    decreases |order| - s
  {
    if s == |order| then []
    else
      var e := CloseAt(caps, Gather(lengths, order), s, s + 1);
      [order[s..e]] + Slices(caps, lengths, order, e)
  }

  lemma {:induction false} SlicesAreChunks(caps: Caps, lengths: seq<nat>, order: seq<nat>, s: nat)
    requires AllBelow(order, |lengths|) && s <= |order|
    ensures var ranges, slices := Chunks(caps, Gather(lengths, order), s), Slices(caps, lengths, order, s);
      |slices| == |ranges|
      && forall k :: 0 <= k < |slices| ==> ranges[k].0 <= ranges[k].1 <= |order| && slices[k] == order[ranges[k].0..ranges[k].1]
    decreases |order| - s
  {
    hide CloseAt;
    if s < |order| {
      SlicesAreChunks(caps, lengths, order, CloseAt(caps, Gather(lengths, order), s, s + 1));
    }
  }

  /** One chunk of the plan is one range of the packing: same rows, same longest, same sum. */
  lemma SliceCost(lengths: seq<nat>, order: seq<nat>, s: nat, e: nat)
    requires AllBelow(order, |lengths|) && s <= e <= |order|
    ensures var chunk, all := order[s..e], Gather(lengths, order);
      && MaxOf(ChunkLengths(lengths, chunk), 0, e - s) == MaxOf(all, s, e)
      && SumOf(ChunkLengths(lengths, chunk), 0, e - s) == SumOf(all, s, e)
  {
    hide MaxOf, SumOf;
    assert ChunkLengths(lengths, order[s..e]) == Gather(lengths, order)[s..e];
    MaxOfSlice(Gather(lengths, order), s, e);
  }

  lemma {:induction false} SlicesCost(caps: Caps, lengths: seq<nat>, order: seq<nat>, s: nat)
    requires AllBelow(order, |lengths|) && s <= |order|
    ensures PlanCost(lengths, Slices(caps, lengths, order, s)) == TotalPadded(caps, Gather(lengths, order), s)
    decreases |order| - s
  {
    hide CloseAt, MaxOf;
    if s < |order| {
      var e := CloseAt(caps, Gather(lengths, order), s, s + 1);
      SlicesCost(caps, lengths, order, e);
      SliceCost(lengths, order, s, e);
      var plan := Slices(caps, lengths, order, s);
      assert plan[1..] == Slices(caps, lengths, order, e);
    }
  }

  /** The real tokens of the rows in `order`. */
  ghost function Tokens(lengths: seq<nat>, order: seq<nat>): nat
    requires AllBelow(order, |lengths|)
  {
    SumOf(Gather(lengths, order), 0, |order|)
  }

  lemma TokensSnoc(lengths: seq<nat>, order: seq<nat>, i: nat)
    requires AllBelow(order, |lengths|) && i < |lengths|
    ensures AllBelow(order + [i], |lengths|) && Tokens(lengths, order + [i]) == Tokens(lengths, order) + lengths[i]
  {
    var a := Gather(lengths, order + [i]);
    MaxOfPrefix(a, |order|);
    assert a[..|order|] == Gather(lengths, order);
  }

  lemma {:induction false} InsertTokens(lengths: seq<nat>, order: seq<nat>, i: nat)
    requires AllBelow(order, |lengths|) && i < |lengths|
    ensures Tokens(lengths, InsertRow(lengths, order, i)) == Tokens(lengths, order) + lengths[i]
  {
    hide Tokens;
    TokensSnoc(lengths, order, i);
    if order == [] {
      assert order + [i] == [i];
    } else {
      var front, last := order[..|order| - 1], order[|order| - 1];
      assert order == front + [last];
      TokensSnoc(lengths, front, last);
      if lengths[last] > lengths[i] {
        InsertTokens(lengths, front, i);
        TokensSnoc(lengths, InsertRow(lengths, front, i), last);
      }
    }
  }

  /** Sorting the rows loses and repeats none of their tokens. */
  lemma {:induction false} SortTokens(lengths: seq<nat>, n: nat)
    requires n <= |lengths|
    ensures Tokens(lengths, SortRows(lengths, n)) == SumOf(lengths, 0, n)
  {
    if n > 0 {
      SortTokens(lengths, n - 1);
      InsertTokens(lengths, SortRows(lengths, n - 1), n - 1);
    }
  }

  /** Main result: every chunk of the plan with more than one row is within every cap, and all
      its forwards together compute on at most `waste` times the real tokens of the input. */
  lemma PlanIsCheap(caps: Caps, lengths: seq<nat>, plan: seq<seq<nat>>)
    requires IsPlan(caps, lengths, plan) && caps.waste >= 1
    ensures PlanBelow(plan, |lengths|)
    ensures forall k :: 0 <= k < |plan| ==>
      plan[k] != [] && (|plan[k]| > 1 ==> WithinCaps(caps, ChunkLengths(lengths, plan[k]), 0, |plan[k]|))
    ensures PlanCost(lengths, plan) <= caps.waste * SumOf(lengths, 0, |lengths|)
  {
    hide SortRows, Chunks, Slices, CloseAt, MaxOf, SumOf, TotalPadded, BreaksCap;
    var order := SortRows(lengths, |lengths|);
    var all := Gather(lengths, order);
    var ranges := Chunks(caps, all, 0);
    SlicesAreChunks(caps, lengths, order, 0);
    assert plan == Slices(caps, lengths, order, 0);
    PackingIsSound(caps, all, 0);
    forall k | 0 <= k < |plan|
      ensures plan[k] != [] && (|plan[k]| > 1 ==> WithinCaps(caps, ChunkLengths(lengths, plan[k]), 0, |plan[k]|))
    {
      assert ranges[k] in ranges && GreedyRange(caps, all, ranges[k]);
      SliceCost(lengths, order, ranges[k].0, ranges[k].1);
    }
    SlicesCost(caps, lengths, order, 0);
    WasteBounded(caps, all, 0);
    SortTokens(lengths, |lengths|);
  }

  // ---- the same in plain numbers -----------------------------------------------------------------

  /** The real tokens of one chunk's rows. */
  function RowTokens(lengths: seq<nat>, chunk: seq<nat>): nat
    requires AllBelow(chunk, |lengths|)
  {
    if chunk == [] then 0 else RowTokens(lengths, chunk[..|chunk| - 1]) + lengths[chunk[|chunk| - 1]]
  }

  /** The chunk has few enough rows, and padding all of them to any one of them computes on
      few enough tokens, both in all and against the real ones. */
  ghost predicate FitsCaps(caps: Caps, lengths: seq<nat>, chunk: seq<nat>)
    requires AllBelow(chunk, |lengths|)
  {
    && |chunk| <= caps.rows
    && forall j :: 0 <= j < |chunk| ==>
         |chunk| * lengths[chunk[j]] <= caps.tokens && |chunk| * lengths[chunk[j]] <= caps.waste * RowTokens(lengths, chunk)
  }

  /** One row too many, or padding to the first row of `rest` costs too much. */
  ghost predicate NextIsTooMuch(caps: Caps, lengths: seq<nat>, chunk: seq<nat>, rest: seq<nat>) {
    && AllBelow(chunk, |lengths|) && AllBelow(rest, |lengths|) && rest != []
    && var rows, longest := |chunk| + 1, lengths[rest[0]];
       || rows > caps.rows
       || rows * longest > caps.tokens
       || rows * longest > caps.waste * (RowTokens(lengths, chunk) + longest)
  }

  lemma {:induction false} RowTokensSum(lengths: seq<nat>, chunk: seq<nat>)
    requires AllBelow(chunk, |lengths|)
    ensures RowTokens(lengths, chunk) == SumOf(ChunkLengths(lengths, chunk), 0, |chunk|)
  {
    if chunk != [] {
      var front := chunk[..|chunk| - 1];
      RowTokensSum(lengths, front);
      MaxOfPrefix(ChunkLengths(lengths, chunk), |front|);
      assert ChunkLengths(lengths, chunk)[..|front|] == ChunkLengths(lengths, front);
    }
  }

  lemma Times(n: nat, a: nat, b: nat)
    requires a <= b
    ensures n * a <= n * b
  {
    assert n * (b - a) >= 0;
    assert n * b == n * a + n * (b - a);
  }

  lemma {:induction false} MaxAttained(lengths: seq<nat>, s: nat, e: nat) returns (i: nat)
    requires s < e <= |lengths|
    ensures s <= i < e && lengths[i] == MaxOf(lengths, s, e)
    decreases e - s
  {
    if s + 1 == e || lengths[e - 1] > MaxOf(lengths, s, e - 1) {
      i := e - 1;
    } else {
      i := MaxAttained(lengths, s, e - 1);
    }
  }

  /** The code's test, in plain numbers: either way it speaks of every row of the chunk. */
  lemma WithinCapsIff(caps: Caps, lengths: seq<nat>, chunk: seq<nat>)
    requires AllBelow(chunk, |lengths|)
    ensures WithinCaps(caps, ChunkLengths(lengths, chunk), 0, |chunk|) <==> FitsCaps(caps, lengths, chunk)
  {
    hide MaxOf, SumOf, RowTokens;
    var own := ChunkLengths(lengths, chunk);
    RowTokensSum(lengths, chunk);
    var m := MaxOf(own, 0, |chunk|);
    forall j | 0 <= j < |chunk| ensures |chunk| * lengths[chunk[j]] <= |chunk| * m {
      Times(|chunk|, own[j], m);
    }
    if chunk != [] {
      var i := MaxAttained(own, 0, |chunk|);
      assert |chunk| * lengths[chunk[i]] == |chunk| * m;
    }
  }

  /** Main result in plain numbers, for a whole plan: a chunk is a single row or fits the
      caps, and with the first row of the next chunk, the longest of them, it would not. */
  lemma PlanFitsCaps(caps: Caps, lengths: seq<nat>, plan: seq<seq<nat>>)
    requires IsPlan(caps, lengths, plan)
    ensures PlanBelow(plan, |lengths|)
    ensures forall k :: 0 <= k < |plan| ==> plan[k] != [] && (|plan[k]| > 1 ==> FitsCaps(caps, lengths, plan[k]))
    ensures forall k, next :: 0 <= k < |plan| && k + 1 == next < |plan| ==> NextIsTooMuch(caps, lengths, plan[k], plan[next])
  {
    hide NextIsTooMuch, IsPlan, PlanBelow, FitsCaps, RowTokens, AllBelow, Chunks, SortRows;
    var order := SortRows(lengths, |lengths|);
    var ranges := Chunks(caps, Gather(lengths, order), 0);
    PackingIsSound(caps, Gather(lengths, order), 0);
    PlanHasRanges(caps, lengths, plan);
    forall k | 0 <= k < |plan|
      ensures AllBelow(plan[k], |lengths|) && plan[k] != [] && (|plan[k]| > 1 ==> FitsCaps(caps, lengths, plan[k]))
    {
      ChunkFits(caps, lengths, plan, k);
    }
    PlanBelowAll(plan, |lengths|);
    forall k, next | 0 <= k < |plan| && k + 1 == next < |plan| ensures NextIsTooMuch(caps, lengths, plan[k], plan[next]) {
      NextWouldNotFit(caps, lengths, plan, k);
    }
  }

  lemma PlanBelowAll(plan: seq<seq<nat>>, n: nat)
    ensures (forall k :: 0 <= k < |plan| ==> AllBelow(plan[k], n)) <==> PlanBelow(plan, n)
  {
  }

  lemma PlanHasRanges(caps: Caps, lengths: seq<nat>, plan: seq<seq<nat>>)
    requires IsPlan(caps, lengths, plan)
    ensures var order := SortRows(lengths, |lengths|);
      var ranges := Chunks(caps, Gather(lengths, order), 0);
      |plan| == |ranges| && forall k :: 0 <= k < |plan| ==>
        ranges[k].0 < ranges[k].1 <= |order| && plan[k] == order[ranges[k].0..ranges[k].1] && GreedyRange(caps, Gather(lengths, order), ranges[k])
  {
    hide SortRows, Chunks, WithinCaps;
    var order := SortRows(lengths, |lengths|);
    PackingIsSound(caps, Gather(lengths, order), 0);
    assert forall k :: 0 <= k < |plan| ==> Chunks(caps, Gather(lengths, order), 0)[k] in Chunks(caps, Gather(lengths, order), 0);
  }

  lemma ChunkFits(caps: Caps, lengths: seq<nat>, plan: seq<seq<nat>>, k: nat)
    requires IsPlan(caps, lengths, plan) && k < |plan|
    ensures AllBelow(plan[k], |lengths|) && plan[k] != [] && (|plan[k]| > 1 ==> FitsCaps(caps, lengths, plan[k]))
  {
    hide IsPlan, SortRows, Chunks, WithinCaps, FitsCaps, MaxOf, SumOf;
    PlanHasRanges(caps, lengths, plan);
    var order := SortRows(lengths, |lengths|);
    var r := Chunks(caps, Gather(lengths, order), 0)[k];
    SliceCost(lengths, order, r.0, r.1);
    SameCost(caps, ChunkLengths(lengths, plan[k]), 0, |plan[k]|, Gather(lengths, order), r.0, r.1);
    WithinCapsIff(caps, lengths, plan[k]);
  }

  lemma SameCost(caps: Caps, a: seq<nat>, s: nat, e: nat, b: seq<nat>, s': nat, e': nat)
    requires s <= e <= |a| && s' <= e' <= |b| && e - s == e' - s'
    requires MaxOf(a, s, e) == MaxOf(b, s', e') && SumOf(a, s, e) == SumOf(b, s', e')
    ensures WithinCaps(caps, a, s, e) <==> WithinCaps(caps, b, s', e')
  {
    hide MaxOf, SumOf;
  }

  lemma {:induction false} TilesMeet(ranges: seq<(nat, nat)>, s: nat, n: nat, k: nat)
    requires Tiles(ranges, s, n) && k + 1 < |ranges|
    ensures ranges[k].1 == ranges[k + 1].0
    decreases |ranges|
  {
    if k > 0 {
      TilesMeet(ranges[1..], ranges[0].1, n, k - 1);
    }
  }

  lemma NextWouldNotFit(caps: Caps, lengths: seq<nat>, plan: seq<seq<nat>>, k: nat)
    requires IsPlan(caps, lengths, plan) && k + 1 < |plan|
    ensures NextIsTooMuch(caps, lengths, plan[k], plan[k + 1])
  {
    hide IsPlan, SortRows, Chunks, MaxOf, SumOf, RowTokens;
    PlanHasRanges(caps, lengths, plan);
    var order := SortRows(lengths, |lengths|);
    var all := Gather(lengths, order);
    var ranges := Chunks(caps, all, 0);
    PackingIsSound(caps, all, 0);
    TilesMeet(ranges, 0, |order|, k);
    var r := ranges[k];
    SliceCost(lengths, order, r.0, r.1);
    RowTokensSum(lengths, plan[k]);
    RowJoins(caps, all, r.0, r.1);
    SortRowsSorted(lengths, |lengths|);
    LastIsLongest(lengths, order, r.0, r.1);
    assert plan[k + 1][0] == order[r.1];
  }

  lemma LastIsLongest(lengths: seq<nat>, order: seq<nat>, s: nat, e: nat)
    requires AllBelow(order, |lengths|) && StablySorted(lengths, order) && s <= e < |order|
    ensures MaxOf(Gather(lengths, order), s, e) <= lengths[order[e]]
  {
    hide MaxOf;
    if s < e {
      var i := MaxAttained(Gather(lengths, order), s, e);
      assert Before(lengths, order[i], order[e]);
    } else {
      RowsEmpty(Gather(lengths, order), s);
    }
  }

  /** As configured: at most 32 rows; rows times longest at most 4096 unless it is one row,
      and never more than twice the chunk's real tokens. */
  lemma DefaultPlan(lengths: seq<nat>, plan: seq<seq<nat>>)
    requires IsPlan(DEFAULT_CAPS, lengths, plan)
    ensures PlanBelow(plan, |lengths|)
    ensures forall k :: 0 <= k < |plan| ==> 1 <= |plan[k]| <= 32
    ensures forall k, j :: 0 <= k < |plan| && 0 <= j < |plan[k]| ==>
      && (|plan[k]| == 1 || |plan[k]| * lengths[plan[k][j]] <= 4096)
      && |plan[k]| * lengths[plan[k][j]] <= 2 * RowTokens(lengths, plan[k])
    ensures PlanCost(lengths, plan) <= 2 * SumOf(lengths, 0, |lengths|)
  {
    hide IsPlan, PlanCost, SumOf;
    PlanFitsCaps(DEFAULT_CAPS, lengths, plan);
    PlanIsCheap(DEFAULT_CAPS, lengths, plan);
    forall k | 0 <= k < |plan| && |plan[k]| == 1 ensures RowTokens(lengths, plan[k]) == lengths[plan[k][0]] {
      assert plan[k][..0] == [];
    }
  }

  // ---- the batched forward -----------------------------------------------------------------------

  /** `ids + [0] * (maxlen - len(ids))`. */
  function PadTo(ids: seq<int>, maxlen: nat): (r: seq<int>)
    requires |ids| <= maxlen
    ensures |r| == maxlen && r[..|ids|] == ids
  {
    ids + seq(maxlen - |ids|, _ => 0)
  }

  /** One padded forward with pooling: a vector per row, from the padded rows and their real
      lengths. */
  type Forward<!V> = (seq<seq<int>>, seq<nat>) -> seq<V>

  /** The decoder is causal and the pool is masked: a row's vector depends on its real tokens
      alone. */
  ghost predicate RowWise<V(!new)>(forward: Forward<V>, vec: seq<int> -> V) {
    forall rows, lens :: |rows| == |lens| && (forall j :: 0 <= j < |rows| ==> lens[j] <= |rows[j]|) ==>
      |forward(rows, lens)| == |rows| && forall j :: 0 <= j < |rows| ==> forward(rows, lens)[j] == vec(rows[j][..lens[j]])
  }

  function Lengths(encoded: seq<seq<int>>): (r: seq<nat>)
    ensures |r| == |encoded| && forall i :: 0 <= i < |encoded| ==> r[i] == |encoded[i]|
  {
    seq(|encoded|, i requires 0 <= i < |encoded| => |encoded[i]|)
  }

  /** One chunk: pad its rows to the longest, and run the forward. */
  method EmbedChunk<V(!new)>(encoded: seq<seq<int>>, indices: seq<nat>, forward: Forward<V>, ghost vec: seq<int> -> V) returns (rows: seq<V>)
    requires RowWise(forward, vec) && AllBelow(indices, |encoded|)
    ensures |rows| == |indices| && forall j :: 0 <= j < |indices| ==> rows[j] == vec(encoded[indices[j]])
  {
    var chunk := seq(|indices|, j requires 0 <= j < |indices| && indices[j] < |encoded| => encoded[indices[j]]);
    var lengths := Lengths(chunk);
    var maxlen := MaxOf(lengths, 0, |lengths|);
    var padded := seq(|chunk|, j requires 0 <= j < |chunk| && |chunk[j]| <= maxlen => PadTo(chunk[j], maxlen));
    rows := forward(padded, lengths);
    forall j | 0 <= j < |indices| ensures padded[j][..lengths[j]] == encoded[indices[j]] {
    }
  }

  /** Write one chunk's vectors to the slots of its rows; every other slot stays. */
  method Scatter<V(!new)>(vectors: array<Option<V>>, indices: seq<nat>, rows: seq<V>, ghost vecs: seq<V>)
    requires vectors.Length == |vecs| && |rows| == |indices| && AllBelow(indices, |vecs|)
    requires forall j :: 0 <= j < |indices| ==> rows[j] == vecs[indices[j]]
    modifies vectors
    ensures forall i :: 0 <= i < |vecs| ==> vectors[i] == if i in indices then Some(vecs[i]) else old(vectors[i])
  {
    for j := 0 to |indices|
      invariant forall i :: 0 <= i < |vecs| ==> vectors[i] == if i in indices[..j] then Some(vecs[i]) else old(vectors[i])
    {
      vectors[indices[j]] := Some(rows[j]);
      assert indices[..j + 1] == indices[..j] + [indices[j]];
    }
    assert indices[..|indices|] == indices;
  }

  /** The batched path returns, in input order, what embedding each text alone would, from
      forwards of the plan for the configured caps. */
  method EmbedBatch<V(!new)>(encoded: seq<seq<int>>, forward: Forward<V>, ghost vec: seq<int> -> V) returns (vectors: array<Option<V>>, ghost plan: seq<seq<nat>>)
    requires RowWise(forward, vec)
    ensures fresh(vectors) && vectors.Length == |encoded|
    ensures IsPlan(DEFAULT_CAPS, Lengths(encoded), plan)
    ensures forall i :: 0 <= i < |encoded| ==> vectors[i] == Some(vec(encoded[i]))
  {
    hide IsPlan, RowWise, PlanBelow, FitsCaps, PlanCost;
    vectors := new Option<V>[|encoded|](_ => None);
    var batches := PlanEmbedBatches(DEFAULT_CAPS, Lengths(encoded));
    plan := batches;
    EachRowOnce(DEFAULT_CAPS, Lengths(encoded), plan);
    PlanBelowAll(plan, |encoded|);
    ghost var vecs := seq(|encoded|, i requires 0 <= i < |encoded| => vec(encoded[i]));
    for k := 0 to |batches|
      invariant forall k', j, i :: 0 <= k' < k && At(plan, k', j, i) ==> 0 <= i < |vecs| && vectors[i] == Some(vecs[i])
    {
      var rows := EmbedChunk(encoded, batches[k], forward, vec);
      Scatter(vectors, batches[k], rows, vecs);
    }
    forall i | 0 <= i < |encoded| ensures vectors[i] == Some(vec(encoded[i])) {
      var k, j := EveryRowPlanned(DEFAULT_CAPS, Lengths(encoded), plan, i);
    }
  }
}
