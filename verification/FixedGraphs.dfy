/** The fixed-shape Core ML graphs of both backends: a row of token cells is padded to the
    length of a graph, and goes to the short graph only when it fits. A cell is a token id
    for the embedder and an (id, segment) pair for the reranker. */
module FixedGraphs {
  import opened Basics

  const SEQ: nat := 512
  const SEQ_FAST: nat := 128

  datatype Input<T> = Input(cells: seq<T>, mask: seq<bool>)

  type Graph<!T, !V> = Input<T> -> V

  /** Truncate to `n` cells, pad on the right; the mask marks the real ones. */
  function PadRow<T>(row: seq<T>, n: nat, zero: T): Input<T> {
    var r := Take(n, row);
    Input(r + seq(n - |r|, _ => zero), seq(|r|, _ => true) + seq(n - |r|, _ => false))
  }

  /** What a graph that respects its mask computes on. */
  function Real<T>(cells: seq<T>, mask: seq<bool>): seq<T>
    requires |cells| == |mask|
  {
    if cells == [] then []
    else if mask[0] then [cells[0]] + Real(cells[1..], mask[1..])
    else Real(cells[1..], mask[1..])
  }

  lemma {:induction false} RealAppend<T>(a: seq<T>, m: seq<bool>, b: seq<T>, n: seq<bool>)
    requires |a| == |m| && |b| == |n|
    ensures Real(a + b, m + n) == Real(a, m) + Real(b, n)
  {
    if a == [] {
      assert a + b == b && m + n == n;
    } else {
      assert (a + b)[1..] == a[1..] + b && (m + n)[1..] == m[1..] + n;
      RealAppend(a[1..], m[1..], b, n);
    }
  }

  lemma {:induction false} RealConstant<T>(a: seq<T>, m: seq<bool>, kept: bool)
    requires |a| == |m| && forall i :: 0 <= i < |m| ==> m[i] == kept
    ensures Real(a, m) == if kept then a else []
  {
    if a != [] {
      RealConstant(a[1..], m[1..], kept);
    }
  }

  /** Padding is undone by the mask, up to the graph's length. */
  lemma PadRoundTrip<T>(row: seq<T>, n: nat, zero: T)
    ensures var p := PadRow(row, n, zero);
      |p.cells| == |p.mask| == n && Real(p.cells, p.mask) == Take(n, row)
  {
    var r := Take(n, row);
    var pad, on, off := seq(n - |r|, _ => zero), seq(|r|, _ => true), seq(n - |r|, _ => false);
    RealAppend(r, on, pad, off);
    RealConstant(r, on, true);
    RealConstant(pad, off, false);
    assert r + [] == r;
  }

  /** A graph of length `n` computes `value` of the real cells. */
  ghost predicate Computes<T(!new), V(!new)>(g: Graph<T, V>, n: nat, value: seq<T> -> V) {
    forall x: Input<T> :: |x.cells| == |x.mask| == n ==> g(x) == value(Real(x.cells, x.mask))
  }

  /** Row by row, on the short graph when there is one and the row fits. Whether the short
      graph is there changes no result, and nothing is truncated that the long graph would
      have kept. `short`: the rows that went to the short graph. */
  method PredictRows<T(!new), V(!new)>(rows: seq<seq<T>>, zero: T, long: Graph<T, V>, fast: Option<Graph<T, V>>, ghost value: seq<T> -> V) returns (out: seq<V>, ghost short: seq<bool>)
    requires Computes(long, SEQ, value) && (fast.Some? ==> Computes(fast.value, SEQ_FAST, value))
    ensures |out| == |rows| && forall i :: 0 <= i < |rows| ==> out[i] == value(Take(512, rows[i]))
    ensures |short| == |rows| && forall i :: 0 <= i < |rows| ==> (short[i] <==> fast.Some? && |rows[i]| <= 128)
  {
    out, short := [], [];
    for i := 0 to |rows|
      invariant |out| == i && forall k :: 0 <= k < i ==> out[k] == value(Take(SEQ, rows[k]))
      invariant |short| == i && forall k :: 0 <= k < i ==> (short[k] <==> fast.Some? && |rows[k]| <= 128)
    {
      var v;
      if fast.Some? && |rows[i]| <= SEQ_FAST {
        PadRoundTrip(rows[i], SEQ_FAST, zero);
        v := fast.value(PadRow(rows[i], SEQ_FAST, zero));
        short := short + [true];
      } else {
        PadRoundTrip(rows[i], SEQ, zero);
        v := long(PadRow(rows[i], SEQ, zero));
        short := short + [false];
      }
      out := out + [v];
    }
  }
}
