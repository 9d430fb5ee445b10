/** Counting the nodes of a decoded JSON value and measuring its nesting, with an explicit
    stack so that deep input cannot exhaust the call stack. */
module JsonWalk {

  datatype Json =
    | Null
    | Bool(b: bool)
    | Number(r: real)
    | Text(s: string)
    | Array(items: seq<Json>)
    | Object(members: seq<(string, Json)>)

  ghost predicate Below(vs: seq<Json>, v: Json) {
    forall i :: 0 <= i < |vs| ==> vs[i] < v
  }

  /** `node.values()` or the list itself; scalars have no children. */
  function Children(v: Json): (cs: seq<Json>)
    ensures Below(cs, v)
  {
    match v
    case Array(items) => items
    case Object(members) =>
      seq(|members|, i requires 0 <= i < |members| => members[i].1)
    case _ => []
  }

  // ---- the recursive definitions ------------------------------------------------------------

  function Nodes(v: Json): (n: nat)
    ensures n >= 1
    decreases v
  {
    1 + NodesOfAll(v, Children(v))
  }

  function NodesOfAll(parent: Json, vs: seq<Json>): nat
    requires Below(vs, parent)
    decreases parent, |vs|
  {
    if vs == [] then 0 else Nodes(vs[0]) + NodesOfAll(parent, vs[1..])
  }

  function Height(v: Json): (h: nat)
    ensures h >= 1
    decreases v
  {
    1 + HeightOfAll(v, Children(v))
  }

  function HeightOfAll(parent: Json, vs: seq<Json>): nat
    requires Below(vs, parent)
    decreases parent, |vs|
  {
    if vs == [] then 0 else Max(Height(vs[0]), HeightOfAll(parent, vs[1..]))
  }

  function Max(a: int, b: int): int {
    if a > b then a else b
  }

  // ---- what is still on the stack -------------------------------------------------------------

  /** Nodes below the stacked entries. */
  function Pending(stack: seq<(Json, nat)>): nat {
    if stack == [] then 0 else Nodes(stack[|stack| - 1].0) + Pending(stack[..|stack| - 1])
  }

  /** The deepest level the stacked entries reach. */
  function Reach(stack: seq<(Json, nat)>): nat {
    if stack == [] then 0
    else Max(stack[|stack| - 1].1 + Height(stack[|stack| - 1].0) - 1, Reach(stack[..|stack| - 1]))
  }

  function AtDepth(vs: seq<Json>, depth: nat): (r: seq<(Json, nat)>)
    ensures |r| == |vs| && forall i :: 0 <= i < |vs| ==> r[i] == (vs[i], depth)
  {
    seq(|vs|, i requires 0 <= i < |vs| => (vs[i], depth))
  }

  lemma PushOne(stack: seq<(Json, nat)>, v: Json, depth: nat)
    requires depth >= 1
    ensures Pending(stack + [(v, depth)]) == Pending(stack) + Nodes(v)
    ensures Reach(stack + [(v, depth)]) == Max(depth + Height(v) - 1, Reach(stack))
  {
    hide Nodes, Height;
    assert (stack + [(v, depth)])[..|stack|] == stack;
  }

  lemma {:induction false} Push(stack: seq<(Json, nat)>, parent: Json, vs: seq<Json>, depth: nat)
    requires depth >= 1 && Below(vs, parent)
    ensures Pending(stack + AtDepth(vs, depth)) == Pending(stack) + NodesOfAll(parent, vs)
    ensures Reach(stack + AtDepth(vs, depth)) ==
      if vs == [] then Reach(stack) else Max(Reach(stack), depth + HeightOfAll(parent, vs) - 1)
    decreases |vs|
  {
    hide Nodes, Height, Pending, Reach;
    if vs == [] {
      assert stack + AtDepth(vs, depth) == stack;
    } else {
      var one := stack + [(vs[0], depth)];
      assert stack + AtDepth(vs, depth) == one + AtDepth(vs[1..], depth);
      PushOne(stack, vs[0], depth);
      Push(one, parent, vs[1..], depth);
    }
  }

  /** One pass over an explicit stack of (value, depth) pairs. */
  method CountAndDepth(value: Json) returns (total: nat, maxDepth: nat)
    ensures total == Nodes(value) && maxDepth == Height(value)
  {
    hide Nodes, Height, Pending, Reach, NodesOfAll, HeightOfAll, Children;
    total, maxDepth := 0, 0;
    var stack := [(value, 1)];
    EmptyStack();
    PushOne([], value, 1);
    assert [] + stack == stack;
    while stack != []
      invariant forall i :: 0 <= i < |stack| ==> stack[i].1 >= 1
      invariant total + Pending(stack) == Nodes(value)
      invariant Max(maxDepth, Reach(stack)) == Height(value)
      decreases Pending(stack)
    {
      var (node, depth) := stack[|stack| - 1];
      var rest := stack[..|stack| - 1];
      assert rest + [(node, depth)] == stack;
      PushOne(rest, node, depth);
      NodeAndHeight(node);
      Push(rest, node, Children(node), depth + 1);
      total := total + 1;
      if depth > maxDepth {
        maxDepth := depth;
      }
      stack := rest + AtDepth(Children(node), depth + 1);
    }
    EmptyStack();
  }

  lemma EmptyStack()
    ensures Pending([]) == 0 && Reach([]) == 0
  {
  }

  lemma NodeAndHeight(v: Json)
    ensures Nodes(v) == 1 + NodesOfAll(v, Children(v))
    ensures Height(v) == 1 + HeightOfAll(v, Children(v))
    ensures Children(v) == [] ==> HeightOfAll(v, Children(v)) == 0
  {
  }

  // ---- what is counted, form by form ---------------------------------------------------------------

  lemma ScalarWalk(v: Json)
    ensures !v.Array? && !v.Object? ==> Nodes(v) == 1 && Height(v) == 1
    ensures Nodes(Array([])) == 1 && Height(Array([])) == 1
    ensures Nodes(Object([])) == 1 && Height(Object([])) == 1
  {
  }

  lemma {:induction false} SameSiblings(p: Json, q: Json, vs: seq<Json>)
    requires Below(vs, p) && Below(vs, q)
    ensures NodesOfAll(p, vs) == NodesOfAll(q, vs) && HeightOfAll(p, vs) == HeightOfAll(q, vs)
    decreases |vs|
  {
    if vs != [] {
      SameSiblings(p, q, vs[1..]);
    }
  }

  lemma AllCons(p: Json, x: Json, vs: seq<Json>)
    requires Below([x] + vs, p)
    ensures Below(vs, p)
    ensures NodesOfAll(p, [x] + vs) == Nodes(x) + NodesOfAll(p, vs)
    ensures HeightOfAll(p, [x] + vs) == Max(Height(x), HeightOfAll(p, vs))
  {
    assert forall i :: 0 <= i < |vs| ==> vs[i] == ([x] + vs)[i + 1];
    assert ([x] + vs)[1..] == vs;
  }

  lemma FirstChild(whole: Json, rest: Json, x: Json)
    requires Children(whole) == [x] + Children(rest)
    ensures Nodes(whole) == Nodes(x) + Nodes(rest)
    ensures Height(whole) == Max(1 + Height(x), Height(rest))
  {
    hide Nodes, Height, NodesOfAll, HeightOfAll, Children;
    NodeAndHeight(whole);
    NodeAndHeight(rest);
    AllCons(whole, x, Children(rest));
    SameSiblings(whole, rest, Children(rest));
  }

  /** An element of an array adds its nodes, and its height below the array's. */
  lemma ArrayWalk(x: Json, rest: seq<Json>)
    ensures Nodes(Array([x] + rest)) == Nodes(x) + Nodes(Array(rest))
    ensures Height(Array([x] + rest)) == Max(1 + Height(x), Height(Array(rest)))
  {
    FirstChild(Array([x] + rest), Array(rest), x);
  }

  /** So does the value of an object's member; its key adds nothing. */
  lemma ObjectWalk(k: string, x: Json, rest: seq<(string, Json)>)
    ensures Nodes(Object([(k, x)] + rest)) == Nodes(x) + Nodes(Object(rest))
    ensures Height(Object([(k, x)] + rest)) == Max(1 + Height(x), Height(Object(rest)))
  {
    assert Children(Object([(k, x)] + rest)) == [x] + Children(Object(rest));
    FirstChild(Object([(k, x)] + rest), Object(rest), x);
  }
}
