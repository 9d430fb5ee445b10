/** The multi-resident local model manager: which models may stay warm under a memory
    budget, and which one answers a request. `V` stands for a loaded (model, tokenizer). */
module WarmSet {
  import opened Basics
  import opened OrderedDict

  type Sizes = string -> real

  function Total(ids: seq<string>, size: Sizes): real {
    if ids == [] then 0.0 else size(ids[0]) + Total(ids[1..], size)
  }

  ghost predicate NoDuplicates(ids: seq<string>) {
    forall i, j :: 0 <= i < j < |ids| ==> ids[i] != ids[j]
  }

  // ---- the plan ------------------------------------------------------------------

  /** Greedy admission of the configured extras, in order, after `plan` using `used` GiB. */
  function Admit(plan: seq<string>, used: real, configured: seq<string>, budget: real, size: Sizes): (r: seq<string>)
    ensures plan <= r
    decreases |configured|
  {
    if configured == [] then plan
    else
      var id := configured[0];
      if id != "" && id !in plan && used + size(id) <= budget
      then Admit(plan + [id], used + size(id), configured[1..], budget, size)
      else Admit(plan, used, configured[1..], budget, size)
  }

  function WarmPlan(baseId: string, configured: seq<string>, budget: real, size: Sizes): (plan: seq<string>)
    ensures plan != []
  {
    if budget <= 0.0 || size(baseId) > budget then [baseId]
    else Admit([baseId], size(baseId), configured, budget, size)
  }

  method PlanWarmSet(baseId: string, configured: seq<string>, budget: real, size: Sizes) returns (plan: seq<string>)
    ensures plan == WarmPlan(baseId, configured, budget, size)
  {
    plan := [baseId];
    var used := size(baseId);
    if budget <= 0.0 || used > budget {
      return;
    }
    for i := 0 to |configured|
      invariant Admit(plan, used, configured[i..], budget, size) == Admit([baseId], size(baseId), configured, budget, size)
    {
      var id := configured[i];
      assert configured[i..][1..] == configured[i + 1..];
      if id != "" && id !in plan {
        var cost := size(id);
        if used + cost <= budget {
          plan := plan + [id];
          used := used + cost;
        }
      }
    }
  }

  lemma {:induction false} TotalAppend(a: seq<string>, b: seq<string>, size: Sizes)
    ensures Total(a + b, size) == Total(a, size) + Total(b, size)
  {
    if a == [] {
      assert a + b == b;
    } else {
      assert (a + b)[1..] == a[1..] + b;
      TotalAppend(a[1..], b, size);
    }
  }

  lemma {:induction false} AdmitSound(plan: seq<string>, used: real, configured: seq<string>, budget: real, size: Sizes)
    requires plan != [] && NoDuplicates(plan) && used == Total(plan, size) && used <= budget
    ensures var r := Admit(plan, used, configured, budget, size);
      && plan <= r
      && NoDuplicates(r)
      && Total(r, size) <= budget
      && (forall id :: id in r ==> id in plan || (id in configured && id != ""))
    decreases |configured|
  {
    if configured != [] {
      var id := configured[0];
      assert configured == [id] + configured[1..];
      if id != "" && id !in plan && used + size(id) <= budget {
        TotalAppend(plan, [id], size);
        AdmitSound(plan + [id], used + size(id), configured[1..], budget, size);
      } else {
        AdmitSound(plan, used, configured[1..], budget, size);
      }
    }
  }

  /** Every configured id the plan left out would have broken the budget when it was
      considered: some prefix of the plan plus that id is over. */
  lemma {:induction false} AdmitGreedy(plan: seq<string>, used: real, configured: seq<string>, budget: real, size: Sizes, id: string)
    requires used == Total(plan, size)
    requires id != "" && id in configured
    ensures var r := Admit(plan, used, configured, budget, size);
      plan <= r &&
      (id in r || exists k :: |plan| <= k <= |r| && Total(r[..k], size) + size(id) > budget)
    decreases |configured|
  {
    var r := Admit(plan, used, configured, budget, size);
    var c := configured[0];
    assert configured == [c] + configured[1..];
    if c == id && id !in plan && used + size(id) > budget {
      assert r[..|plan|] == plan;
    } else if c != "" && c !in plan && used + size(c) <= budget {
      TotalAppend(plan, [c], size);
      if c != id {
        AdmitGreedy(plan + [c], used + size(c), configured[1..], budget, size, id);
      } else {
        assert r[|plan|] == (plan + [c])[|plan|] == id;
      }
    } else if c != id {
      AdmitGreedy(plan, used, configured[1..], budget, size, id);
    } else {
      var i :| 0 <= i < |plan| && plan[i] == id;
      assert r[i] == id;
    }
  }

  /** The plan starts with the base, repeats nothing, draws its extras from the
      configuration, and admits any extra only when the whole plan fits the budget. */
  lemma WarmPlanSound(baseId: string, configured: seq<string>, budget: real, size: Sizes)
    ensures var plan := WarmPlan(baseId, configured, budget, size);
      && plan != [] && plan[0] == baseId
      && NoDuplicates(plan)
      && (forall id :: id in plan[1..] ==> id in configured && id != "")
      && (|plan| > 1 ==> Total(plan, size) <= budget)
  {
    if !(budget <= 0.0 || size(baseId) > budget) {
      AdmitSound([baseId], size(baseId), configured, budget, size);
      var plan := WarmPlan(baseId, configured, budget, size);
      forall id | id in plan[1..] ensures id in configured && id != "" {
        assert id in plan;
        assert id != baseId by {
          var i :| 0 <= i < |plan[1..]| && plan[1..][i] == id;
          assert plan[i + 1] == id;
        }
      }
    }
  }

  /** What the plan leaves out would have broken the budget when it was considered, and the
      base's own size can rule out every extra. Whatever fits altogether is all admitted. */
  lemma WarmPlanGreedy(baseId: string, configured: seq<string>, budget: real, size: Sizes, id: string)
    requires id != "" && id in configured
    ensures var plan := WarmPlan(baseId, configured, budget, size);
      if budget <= 0.0 || size(baseId) > budget then plan == [baseId]
      else id in plan || exists k :: 1 <= k <= |plan| && Total(plan[..k], size) + size(id) > budget
  {
    if !(budget <= 0.0 || size(baseId) > budget) {
      AdmitGreedy([baseId], size(baseId), configured, budget, size, id);
    }
  }

  // ---- the resident set -----------------------------------------------------------

  datatype Selection<V> = Selected(id: string, v: V) | BaseLoadFailed

  function Resolve(plan: seq<string>, id: string): string
    requires plan != []
  {
    if id != "" && id in plan then id else plan[0]
  }

  function Capacity(plan: seq<string>): nat {
    if |plan| > 1 then |plan| else 1
  }

  /** Drop the oldest non-base residents until at most `cap` remain. */
  function EvictDown<V(!new)>(d: Dict<V>, baseId: string, cap: nat): Dict<V>
    decreases |d|
  {
    if |d| <= cap then d
    else match Victim(d, baseId)
      case None => d
      case Some(i) => EvictDown(d[..i] + d[i + 1..], baseId, cap)
  }

  /** Position of the oldest entry that is not the base. */
  function Victim<V(!new)>(d: Dict<V>, baseId: string): (r: Option<nat>)
    ensures r.Some? ==> r.value < |d| && d[r.value].0 != baseId && forall j :: 0 <= j < r.value ==> d[j].0 == baseId
    ensures r.None? ==> forall j :: 0 <= j < |d| ==> d[j].0 == baseId
  {
    if d == [] then None
    else if d[0].0 != baseId then Some(0)
    else match Victim(d[1..], baseId)
      case None => None
      case Some(j) => Some(j + 1)
  }

  function Inserted<V(!new)>(d: Dict<V>, plan: seq<string>, id: string, v: V): Dict<V>
    requires plan != []
  {
    EvictDown(PutNewest(d, id, v), plan[0], Capacity(plan))
  }

  /** What a request for `id` does to the residents `d`, and who answers. `load` is the
      engine's loader; `None` is a load that raised. */
  function Select<V(!new)>(plan: seq<string>, d: Dict<V>, id: string, load: string -> Option<V>): (Dict<V>, Selection<V>)
    requires plan != []
    decreases Resolve(plan, id) != plan[0]
  {
    var resolved := Resolve(plan, id);
    match Get(d, resolved)
    case Some(v) => (PutNewest(d, resolved, v), Selected(resolved, v))
    case None =>
      match load(resolved)
      case Some(v) => (Inserted(d, plan, resolved, v), Selected(resolved, v))
      case None =>
        if resolved == plan[0] then (d, BaseLoadFailed) else Select(plan, d, plan[0], load)
  }

  ghost predicate Inv<V(!new)>(plan: seq<string>, d: Dict<V>) {
    && UniqueKeys(d)
    && forall e :: e in d ==> e.0 in plan
  }

  lemma {:induction false} SubTotal(a: seq<string>, b: seq<string>, size: Sizes)
    requires NoDuplicates(a)
    requires forall id :: id in a ==> id in b
    requires forall id :: size(id) >= 0.0
    ensures Total(a, size) <= Total(b, size)
    decreases |a|
  {
    if a == [] {
      TotalNonNegative(b, size);
    } else {
      assert a[0] in a && a[0] in b;
      var j :| 0 <= j < |b| && b[j] == a[0];
      var rest := b[..j] + b[j + 1..];
      assert b == b[..j] + ([b[j]] + b[j + 1..]);
      TotalAppend(b[..j], [b[j]] + b[j + 1..], size);
      TotalAppend(b[..j], b[j + 1..], size);
      forall id | id in a[1..] ensures id in rest {
        var i :| 0 <= i < |a[1..]| && a[1..][i] == id;
        assert a[i + 1] == id && id != a[0];
        assert id in a && id in b;
        var k :| 0 <= k < |b| && b[k] == id;
        assert if k < j then rest[k] == id else rest[k - 1] == id;
      }
      SubTotal(a[1..], rest, size);
    }
  }

  lemma {:induction false} TotalNonNegative(a: seq<string>, size: Sizes)
    requires forall id :: size(id) >= 0.0
    ensures Total(a, size) >= 0.0
  {
    if a != [] {
      TotalNonNegative(a[1..], size);
    }
  }

  lemma {:induction false} TotalOnes(a: seq<string>)
    ensures Total(a, (_: string) => 1.0) == |a| as real
  {
    if a != [] {
      TotalOnes(a[1..]);
    }
  }

  lemma KeysFit<V(!new)>(plan: seq<string>, d: Dict<V>)
    requires Inv(plan, d)
    ensures |d| <= |plan|
    ensures NoDuplicates(Keys(d)) && forall id :: id in Keys(d) ==> id in plan
  {
    forall id | id in Keys(d) ensures id in plan {
      var i :| 0 <= i < |d| && Keys(d)[i] == id;
      assert d[i] in d;
    }
    SubTotal(Keys(d), plan, (_: string) => 1.0);
    TotalOnes(Keys(d));
    TotalOnes(plan);
  }

  /** Whenever an extra is resident, everything resident fits the budget together. */
  lemma ResidentsFitBudget<V(!new)>(baseId: string, configured: seq<string>, budget: real, size: Sizes, d: Dict<V>)
    requires forall id :: size(id) >= 0.0
    requires Inv(WarmPlan(baseId, configured, budget, size), d)
    requires exists e :: e in d && e.0 != baseId
    ensures Total(Keys(d), size) <= budget
  {
    var plan := WarmPlan(baseId, configured, budget, size);
    WarmPlanSound(baseId, configured, budget, size);
    KeysFit(plan, d);
    SubTotal(Keys(d), plan, size);
  }

  /** One request: residents stay inside the plan, no resident (in particular not the base)
      is ever dropped, the answer is resident under the id it is reported under, and it is
      the requested model or, if that is outside the plan or would not load, the base. */
  lemma SelectKeeps<V(!new)>(plan: seq<string>, d: Dict<V>, id: string, load: string -> Option<V>)
    requires plan != [] && NoDuplicates(plan) && Inv(plan, d)
    ensures var (d', r) := Select(plan, d, id, load);
      && Inv(plan, d')
      && (forall e :: e in d ==> e in d')
      && (forall e :: e in d' ==> e in d || load(e.0) == Some(e.1))
      && match r {
        case Selected(who, v) =>
          && (who, v) in d'
          && (who == id || who == plan[0])
          && (id != "" && id in plan && (Get(d, id).Some? || load(id).Some?) ==> who == id)
        case BaseLoadFailed => d' == d && Get(d, plan[0]).None? && load(plan[0]).None?
      }
    decreases Resolve(plan, id) != plan[0]
  {
    var resolved := Resolve(plan, id);
    match Get(d, resolved) {
      case Some(v) =>
        PutNewestUnique(d, resolved, v);
        EntryIsUnique(d, resolved, v);
      case None =>
        match load(resolved) {
          case Some(v) =>
            PutNewestUnique(d, resolved, v);
            KeysFit(plan, PutNewest(d, resolved, v));
          case None =>
            if resolved != plan[0] {
              SelectKeeps(plan, d, plan[0], load);
            }
        }
    }
  }

  /** Whoever answers has just become the newest resident, and the others keep their order. */
  lemma AnswererIsNewest<V(!new)>(plan: seq<string>, d: Dict<V>, id: string, load: string -> Option<V>)
    requires plan != [] && NoDuplicates(plan) && Inv(plan, d)
    ensures var (d', r) := Select(plan, d, id, load);
      r.Selected? ==> d' == Remove(d, r.id) + [(r.id, r.v)]
    decreases Resolve(plan, id) != plan[0]
  {
    var resolved := Resolve(plan, id);
    if Get(d, resolved).None? {
      if load(resolved).Some? {
        PutNewestUnique(d, resolved, load(resolved).value);
        KeysFit(plan, PutNewest(d, resolved, load(resolved).value));
      } else if resolved != plan[0] {
        AnswererIsNewest(plan, d, plan[0], load);
      }
    }
  }

  /** Eviction keeps the base, removes nothing while everything fits, and otherwise removes
      the oldest of the others, down to the capacity. */
  lemma {:induction false} EvictsOldest<V(!new)>(d: Dict<V>, baseId: string, cap: nat)
    requires UniqueKeys(d) && cap >= 1
    ensures var r := EvictDown(d, baseId, cap);
      && |r| == (if |d| <= cap then |d| else cap)
      && (forall e :: e in r ==> e in d)
      && (forall e :: e in d && e.0 == baseId ==> e in r)
      && (forall i, j :: 0 <= i < j < |d| && d[i].0 != baseId && d[i] in r ==> d[j] in r)
    decreases |d|
  {
    if |d| > cap {
      SomeVictim(d, baseId);
      var i := Victim(d, baseId).value;
      var rest := d[..i] + d[i + 1..];
      assert forall k :: 0 <= k < |rest| ==> rest[k] == if k < i then d[k] else d[k + 1];
      EvictsOldest(rest, baseId, cap);
      EvictStep(d, baseId, cap, i);
    }
  }

  lemma SomeVictim<V(!new)>(d: Dict<V>, baseId: string)
    requires UniqueKeys(d) && |d| >= 2
    ensures Victim(d, baseId).Some?
  {
    assert d[0].0 != d[1].0;
  }

  lemma EvictStep<V(!new)>(d: Dict<V>, baseId: string, cap: nat, i: nat)
    requires UniqueKeys(d) && i < |d| && d[i].0 != baseId && forall j :: 0 <= j < i ==> d[j].0 == baseId
    requires var rest := d[..i] + d[i + 1..];
      var r := EvictDown(rest, baseId, cap);
      && (forall e :: e in r ==> e in rest)
      && (forall e :: e in rest && e.0 == baseId ==> e in r)
      && (forall a, b :: 0 <= a < b < |rest| && rest[a].0 != baseId && rest[a] in r ==> rest[b] in r)
    ensures var r := EvictDown(d[..i] + d[i + 1..], baseId, cap);
      && (forall e :: e in r ==> e in d)
      && (forall e :: e in d && e.0 == baseId ==> e in r)
      && (forall a, b :: 0 <= a < b < |d| && d[a].0 != baseId && d[a] in r ==> d[b] in r)
  {
    hide EvictDown;
    var rest := d[..i] + d[i + 1..];
    var r := EvictDown(rest, baseId, cap);
    assert forall k :: i <= k < |rest| ==> rest[k] == d[k + 1];
    assert forall e :: e in d ==> e == d[i] || e in rest;
    assert d[i] !in r;
    forall a, b | 0 <= a < b < |d| && d[a].0 != baseId && d[a] in r ensures d[b] in r {
      assert a > i;
      assert rest[a - 1] == d[a] && rest[b - 1] == d[b];
    }
  }

  lemma EntryIsUnique<V(!new)>(d: Dict<V>, k: string, v: V)
    requires UniqueKeys(d) && (k, v) in d
    ensures forall e :: e in d && e.0 == k ==> e == (k, v)
  {
    forall e | e in d && e.0 == k ensures e == (k, v) {
      var i :| 0 <= i < |d| && d[i] == e;
      var j :| 0 <= j < |d| && d[j] == (k, v);
    }
  }

  // ---- whole runs -----------------------------------------------------------------

  /** What the engine does to the residents: answer a request, seed the base before a
      request, pop the base when an adapter is reloaded. */
  datatype Op<V> = Request(id: string, load: string -> Option<V>) | SeedBase(v: V) | PopBase

  function Step<V(!new)>(plan: seq<string>, d: Dict<V>, op: Op<V>): Dict<V>
    requires plan != []
  {
    match op
    case Request(id, load) => Select(plan, d, id, load).0
    case SeedBase(v) => if Get(d, plan[0]).None? then d + [(plan[0], v)] else d
    case PopBase => Remove(d, plan[0])
  }

  function Run<V(!new)>(plan: seq<string>, d: Dict<V>, ops: seq<Op<V>>): Dict<V>
    requires plan != []
    decreases |ops|
  {
    if ops == [] then d else Run(plan, Step(plan, d, ops[0]), ops[1..])
  }

  /** In every reachable state the residents are distinct members of the plan, and an extra
      is resident only while the total estimate is within the budget. */
  lemma {:induction false} RunsRespectBudget<V(!new)>(baseId: string, configured: seq<string>, budget: real, size: Sizes, d: Dict<V>, ops: seq<Op<V>>)
    requires forall id :: size(id) >= 0.0
    requires Inv(WarmPlan(baseId, configured, budget, size), d)
    ensures var d' := Run(WarmPlan(baseId, configured, budget, size), d, ops);
      && Inv(WarmPlan(baseId, configured, budget, size), d')
      && ((exists e :: e in d' && e.0 != baseId) ==> Total(Keys(d'), size) <= budget)
    decreases |ops|
  {
    var plan := WarmPlan(baseId, configured, budget, size);
    WarmPlanSound(baseId, configured, budget, size);
    if ops == [] {
      if exists e :: e in d && e.0 != baseId {
        ResidentsFitBudget(baseId, configured, budget, size, d);
      }
    } else {
      StepKeepsInv(plan, d, ops[0]);
      RunsRespectBudget(baseId, configured, budget, size, Step(plan, d, ops[0]), ops[1..]);
    }
  }

  lemma StepKeepsInv<V(!new)>(plan: seq<string>, d: Dict<V>, op: Op<V>)
    requires plan != [] && NoDuplicates(plan) && Inv(plan, d)
    ensures Inv(plan, Step(plan, d, op))
    ensures !op.PopBase? ==> forall e :: e in d ==> e in Step(plan, d, op)
    ensures op.PopBase? ==> forall e :: e in d && e.0 != plan[0] ==> e in Step(plan, d, op)
  {
    match op {
      case Request(id, load) => SelectKeeps(plan, d, id, load);
      case SeedBase(v) =>
        assert forall i :: 0 <= i < |d| ==> d[i] in d;
      case PopBase => RemoveUnique(d, plan[0]);
    }
  }

  // ---- the class ------------------------------------------------------------------

  class LocalWarmManager<V(!new)> {
    const baseId: string
    const plan: seq<string>
    const capacity: nat
    var resident: Dict<V>

    ghost predicate Valid()
      reads this
    {
      plan != [] && plan[0] == baseId && NoDuplicates(plan) && capacity == Capacity(plan) && Inv(plan, resident)
    }

    constructor (baseId: string, configured: seq<string>, budget: real, size: Sizes)
      ensures Valid() && resident == [] && this.baseId == baseId
      ensures plan == WarmPlan(baseId, configured, budget, size)
    {
      var p := PlanWarmSet(baseId, configured, budget, size);
      this.baseId := baseId;
      plan := p;
      capacity := if |p| > 1 then |p| else 1;
      resident := [];
      new;
      WarmPlanSound(baseId, configured, budget, size);
    }

    method Insert(id: string, v: V)
      requires plan != [] && plan[0] == baseId && capacity == Capacity(plan)
      modifies this
      ensures resident == Inserted(old(resident), plan, id, v)
    {
      resident := PutNewest(resident, id, v);
      while |resident| > capacity
        invariant EvictDown(resident, baseId, capacity) == Inserted(old(resident), plan, id, v)
        decreases |resident|
      {
        var victim := Victim(resident, baseId);
        if victim == None {
          break;
        }
        resident := resident[..victim.value] + resident[victim.value + 1..];
      }
    }

    method SelectModel(id: string, load: string -> Option<V>) returns (r: Selection<V>)
      requires Valid()
      modifies this
      ensures Valid()
      ensures (resident, r) == Select(plan, old(resident), id, load)
      decreases Resolve(plan, id) != plan[0]
    {
      var resolved := Resolve(plan, id);
      SelectKeeps(plan, resident, id, load);
      var hit := Get(resident, resolved);
      if hit.Some? {
        resident := PutNewest(resident, resolved, hit.value);
        return Selected(resolved, hit.value);
      }
      var loaded := load(resolved);
      if loaded.None? {
        if resolved == baseId {
          return BaseLoadFailed;
        }
        r := SelectModel(baseId, load);
        return;
      }
      Insert(resolved, loaded.value);
      return Selected(resolved, loaded.value);
    }

    /** `resident[base] = v` on a manager whose base is not resident. */
    method SeedBase(v: V)
      requires Valid() && Get(resident, baseId).None?
      modifies this
      ensures Valid() && resident == old(resident) + [(baseId, v)]
    {
      StepKeepsInv(plan, resident, Op.SeedBase(v));
      resident := resident + [(baseId, v)];
    }

    /** `resident.pop(base, None)`. */
    method PopBase()
      requires Valid()
      modifies this
      ensures Valid() && resident == Remove(old(resident), baseId)
    {
      StepKeepsInv<V>(plan, resident, Op.PopBase);
      resident := Remove(resident, baseId);
    }
  }
}
