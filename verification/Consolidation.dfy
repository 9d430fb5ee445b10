/** One memory-consolidation pass: whatever the model emits becomes a bounded edit of the
    stored facts. The output arrives as a decoded JSON value, or as nothing when it did not
    parse. */
module Consolidation {
  import opened OrderedDict
  import opened Basics
  import opened Text
  import opened JsonWalk
  import opened Habits

  const CONSOLIDATE_MAX_CHANGES: nat := 12

  type Facts = map<string, string>

  datatype Edit = Edit(upserts: seq<(string, string)>, deletes: seq<string>)

  const NOTHING: Edit := Edit([], [])

  predicate IsMeta(key: string) {
    "meta." <= key
  }

  /** Dot-separated, with at least two segments and none of them blank. */
  predicate IsNamespaced(isSpace: CharClass, key: string) {
    var parts := SplitOn(key, '.');
    |parts| >= 2 && forall p :: p in parts ==> Strip(isSpace, p) != ""
  }

  /** `item.get(name)`, where a missing member reads as null. */
  function Member(members: seq<(string, Json)>, name: string): Json {
    match Get(members, name)
    case Some(v) => v
    case None => Null
  }

  /** The pair an upsert item names: its key and value members, or, when it has neither, its
      single pair. */
  function RawPair(item: Json): Option<(Json, Json)> {
    if !item.Object? then None
    else
      var key, value := Member(item.members, "key"), Member(item.members, "value");
      if key.Null? && value.Null? && |item.members| == 1
      then Some((Json.Text(item.members[0].0), item.members[0].1))
      else Some((key, value))
  }

  /** A structurally valid upsert: trimmed, non-empty, namespaced, and not bookkeeping. */
  function ValidUpsert(isSpace: CharClass, item: Json): (r: Option<(string, string)>)
    ensures r.Some? ==> r.value.0 != "" && r.value.1 != "" && !IsMeta(r.value.0) && IsNamespaced(isSpace, r.value.0)
  {
    match RawPair(item)
    case Some((Text(k), Text(v))) =>
      var key, value := Strip(isSpace, k), Strip(isSpace, v);
      if key == "" || value == "" || IsMeta(key) || !IsNamespaced(isSpace, key) then None else Some((key, value))
    case _ => None
  }

  /** The valid upserts that change something, first one per key, in order. */
  function Upserts(isSpace: CharClass, items: seq<Json>, existing: Facts, taken: set<string>): seq<(string, string)>
    decreases |items|
  {
    if items == [] then []
    else match ValidUpsert(isSpace, items[0])
      case None => Upserts(isSpace, items[1..], existing, taken)
      case Some((k, v)) =>
        if k in taken || (k in existing && existing[k] == v) then Upserts(isSpace, items[1..], existing, taken)
        else [(k, v)] + Upserts(isSpace, items[1..], existing, taken + {k})
  }

  /** Every key a valid upsert names, no-ops included: these may not be deleted. */
  function Shielded(isSpace: CharClass, items: seq<Json>): (r: set<string>)
    decreases |items|
  {
    if items == [] then {}
    else match ValidUpsert(isSpace, items[0])
      case None => Shielded(isSpace, items[1..])
      case Some((k, _)) => Shielded(isSpace, items[1..]) + {k}
  }

  /** The stored key a delete names, "key = value" being read as its key. */
  function ValidDelete(isSpace: CharClass, item: Json, existing: Facts): (r: Option<string>)
    ensures r.Some? ==> r.value in existing && !IsMeta(r.value)
  {
    if !item.Text? then None
    else
      var whole := Strip(isSpace, item.s);
      var key := if '=' in whole && whole !in existing then Strip(isSpace, Partition(whole, '=').0) else whole;
      if key == "" || IsMeta(key) || key !in existing then None else Some(key)
  }

  function Deletes(isSpace: CharClass, items: seq<Json>, existing: Facts, barred: set<string>): seq<string>
    decreases |items|
  {
    if items == [] then []
    else match ValidDelete(isSpace, items[0], existing)
      case None => Deletes(isSpace, items[1..], existing, barred)
      case Some(k) =>
        if k in barred then Deletes(isSpace, items[1..], existing, barred)
        else [k] + Deletes(isSpace, items[1..], existing, barred + {k})
  }

  /** The two lists of a usable reply. */
  function Lists(raw: Option<Json>): Option<(seq<Json>, seq<Json>)> {
    match raw
    case Some(Object(members)) =>
      (match (Member(members, "upserts"), Member(members, "deletes"))
       case (Array(us), Array(ds)) => Some((us, ds))
       case _ => None)
    case _ => None
  }

  /** Upserts first, deletes in the budget that remains. */
  function Parsed(isSpace: CharClass, raw: Option<Json>, existing: Facts): Edit {
    match Lists(raw)
    case None => NOTHING
    case Some((us, ds)) =>
      var upserts := Take(CONSOLIDATE_MAX_CHANGES, Upserts(isSpace, us, existing, {}));
      var deletes := Take(CONSOLIDATE_MAX_CHANGES - |upserts|, Deletes(isSpace, ds, existing, Shielded(isSpace, us)));
      Edit(upserts, deletes)
  }

  // ---- the code ---------------------------------------------------------------------------------

  lemma UpsertStep(isSpace: CharClass, items: seq<Json>, i: nat, existing: Facts, taken: set<string>)
    requires i < |items|
    ensures var rest, r := items[i + 1..], ValidUpsert(isSpace, items[i]);
      && (r.None? || r.value.0 in taken || (r.value.0 in existing && existing[r.value.0] == r.value.1) ==>
           Upserts(isSpace, items[i..], existing, taken) == Upserts(isSpace, rest, existing, taken))
      && (r.Some? && r.value.0 !in taken && !(r.value.0 in existing && existing[r.value.0] == r.value.1) ==>
           Upserts(isSpace, items[i..], existing, taken) == [r.value] + Upserts(isSpace, rest, existing, taken + {r.value.0}))
      && Shielded(isSpace, items[i..]) == Shielded(isSpace, rest) + (if r.Some? then {r.value.0} else {})
  {
    assert items[i..][1..] == items[i + 1..];
  }

  lemma DeleteStep(isSpace: CharClass, items: seq<Json>, i: nat, existing: Facts, barred: set<string>)
    requires i < |items|
    ensures var rest, r := items[i + 1..], ValidDelete(isSpace, items[i], existing);
      Deletes(isSpace, items[i..], existing, barred) ==
        if r.None? || r.value in barred then Deletes(isSpace, rest, existing, barred)
        else [r.value] + Deletes(isSpace, rest, existing, barred + {r.value})
  {
    assert items[i..][1..] == items[i + 1..];
  }

  method CollectUpserts(isSpace: CharClass, items: seq<Json>, existing: Facts) returns (upserts: seq<(string, string)>, shielded: set<string>)
    ensures upserts == Upserts(isSpace, items, existing, {}) && shielded == Shielded(isSpace, items)
  {
    hide Upserts, Shielded, ValidUpsert;
    upserts, shielded := [], {};
    var upsertKeys: set<string> := {};
    assert items[0..] == items;
    for i := 0 to |items|
      invariant Upserts(isSpace, items, existing, {}) == upserts + Upserts(isSpace, items[i..], existing, upsertKeys)
      invariant Shielded(isSpace, items) == shielded + Shielded(isSpace, items[i..])
      invariant upsertKeys <= shielded
    {
      UpsertStep(isSpace, items, i, existing, upsertKeys);
      var item := ValidUpsert(isSpace, items[i]);
      if item.None? {
        continue;
      }
      var (key, value) := item.value;
      if key in upsertKeys {
        assert key in shielded;
        continue;
      }
      shielded := shielded + {key};
      if key in existing && existing[key] == value {
        continue;
      }
      upsertKeys := upsertKeys + {key};
      Onto(upserts, (key, value), Upserts(isSpace, items[i + 1..], existing, upsertKeys));
      upserts := upserts + [(key, value)];
    }
    assert items[|items|..] == [];
    NoItems(isSpace, existing, upsertKeys);
  }

  method CollectDeletes(isSpace: CharClass, items: seq<Json>, existing: Facts, shielded: set<string>) returns (deletes: seq<string>)
    ensures deletes == Deletes(isSpace, items, existing, shielded)
  {
    hide Deletes, ValidDelete;
    deletes := [];
    var seen: set<string> := {};
    assert items[0..] == items && shielded + seen == shielded;
    for i := 0 to |items|
      invariant Deletes(isSpace, items, existing, shielded) == deletes + Deletes(isSpace, items[i..], existing, shielded + seen)
    {
      DeleteStep(isSpace, items, i, existing, shielded + seen);
      var item := ValidDelete(isSpace, items[i], existing);
      if item.None? || item.value in seen || item.value in shielded {
        continue;
      }
      assert (shielded + seen) + {item.value} == shielded + (seen + {item.value});
      seen := seen + {item.value};
      Onto(deletes, item.value, Deletes(isSpace, items[i + 1..], existing, shielded + seen));
      deletes := deletes + [item.value];
    }
    assert items[|items|..] == [];
    NoItems(isSpace, existing, shielded + seen);
  }

  lemma NoItems(isSpace: CharClass, existing: Facts, s: set<string>)
    ensures Upserts(isSpace, [], existing, s) == [] && Shielded(isSpace, []) == {} && Deletes(isSpace, [], existing, s) == []
  {
  }

  method ParseConsolidation(isSpace: CharClass, raw: Option<Json>, existing: Facts) returns (edit: Edit)
    ensures edit == Parsed(isSpace, raw, existing)
  {
    hide Upserts, Deletes, Shielded;
    var lists := Lists(raw);
    if lists.None? {
      return NOTHING;
    }
    var upserts, shielded := CollectUpserts(isSpace, lists.value.0, existing);
    var deletes := CollectDeletes(isSpace, lists.value.1, existing, shielded);
    upserts := Take(CONSOLIDATE_MAX_CHANGES, upserts);
    deletes := Take(CONSOLIDATE_MAX_CHANGES - |upserts|, deletes);
    return Edit(upserts, deletes);
  }

  // ---- what one pass can do --------------------------------------------------------------------------

  function UpsertKeys(upserts: seq<(string, string)>): (r: set<string>)
    ensures forall u :: u in upserts ==> u.0 in r
    ensures |r| <= |upserts|
  {
    if upserts == [] then {}
    else
      assert upserts == [upserts[0]] + upserts[1..];
      {upserts[0].0} + UpsertKeys(upserts[1..])
  }

  ghost predicate Distinct(ds: seq<string>) {
    forall i, j :: 0 <= i < j < |ds| ==> ds[i] != ds[j]
  }

  lemma NothingRepeats()
    ensures UniqueKeys<string>([]) && Distinct([])
  {
  }

  lemma ConsUnique(u: (string, string), rest: seq<(string, string)>)
    requires UniqueKeys(rest) && forall r :: r in rest ==> r.0 != u.0
    ensures UniqueKeys([u] + rest)
  {
    assert forall i :: 0 <= i < |rest| ==> rest[i] in rest;
  }

  lemma ConsDistinct(d: string, rest: seq<string>)
    requires Distinct(rest) && d !in rest
    ensures Distinct([d] + rest)
  {
  }

  /** The guards: a bounded number of changes, deletes only of stored facts that are neither
      bookkeeping nor reaffirmed, upserts only of namespaced keys, one per key. */
  ghost predicate Guarded(isSpace: CharClass, edit: Edit, existing: Facts, shielded: set<string>) {
    && |edit.upserts| + |edit.deletes| <= CONSOLIDATE_MAX_CHANGES
    && (forall u :: u in edit.upserts ==> u.0 in shielded && u.1 != "" && !IsMeta(u.0) && IsNamespaced(isSpace, u.0))
    && UniqueKeys(edit.upserts)
    && (forall d :: d in edit.deletes ==> d in existing && d !in shielded && !IsMeta(d))
    && Distinct(edit.deletes)
  }

  lemma {:induction false} UpsertsGuarded(isSpace: CharClass, items: seq<Json>, existing: Facts, taken: set<string>)
    ensures var us := Upserts(isSpace, items, existing, taken);
      && (forall u :: u in us ==> u.0 in Shielded(isSpace, items) && u.0 !in taken && !(u.0 in existing && existing[u.0] == u.1))
      && (forall u :: u in us ==> u.1 != "" && !IsMeta(u.0) && IsNamespaced(isSpace, u.0))
      && UniqueKeys(us)
    decreases |items|
  {
    hide ValidUpsert, IsNamespaced, IsMeta, UniqueKeys;
    if items == [] {
      NothingRepeats();
    } else {
      var r := ValidUpsert(isSpace, items[0]);
      UpsertsGuarded(isSpace, items[1..], existing, taken);
      if r.Some? {
        UpsertsGuarded(isSpace, items[1..], existing, taken + {r.value.0});
        ConsUnique(r.value, Upserts(isSpace, items[1..], existing, taken + {r.value.0}));
      }
    }
  }

  lemma {:induction false} DeletesGuarded(isSpace: CharClass, items: seq<Json>, existing: Facts, barred: set<string>)
    ensures var ds := Deletes(isSpace, items, existing, barred);
      && (forall d :: d in ds ==> d in existing && d !in barred && !IsMeta(d))
      && Distinct(ds)
    decreases |items|
  {
    hide ValidDelete, IsMeta, Distinct;
    if items == [] {
      NothingRepeats();
    } else {
      var r := ValidDelete(isSpace, items[0], existing);
      DeletesGuarded(isSpace, items[1..], existing, barred);
      if r.Some? {
        DeletesGuarded(isSpace, items[1..], existing, barred + {r.value});
        ConsDistinct(r.value, Deletes(isSpace, items[1..], existing, barred + {r.value}));
      }
    }
  }

  /** Item `i` asks for a change of `k`. */
  ghost predicate Offers(isSpace: CharClass, items: seq<Json>, existing: Facts, i: int, k: string) {
    && 0 <= i < |items|
    && var r := ValidUpsert(isSpace, items[i]);
       r.Some? && r.value.0 == k && !(k in existing && existing[k] == r.value.1)
  }

  ghost predicate FirstOffer(isSpace: CharClass, items: seq<Json>, existing: Facts, i: int, k: string) {
    Offers(isSpace, items, existing, i, k) && forall j :: 0 <= j < i ==> !Offers(isSpace, items, existing, j, k)
  }

  lemma OfferShift(isSpace: CharClass, items: seq<Json>, existing: Facts, i: int, k: string)
    requires items != []
    ensures Offers(isSpace, items[1..], existing, i, k) == (i >= 0 && Offers(isSpace, items, existing, i + 1, k))
  {
    hide ValidUpsert;
  }

  lemma FirstOfferShift(isSpace: CharClass, items: seq<Json>, existing: Facts, i: int, k: string)
    requires items != [] && i > 0
    ensures FirstOffer(isSpace, items, existing, i, k) <==>
      !Offers(isSpace, items, existing, 0, k) && FirstOffer(isSpace, items[1..], existing, i - 1, k)
  {
    hide Offers;
    var rest := items[1..];
    OfferShift(isSpace, items, existing, i - 1, k);
    if FirstOffer(isSpace, items, existing, i, k) {
      forall j | 0 <= j < i - 1 ensures !Offers(isSpace, rest, existing, j, k) {
        OfferShift(isSpace, items, existing, j, k);
      }
    }
    if !Offers(isSpace, items, existing, 0, k) && FirstOffer(isSpace, rest, existing, i - 1, k) {
      forall j | 0 <= j < i ensures !Offers(isSpace, items, existing, j, k) {
        if j > 0 {
          OfferShift(isSpace, items, existing, j - 1, k);
        }
      }
    }
  }

  /** The upserts are, for each key, the first value offered for it that would change it. */
  lemma {:induction false} UpsertsExact(isSpace: CharClass, items: seq<Json>, existing: Facts, taken: set<string>, k: string, v: string)
    ensures (k, v) in Upserts(isSpace, items, existing, taken) <==>
      k !in taken && exists i :: FirstOffer(isSpace, items, existing, i, k) && ValidUpsert(isSpace, items[i]).value.1 == v
    decreases |items|
  {
    hide ValidUpsert;
    if items != [] {
      var r := ValidUpsert(isSpace, items[0]);
      var rest := items[1..];
      forall i | i > 0
        ensures FirstOffer(isSpace, items, existing, i, k) <==>
          !Offers(isSpace, items, existing, 0, k) && FirstOffer(isSpace, rest, existing, i - 1, k)
      {
        FirstOfferShift(isSpace, items, existing, i, k);
      }
      UpsertsExact(isSpace, rest, existing, taken, k, v);
      if r.Some? {
        UpsertsExact(isSpace, rest, existing, taken + {r.value.0}, k, v);
      }
      if i :| FirstOffer(isSpace, rest, existing, i, k) && ValidUpsert(isSpace, rest[i]).value.1 == v {
        assert !Offers(isSpace, items, existing, 0, k) ==> FirstOffer(isSpace, items, existing, i + 1, k);
      }
      if Offers(isSpace, items, existing, 0, k) {
        assert FirstOffer(isSpace, items, existing, 0, k);
      }
    }
  }

  /** The deletes are the stored keys named and not shielded. */
  lemma {:induction false} DeletesExact(isSpace: CharClass, items: seq<Json>, existing: Facts, barred: set<string>, d: string)
    ensures d in Deletes(isSpace, items, existing, barred) <==>
      d !in barred && exists i :: 0 <= i < |items| && ValidDelete(isSpace, items[i], existing) == Some(d)
    decreases |items|
  {
    hide ValidDelete;
    if items != [] {
      var r := ValidDelete(isSpace, items[0], existing);
      DeletesExact(isSpace, items[1..], existing, barred, d);
      if r.Some? {
        DeletesExact(isSpace, items[1..], existing, barred + {r.value}, d);
      }
      if i :| 0 <= i < |items[1..]| && ValidDelete(isSpace, items[1..][i], existing) == Some(d) {
        assert ValidDelete(isSpace, items[i + 1], existing) == Some(d);
      }
    }
  }

  function ShieldOf(isSpace: CharClass, raw: Option<Json>): set<string> {
    match Lists(raw)
    case None => {}
    case Some((us, _)) => Shielded(isSpace, us)
  }

  lemma TakeUnique(n: nat, us: seq<(string, string)>)
    requires UniqueKeys(us)
    ensures UniqueKeys(Take(n, us)) && forall u :: u in Take(n, us) ==> u in us
  {
  }

  lemma TakeDistinct(n: nat, ds: seq<string>)
    requires Distinct(ds)
    ensures Distinct(Take(n, ds)) && forall d :: d in Take(n, ds) ==> d in ds
  {
  }

  /** Whatever the model emits, the parsed edit respects the guards. */
  lemma ParsedIsGuarded(isSpace: CharClass, raw: Option<Json>, existing: Facts)
    ensures Guarded(isSpace, Parsed(isSpace, raw, existing), existing, ShieldOf(isSpace, raw))
  {
    hide Upserts, Deletes, Shielded, IsMeta, IsNamespaced, UniqueKeys, Distinct;
    var lists := Lists(raw);
    if lists.Some? {
      var (us, ds) := lists.value;
      var shielded := Shielded(isSpace, us);
      UpsertsGuarded(isSpace, us, existing, {});
      DeletesGuarded(isSpace, ds, existing, shielded);
      var upserts := Take(CONSOLIDATE_MAX_CHANGES, Upserts(isSpace, us, existing, {}));
      TakeUnique(CONSOLIDATE_MAX_CHANGES, Upserts(isSpace, us, existing, {}));
      TakeDistinct(CONSOLIDATE_MAX_CHANGES - |upserts|, Deletes(isSpace, ds, existing, shielded));
    } else {
      NothingRepeats();
    }
  }

  /** `[u for u in upserts if keep(u)]`. */
  function Kept(upserts: seq<(string, string)>, keep: (string, string) -> bool): (r: seq<(string, string)>)
    ensures |r| <= |upserts|
    ensures forall u :: u in r <==> u in upserts && keep(u.0, u.1)
  {
    if upserts == [] then []
    else
      assert upserts == [upserts[0]] + upserts[1..];
      var rest := Kept(upserts[1..], keep);
      if keep(upserts[0].0, upserts[0].1) then [upserts[0]] + rest else rest
  }

  lemma {:induction false} KeptDistinct(upserts: seq<(string, string)>, keep: (string, string) -> bool)
    requires UniqueKeys(upserts)
    ensures UniqueKeys(Kept(upserts, keep))
  {
    if upserts != [] {
      assert upserts == [upserts[0]] + upserts[1..];
      KeptDistinct(upserts[1..], keep);
      var rest := Kept(upserts[1..], keep);
      forall r | r in rest ensures r.0 != upserts[0].0 {
        var k :| 0 <= k < |upserts[1..]| && upserts[1..][k] == r;
      }
      ConsUnique(upserts[0], rest);
    }
  }

  lemma KeptIsGuarded(isSpace: CharClass, edit: Edit, existing: Facts, shielded: set<string>, keep: (string, string) -> bool)
    requires Guarded(isSpace, edit, existing, shielded)
    ensures Guarded(isSpace, edit.(upserts := Kept(edit.upserts, keep)), existing, shielded)
  {
    KeptDistinct(edit.upserts, keep);
  }

  /** The stored facts as the pass sees them: bookkeeping facts are not memory. */
  function Memory(facts: seq<(string, string)>): (r: Facts)
    ensures forall k :: k in r ==> !IsMeta(k)
  {
    if facts == [] then map[]
    else
      var (k, v) := facts[|facts| - 1];
      var r := Memory(facts[..|facts| - 1]);
      if IsMeta(k) then r else r[k := v]
  }

  // ---- what a reply and the stored facts are, to the letter ---------------------------------------

  /** `v` is what the last entry for `k` says. */
  ghost predicate Stores(facts: seq<(string, string)>, k: string, v: string) {
    exists i :: LastEntry(facts, i, k) && facts[i].1 == v
  }

  ghost predicate LastEntry(facts: seq<(string, string)>, i: int, k: string) {
    0 <= i < |facts| && facts[i].0 == k && forall j :: i < j < |facts| ==> facts[j].0 != k
  }

  /** The memory is every stored fact whose key does not begin with "meta.", at its last
      value. */
  lemma {:induction false} MemoryExact(facts: seq<(string, string)>, k: string, v: string)
    ensures k in Memory(facts) && Memory(facts)[k] == v <==> !("meta." <= k) && Stores(facts, k, v)
    decreases |facts|
  {
    if facts != [] {
      var n := |facts| - 1;
      MemoryExact(facts[..n], k, v);
      if facts[n].0 == k {
        assert LastEntry(facts, n, k);
      } else {
        assert forall i :: LastEntry(facts[..n], i, k) <==> LastEntry(facts, i, k);
      }
    }
  }

  lemma {:induction false} SomeEntryIsLast(facts: seq<(string, string)>, i: nat)
    requires i < |facts|
    ensures exists v :: Stores(facts, facts[i].0, v)
    decreases |facts| - i
  {
    var k := facts[i].0;
    if LastEntry(facts, i, k) {
      assert Stores(facts, k, facts[i].1);
    } else {
      var j :| i < j < |facts| && facts[j].0 == k;
      SomeEntryIsLast(facts, j);
    }
  }

  lemma MemoryKeys(facts: seq<(string, string)>, k: string)
    ensures k in Memory(facts) <==> !("meta." <= k) && exists i :: 0 <= i < |facts| && facts[i].0 == k
  {
    hide Memory;
    if k in Memory(facts) {
      MemoryExact(facts, k, Memory(facts)[k]);
    }
    if i :| 0 <= i < |facts| && facts[i].0 == k {
      SomeEntryIsLast(facts, i);
      var v :| Stores(facts, k, v);
      MemoryExact(facts, k, v);
    }
  }

  /** Two or more segments between dots, each with something other than white space in it. */
  ghost predicate Dotted(isSpace: CharClass, key: string) {
    exists parts :: DottedAs(isSpace, key, parts)
  }

  ghost predicate DottedAs(isSpace: CharClass, key: string, parts: seq<string>) {
    |parts| >= 2 && key == JoinWith(parts, '.') && forall i :: 0 <= i < |parts| ==> '.' !in parts[i] && !AllSpace(isSpace, parts[i])
  }

  lemma NamespacedIffDotted(isSpace: CharClass, key: string)
    ensures IsNamespaced(isSpace, key) <==> Dotted(isSpace, key)
  {
    hide Strip, AllSpace;
    forall p: string ensures Strip(isSpace, p) == "" <==> AllSpace(isSpace, p) {
      BlankIff(isSpace, p);
    }
    if IsNamespaced(isSpace, key) {
      JoinOfSplit(key, '.');
      var parts := SplitOn(key, '.');
      forall i | 0 <= i < |parts| ensures '.' !in parts[i] && !AllSpace(isSpace, parts[i]) {
        assert parts[i] in parts;
      }
      assert DottedAs(isSpace, key, parts);
    }
    if Dotted(isSpace, key) {
      var parts :| DottedAs(isSpace, key, parts);
      SplitOnJoined(parts, '.');
    }
  }

  function UpsertItem(u: (string, string)): Json {
    Json.Object([("key", Json.Text(u.0)), ("value", Json.Text(u.1))])
  }

  function UpsertItems(us: seq<(string, string)>): seq<Json> {
    seq(|us|, i requires 0 <= i < |us| => UpsertItem(us[i]))
  }

  function DeleteItems(ds: seq<string>): seq<Json> {
    seq(|ds|, i requires 0 <= i < |ds| => Json.Text(ds[i]))
  }

  /** `{"upserts": [{"key": ..., "value": ...}, ...], "deletes": [...]}`. */
  function Reply(us: seq<(string, string)>, ds: seq<string>): Json {
    Json.Object([("upserts", Json.Array(UpsertItems(us))), ("deletes", Json.Array(DeleteItems(ds)))])
  }

  /** How one upsert item is read: its key and value are text, trimmed, and the key is dotted
      and no bookkeeping key. The members may come in either order; without either of them, a
      single pair `{k: v}` is read the same; anything else is dropped. */
  lemma UpsertItemText(isSpace: CharClass, k: string, v: string, other: Json)
    ensures var key, value := Strip(isSpace, k), Strip(isSpace, v);
      ValidUpsert(isSpace, UpsertItem((k, v))) ==
        if value != "" && !("meta." <= key) && Dotted(isSpace, key) then Some((key, value)) else None
    ensures ValidUpsert(isSpace, Json.Object([("value", Json.Text(v)), ("key", Json.Text(k))])) == ValidUpsert(isSpace, UpsertItem((k, v)))
    ensures k != "key" && k != "value" ==> ValidUpsert(isSpace, Json.Object([(k, Json.Text(v))])) == ValidUpsert(isSpace, UpsertItem((k, v)))
    ensures !other.Text? ==>
      && ValidUpsert(isSpace, Json.Object([("key", other), ("value", Json.Text(v))])) == None
      && ValidUpsert(isSpace, Json.Object([("key", Json.Text(k)), ("value", other)])) == None
    ensures !other.Object? ==> ValidUpsert(isSpace, other) == None
  {
    hide Strip, Dotted, IsNamespaced;
    NamespacedIffDotted(isSpace, Strip(isSpace, k));
    DottedNotEmpty(isSpace, Strip(isSpace, k));
    TwoMembers("key", "value", Json.Text(k), Json.Text(v));
    TwoMembers("value", "key", Json.Text(v), Json.Text(k));
    TwoMembers("key", "value", other, Json.Text(v));
    TwoMembers("key", "value", Json.Text(k), other);
    OneMember(k, Json.Text(v), "key");
    OneMember(k, Json.Text(v), "value");
  }

  lemma TwoMembers(a: string, b: string, x: Json, y: Json)
    ensures a != b ==> Member([(a, x), (b, y)], a) == x && Member([(a, x), (b, y)], b) == y
  {
    assert [(a, x), (b, y)][1..] == [(b, y)];
  }

  lemma OneMember(a: string, x: Json, b: string)
    ensures Member([(a, x)], b) == if a == b then x else Null
  {
  }

  lemma DottedNotEmpty(isSpace: CharClass, key: string)
    ensures Dotted(isSpace, key) ==> key != ""
  {
    if Dotted(isSpace, key) {
      var parts :| DottedAs(isSpace, key, parts);
    }
  }

  predicate Deletable(existing: Facts, k: string) {
    k != "" && k in existing && !("meta." <= k)
  }

  /** How one delete item is read: a stored key, or a stored key followed by "= value". */
  lemma DeleteItemText(isSpace: CharClass, d: string, left: string, right: string, existing: Facts, other: Json)
    ensures Deletable(existing, Strip(isSpace, d)) ==> ValidDelete(isSpace, Json.Text(d), existing) == Some(Strip(isSpace, d))
    ensures !Deletable(existing, Strip(isSpace, d)) && '=' !in d ==> ValidDelete(isSpace, Json.Text(d), existing) == None
    ensures d == left + "=" + right && Trimmed(isSpace, d) && '=' !in left && d !in existing ==>
      ValidDelete(isSpace, Json.Text(d), existing) == if Deletable(existing, Strip(isSpace, left)) then Some(Strip(isSpace, left)) else None
    ensures !other.Text? ==> ValidDelete(isSpace, other, existing) == None
  {
    hide Strip;
    StripKeepsOut(isSpace, d, '=');
    if d == left + "=" + right && Trimmed(isSpace, d) && '=' !in left {
      StripTrimmed(isSpace, d);
      PartitionIs(left, '=', right);
    }
  }

  /** Which replies have lists: objects whose two named members are arrays, in either order. */
  lemma ListsText(us: seq<Json>, ds: seq<Json>, other: Json)
    ensures Lists(Some(Json.Object([("upserts", Json.Array(us)), ("deletes", Json.Array(ds))]))) == Some((us, ds))
    ensures Lists(Some(Json.Object([("deletes", Json.Array(ds)), ("upserts", Json.Array(us))]))) == Some((us, ds))
    ensures !other.Array? ==>
      && Lists(Some(Json.Object([("upserts", other), ("deletes", Json.Array(ds))]))) == None
      && Lists(Some(Json.Object([("upserts", Json.Array(us)), ("deletes", other)]))) == None
    ensures Lists(Some(Json.Object([("upserts", Json.Array(us))]))) == None
    ensures !other.Object? ==> Lists(Some(other)) == None
    ensures Lists(None) == None
  {
    TwoMembers("upserts", "deletes", Json.Array(us), Json.Array(ds));
    TwoMembers("deletes", "upserts", Json.Array(ds), Json.Array(us));
    TwoMembers("upserts", "deletes", other, Json.Array(ds));
    TwoMembers("upserts", "deletes", Json.Array(us), other);
    OneMember("upserts", Json.Array(us), "upserts");
    OneMember("upserts", Json.Array(us), "deletes");
  }

  /** An upsert that needs no cleaning up and changes something. */
  ghost predicate CleanUpsert(isSpace: CharClass, facts: seq<(string, string)>, u: (string, string)) {
    && Trimmed(isSpace, u.0) && Trimmed(isSpace, u.1) && u.1 != ""
    && !("meta." <= u.0) && Dotted(isSpace, u.0) && !Stores(facts, u.0, u.1)
  }

  ghost predicate CleanDelete(isSpace: CharClass, facts: seq<(string, string)>, d: string) {
    Trimmed(isSpace, d) && d != "" && !("meta." <= d) && exists v :: Stores(facts, d, v)
  }

  /** A reply with no slip in it: at most twelve changes, each of them one, no key twice. */
  ghost predicate CleanReply(isSpace: CharClass, facts: seq<(string, string)>, us: seq<(string, string)>, ds: seq<string>) {
    && |us| + |ds| <= 12
    && (forall i :: 0 <= i < |us| ==> CleanUpsert(isSpace, facts, us[i]))
    && (forall i :: 0 <= i < |ds| ==> CleanDelete(isSpace, facts, ds[i]))
    && UniqueKeys(us) && Distinct(ds)
    && (forall i, j :: 0 <= i < |us| && 0 <= j < |ds| ==> us[i].0 != ds[j])
  }

  lemma CleanUpsertItem(isSpace: CharClass, facts: seq<(string, string)>, u: (string, string))
    requires CleanUpsert(isSpace, facts, u)
    ensures ValidUpsert(isSpace, UpsertItem(u)) == Some(u)
    ensures !(u.0 in Memory(facts) && Memory(facts)[u.0] == u.1)
  {
    hide Strip, Dotted, ValidUpsert, Memory, Stores;
    StripTrimmed(isSpace, u.0);
    StripTrimmed(isSpace, u.1);
    UpsertItemText(isSpace, u.0, u.1, Null);
    MemoryExact(facts, u.0, u.1);
  }

  lemma CleanDeleteItem(isSpace: CharClass, facts: seq<(string, string)>, d: string)
    requires CleanDelete(isSpace, facts, d)
    ensures ValidDelete(isSpace, Json.Text(d), Memory(facts)) == Some(d)
  {
    hide Strip, Memory, Stores;
    StripTrimmed(isSpace, d);
    var v :| Stores(facts, d, v);
    MemoryExact(facts, d, v);
  }

  lemma {:induction false} CleanUpserts(isSpace: CharClass, facts: seq<(string, string)>, us: seq<(string, string)>, taken: set<string>)
    requires UniqueKeys(us) && forall i :: 0 <= i < |us| ==> CleanUpsert(isSpace, facts, us[i]) && us[i].0 !in taken
    ensures Upserts(isSpace, UpsertItems(us), Memory(facts), taken) == us
    ensures forall k :: k in Shielded(isSpace, UpsertItems(us)) ==> exists i :: 0 <= i < |us| && us[i].0 == k
    decreases |us|
  {
    hide CleanUpsert, ValidUpsert, Memory;
    if us != [] {
      assert UpsertItems(us)[0] == UpsertItem(us[0]) && UpsertItems(us)[1..] == UpsertItems(us[1..]);
      CleanUpsertItem(isSpace, facts, us[0]);
      CleanUpserts(isSpace, facts, us[1..], taken + {us[0].0});
    }
  }

  lemma {:induction false} CleanDeletes(isSpace: CharClass, facts: seq<(string, string)>, ds: seq<string>, barred: set<string>)
    requires Distinct(ds) && forall i :: 0 <= i < |ds| ==> CleanDelete(isSpace, facts, ds[i]) && ds[i] !in barred
    ensures Deletes(isSpace, DeleteItems(ds), Memory(facts), barred) == ds
    decreases |ds|
  {
    hide CleanDelete, ValidDelete, Memory;
    if ds != [] {
      assert DeleteItems(ds)[0] == Json.Text(ds[0]) && DeleteItems(ds)[1..] == DeleteItems(ds[1..]);
      CleanDeleteItem(isSpace, facts, ds[0]);
      CleanDeletes(isSpace, facts, ds[1..], barred + {ds[0]});
    }
  }

  /** A clean reply is carried out to the letter. */
  lemma CleanReplyIsParsed(isSpace: CharClass, facts: seq<(string, string)>, us: seq<(string, string)>, ds: seq<string>)
    requires CleanReply(isSpace, facts, us, ds)
    ensures Parsed(isSpace, Some(Reply(us, ds)), Memory(facts)) == Edit(us, ds)
  {
    hide CleanUpsert, CleanDelete, Memory, Upserts, Deletes, Shielded, UniqueKeys, Distinct;
    ListsText(UpsertItems(us), DeleteItems(ds), Null);
    CleanUpserts(isSpace, facts, us, {});
    CleanDeletes(isSpace, facts, ds, Shielded(isSpace, UpsertItems(us)));
  }

  /** The shield covers every key a valid upsert names, whether or not it changes anything. */
  lemma {:induction false} ShieldedExact(isSpace: CharClass, items: seq<Json>, k: string)
    ensures k in Shielded(isSpace, items) <==> exists i :: 0 <= i < |items| && Names(isSpace, items[i], k)
  {
    hide ValidUpsert;
    if items != [] {
      ShieldedExact(isSpace, items[1..], k);
      assert forall i :: 0 < i < |items| ==> items[i] == items[1..][i - 1];
      if i :| 0 <= i < |items[1..]| && Names(isSpace, items[1..][i], k) {
        assert Names(isSpace, items[i + 1], k);
      }
    }
  }

  ghost predicate Names(isSpace: CharClass, item: Json, k: string) {
    ValidUpsert(isSpace, item).Some? && ValidUpsert(isSpace, item).value.0 == k
  }

  /** A reply that names one fact both ways: said again at its stored value, the fact is
      neither written nor deleted; given a new value, it is written and not deleted. A new key
      with an equals sign is out: the delete would be read as "key = value". */
  lemma SaidAgainIsKept(isSpace: CharClass, facts: seq<(string, string)>, k: string, v: string)
    requires Trimmed(isSpace, k) && Trimmed(isSpace, v) && v != "" && !("meta." <= k) && Dotted(isSpace, k)
    requires '=' !in k || k in Memory(facts)
    ensures Parsed(isSpace, Some(Reply([(k, v)], [k])), Memory(facts)) ==
      if Stores(facts, k, v) then NOTHING else Edit([(k, v)], [])
  {
    hide Strip, Dotted, ValidUpsert, ValidDelete, Memory, Stores, Upserts, Deletes, Shielded;
    var existing := Memory(facts);
    var us, ds := UpsertItems([(k, v)]), DeleteItems([k]);
    assert us == [UpsertItem((k, v))] && ds == [Json.Text(k)];
    StripTrimmed(isSpace, k);
    StripTrimmed(isSpace, v);
    UpsertItemText(isSpace, k, v, Null);
    MemoryExact(facts, k, v);
    ListsText(us, ds, Null);
    OneUpsert(isSpace, UpsertItem((k, v)), (k, v), existing);
    OwnKeyOnly(isSpace, k, existing);
    OneDelete(isSpace, Json.Text(k), k, existing);
  }

  lemma OneUpsert(isSpace: CharClass, item: Json, u: (string, string), existing: Facts)
    requires ValidUpsert(isSpace, item) == Some(u)
    ensures Upserts(isSpace, [item], existing, {}) == if u.0 in existing && existing[u.0] == u.1 then [] else [u]
    ensures Shielded(isSpace, [item]) == {u.0}
  {
    hide ValidUpsert;
    assert [item][1..] == [];
  }

  lemma OneDelete(isSpace: CharClass, item: Json, k: string, existing: Facts)
    requires var r := ValidDelete(isSpace, item, existing); r.Some? ==> r.value == k
    ensures Deletes(isSpace, [item], existing, {k}) == []
  {
    hide ValidDelete;
    assert [item][1..] == [];
  }

  lemma OwnKeyOnly(isSpace: CharClass, k: string, existing: Facts)
    requires Trimmed(isSpace, k) && ('=' !in k || k in existing)
    ensures var r := ValidDelete(isSpace, Json.Text(k), existing); r.Some? ==> r.value == k
  {
    hide Strip;
    StripTrimmed(isSpace, k);
  }

  /** The cap: upserts first, and deletes in what remains of twelve; nothing else is cut. */
  lemma CapText(isSpace: CharClass, us: seq<Json>, ds: seq<Json>, existing: Facts)
    ensures var edit := Parsed(isSpace, Some(Json.Object([("upserts", Json.Array(us)), ("deletes", Json.Array(ds))])), existing);
      var allUps, allDels := Upserts(isSpace, us, existing, {}), Deletes(isSpace, ds, existing, Shielded(isSpace, us));
      && edit.upserts <= allUps && edit.deletes <= allDels
      && (|allUps| >= 12 ==> |edit.upserts| == 12 && edit.deletes == [])
      && (|allUps| < 12 ==> edit.upserts == allUps)
      && (|allUps| < 12 <= |allUps| + |allDels| ==> |edit.upserts| + |edit.deletes| == 12)
      && (|allUps| + |allDels| <= 12 ==> edit == Edit(allUps, allDels))
  {
    hide Upserts, Deletes, Shielded;
    ListsText(us, ds, Null);
  }

  /** Habit upserts need evidence in the users' lines, all others pass. */
  ghost function HabitFilter(reader: Reader, userLines: seq<string>): (string, string) -> bool {
    (k: string, v: string) => !(HABIT_PREFIX <= k) || Evidenced(reader, k, v, userLines)
  }

  lemma MemoryEmpty(facts: seq<(string, string)>)
    ensures Memory(facts) == map[] <==> forall i :: 0 <= i < |facts| ==> "meta." <= facts[i].0
  {
    hide Memory;
    if Memory(facts) == map[] {
      forall i | 0 <= i < |facts| ensures "meta." <= facts[i].0 {
        MemoryKeys(facts, facts[i].0);
      }
    } else {
      var k :| k in Memory(facts);
      MemoryKeys(facts, k);
    }
  }

  lemma {:induction false} NoHabitsKept(reader: Reader, userLines: seq<string>, us: seq<(string, string)>)
    requires forall u :: u in us ==> !(HABIT_PREFIX <= u.0)
    ensures Kept(us, HabitFilter(reader, userLines)) == us
  {
    if us != [] {
      assert us == [us[0]] + us[1..];
      NoHabitsKept(reader, userLines, us[1..]);
    }
  }

  lemma NoHabits(reader: Reader, userLines: seq<string>)
    ensures forall us: seq<(string, string)> :: (forall u :: u in us ==> !(HABIT_PREFIX <= u.0)) ==> Kept(us, HabitFilter(reader, userLines)) == us
  {
    forall us: seq<(string, string)> | forall u :: u in us ==> !(HABIT_PREFIX <= u.0)
      ensures Kept(us, HabitFilter(reader, userLines)) == us
    {
      NoHabitsKept(reader, userLines, us);
    }
  }

  method FilterHabits(reader: Reader, userLines: seq<string>, upserts: seq<(string, string)>) returns (kept: seq<(string, string)>)
    ensures kept == Kept(upserts, HabitFilter(reader, userLines))
  {
    hide Evidenced;
    kept := [];
    ghost var keep := HabitFilter(reader, userLines);
    assert upserts[0..] == upserts;
    for i := 0 to |upserts|
      invariant Kept(upserts, keep) == kept + Kept(upserts[i..], keep)
    {
      var (key, value) := upserts[i];
      assert upserts[i..][1..] == upserts[i + 1..];
      var ok := true;
      if HABIT_PREFIX <= key {
        ok := HabitEvidenced(reader, key, value, userLines);
      }
      if ok {
        Onto(kept, (key, value), Kept(upserts[i + 1..], keep));
        kept := kept + [(key, value)];
      }
    }
  }

  /** The whole pass, from the stored facts, the users' lines and the model's reply. */
  method Consolidate(isSpace: CharClass, reader: Reader, facts: seq<(string, string)>, userLines: seq<string>, raw: Option<Json>) returns (edit: Edit)
    ensures var existing := Memory(facts);
      var parsed := Parsed(isSpace, raw, existing);
      edit == if existing == map[] then NOTHING else Edit(Kept(parsed.upserts, HabitFilter(reader, userLines)), parsed.deletes)
    ensures Guarded(isSpace, edit, Memory(facts), ShieldOf(isSpace, raw))
    ensures forall u :: u in edit.upserts && HABIT_PREFIX <= u.0 ==> Evidenced(reader, u.0, u.1, userLines)
    ensures (forall i :: 0 <= i < |facts| ==> "meta." <= facts[i].0) ==> edit == NOTHING
    ensures !(forall i :: 0 <= i < |facts| ==> "meta." <= facts[i].0) ==>
      forall us: seq<(string, string)>, ds: seq<string> :: raw == Some(Reply(us, ds)) && CleanReply(isSpace, facts, us, ds) ==>
        && edit.deletes == ds
        && (forall u :: u in edit.upserts <==> u in us && ("user.habit." <= u.0 ==> Evidenced(reader, u.0, u.1, userLines)))
        && ((forall u :: u in us ==> !("user.habit." <= u.0)) ==> edit.upserts == us)
  {
    hide Parsed, ShieldOf, Memory, IsMeta, IsNamespaced, Evidenced, CleanReply, Reply;
    var existing := Memory(facts);
    MemoryEmpty(facts);
    forall us: seq<(string, string)>, ds: seq<string> | raw == Some(Reply(us, ds)) && CleanReply(isSpace, facts, us, ds)
      ensures Parsed(isSpace, raw, existing) == Edit(us, ds)
    {
      CleanReplyIsParsed(isSpace, facts, us, ds);
    }
    NoHabits(reader, userLines);
    if existing == map[] {
      return NOTHING;
    }
    edit := ParseConsolidation(isSpace, raw, existing);
    ParsedIsGuarded(isSpace, raw, existing);
    KeptIsGuarded(isSpace, edit, existing, ShieldOf(isSpace, raw), HabitFilter(reader, userLines));
    var kept := FilterHabits(reader, userLines, edit.upserts);
    edit := edit.(upserts := kept);
  }

  // ---- applying it ---------------------------------------------------------------------------------------

  function ApplyUpserts(facts: Facts, upserts: seq<(string, string)>): Facts
    decreases |upserts|
  {
    if upserts == [] then facts else ApplyUpserts(facts[upserts[0].0 := upserts[0].1], upserts[1..])
  }

  function ApplyDeletes(facts: Facts, deletes: seq<string>): Facts
    decreases |deletes|
  {
    if deletes == [] then facts else ApplyDeletes(facts - {deletes[0]}, deletes[1..])
  }

  lemma {:induction false} UpsertPastDelete(facts: Facts, upserts: seq<(string, string)>, d: string)
    requires forall u :: u in upserts ==> u.0 != d
    ensures ApplyUpserts(facts - {d}, upserts) == ApplyUpserts(facts, upserts) - {d}
    decreases |upserts|
  {
    if upserts != [] {
      var (k, v) := upserts[0];
      assert upserts[0] in upserts;
      assert (facts - {d})[k := v] == facts[k := v] - {d};
      UpsertPastDelete(facts[k := v], upserts[1..], d);
    }
  }

  lemma {:induction false} OrderIrrelevant(facts: Facts, upserts: seq<(string, string)>, deletes: seq<string>)
    requires forall u :: u in upserts ==> u.0 !in deletes
    ensures ApplyDeletes(ApplyUpserts(facts, upserts), deletes) == ApplyUpserts(ApplyDeletes(facts, deletes), upserts)
    decreases |deletes|
  {
    if deletes != [] {
      assert deletes == [deletes[0]] + deletes[1..];
      UpsertPastDelete(facts, upserts, deletes[0]);
      OrderIrrelevant(facts - {deletes[0]}, upserts, deletes[1..]);
    }
  }

  function Applied(facts: Facts, edit: Edit): Facts {
    ApplyDeletes(ApplyUpserts(facts, edit.upserts), edit.deletes)
  }

  lemma {:induction false} UpsertsTouch(facts: Facts, upserts: seq<(string, string)>, k: string)
    requires k !in UpsertKeys(upserts)
    ensures var r := ApplyUpserts(facts, upserts); (k in r <==> k in facts) && (k in facts ==> r[k] == facts[k])
    decreases |upserts|
  {
    if upserts != [] {
      UpsertsTouch(facts[upserts[0].0 := upserts[0].1], upserts[1..], k);
    }
  }

  lemma {:induction false} DeletesTouch(facts: Facts, deletes: seq<string>)
    ensures ApplyDeletes(facts, deletes) == facts - (set d | d in deletes)
    decreases |deletes|
  {
    if deletes != [] {
      DeletesTouch(facts - {deletes[0]}, deletes[1..]);
      assert deletes == [deletes[0]] + deletes[1..];
    }
  }

  ghost predicate Changed(before: Facts, after: Facts, k: string) {
    (k in before) != (k in after) || (k in before && k in after && before[k] != after[k])
  }

  lemma {:induction false} DeleteSetSmall(deletes: seq<string>)
    ensures |set d | d in deletes| <= |deletes|
  {
    if deletes == [] {
      assert (set d | d in deletes) == {};
    } else {
      assert deletes == [deletes[0]] + deletes[1..];
      assert (set d | d in deletes) == {deletes[0]} + (set d | d in deletes[1..]);
      DeleteSetSmall(deletes[1..]);
    }
  }

  /** Main theorem: a guarded edit gives the same facts whichever half is applied first,
      changes at most twelve of them, and no bookkeeping fact. */
  lemma PassIsBounded(isSpace: CharClass, facts: Facts, edit: Edit, existing: Facts, shielded: set<string>) returns (touched: set<string>)
    requires Guarded(isSpace, edit, existing, shielded)
    ensures Applied(facts, edit) == ApplyUpserts(ApplyDeletes(facts, edit.deletes), edit.upserts)
    ensures |touched| <= 12
    ensures forall k :: Changed(facts, Applied(facts, edit), k) ==> k in touched && !IsMeta(k)
    ensures forall k :: k in shielded && k in facts ==> k in Applied(facts, edit)
  {
    hide IsMeta, IsNamespaced;
    OrderIrrelevant(facts, edit.upserts, edit.deletes);
    var gone := set d | d in edit.deletes;
    touched := UpsertKeys(edit.upserts) + gone;
    DeleteSetSmall(edit.deletes);
    DeletesTouch(ApplyUpserts(facts, edit.upserts), edit.deletes);
    KeysOfUpserts(edit.upserts);
    forall k | Changed(facts, Applied(facts, edit), k) ensures k in touched && !IsMeta(k) {
      if k !in UpsertKeys(edit.upserts) {
        UpsertsTouch(facts, edit.upserts, k);
      }
    }
    forall k | k in shielded && k in facts ensures k in Applied(facts, edit) {
      UpsertsKeep(facts, edit.upserts, k);
    }
  }

  lemma {:induction false} KeysOfUpserts(upserts: seq<(string, string)>)
    ensures forall k :: k in UpsertKeys(upserts) ==> exists u :: u in upserts && u.0 == k
  {
    if upserts != [] {
      KeysOfUpserts(upserts[1..]);
      assert upserts == [upserts[0]] + upserts[1..];
      assert upserts[0] in upserts;
    }
  }

  lemma {:induction false} UpsertsKeep(facts: Facts, upserts: seq<(string, string)>, k: string)
    requires k in facts
    ensures k in ApplyUpserts(facts, upserts)
    decreases |upserts|
  {
    if upserts != [] {
      UpsertsKeep(facts[upserts[0].0 := upserts[0].1], upserts[1..], k);
    }
  }

  /** What applying does: a named upsert takes its value, a named delete is gone, and every
      other fact is what it was. */
  lemma AppliedExact(isSpace: CharClass, facts: Facts, edit: Edit, existing: Facts, shielded: set<string>)
    requires Guarded(isSpace, edit, existing, shielded)
    ensures var after := Applied(facts, edit);
      && (forall u :: u in edit.upserts ==> u.0 in after && after[u.0] == u.1)
      && (forall d :: d in edit.deletes ==> d !in after)
      && (forall k :: k !in edit.deletes && (forall u :: u in edit.upserts ==> u.0 != k) ==> !Changed(facts, after, k))
  {
    hide IsMeta, IsNamespaced;
    UpsertsTake(facts, edit.upserts);
    KeysOfUpserts(edit.upserts);
    DeletesTouch(ApplyUpserts(facts, edit.upserts), edit.deletes);
    forall k | k !in edit.deletes && forall u :: u in edit.upserts ==> u.0 != k
      ensures !Changed(facts, Applied(facts, edit), k)
    {
      UpsertsTouch(facts, edit.upserts, k);
    }
  }

  lemma {:induction false} UpsertsTake(facts: Facts, upserts: seq<(string, string)>)
    requires UniqueKeys(upserts)
    ensures forall u :: u in upserts ==> u.0 in ApplyUpserts(facts, upserts) && ApplyUpserts(facts, upserts)[u.0] == u.1
    decreases |upserts|
  {
    if upserts != [] {
      var rest, facts' := upserts[1..], facts[upserts[0].0 := upserts[0].1];
      assert upserts == [upserts[0]] + rest;
      UpsertsTake(facts', rest);
      KeysOfUpserts(rest);
      UpsertsTouch(facts', rest, upserts[0].0);
    }
  }
}
