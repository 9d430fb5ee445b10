/** The budget for rebuilding a cache that has no usable short graph. The attempt count is a
    file inside the cache directory, and every rebuild replaces that directory, so the count
    has to be carried across. Starts here do not overlap; `Publish` has the interleavings. */
module FastBudget {
  import opened Basics
  import opened Publish

  const MAX_FAST_ATTEMPTS: int := 3

  /** What a conversion does: fail, or build a cache whose short graph converts or not, and
      if it converts, validates or not. */
  datatype Outcome = Fails | Builds(converts: bool, validates: bool)

  /** One process start: its first conversion, its background rebuild, and whether markers
      can be written. */
  datatype Nature = Nature(first: Outcome, rebuild: Outcome, writable: bool)

  type Cache = Option<Dir>

  function Attempts(c: Cache): int {
    if c.Some? && c.value.marker.Some? then c.value.marker.value else 0
  }

  predicate Usable(c: Cache) {
    c.Some? && c.value.pkg.Complete?
  }

  predicate HasFast(c: Cache) {
    Usable(c) && c.value.pkg.fast
  }

  /** The marker of the directory that replaces one with `before` attempts and charged itself
      `own`. */
  function Carried(before: int, own: Option<int>, writable: bool): Option<int> {
    var n := before + (if own.Some? then own.value else 0);
    if n > 0 && writable then Some(n) else own
  }

  function Converted(c: Cache, o: Outcome, writable: bool): Cache {
    match o
    case Fails => c
    case Builds(converts, validates) =>
      var own := if !converts && writable then Some(1) else None;
      Some(Dir(Complete(converts && validates), Carried(Attempts(c), own, writable), None))
  }

  function Noted(c: Cache, writable: bool): Cache {
    if c.Some? && writable then Some(c.value.(marker := Some(Attempts(c) + 1))) else c
  }

  datatype Rebuild = NoRebuild | Fruitful | Fruitless

  /** What one start does to the cache, and whether it rebuilt in the background. */
  function StartUp(c: Cache, n: Nature): (Cache, Rebuild) {
    if !Usable(c) then
      var c1 := Converted(c, n.first, n.writable);
      if n.first.Fails? then (c, NoRebuild)
      else (if HasFast(c1) then c1 else Noted(c1, n.writable), NoRebuild)
    else if HasFast(c) || Attempts(c) >= MAX_FAST_ATTEMPTS then (c, NoRebuild)
    else
      var c1 := Converted(c, n.rebuild, n.writable);
      if !n.rebuild.Fails? && HasFast(c1) then (c1, Fruitful) else (Noted(c1, n.writable), Fruitless)
  }

  function Rebuilds(c: Cache, starts: seq<Nature>): nat
    decreases |starts|
  {
    if starts == [] then 0
    else
      var (c1, r) := StartUp(c, starts[0]);
      (if r.NoRebuild? then 0 else 1) + Rebuilds(c1, starts[1..])
  }

  /** A background rebuild that ends without the short graph strictly raises the count that
      the next start will read; no start ever lowers it. */
  lemma StartRaisesAttempts(c: Cache, n: Nature)
    requires n.writable
    ensures var (c1, r) := StartUp(c, n);
      && Attempts(c1) >= Attempts(c)
      && (r.Fruitless? ==> Attempts(c1) > Attempts(c) && Usable(c1))
      && (r.Fruitful? ==> HasFast(c1))
      && (HasFast(c) ==> c1 == c)
  {
  }

  function Left(c: Cache): nat {
    if HasFast(c) || Attempts(c) >= MAX_FAST_ATTEMPTS then 0 else MAX_FAST_ATTEMPTS - Attempts(c)
  }

  /** Over any number of starts with any outcomes, at most as many background rebuilds happen
      as the budget has left: three for a cache that has none on record. */
  lemma {:induction false} RebuildsBounded(c: Cache, starts: seq<Nature>)
    requires forall n :: n in starts ==> n.writable
    ensures Rebuilds(c, starts) <= Left(c)
    decreases |starts|
  {
    hide StartUp;
    if starts != [] {
      assert starts[0] in starts;
      var (c1, r) := StartUp(c, starts[0]);
      StartSpends(c, starts[0]);
      RebuildsBounded(c1, starts[1..]);
    }
  }

  lemma StartSpends(c: Cache, n: Nature)
    requires n.writable
    ensures var (c1, r) := StartUp(c, n); (if r.NoRebuild? then 0 else 1) + Left(c1) <= Left(c)
  {
  }

  /** The budget is spent exactly: a usable cache whose every rebuild fails is rebuilt at each
      start until the budget is gone, and never again. */
  lemma {:induction false} FailingRebuildsSpendItAll(c: Cache, starts: seq<Nature>)
    requires Usable(c) && !HasFast(c)
    requires forall n :: n in starts ==> n.writable && n.rebuild.Fails?
    ensures Rebuilds(c, starts) == if |starts| <= Left(c) then |starts| else Left(c)
    decreases |starts|
  {
    if starts != [] {
      assert starts[0] in starts;
      FailingRebuildsSpendItAll(StartUp(c, starts[0]).0, starts[1..]);
    }
  }

  /** Where the marker cannot be written there is no budget: every start rebuilds. */
  lemma {:induction false} UnwritableMarkerHasNoBudget(c: Cache, starts: seq<Nature>)
    requires Usable(c) && !HasFast(c) && Attempts(c) < MAX_FAST_ATTEMPTS
    requires forall n :: n in starts ==> !n.writable && n.rebuild.Fails?
    ensures Rebuilds(c, starts) == |starts|
    decreases |starts|
  {
    if starts != [] {
      assert starts[0] in starts;
      UnwritableMarkerHasNoBudget(StartUp(c, starts[0]).0, starts[1..]);
    }
  }

  /** With nothing left, no start rebuilds or changes the cache, whatever happens to it. */
  lemma {:induction false} NothingLeftNothingRebuilt(c: Cache, starts: seq<Nature>)
    requires Usable(c) && Left(c) == 0
    ensures Rebuilds(c, starts) == 0
    decreases |starts|
  {
    if starts != [] {
      NothingLeftNothingRebuilt(c, starts[1..]);
    }
  }

  lemma {:induction false} AtMostOnePerStart(c: Cache, starts: seq<Nature>)
    ensures Rebuilds(c, starts) <= |starts|
    decreases |starts|
  {
    hide StartUp;
    if starts != [] {
      AtMostOnePerStart(StartUp(c, starts[0]).0, starts[1..]);
    }
  }

  ghost predicate AllRebuildsFail(starts: seq<Nature>) {
    forall i :: 0 <= i < |starts| ==> starts[i].rebuild.Fails?
  }

  /** A failed rebuild costs one attempt if it can be noted, and nothing otherwise. */
  lemma FailedStart(c: Cache, n: Nature)
    requires Usable(c) && !HasFast(c) && Left(c) > 0 && n.rebuild.Fails?
    ensures var (c1, r) := StartUp(c, n);
      Usable(c1) && !HasFast(c1) && r == Fruitless && Left(c1) == if n.writable then Left(c) - 1 else Left(c)
  {
  }

  lemma {:induction false} FailingSpendsAtLeast(c: Cache, starts: seq<Nature>)
    requires Usable(c) && !HasFast(c) && AllRebuildsFail(starts)
    ensures Rebuilds(c, starts) >= if |starts| <= Left(c) then |starts| else Left(c)
    decreases |starts|
  {
    hide StartUp;
    if starts != [] && Left(c) > 0 {
      FailedStart(c, starts[0]);
      FailingSpendsAtLeast(StartUp(c, starts[0]).0, starts[1..]);
    }
  }

  /** The first `k` starts can all write the marker. */
  ghost predicate WritableFor(starts: seq<Nature>, k: nat) {
    k <= |starts| && forall i :: 0 <= i < k ==> starts[i].writable
  }

  /** When every rebuild fails, the budget holds exactly if there are too few starts to spend
      it, or every start that spends it can write the marker. */
  lemma {:induction false} FailingBudgetHoldsIff(c: Cache, starts: seq<Nature>)
    requires Usable(c) && !HasFast(c) && AllRebuildsFail(starts)
    ensures Rebuilds(c, starts) <= Left(c) <==> |starts| <= Left(c) || WritableFor(starts, Left(c))
    decreases |starts|
  {
    hide StartUp;
    if Left(c) == 0 {
      NothingLeftNothingRebuilt(c, starts);
    } else if starts != [] {
      var c1, rest := StartUp(c, starts[0]).0, starts[1..];
      FailedStart(c, starts[0]);
      FailingBudgetHoldsIff(c1, rest);
      FailingSpendsAtLeast(c1, rest);
      AtMostOnePerStart(c1, rest);
      if starts[0].writable {
        WritableTail(starts, Left(c));
      }
    }
  }

  lemma WritableTail(starts: seq<Nature>, k: nat)
    requires starts != [] && k > 0 && starts[0].writable
    ensures WritableFor(starts, k) <==> WritableFor(starts[1..], k - 1)
  {
    if WritableFor(starts[1..], k - 1) {
      forall i | 0 <= i < k ensures starts[i].writable {
        assert i > 0 ==> starts[1..][i - 1].writable;
      }
    }
  }

  /** While the budget is being spent every marker can be written: then it holds, whatever the
      rebuilds do. */
  lemma {:induction false} WritableBudgetHolds(c: Cache, starts: seq<Nature>)
    requires Usable(c) && WritableFor(starts, Left(c))
    ensures Rebuilds(c, starts) <= Left(c)
    decreases |starts|
  {
    hide StartUp;
    if Left(c) == 0 {
      NothingLeftNothingRebuilt(c, starts);
    } else {
      var c1 := StartUp(c, starts[0]).0;
      StartSpends(c, starts[0]);
      UsableStartSpends(c, starts[0]);
      forall i | 0 <= i < Left(c1) ensures starts[1..][i].writable {
        assert starts[i + 1].writable;
      }
      WritableBudgetHolds(c1, starts[1..]);
    }
  }

  lemma UsableStartSpends(c: Cache, n: Nature)
    requires Usable(c) && Left(c) > 0 && n.writable
    ensures var (c1, r) := StartUp(c, n); Usable(c1) && !r.NoRebuild? && Left(c1) < Left(c)
  {
  }

  /** The starts that can write the marker exactly where `writable` says so. */
  ghost predicate HasFlags(starts: seq<Nature>, writable: seq<bool>) {
    |starts| == |writable| && forall i :: 0 <= i < |starts| ==> starts[i].writable == writable[i]
  }

  ghost predicate BudgetAlwaysHolds(c: Cache, writable: seq<bool>) {
    forall starts :: HasFlags(starts, writable) ==> Rebuilds(c, starts) <= Left(c)
  }

  /** The exact condition: over a usable cache, the budget holds for every outcome of every
      rebuild if and only if there are no more starts than the budget has left, or the marker
      can be written in that many starts from the first. */
  lemma BudgetAlwaysHoldsIff(c: Cache, writable: seq<bool>)
    requires Usable(c)
    ensures BudgetAlwaysHolds(c, writable) <==>
      |writable| <= Left(c) || forall i :: 0 <= i < Left(c) ==> writable[i]
  {
    if |writable| <= Left(c) {
      forall starts | HasFlags(starts, writable) ensures Rebuilds(c, starts) <= Left(c) {
        AtMostOnePerStart(c, starts);
      }
    } else if forall i :: 0 <= i < Left(c) ==> writable[i] {
      forall starts | HasFlags(starts, writable) ensures Rebuilds(c, starts) <= Left(c) {
        assert WritableFor(starts, Left(c));
        WritableBudgetHolds(c, starts);
      }
    } else {
      var starts := seq(|writable|, i requires 0 <= i < |writable| => Nature(Fails, Fails, writable[i]));
      FailingBudgetHoldsIff(c, starts);
      assert HasFlags(starts, writable);
    }
  }

  /** For a cache with no attempt on record: never more than three background rebuilds, and
      exactly that many, start by start, when each of them fails. */
  lemma ThreeRebuilds(c: Cache, starts: seq<Nature>)
    requires c.None? || c.value.marker.None?
    requires forall n :: n in starts ==> n.writable
    ensures Rebuilds(c, starts) <= 3
    ensures Usable(c) && !HasFast(c) && (forall n :: n in starts ==> n.rebuild.Fails?) ==>
      Rebuilds(c, starts) == if |starts| <= 3 then |starts| else 3
    ensures HasFast(c) ==> Rebuilds(c, starts) == 0
  {
    RebuildsBounded(c, starts);
    if Usable(c) && !HasFast(c) && (forall n :: n in starts ==> n.rebuild.Fails?) {
      FailingRebuildsSpendItAll(c, starts);
    }
  }

  /** A first conversion charges the budget for a short graph it did not get: once when it
      converted but did not validate, and twice when it did not convert. */
  lemma FirstConversionCharged(c: Cache, n: Nature)
    requires !Usable(c) && n.writable
    ensures var (c1, r) := StartUp(c, n);
      && r.NoRebuild?
      && (n.first.Fails? ==> c1 == c)
      && (n.first.Builds? ==>
            && Usable(c1) && (HasFast(c1) <==> n.first.converts && n.first.validates)
            && (Attempts(c) >= 0 ==> Attempts(c1) == Attempts(c) + if HasFast(c1) then 0 else if n.first.converts then 1 else 2))
  {
  }

  // ---- what a note is worth ----------------------------------------------------------------

  /** The rebuilds of later starts, one after the other. */
  function ConvertedAll(c: Cache, outcomes: seq<Outcome>): Cache
    decreases |outcomes|
  {
    if outcomes == [] then c else ConvertedAll(Converted(c, outcomes[0], true), outcomes[1..])
  }

  /** A noted attempt is read by the next start, leaves the package as it was, and is still
      counted after any number of rebuilds have replaced the directory it was noted in. */
  lemma {:induction false} NoteSurvivesRebuilds(c: Cache, outcomes: seq<Outcome>)
    requires c.Some?
    ensures var noted := Noted(c, true);
      && Attempts(noted) == Attempts(c) + 1
      && noted.Some? && noted.value.pkg == c.value.pkg
      && Attempts(ConvertedAll(noted, outcomes)) > Attempts(c)
  {
    CountNeverDrops(Noted(c, true), outcomes);
  }

  lemma {:induction false} CountNeverDrops(c: Cache, outcomes: seq<Outcome>)
    ensures Attempts(ConvertedAll(c, outcomes)) >= Attempts(c)
    decreases |outcomes|
  {
    if outcomes != [] {
      CountNeverDrops(Converted(c, outcomes[0], true), outcomes[1..]);
    }
  }

  // ---- the code -------------------------------------------------------------------------

  datatype Status = Ready | Unavailable

  /** One process's backend over the cache directory. */
  class CoreMLBackend {
    var cache: Cache
    var loaded: bool
    var model: Option<Package>
    var modelFast: bool
    var upgradeStarted: bool

    constructor (cache: Cache)
      ensures this.cache == cache && !loaded && model == None && !modelFast && !upgradeStarted
    {
      this.cache := cache;
      loaded, model, modelFast, upgradeStarted := false, None, false, false;
    }

    /** The validate-load of the cache path. */
    function TryLoadFinal(): Option<Package>
      reads this`cache
    {
      if Usable(cache) then Some(cache.value.pkg) else None
    }

    /** The next start reads one more attempt than this one did, if the marker could be
        written; nothing else in the cache is touched. */
    method NoteFastAttempt(writable: bool)
      modifies this`cache
      ensures cache == Noted(old(cache), writable)
      ensures Attempts(cache) == Attempts(old(cache)) + if writable && old(cache).Some? then 1 else 0
      ensures TryLoadFinal() == old(TryLoadFinal())
    {
      var n := Attempts(cache) + 1;
      if writable && cache.Some? {
        cache := Some(cache.value.(marker := Some(n)));
      }
    }

    /** Convert into a private directory, carry the count over, and replace the cache. */
    method ConvertAtomic(o: Outcome, writable: bool) returns (ok: bool)
      modifies this`cache
      ensures ok <==> !o.Fails?
      ensures cache == Converted(old(cache), o, writable)
    {
      if o.Fails? {
        return false;
      }
      var tmp := Dir(Complete(o.converts && o.validates), None, None);
      if !o.converts && writable {
        tmp := tmp.(marker := Some(1));
      }
      var n := Attempts(cache) + Attempts(Some(tmp));
      if n > 0 && writable {
        tmp := tmp.(marker := Some(n));
      }
      cache := Some(tmp);
      return true;
    }

    method UpgradeFastGraph(o: Outcome, writable: bool)
      modifies this`cache, this`model, this`modelFast
      ensures var c1 := Converted(old(cache), o, writable);
        if !o.Fails? && HasFast(c1)
        then cache == c1 && modelFast && model == Some(c1.value.pkg)
        else cache == Noted(c1, writable) && model == old(model) && modelFast == old(modelFast)
    {
      var ok := ConvertAtomic(o, writable);
      var found := if ok then TryLoadFinal() else None;
      if found.Some? && found.value.Complete? && found.value.fast {
        model, modelFast := found, true;
        return;
      }
      NoteFastAttempt(writable);
    }

    method MaybeUpgradeFastGraph(justConverted: bool, rebuild: Outcome, writable: bool) returns (r: Rebuild)
      requires !upgradeStarted && Usable(cache) && modelFast == HasFast(cache)
      modifies this
      ensures loaded == old(loaded)
      ensures justConverted ==> r == NoRebuild && cache == if HasFast(old(cache)) then old(cache) else Noted(old(cache), writable)
      ensures !justConverted ==> (cache, r) == StartUp(old(cache), Nature(Fails, rebuild, writable))
      ensures old(model).Some? ==> model.Some?
      ensures modelFast <==> old(modelFast) || r.Fruitful?
    {
      r := NoRebuild;
      if !modelFast {
        if justConverted {
          NoteFastAttempt(writable);
        } else if Attempts(cache) < MAX_FAST_ATTEMPTS {
          upgradeStarted := true;
          UpgradeFastGraph(rebuild, writable);
          r := if modelFast then Fruitful else Fruitless;
        }
      }
    }

    /** The first request of a process. The backend is ready unless a conversion it could not
        do without failed; a failed background rebuild never takes a working model away. */
    method EnsureLoaded(n: Nature) returns (status: Status, r: Rebuild)
      requires !loaded && !upgradeStarted && model.None? && !modelFast
      modifies this
      ensures (cache, r) == StartUp(old(cache), n)
      ensures status.Ready? <==> Usable(old(cache)) || !n.first.Fails?
      ensures status.Ready? <==> loaded && model.Some?
      ensures status.Ready? ==> (modelFast <==> HasFast(cache))
    {
      var found, justConverted := TryLoadFinal(), false;
      if found.None? {
        var ok := ConvertAtomic(n.first, n.writable);
        if !ok {
          return Unavailable, NoRebuild;
        }
        found, justConverted := TryLoadFinal(), true;
      }
      model, modelFast := found, found.value.fast;
      loaded := true;
      r := MaybeUpgradeFastGraph(justConverted, n.rebuild, n.writable);
      return Ready, r;
    }
  }

  // ---- the sequential conversion is a run of the shared protocol ---------------------------

  function Calls(s: State, p: nat, k: nat, acts: seq<Act>): State
    decreases |acts|
  {
    if acts == [] then s else Calls(Publish.Step(s, p, k, acts[0]), p, k, acts[1..])
  }

  lemma CallsThree(s: State, p: nat, k: nat, a: Act, b: Act, c: Act)
    ensures Calls(s, p, k, [a, b, c]) == Publish.Step(Publish.Step(Publish.Step(s, p, k, a), p, k, b), p, k, c)
  {
    hide Publish.Step;
    var s1 := Publish.Step(s, p, k, a);
    var s2 := Publish.Step(s1, p, k, b);
    assert [c][1..] == [] && Calls(s2, p, k, [c]) == Publish.Step(s2, p, k, c);
    assert [b, c][1..] == [c] && Calls(s1, p, k, [b, c]) == Calls(s2, p, k, [c]);
    assert [a, b, c][1..] == [b, c];
  }

  /** Convert, write, validate: the private directory holds the new package. */
  lemma SoloConvert(s: State, p: nat, k: nat, n: nat, pkg: Package, own: Option<int>)
    requires PcOf(s, p).Idle? && Convert(n) !in s.fs && pkg.Complete?
    ensures var s' := Calls(s, p, k, [Start(n), Write(pkg, own), Validate]);
      && PcOf(s', p) == Validated(n)
      && s'.fs == s.fs[Convert(n) := Dir(pkg, own, Some(s.builds))]
  {
    CallsThree(s, p, k, Start(n), Write(pkg, own), Validate);
    var s1 := Publish.Step(s, p, k, Start(n));
    var s2 := Publish.Step(s1, p, k, Write(pkg, own));
    assert s2.fs[Convert(n)] == Dir(pkg, own, Some(s.builds));
    assert s2.fs == s.fs[Convert(n) := Dir(pkg, own, Some(s.builds))];
  }

  /** Carry the attempt count. */
  lemma SoloCarry(s: State, p: nat, k: nat, n: nat, writable: bool)
    requires PcOf(s, p) == Validated(n) && Convert(n) in s.fs
    ensures var s' := Calls(s, p, k, [ReadCount, WriteCount(writable), Check]);
      var marker := Carried(Count(s.fs, Final(k)), s.fs[Convert(n)].marker, writable);
      && PcOf(s', p) == (if Final(k) in s.fs then Minting(n) else Publishing(n, None))
      && s'.fs == s.fs[Convert(n) := s.fs[Convert(n)].(marker := marker)]
  {
    CallsThree(s, p, k, ReadCount, WriteCount(writable), Check);
  }

  /** Move the old cache aside. */
  lemma SoloVacate(s: State, p: nat, k: nat, n: nat, m: nat)
    requires PcOf(s, p) == Minting(n) && Final(k) in s.fs && Stale(m) !in s.fs
    ensures var s' := Calls(s, p, k, [Mint(m), Rmdir, Vacate(true)]);
      && PcOf(s', p) == Publishing(n, Some(m))
      && s'.fs == (s.fs - {Final(k)})[Stale(m) := s.fs[Final(k)]]
  {
    CallsThree(s, p, k, Mint(m), Rmdir, Vacate(true));
    var s1 := Publish.Step(s, p, k, Mint(m));
    var s2 := Publish.Step(s1, p, k, Rmdir);
    assert s2.fs == s.fs;
  }

  /** Rename into place and clean up. */
  lemma SoloPublish(s: State, p: nat, k: nat, n: nat, t: Option<nat>)
    requires PcOf(s, p) == Publishing(n, t) && Convert(n) in s.fs && Final(k) !in s.fs
    ensures var s' := Calls(s, p, k, [PublishTmp(true), RemoveTrash(Gone), Finish]);
      && PcOf(s', p) == Idle
      && s'.fs == (s.fs - {Convert(n)})[Final(k) := s.fs[Convert(n)]] - (if t.Some? then {Stale(t.value)} else {})
  {
    CallsThree(s, p, k, PublishTmp(true), RemoveTrash(Gone), Finish);
  }

  /** Undisturbed, those calls leave the new package at the cache path with the carried
      count, and nothing else behind: what `ConvertAtomic` does to its cache. */
  lemma ConversionIsARun(s: State, p: nat, k: nat, n: nat, m: nat, converts: bool, validates: bool, writable: bool)
    requires PcOf(s, p).Idle? && Convert(n) !in s.fs && Stale(m) !in s.fs
    ensures var pkg, own := Complete(converts && validates), if !converts && writable then Some(1) else None;
      var s1 := Calls(s, p, k, [Start(n), Write(pkg, own), Validate]);
      var s2 := Calls(s1, p, k, [ReadCount, WriteCount(writable), Check]);
      var s3 := if Final(k) in s.fs then Calls(s2, p, k, [Mint(m), Rmdir, Vacate(true)]) else s2;
      var s4 := Calls(s3, p, k, [PublishTmp(true), RemoveTrash(Gone), Finish]);
      var before: Cache := if Final(k) in s.fs then Some(s.fs[Final(k)]) else None;
      var after := Converted(before, Builds(converts, validates), writable);
      PcOf(s4, p) == Idle && s4.fs == s.fs[Final(k) := after.value.(build := Some(s.builds))]
  {
    hide Calls, Publish.Step;
    var pkg, own := Complete(converts && validates), if !converts && writable then Some(1) else None;
    SoloConvert(s, p, k, n, pkg, own);
    var s1 := Calls(s, p, k, [Start(n), Write(pkg, own), Validate]);
    SoloCarry(s1, p, k, n, writable);
    var s2 := Calls(s1, p, k, [ReadCount, WriteCount(writable), Check]);
    if Final(k) in s.fs {
      SoloVacate(s2, p, k, n, m);
      SoloPublish(Calls(s2, p, k, [Mint(m), Rmdir, Vacate(true)]), p, k, n, Some(m));
    } else {
      SoloPublish(s2, p, k, n, None);
    }
  }
}
