/** Publishing a converted model into a cache directory that any number of processes share.

    Workers interleave at the granularity of one file-system call: each converts into a
    private directory, validates it, moves an existing cache aside, renames its own into
    place, and cleans up; any of them may raise or die at any point. Both backends keep
    their cache under the same parent, so a worker has a kind. Renaming a directory follows
    rename() in POSIX.1-2017: it succeeds onto a free name or an empty directory only. */
module Publish {
  import opened Basics

  datatype Path = Final(kind: nat) | Convert(n: nat) | Stale(m: nat)

  datatype Package = NoPackage | Broken | Complete(fast: bool)

  /** A directory: the package in it, the attempt marker if there is one, and which
      conversion wrote it (`None` for what was there at the start). */
  datatype Dir = Dir(pkg: Package, marker: Option<int>, build: Option<nat>) {
    predicate Empty() {
      pkg.NoPackage? && marker.None?
    }
  }

  type Files = map<Path, Dir>

  /** Where a worker is: `n` is its private directory while it still has one, `trash` the
      name the old cache was moved to. */
  datatype Pc =
    | Idle
    | Converting(n: nat)
    | Validated(n: nat)
    | Carrying(n: nat, count: int)
    | Deciding(n: nat)
    | Minting(n: nat)
    | Minted(n: nat, m: nat)
    | Vacating(n: nat, m: nat)
    | Publishing(n: nat, trash: Option<nat>)
    | LostRace(n: nat, trash: Option<nat>)
    | CleaningTmp(n: nat, trash: Option<nat>)
    | CleaningTrash(trash: Option<nat>)
    | Sweeping(trash: Option<nat>)
    | Removing(stray: nat, trash: Option<nat>)
    | Noting(count: int)

  datatype State = State(fs: Files, pcs: map<nat, Pc>, builds: nat, validated: set<nat>, staleNames: set<nat>)

  /** How far a recursive delete got: everything, all but what it names, or nowhere. */
  datatype Removal = Gone | Torn(pkg: Package, marker: Option<int>) | GivenUp

  /** `io`: the file system does not fail the rename for reasons of its own. */
  datatype Act =
    | Start(n: nat)
    | Write(pkg: Package, marker: Option<int>)
    | Validate
    | ReadCount
    | WriteCount(ok: bool)
    | Check
    | Mint(m: nat)
    | Rmdir
    | Vacate(io: bool)
    | PublishTmp(io: bool)
    | LoadWinner
    | RemoveTmp(how: Removal)
    | RemoveTrash(how: Removal)
    | PickStray(m: nat)
    | RemoveStray(how: Removal)
    | Finish
    | ReadNote
    | WriteNote(ok: bool)
    | Raise
    | Crash

  function PcOf(s: State, p: nat): Pc {
    if p in s.pcs then s.pcs[p] else Idle
  }

  /** `fast_attempts`: an absent or unreadable marker counts as 0. */
  function Count(fs: Files, d: Path): int {
    if d in fs && fs[d].marker.Some? then fs[d].marker.value else 0
  }

  predicate CanRename(fs: Files, from: Path, to: Path) {
    from in fs && from != to && (to !in fs || fs[to].Empty())
  }

  function Rename(fs: Files, from: Path, to: Path): Files
    requires CanRename(fs, from, to)
  {
    (fs - {from})[to := fs[from]]
  }

  function Removed(fs: Files, d: Path, how: Removal): Files {
    match how
    case Gone => fs - {d}
    case Torn(pkg, marker) => if d in fs then fs[d := fs[d].(pkg := pkg, marker := marker)] else fs
    case GivenUp => fs
  }

  function Move(s: State, p: nat, pc: Pc): State {
    s.(pcs := s.pcs[p := pc])
  }

  /** One call of worker `p` of kind `k`; a call its program counter does not allow changes
      nothing. */
  function Step(s: State, p: nat, k: nat, a: Act): State {
    match (PcOf(s, p), a)
    case (_, Crash) => Move(s, p, Idle)
    case (Idle, Start(n)) =>
      if Convert(n) in s.fs then s
      else Move(s, p, Converting(n)).(fs := s.fs[Convert(n) := Dir(NoPackage, None, Some(s.builds))], builds := s.builds + 1)
    case (Converting(n), Write(pkg, marker)) =>
      if Convert(n) !in s.fs then s else s.(fs := s.fs[Convert(n) := s.fs[Convert(n)].(pkg := pkg, marker := marker)])
    case (Converting(n), Validate) =>
      if Convert(n) in s.fs && s.fs[Convert(n)].pkg.Complete? && s.fs[Convert(n)].build.Some?
      then Move(s, p, Validated(n)).(validated := s.validated + {s.fs[Convert(n)].build.value})
      else s
    case (Validated(n), ReadCount) => Move(s, p, Carrying(n, Count(s.fs, Final(k)) + Count(s.fs, Convert(n))))
    case (Carrying(n, c), WriteCount(ok)) =>
      if ok && c > 0 && Convert(n) in s.fs
      then Move(s, p, Deciding(n)).(fs := s.fs[Convert(n) := s.fs[Convert(n)].(marker := Some(c))])
      else Move(s, p, Deciding(n))
    case (Deciding(n), Check) => Move(s, p, if Final(k) in s.fs then Minting(n) else Publishing(n, None))
    case (Minting(n), Mint(m)) =>
      if Stale(m) in s.fs then s
      else Move(s, p, Minted(n, m)).(fs := s.fs[Stale(m) := Dir(NoPackage, None, None)], staleNames := s.staleNames + {m})
    case (Minted(n, m), Rmdir) =>
      if Stale(m) in s.fs && s.fs[Stale(m)].Empty()
      then Move(s, p, Vacating(n, m)).(fs := s.fs - {Stale(m)})
      else Move(s, p, CleaningTmp(n, Some(m)))
    case (Vacating(n, m), Vacate(io)) =>
      if io && CanRename(s.fs, Final(k), Stale(m))
      then Move(s, p, Publishing(n, Some(m))).(fs := Rename(s.fs, Final(k), Stale(m)))
      else Move(s, p, Publishing(n, None))
    case (Publishing(n, t), PublishTmp(io)) =>
      if io && CanRename(s.fs, Convert(n), Final(k))
      then Move(s, p, CleaningTrash(t)).(fs := Rename(s.fs, Convert(n), Final(k)))
      else Move(s, p, LostRace(n, t))
    case (LostRace(n, t), LoadWinner) => Move(s, p, CleaningTmp(n, t))
    case (CleaningTmp(n, t), RemoveTmp(how)) => Move(s, p, CleaningTrash(t)).(fs := Removed(s.fs, Convert(n), how))
    case (CleaningTrash(t), RemoveTrash(how)) =>
      Move(s, p, Sweeping(t)).(fs := if t.Some? then Removed(s.fs, Stale(t.value), how) else s.fs)
    case (Sweeping(t), PickStray(m)) =>
      if Stale(m) in s.fs && !s.fs[Stale(m)].Empty() && t != Some(m) then Move(s, p, Removing(m, t)) else s
    case (Removing(m, t), RemoveStray(how)) => Move(s, p, Sweeping(t)).(fs := Removed(s.fs, Stale(m), how))
    case (Sweeping(t), Finish) => Move(s, p, Idle)
    case (Idle, ReadNote) => Move(s, p, Noting(Count(s.fs, Final(k)) + 1))
    case (Noting(c), WriteNote(ok)) =>
      if ok && Final(k) in s.fs
      then Move(s, p, Idle).(fs := s.fs[Final(k) := s.fs[Final(k)].(marker := Some(c))])
      else Move(s, p, Idle)
    case (Minted(n, m), Raise) => Move(s, p, CleaningTmp(n, Some(m)))
    case (Converting(n), Raise) => Move(s, p, CleaningTmp(n, None))
    case (Validated(n), Raise) => Move(s, p, CleaningTmp(n, None))
    case (Carrying(n, _), Raise) => Move(s, p, CleaningTmp(n, None))
    case (Deciding(n), Raise) => Move(s, p, CleaningTmp(n, None))
    case (Minting(n), Raise) => Move(s, p, CleaningTmp(n, None))
    case _ => s
  }

  datatype Event = Event(worker: nat, act: Act)

  function Run(s: State, kind: nat -> nat, events: seq<Event>): State
    decreases |events|
  {
    if events == [] then s else Run(Step(s, events[0].worker, kind(events[0].worker), events[0].act), kind, events[1..])
  }

  function Begin(fs: Files): State {
    State(fs, map[], 0, {}, set d | d in fs && d.Stale? :: d.m)
  }

  // ---- safety ---------------------------------------------------------------------------

  /** The private directory a worker still has to publish or remove. */
  function Tmp(pc: Pc): Option<nat> {
    match pc
    case Converting(n) => Some(n)
    case Validated(n) => Some(n)
    case Carrying(n, _) => Some(n)
    case Deciding(n) => Some(n)
    case Minting(n) => Some(n)
    case Minted(n, _) => Some(n)
    case Vacating(n, _) => Some(n)
    case Publishing(n, _) => Some(n)
    case LostRace(n, _) => Some(n)
    case CleaningTmp(n, _) => Some(n)
    case _ => None
  }

  ghost predicate Owns(s: State, p: nat, n: nat) {
    Tmp(PcOf(s, p)) == Some(n)
  }

  /** A package some worker loaded successfully before anybody could see it. */
  ghost predicate Good(s: State, d: Dir) {
    d.pkg.Complete? && d.build.Some? && d.build.value in s.validated
  }

  predicate Vouched(pc: Pc) {
    Tmp(pc).Some? && !pc.Converting? && !pc.CleaningTmp?
  }

  ghost predicate FinalSafe(init: Files, s: State, k: nat) {
    Final(k) in s.fs ==>
      || Good(s, s.fs[Final(k)])
      || (Final(k) in init && s.fs[Final(k)].pkg == init[Final(k)].pkg)
  }

  ghost predicate Safe(init: Files, s: State) {
    && (forall p, n :: Owns(s, p, n) ==> Convert(n) in s.fs && s.fs[Convert(n)].build.Some?)
    && (forall p, q, n :: Owns(s, p, n) && Owns(s, q, n) ==> p == q)
    && (forall p, n :: Owns(s, p, n) && Vouched(PcOf(s, p)) ==> Good(s, s.fs[Convert(n)]))
    && (forall k :: FinalSafe(init, s, k))
  }

  /** What a call may touch: its own private directory, its kind's cache, or a vacated one. */
  lemma StepTouches(init: Files, s: State, p: nat, k: nat, a: Act, n: nat)
    requires Safe(init, s)
    requires !Owns(s, p, n) && a != Start(n)
    ensures var s' := Step(s, p, k, a);
      (Convert(n) in s'.fs <==> Convert(n) in s.fs) && (Convert(n) in s.fs ==> s'.fs[Convert(n)] == s.fs[Convert(n)])
  {
  }

  /** No process deletes, moves or rewrites the conversion directory of another one that is
      still running. */
  lemma OthersKeepTheirConversion(init: Files, s: State, p: nat, q: nat, k: nat, a: Act, n: nat)
    requires Safe(init, s) && p != q && Owns(s, q, n)
    ensures var s' := Step(s, p, k, a);
      Owns(s', q, n) && Convert(n) in s'.fs && s'.fs[Convert(n)] == s.fs[Convert(n)]
  {
    if a == Start(n) {
      assert Convert(n) in s.fs;
    } else {
      StepTouches(init, s, p, k, a, n);
    }
  }

  /** What the acting worker's own directory looks like after its call. */
  lemma StepKeepsOwn(init: Files, s: State, p: nat, k: nat, a: Act, n: nat)
    requires Safe(init, s)
    ensures var s' := Step(s, p, k, a);
      Owns(s', p, n) ==>
        && Convert(n) in s'.fs && s'.fs[Convert(n)].build.Some?
        && (Vouched(PcOf(s', p)) ==> Good(s', s'.fs[Convert(n)]))
        && (Owns(s, p, n) || Convert(n) !in s.fs)
  {
    assert Tmp(PcOf(s, p)).Some? ==> Owns(s, p, Tmp(PcOf(s, p)).value);
  }

  lemma StepKeepsFinal(init: Files, s: State, p: nat, k: nat, a: Act, k': nat)
    requires Safe(init, s)
    ensures FinalSafe(init, Step(s, p, k, a), k')
  {
    assert Tmp(PcOf(s, p)).Some? ==> Owns(s, p, Tmp(PcOf(s, p)).value);
    assert FinalSafe(init, s, k') && FinalSafe(init, s, k);
  }

  lemma StepSafe(init: Files, s: State, p: nat, k: nat, a: Act)
    requires Safe(init, s)
    ensures Safe(init, Step(s, p, k, a))
  {
    hide Step;
    var s' := Step(s, p, k, a);
    StepGrows(s, p, k, a);
    forall q, n | Owns(s', q, n)
      ensures Convert(n) in s'.fs && s'.fs[Convert(n)].build.Some? && (Vouched(PcOf(s', q)) ==> Good(s', s'.fs[Convert(n)]))
    {
      if q == p {
        StepKeepsOwn(init, s, p, k, a, n);
      } else {
        assert Owns(s, q, n);
        OthersKeepTheirConversion(init, s, p, q, k, a, n);
      }
    }
    forall q, r, n | Owns(s', q, n) && Owns(s', r, n) ensures q == r {
      StepKeepsOwn(init, s, p, k, a, n);
      if q != p { assert Owns(s, q, n); }
      if r != p { assert Owns(s, r, n); }
    }
    forall k' ensures FinalSafe(init, s', k') {
      StepKeepsFinal(init, s, p, k, a, k');
    }
  }

  lemma StepGrows(s: State, p: nat, k: nat, a: Act)
    ensures var s' := Step(s, p, k, a);
      s.validated <= s'.validated && forall q :: q != p ==> PcOf(s', q) == PcOf(s, q)
  {
  }

  /** Main theorem: in every interleaving, with crashes anywhere, the cache path is absent,
      still holds the package it held at the start, or holds a complete package that was
      validated before it was published. */
  lemma {:induction false} RunSafe(init: Files, s: State, kind: nat -> nat, events: seq<Event>)
    requires Safe(init, s)
    ensures Safe(init, Run(s, kind, events))
    decreases |events|
  {
    hide Step, Safe;
    if events != [] {
      var e := events[0];
      StepSafe(init, s, e.worker, kind(e.worker), e.act);
      RunSafe(init, Step(s, e.worker, kind(e.worker), e.act), kind, events[1..]);
    }
  }

  lemma CacheNeverPartial(init: Files, kind: nat -> nat, events: seq<Event>, k: nat)
    ensures var s := Run(Begin(init), kind, events);
      Final(k) in s.fs ==>
        || Good(s, s.fs[Final(k)])
        || (Final(k) in init && s.fs[Final(k)].pkg == init[Final(k)].pkg)
  {
    RunSafe(init, Begin(init), kind, events);
    assert FinalSafe(init, Run(Begin(init), kind, events), k);
  }

  /** Once the initial package has been moved away or replaced it never comes back. */
  ghost predicate Replaced(s: State, k: nat) {
    Final(k) in s.fs ==> Good(s, s.fs[Final(k)])
  }

  lemma StepReplaced(init: Files, s: State, p: nat, k: nat, a: Act, k': nat)
    requires Safe(init, s) && Replaced(s, k')
    ensures Replaced(Step(s, p, k, a), k')
  {
    assert Tmp(PcOf(s, p)).Some? ==> Owns(s, p, Tmp(PcOf(s, p)).value);
  }

  lemma {:induction false} NeverRestored(init: Files, s: State, kind: nat -> nat, events: seq<Event>, k: nat)
    requires Safe(init, s) && Replaced(s, k)
    ensures Replaced(Run(s, kind, events), k)
    decreases |events|
  {
    hide Step, Safe, Replaced;
    if events != [] {
      var e := events[0];
      StepReplaced(init, s, e.worker, kind(e.worker), e.act, k);
      StepSafe(init, s, e.worker, kind(e.worker), e.act);
      NeverRestored(init, Step(s, e.worker, kind(e.worker), e.act), kind, events[1..], k);
    }
  }

  // ---- the vacate target ----------------------------------------------------------------

  /** Every `.stale-` name worker `p` still has in hand. */
  predicate Mentions(pc: Pc, m: nat) {
    match pc
    case Minted(_, x) => x == m
    case Vacating(_, x) => x == m
    case Publishing(_, t) => t == Some(m)
    case LostRace(_, t) => t == Some(m)
    case CleaningTmp(_, t) => t == Some(m)
    case CleaningTrash(t) => t == Some(m)
    case Sweeping(t) => t == Some(m)
    case Removing(x, t) => x == m || t == Some(m)
    case _ => false
  }

  /** The name a worker minted and has not moved anything to yet. */
  predicate Reserves(pc: Pc, m: nat) {
    (pc.Minted? || pc.Vacating?) && pc.m == m
  }

  ghost predicate Reserved(s: State, p: nat, m: nat) {
    && (if PcOf(s, p).Minted? then Stale(m) in s.fs && s.fs[Stale(m)].Empty() else Stale(m) !in s.fs)
    && forall q :: q != p ==> !Mentions(PcOf(s, q), m)
  }

  ghost predicate VacateSafe(s: State) {
    && (forall m :: Stale(m) in s.fs ==> m in s.staleNames)
    && (forall p, m :: Mentions(PcOf(s, p), m) ==> m in s.staleNames)
    && (forall p, m :: Reserves(PcOf(s, p), m) ==> Reserved(s, p, m))
  }

  /** `mkdtemp` never hands out a name it handed out before. */
  predicate FreshMint(s: State, a: Act) {
    a.Mint? ==> a.m !in s.staleNames
  }

  lemma StepStaleNames(s: State, p: nat, k: nat, a: Act, m: nat)
    requires VacateSafe(s)
    ensures var s' := Step(s, p, k, a);
      && s.staleNames <= s'.staleNames
      && (Stale(m) in s'.fs ==> m in s'.staleNames)
      && (Mentions(PcOf(s', p), m) ==> m in s'.staleNames)
      && (Mentions(PcOf(s', p), m) ==>
            Mentions(PcOf(s, p), m) || a == Mint(m) || (a == PickStray(m) && Stale(m) in s.fs && !s.fs[Stale(m)].Empty()))
      && (!Mentions(PcOf(s, p), m) && a != Mint(m) ==>
            (Stale(m) in s'.fs <==> Stale(m) in s.fs) && (Stale(m) in s.fs ==> s'.fs[Stale(m)] == s.fs[Stale(m)]))
  {
    assert Mentions(PcOf(s, p), m) ==> m in s.staleNames;
  }

  lemma StepReserves(s: State, p: nat, k: nat, a: Act, m: nat)
    requires VacateSafe(s) && FreshMint(s, a)
    ensures var s' := Step(s, p, k, a);
      Reserves(PcOf(s', p), m) ==>
        && (if PcOf(s', p).Minted? then Stale(m) in s'.fs && s'.fs[Stale(m)].Empty() else Stale(m) !in s'.fs)
        && (Reserves(PcOf(s, p), m) || m !in s.staleNames)
  {
    assert Reserves(PcOf(s, p), m) ==> Reserved(s, p, m);
  }

  lemma StepVacateSafe(s: State, p: nat, k: nat, a: Act)
    requires VacateSafe(s) && FreshMint(s, a)
    ensures VacateSafe(Step(s, p, k, a))
  {
    hide Step;
    var s' := Step(s, p, k, a);
    StepGrows(s, p, k, a);
    forall m ensures Stale(m) in s'.fs ==> m in s'.staleNames {
      StepStaleNames(s, p, k, a, m);
    }
    forall q, m | Mentions(PcOf(s', q), m) ensures m in s'.staleNames {
      StepStaleNames(s, p, k, a, m);
      assert q != p ==> Mentions(PcOf(s, q), m);
    }
    forall q, m | Reserves(PcOf(s', q), m) ensures Reserved(s', q, m) {
      StepStaleNames(s, p, k, a, m);
      if q == p {
        StepReserves(s, p, k, a, m);
      } else {
        assert Reserves(PcOf(s, q), m) && Reserved(s, q, m);
        assert Mentions(PcOf(s, q), m);
      }
    }
  }

  ghost predicate FreshRun(s: State, kind: nat -> nat, events: seq<Event>)
    decreases |events|
  {
    events == [] ||
    (FreshMint(s, events[0].act) &&
     FreshRun(Step(s, events[0].worker, kind(events[0].worker), events[0].act), kind, events[1..]))
  }

  lemma {:induction false} RunVacateSafe(s: State, kind: nat -> nat, events: seq<Event>)
    requires VacateSafe(s) && FreshRun(s, kind, events)
    ensures VacateSafe(Run(s, kind, events))
    decreases |events|
  {
    if events != [] {
      var e := events[0];
      StepVacateSafe(s, e.worker, kind(e.worker), e.act);
      RunVacateSafe(Step(s, e.worker, kind(e.worker), e.act), kind, events[1..]);
    }
  }

  /** Sweeping only non-empty strays protects the vacate: as long as minted names are never
      handed out twice, the empty directory a worker has just minted is still there and
      still empty when it removes it, and the freed name is still free when it moves the
      cache there, so the vacate fails only if somebody else already took the cache away. */
  lemma VacateOnlyLosesToAnotherVacate(init: Files, kind: nat -> nat, events: seq<Event>, p: nat)
    requires FreshRun(Begin(init), kind, events)
    ensures var s := Run(Begin(init), kind, events);
      match PcOf(s, p)
      case Minted(n, m) => PcOf(Step(s, p, kind(p), Rmdir), p) == Vacating(n, m)
      case Vacating(n, m) => CanRename(s.fs, Final(kind(p)), Stale(m)) <==> Final(kind(p)) in s.fs
      case _ => true
  {
    assert VacateSafe(Begin(init));
    RunVacateSafe(Begin(init), kind, events);
    var s := Run(Begin(init), kind, events);
    match PcOf(s, p) {
      case Minted(n, m) => assert Reserves(PcOf(s, p), m) && Reserved(s, p, m);
      case Vacating(n, m) => assert Reserves(PcOf(s, p), m) && Reserved(s, p, m);
      case _ =>
    }
  }

  // ---- availability ---------------------------------------------------------------------

  /** The cache is there, or somebody is about to put one there. */
  ghost predicate Available(s: State, kind: nat -> nat, k: nat) {
    Final(k) in s.fs || exists p :: PcOf(s, p).Publishing? && kind(p) == k
  }

  /** Death, or a rename the file system fails, in the window between vacating the cache and
      renaming the new one into place. */
  predicate BreaksOffPublishing(s: State, e: Event) {
    PcOf(s, e.worker).Publishing? && (e.act.Crash? || e.act == PublishTmp(false))
  }

  ghost predicate NobodyBreaksOff(s: State, kind: nat -> nat, events: seq<Event>)
    decreases |events|
  {
    events == [] ||
    (!BreaksOffPublishing(s, events[0]) &&
     NobodyBreaksOff(Step(s, events[0].worker, kind(events[0].worker), events[0].act), kind, events[1..]))
  }

  lemma StepFinalGone(init: Files, s: State, p: nat, k: nat, a: Act, k': nat)
    requires Safe(init, s) && !BreaksOffPublishing(s, Event(p, a))
    ensures var s' := Step(s, p, k, a);
      && (Final(k') in s.fs && Final(k') !in s'.fs ==> k == k' && PcOf(s', p).Publishing?)
      && (PcOf(s, p).Publishing? && !PcOf(s', p).Publishing? ==> Final(k) in s'.fs)
  {
    assert Tmp(PcOf(s, p)).Some? ==> Owns(s, p, Tmp(PcOf(s, p)).value);
  }

  lemma StepAvailable(init: Files, s: State, kind: nat -> nat, e: Event, k: nat)
    requires Safe(init, s) && Available(s, kind, k) && !BreaksOffPublishing(s, e)
    ensures Available(Step(s, e.worker, kind(e.worker), e.act), kind, k)
  {
    hide Step;
    var p := e.worker;
    var s' := Step(s, p, kind(p), e.act);
    StepFinalGone(init, s, p, kind(p), e.act, k);
    StepGrows(s, p, kind(p), e.act);
    if Final(k) !in s.fs {
      var q :| PcOf(s, q).Publishing? && kind(q) == k;
      assert q != p ==> PcOf(s', q) == PcOf(s, q);
    }
  }

  lemma {:induction false} RunAvailable(init: Files, s: State, kind: nat -> nat, events: seq<Event>, k: nat)
    requires Safe(init, s) && Available(s, kind, k) && NobodyBreaksOff(s, kind, events)
    ensures Available(Run(s, kind, events), kind, k)
    decreases |events|
  {
    if events != [] {
      var e := events[0];
      StepAvailable(init, s, kind, e, k);
      StepSafe(init, s, e.worker, kind(e.worker), e.act);
      RunAvailable(init, Step(s, e.worker, kind(e.worker), e.act), kind, events[1..], k);
    }
  }

  /** However conversions raced, raised, swept or lost: a cache that was there is there again
      when no worker is in the middle of publishing, unless one died, or had its rename failed
      by the file system, in that window. */
  lemma RacesNeverLoseTheCache(init: Files, kind: nat -> nat, events: seq<Event>, k: nat)
    requires Final(k) in init && NobodyBreaksOff(Begin(init), kind, events)
    requires forall p :: !PcOf(Run(Begin(init), kind, events), p).Publishing?
    ensures Final(k) in Run(Begin(init), kind, events).fs
  {
    RunAvailable(init, Begin(init), kind, events, k);
  }

  // ---- cleaning up ------------------------------------------------------------------------

  /** A worker whose conversion raised, anywhere before it touched the cache, removes its own
      directory and leaves everything else as it was. */
  lemma RaisedLeavesNothing(s: State, p: nat, k: nat, n: nat)
    requires PcOf(s, p) in {Converting(n), Validated(n), Deciding(n), Minting(n)} || (PcOf(s, p).Carrying? && PcOf(s, p).n == n)
    ensures var s1 := Step(s, p, k, Raise);
      var s2 := Step(s1, p, k, RemoveTmp(Gone));
      var s3 := Step(s2, p, k, RemoveTrash(Gone));
      var s4 := Step(s3, p, k, Finish);
      PcOf(s4, p) == Idle && s4.fs == s.fs - {Convert(n)}
  {
    Raises(s, p, k, n);
    hide Step;
    CleansUp(Step(s, p, k, Raise), p, k, n, None);
  }

  lemma Raises(s: State, p: nat, k: nat, n: nat)
    requires PcOf(s, p) in {Converting(n), Validated(n), Deciding(n), Minting(n)} || (PcOf(s, p).Carrying? && PcOf(s, p).n == n)
    ensures var s1 := Step(s, p, k, Raise); PcOf(s1, p) == CleaningTmp(n, None) && s1.fs == s.fs
  {
  }

  /** A worker that finds somebody else's package at the cache path keeps it, and removes its
      own and the old cache it had moved aside. */
  lemma LoserKeepsWinner(s: State, p: nat, k: nat, n: nat, t: Option<nat>)
    requires PcOf(s, p) == Publishing(n, t) && Final(k) in s.fs && !s.fs[Final(k)].Empty()
    ensures var s1 := Step(s, p, k, PublishTmp(true));
      var s2 := Step(s1, p, k, LoadWinner);
      var s3 := Step(s2, p, k, RemoveTmp(Gone));
      var s4 := Step(s3, p, k, RemoveTrash(Gone));
      var s5 := Step(s4, p, k, Finish);
      && PcOf(s5, p) == Idle
      && s5.fs == s.fs - {Convert(n)} - (if t.Some? then {Stale(t.value)} else {})
      && Final(k) in s5.fs && s5.fs[Final(k)] == s.fs[Final(k)]
  {
    LosesRename(s, p, k, n, t);
    hide Step;
    CleansUp(Step(Step(s, p, k, PublishTmp(true)), p, k, LoadWinner), p, k, n, t);
  }

  lemma LosesRename(s: State, p: nat, k: nat, n: nat, t: Option<nat>)
    requires PcOf(s, p) == Publishing(n, t) && Final(k) in s.fs && !s.fs[Final(k)].Empty()
    ensures var s2 := Step(Step(s, p, k, PublishTmp(true)), p, k, LoadWinner); PcOf(s2, p) == CleaningTmp(n, t) && s2.fs == s.fs
  {
  }

  lemma CleansUp(s: State, p: nat, k: nat, n: nat, t: Option<nat>)
    requires PcOf(s, p) == CleaningTmp(n, t)
    ensures var s1 := Step(s, p, k, RemoveTmp(Gone));
      var s2 := Step(s1, p, k, RemoveTrash(Gone));
      var s3 := Step(s2, p, k, Finish);
      PcOf(s3, p) == Idle && s3.fs == s.fs - {Convert(n)} - (if t.Some? then {Stale(t.value)} else {})
  {
  }

  /** A leaked directory with something in it is swept; an empty one, which may be somebody's
      fresh vacate target, is not, and nothing else is. */
  lemma SweepTakesLeaksOnly(s: State, p: nat, k: nat, m: nat, t: Option<nat>)
    requires PcOf(s, p) == Sweeping(t) && t != Some(m)
    ensures var s1 := Step(s, p, k, PickStray(m));
      var s2 := Step(s1, p, k, RemoveStray(Gone));
      if Stale(m) in s.fs && !s.fs[Stale(m)].Empty()
      then PcOf(s2, p) == Sweeping(t) && s2.fs == s.fs - {Stale(m)}
      else s2 == s
  {
  }

  /** Noting an attempt adds one to what the cache's marker says, and touches no package. */
  lemma NoteAddsOne(s: State, p: nat, k: nat)
    requires PcOf(s, p) == Idle && Final(k) in s.fs
    ensures var s1 := Step(s, p, k, ReadNote);
      var s2 := Step(s1, p, k, WriteNote(true));
      && PcOf(s2, p) == Idle
      && s2.fs == s.fs[Final(k) := s.fs[Final(k)].(marker := Some(Count(s.fs, Final(k)) + 1))]
  {
  }
}
