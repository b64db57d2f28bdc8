/** What the write authority of a destructive restore excludes, over every run of the
    protocol (`src/cli/backup.rs`, `require_exclusive_restore_access` and
    `with_exclusive_restore_access`). */
module RestoreAuthority {
  import opened Base
  import opened RestoreProtocol

  predicate HasAuthority(s: State, p: Pid) {
    s.PhaseOf(p).Restoring? && s.PhaseOf(p).r.stage == Authorised
  }

  /** In every state of every run, whatever the other processes are: a restore with
      authority holds the lock of each database it listed, twice with the same
      result, and no other process holds any of them; no writer is inside either
      namespace and no other restore has closed one. */
  lemma AuthorityExcludes(s: State, p: Pid)
    requires Reachable(s) && HasAuthority(s, p)
    ensures var r := s.PhaseOf(p).r;
      && r.leased == r.targets == r.observed
      && (forall db :: db in r.leased ==> db.dir in r.Dirs() && db in s.locks && s.locks[db] == p)
      && (forall q: Pid, db: Db :: q != p && db in r.leased ==> !s.PhaseOf(q).Leases(db))
      && (forall q: Pid, dir: Dir :: q != p && dir in r.Dirs() ==>
            !s.PhaseOf(q).Claims(dir) && !s.PhaseOf(q).Closes(dir))
  {
    ReachableKeepsInv(s);
    var r := s.PhaseOf(p).r;
    assert RestoreHolds(r);
    forall q: Pid, db: Db | q != p && db in r.leased
      ensures !s.PhaseOf(q).Leases(db)
    {
      assert s.PhaseOf(p).Leases(db);
      assert db in s.locks && s.locks[db] == p;
    }
    forall q: Pid, dir: Dir | q != p && dir in r.Dirs()
      ensures !s.PhaseOf(q).Claims(dir) && !s.PhaseOf(q).Closes(dir)
    {
      assert s.PhaseOf(p).Closes(dir);
      assert dir in s.exclusive && (q, dir) !in s.shared;
    }
  }

  /** In every state of every run, each database lease of a restore sits inside a
      namespace the restore holds, also while it unwinds after a failure. A writer's
      lease sits inside its claim until the writer starts to drop it. */
  lemma LeasesAreNested(s: State, p: Pid, db: Db)
    requires Reachable(s) && db in s.locks && s.locks[db] == p
    ensures s.PhaseOf(p).Restoring? ==> db.dir in s.exclusive && s.exclusive[db.dir] == p
    ensures s.PhaseOf(p).Holding? ==> (p, db.dir) in s.shared
    ensures s.PhaseOf(p).Restoring? || s.PhaseOf(p).Holding? || s.PhaseOf(p).Dropping? || s.PhaseOf(p).UnscopedHolding?
  {
    ReachableKeepsInv(s);
    assert s.PhaseOf(p).Leases(db);
    if s.PhaseOf(p).Restoring? {
      assert RestoreHolds(s.PhaseOf(p).r);
      assert s.PhaseOf(p).Closes(db.dir);
    } else if s.PhaseOf(p).Holding? {
      assert s.PhaseOf(p).Claims(db.dir);
    }
  }

  // ----- What authority keeps still -------------------------------------------

  /** Once a restore has closed its namespaces and until it unwinds. */
  predicate HasClosed(s: State, p: Pid) {
    s.PhaseOf(p).Restoring? && s.PhaseOf(p).r.stage !in {Closing, Unwinding}
  }

  /** Whoever else acts is neither inside the namespace nor without a claim there. */
  lemma OthersStayOut(s: State, p: Pid, q: Pid, dir: Dir)
    requires Inv(s) && HasClosed(s, p) && q != p
    requires dir in s.PhaseOf(p).r.Dirs()
    ensures !s.PhaseOf(q).Claims(dir) && !s.PhaseOf(q).Closes(dir)
    ensures s.env.IsShielded(dir) && s.PhaseOf(q).IsUnscoped() ==> s.PhaseOf(q).db.dir != dir
  {
    assert RestoreHolds(s.PhaseOf(p).r);
    assert s.PhaseOf(p).Closes(dir);
    assert dir in s.exclusive && (q, dir) !in s.shared;
  }

  /** A process changes only directories it has claimed or closed, or may write to
      without a claim. */
  lemma OtherDirectoriesUntouched(s: State, step: Step, db: Db)
    requires Inv(s) && Next(s, step).Some?
    requires !s.PhaseOf(step.actor).Claims(db.dir) && !s.PhaseOf(step.actor).Closes(db.dir)
    requires s.env.IsShielded(db.dir)
    ensures db in Next(s, step).value.files <==> db in s.files
  {
    var phase := s.PhaseOf(step.actor);
    assert !s.env.MaySkip(step.actor, db.dir);
    if phase.Restoring? && step.action.Destroy? {
      assert RestoreHolds(phase.r);
      var outside := set other | other in step.action.files && other.dir !in phase.r.Dirs();
      assert db in outside <==> db in step.action.files;
      assert db in s.files - s.In(phase.r.Dirs()) <==> db in s.files;
    }
  }

  lemma OthersKeepTheirPhase(s: State, step: Step, p: Pid)
    requires Next(s, step).Some? && step.actor != p
    ensures Next(s, step).value.PhaseOf(p) == s.PhaseOf(p)
  {}

  lemma EnvStays(s: State, step: Step)
    requires Next(s, step).Some?
    ensures Next(s, step).value.env == s.env
  {}

  /** No step of another process adds or removes a database in a shielded directory
      that a restore has closed. */
  lemma ClosedDirectoriesStandStill(s: State, p: Pid, step: Step, dir: Dir)
    requires Inv(s) && HasClosed(s, p) && Next(s, step).Some? && step.actor != p
    requires dir in s.PhaseOf(p).r.Dirs() && s.env.IsShielded(dir)
    ensures Next(s, step).value.In({dir}) == s.In({dir})
    ensures Next(s, step).value.PhaseOf(p) == s.PhaseOf(p)
  {
    var s' := Next(s, step).value;
    OthersKeepTheirPhase(s, step, p);
    OthersStayOut(s, p, step.actor, dir);
    forall db
      ensures db in s'.In({dir}) <==> db in s.In({dir})
    {
      if db.dir == dir {
        OtherDirectoriesUntouched(s, step, db);
      }
    }
  }

  // ----- Listings stay current ------------------------------------------------

  function Of(dbs: set<Db>, dir: Dir): set<Db> {
    set db | db in dbs && db.dir == dir
  }

  /** The restore has listed `dir` and not yet changed it. */
  predicate HasListed(r: Restore, dir: Dir) {
    || (r.stage == ListingAside && dir == r.live)
    || (r.stage in {Leasing, RelistingAside} && dir in r.Dirs())
    || (r.stage == Authorised && !r.mutated && dir in r.Dirs())
  }

  /** What a restore has listed of a shielded directory is what is there. */
  ghost predicate ListingIsCurrent(s: State, r: Restore) {
    forall dir :: s.env.IsShielded(dir) && HasListed(r, dir) ==> Of(r.targets, dir) == s.In({dir})
  }

  ghost predicate ListingsAreCurrent(s: State) {
    forall p: Pid :: s.PhaseOf(p).Restoring? ==> ListingIsCurrent(s, s.PhaseOf(p).r)
  }

  lemma OwnLeaseKeepsListing(s: State, p: Pid, a: Action, dir: Dir)
    requires Inv(s) && ListingsAreCurrent(s) && RestoreStep(s, p, a).Some? && s.PhaseOf(p).Restoring? && a.Lease?
    requires s.env.IsShielded(dir) && HasListed(s.PhaseOf(p).r, dir)
    ensures RestoreStep(s, p, a).value.In({dir}) == s.In({dir})
  {
    assert ListingIsCurrent(s, s.PhaseOf(p).r);
    if a.lease.dir == dir {
      assert a.lease in Of(s.PhaseOf(p).r.targets, dir);
    }
  }

  lemma OwnListStepListsAll(s: State, p: Pid, dir: Dir)
    requires Inv(s) && ListingsAreCurrent(s) && RestoreStep(s, p, List).Some?
    requires s.env.IsShielded(dir) && HasListed(RestoreStep(s, p, List).value.PhaseOf(p).r, dir)
    ensures Of(RestoreStep(s, p, List).value.PhaseOf(p).r.targets, dir) == s.In({dir})
  {
    var r, r' := s.PhaseOf(p).r, RestoreStep(s, p, List).value.PhaseOf(p).r;
    assert ListingIsCurrent(s, r);
    if r.stage == ListingAside {
      assert Of(r'.targets, dir) == Of(r.targets, dir) + Of(s.In({r.aside}), dir);
      assert Of(s.In({r.aside}), dir) == if dir == r.aside then s.In({dir}) else {};
      assert RestoreHolds(r);
      assert dir != r.live ==> Of(r.targets, dir) == {};
    }
  }

  /** The acting restore keeps its own listing current. */
  lemma OwnListingStaysCurrent(s: State, p: Pid, a: Action)
    requires Inv(s) && ListingsAreCurrent(s) && RestoreStep(s, p, a).Some?
    ensures var s' := RestoreStep(s, p, a).value;
      s'.PhaseOf(p).Restoring? ==> ListingIsCurrent(s', s'.PhaseOf(p).r)
  {
    var s' := RestoreStep(s, p, a).value;
    if s.PhaseOf(p).Restoring? && s'.PhaseOf(p).Restoring? {
      var r, r' := s.PhaseOf(p).r, s'.PhaseOf(p).r;
      forall dir | s'.env.IsShielded(dir) && HasListed(r', dir)
        ensures Of(r'.targets, dir) == s'.In({dir})
      {
        assert ListingIsCurrent(s, r);
        if a.Lease? {
          OwnLeaseKeepsListing(s, p, a, dir);
        } else if a.List? {
          OwnListStepListsAll(s, p, dir);
        }
      }
    }
  }

  lemma OtherListingsStayCurrent(s: State, step: Step, q: Pid)
    requires Inv(s) && ListingsAreCurrent(s) && Next(s, step).Some?
    requires q != step.actor && s.PhaseOf(q).Restoring?
    ensures ListingIsCurrent(Next(s, step).value, s.PhaseOf(q).r)
  {
    var s', r := Next(s, step).value, s.PhaseOf(q).r;
    assert ListingIsCurrent(s, r);
    EnvStays(s, step);
    forall dir | s'.env.IsShielded(dir) && HasListed(r, dir)
      ensures Of(r.targets, dir) == s'.In({dir})
    {
      ClosedDirectoriesStandStill(s, q, step, dir);
    }
  }

  lemma NextKeepsListings(s: State, step: Step)
    requires Inv(s) && ListingsAreCurrent(s) && Next(s, step).Some?
    ensures ListingsAreCurrent(Next(s, step).value)
  {
    var s' := Next(s, step).value;
    forall q: Pid | s'.PhaseOf(q).Restoring?
      ensures ListingIsCurrent(s', s'.PhaseOf(q).r)
    {
      if q != step.actor {
        OthersKeepTheirPhase(s, step, q);
        OtherListingsStayCurrent(s, step, q);
      } else {
        OwnListingStaysCurrent(s, q, step.action);
      }
    }
  }

  lemma {:induction false} ExecuteKeepsListings(s: State, steps: seq<Step>)
    requires Inv(s) && ListingsAreCurrent(s) && Execute(s, steps).Some?
    ensures ListingsAreCurrent(Execute(s, steps).value) && Execute(s, steps).value.env == s.env
    decreases |steps|
  {
    if steps != [] {
      NextKeepsInv(s, steps[0]);
      NextKeepsListings(s, steps[0]);
      EnvStays(s, steps[0]);
      ExecuteKeepsListings(Next(s, steps[0]).value, steps[1..]);
    }
  }

  lemma ReachableKeepsListings(s: State)
    requires Reachable(s)
    ensures ListingsAreCurrent(s)
  {
    var start: State, steps: seq<Step> :| IsRun(start, steps, s);
    ExecuteKeepsListings(start, steps);
  }

  /** In every run: a restore that has gained authority over shielded directories and
      not yet used it leases exactly the databases that exist. */
  lemma LeasedIsActual(s: State, p: Pid)
    requires Reachable(s) && HasAuthority(s, p) && !s.PhaseOf(p).r.mutated
    requires forall dir :: dir in s.PhaseOf(p).r.Dirs() ==> s.env.IsShielded(dir)
    ensures s.PhaseOf(p).r.leased == s.In(s.PhaseOf(p).r.Dirs())
  {
    var r := s.PhaseOf(p).r;
    ReachableKeepsInv(s);
    ReachableKeepsListings(s);
    assert RestoreHolds(r) && ListingIsCurrent(s, r);
    forall db
      ensures db in r.leased <==> db in s.In(r.Dirs())
    {
      if db.dir in r.Dirs() {
        assert Of(r.targets, db.dir) == s.In({db.dir});
        assert db in r.leased <==> db in Of(r.targets, db.dir);
      }
    }
  }

  /** No old release is about, and a parent directory that refuses one process's files
      refuses everybody's. */
  ghost predicate IsUpgraded(env: Env) {
    env.legacy == {} && forall p: Pid, q: Pid, dir: Dir :: (p, dir) in env.denied <==> (q, dir) in env.denied
  }

  /** Then a directory that a restore has closed is shielded: whoever might skip the
      claim there, the restore would have been refused. */
  lemma ClosedIsShielded(s: State, p: Pid, dir: Dir)
    requires Inv(s) && IsUpgraded(s.env) && s.PhaseOf(p).Closes(dir)
    ensures s.env.IsShielded(dir)
  {
    assert dir in s.exclusive && s.exclusive[dir] == p;
    assert !s.env.IsBlocked(p, dir);
  }

  /** So among upgraded processes of one kind authority is exact, whatever the
      directories. */
  lemma UpgradedAuthorityIsExact(s: State, p: Pid)
    requires Reachable(s) && IsUpgraded(s.env) && HasAuthority(s, p) && !s.PhaseOf(p).r.mutated
    ensures s.PhaseOf(p).r.leased == s.In(s.PhaseOf(p).r.Dirs())
  {
    ReachableKeepsInv(s);
    var r := s.PhaseOf(p).r;
    assert RestoreHolds(r);
    forall dir | dir in r.Dirs()
      ensures s.env.IsShielded(dir)
    {
      ClosedIsShielded(s, p, dir);
    }
    LeasedIsActual(s, p);
  }

  /** In every run no other process has a lease on a database that exists in a shielded
      directory of an authority. A lease it may still have is the remains of one being
      dropped, on a file already removed. */
  lemma OtherLeasesAreRemains(s: State, p: Pid, q: Pid, db: Db)
    requires Reachable(s) && HasAuthority(s, p) && q != p
    requires db.dir in s.PhaseOf(p).r.Dirs() && s.env.IsShielded(db.dir) && s.PhaseOf(q).Leases(db)
    ensures s.PhaseOf(q).Dropping?
    ensures !s.PhaseOf(p).r.mutated ==> db !in s.files
  {
    ReachableKeepsInv(s);
    ReachableKeepsListings(s);
    OthersStayOut(s, p, q, db.dir);
    AuthorityExcludes(s, p);
    LeasesAreNested(s, q, db);
    var r := s.PhaseOf(p).r;
    assert RestoreHolds(r) && ListingIsCurrent(s, r);
    if !r.mutated {
      assert Of(r.targets, db.dir) == s.In({db.dir});
      assert db in s.files <==> db in Of(r.targets, db.dir);
    }
  }

  /** While authority lasts, its shielded directories change by the restore's own hand
      only: over any stretch of a run in which the restore does not act, its leases
      and the databases there are the same at both ends. */
  lemma {:induction false} AuthorityLasts(s: State, steps: seq<Step>, p: Pid, dir: Dir)
    requires Inv(s) && HasAuthority(s, p) && Execute(s, steps).Some?
    requires forall step :: step in steps ==> step.actor != p
    requires dir in s.PhaseOf(p).r.Dirs() && s.env.IsShielded(dir)
    ensures Execute(s, steps).value.PhaseOf(p) == s.PhaseOf(p)
    ensures Execute(s, steps).value.In({dir}) == s.In({dir})
    decreases |steps|
  {
    if steps != [] {
      ClosedDirectoriesStandStill(s, p, steps[0], dir);
      NextKeepsInv(s, steps[0]);
      EnvStays(s, steps[0]);
      AuthorityLasts(Next(s, steps[0]).value, steps[1..], p, dir);
    }
  }

  // ----- When authority is alone ----------------------------------------------

  /** A writer that created a database loses the race for its lock, and removes the file
      by its path although another process holds the lock. */
  predicate LosesRace(s: State, step: Step, dir: Dir) {
    var phase := s.PhaseOf(step.actor);
    step.action.Lock? && phase.Opened? && phase.created && phase.db.dir == dir && phase.db in s.locks
  }

  predicate NoLostRace(s: State, steps: seq<Step>, dir: Dir)
    decreases |steps|
  {
    steps == [] ||
    (!LosesRace(s, steps[0], dir) &&
     (Next(s, steps[0]).Some? ==> NoLostRace(Next(s, steps[0]).value, steps[1..], dir)))
  }

  /** What writers have open is on disk. */
  ghost predicate OpenIsOnDisk(s: State, dir: Dir) {
    forall q: Pid ::
      var phase := s.PhaseOf(q);
      (phase.Opened? || phase.Holding? || phase.Dropping?) && phase.db.dir == dir ==> phase.db in s.files
  }

  /** No process but `p` has a lease in `dir`. */
  ghost predicate IsAlone(s: State, p: Pid, dir: Dir) {
    forall q: Pid, db: Db :: q != p && db.dir == dir ==> !s.PhaseOf(q).Leases(db)
  }

  ghost predicate AuthoritiesAreAlone(s: State, dir: Dir) {
    forall p: Pid :: HasAuthority(s, p) && dir in s.PhaseOf(p).r.Dirs() ==> IsAlone(s, p, dir)
  }

  ghost predicate SoleInv(s: State, dir: Dir) {
    s.env.IsShielded(dir) && OpenIsOnDisk(s, dir) && AuthoritiesAreAlone(s, dir)
  }

  /** Where a writer has a database open, no restore has authority. */
  lemma OpenExcludesAuthority(s: State, p: Pid, q: Pid)
    requires p != q
    requires var phase := s.PhaseOf(q);
      (phase.Opened? || phase.Holding? || phase.Dropping?) && Inv(s) && SoleInv(s, phase.db.dir)
    ensures !(HasAuthority(s, p) && s.PhaseOf(q).db.dir in s.PhaseOf(p).r.Dirs())
  {
    var db := s.PhaseOf(q).db;
    assert s.PhaseOf(q).Claims(db.dir) || s.PhaseOf(q).Leases(db);
    AuthorityStaysOut(s, p, q, db.dir);
    assert HasAuthority(s, p) && db.dir in s.PhaseOf(p).r.Dirs() ==> IsAlone(s, p, db.dir);
  }

  lemma AuthorityStaysOut(s: State, p: Pid, q: Pid, dir: Dir)
    requires Inv(s) && q != p
    ensures HasAuthority(s, p) && dir in s.PhaseOf(p).r.Dirs() ==> !s.PhaseOf(q).Claims(dir)
  {
    if HasAuthority(s, p) && dir in s.PhaseOf(p).r.Dirs() {
      OthersStayOut(s, p, q, dir);
    }
  }

  /** Only the directory's own restore, and a lost race, remove a file from it. */
  lemma FilesStay(s: State, step: Step, q: Pid)
    requires Next(s, step).Some? && q != step.actor
    requires var phase := s.PhaseOf(q);
      (phase.Opened? || phase.Holding? || phase.Dropping?) && Inv(s) && SoleInv(s, phase.db.dir)
      && !LosesRace(s, step, phase.db.dir)
    ensures s.PhaseOf(q).db in Next(s, step).value.files
  {
    var p, db := step.actor, s.PhaseOf(q).db;
    assert db in s.files && !s.env.MaySkip(p, db.dir);
    OpenExcludesAuthority(s, p, q);
    if HasAuthority(s, p) {
      assert db in s.files - s.In(s.PhaseOf(p).r.Dirs());
    }
  }

  lemma NextKeepsOpenOnDisk(s: State, step: Step, dir: Dir)
    requires Inv(s) && ListingsAreCurrent(s) && SoleInv(s, dir) && Next(s, step).Some? && !LosesRace(s, step, dir)
    ensures OpenIsOnDisk(Next(s, step).value, dir)
  {
    var s' := Next(s, step).value;
    forall q: Pid | (s'.PhaseOf(q).Opened? || s'.PhaseOf(q).Holding? || s'.PhaseOf(q).Dropping?)
                    && s'.PhaseOf(q).db.dir == dir
      ensures s'.PhaseOf(q).db in s'.files
    {
      if q != step.actor {
        OthersKeepTheirPhase(s, step, q);
        FilesStay(s, step, q);
      } else {
        OwnFileStays(s, step);
      }
    }
  }

  /** A writer that moves on without losing the race keeps its file. */
  lemma OwnFileStays(s: State, step: Step)
    requires Next(s, step).Some?
    requires var phase := Next(s, step).value.PhaseOf(step.actor);
      && (phase.Opened? || phase.Holding? || phase.Dropping?)
      && OpenIsOnDisk(s, phase.db.dir) && !LosesRace(s, step, phase.db.dir)
    ensures Next(s, step).value.PhaseOf(step.actor).db in Next(s, step).value.files
  {}

  lemma LeasesAreOneEach(s: State, p: Pid, q: Pid, db: Db)
    requires TablesMatch(s) && p != q
    ensures !(s.PhaseOf(p).Leases(db) && s.PhaseOf(q).Leases(db))
  {
    assert s.PhaseOf(p).Leases(db) ==> db in s.locks && s.locks[db] == p;
  }

  /** When the second listing agrees with the first, nobody else has a lease. */
  lemma AuthorityStartsAlone(s: State, p: Pid, dir: Dir)
    requires Inv(s) && ListingsAreCurrent(s) && SoleInv(s, dir)
    requires s.PhaseOf(p).Restoring? && s.PhaseOf(p).r.stage == RelistingAside
    requires dir in s.PhaseOf(p).r.Dirs()
    ensures IsAlone(s, p, dir)
  {
    var r := s.PhaseOf(p).r;
    assert RestoreHolds(r) && ListingIsCurrent(s, r) && Of(r.targets, dir) == s.In({dir});
    forall q: Pid, db: Db | q != p && db.dir == dir
      ensures !s.PhaseOf(q).Leases(db)
    {
      OthersStayOut(s, p, q, dir);
      LeasesAreOneEach(s, p, q, db);
      assert s.PhaseOf(q).Restoring? ==> RestoreHolds(s.PhaseOf(q).r);
      assert db in s.files ==> db in Of(r.targets, dir) && s.PhaseOf(p).Leases(db);
    }
  }

  /** A process outside the namespace gains no lease there. */
  lemma NoLeaseIsGained(s: State, step: Step, db: Db)
    requires Inv(s) && Next(s, step).Some? && s.env.IsShielded(db.dir)
    requires !s.PhaseOf(step.actor).Claims(db.dir) && !s.PhaseOf(step.actor).Closes(db.dir)
    requires !s.PhaseOf(step.actor).Leases(db)
    ensures !Next(s, step).value.PhaseOf(step.actor).Leases(db)
  {
    assert !s.env.MaySkip(step.actor, db.dir);
    if WriterStep(s, step.actor, step.action).None? && RestoreStep(s, step.actor, step.action).Some? {
      RestoreGainsNoLease(s, step.actor, step.action, db);
    }
  }

  lemma RestoreGainsNoLease(s: State, p: Pid, a: Action, db: Db)
    requires RestoreStep(s, p, a).Some? && !s.PhaseOf(p).Closes(db.dir) && !s.PhaseOf(p).Leases(db)
    ensures !RestoreStep(s, p, a).value.PhaseOf(p).Leases(db)
  {}

  /** Authority is gained by the second listing, or was there before. */
  lemma AuthorityComesFrom(s: State, step: Step)
    requires Next(s, step).Some? && HasAuthority(Next(s, step).value, step.actor)
    ensures s.PhaseOf(step.actor).Restoring? && s.PhaseOf(step.actor).r.stage in {RelistingAside, Authorised}
    ensures s.PhaseOf(step.actor).r.Dirs() == Next(s, step).value.PhaseOf(step.actor).r.Dirs()
  {}

  /** Whoever has authority after a step was alone before it. */
  lemma WasAlone(s: State, step: Step, dir: Dir, p: Pid)
    requires Inv(s) && ListingsAreCurrent(s) && SoleInv(s, dir) && Next(s, step).Some?
    requires HasAuthority(Next(s, step).value, p) && dir in Next(s, step).value.PhaseOf(p).r.Dirs()
    ensures IsAlone(s, p, dir)
  {
    if p != step.actor {
      OthersKeepTheirPhase(s, step, p);
    } else {
      AuthorityComesFrom(s, step);
      if s.PhaseOf(p).r.stage == RelistingAside {
        AuthorityStartsAlone(s, p, dir);
      }
    }
  }

  lemma NextKeepsAlone(s: State, step: Step, dir: Dir, p: Pid)
    requires Inv(s) && ListingsAreCurrent(s) && SoleInv(s, dir) && Next(s, step).Some?
    requires HasAuthority(Next(s, step).value, p) && dir in Next(s, step).value.PhaseOf(p).r.Dirs()
    ensures IsAlone(Next(s, step).value, p, dir)
  {
    var s' := Next(s, step).value;
    WasAlone(s, step, dir, p);
    if p != step.actor {
      OthersKeepTheirPhase(s, step, p);
      OthersStayOut(s, p, step.actor, dir);
    }
    forall q: Pid, db: Db | q != p && db.dir == dir
      ensures !s'.PhaseOf(q).Leases(db)
    {
      if q == step.actor {
        NoLeaseIsGained(s, step, db);
      } else {
        OthersKeepTheirPhase(s, step, q);
      }
    }
  }

  lemma {:induction false} ExecuteKeepsSole(s: State, steps: seq<Step>, dir: Dir)
    requires Inv(s) && ListingsAreCurrent(s) && SoleInv(s, dir) && Execute(s, steps).Some? && NoLostRace(s, steps, dir)
    ensures SoleInv(Execute(s, steps).value, dir)
    decreases |steps|
  {
    if steps != [] {
      var s' := Next(s, steps[0]).value;
      NextKeepsInv(s, steps[0]);
      NextKeepsListings(s, steps[0]);
      NextKeepsOpenOnDisk(s, steps[0], dir);
      EnvStays(s, steps[0]);
      forall p: Pid | HasAuthority(s', p) && dir in s'.PhaseOf(p).r.Dirs()
        ensures IsAlone(s', p, dir)
      {
        NextKeepsAlone(s, steps[0], dir, p);
      }
      ExecuteKeepsSole(s', steps[1..], dir);
    }
  }

  /** In every run in which no creator loses the race for its own file there, a restore
      with authority is the only lease holder in a shielded directory, before and
      after it destroys, until it drops its authority. */
  lemma AuthorityIsAlone(start: State, steps: seq<Step>, s: State, p: Pid, dir: Dir)
    requires IsRun(start, steps, s) && NoLostRace(start, steps, dir)
    requires HasAuthority(s, p) && dir in s.PhaseOf(p).r.Dirs() && s.env.IsShielded(dir)
    ensures IsAlone(s, p, dir)
  {
    ExecuteKeepsListings(start, steps);
    ExecuteKeepsSole(start, steps, dir);
  }

  // ----- Runs that exist ------------------------------------------------------

  lemma {:induction false} ExecuteOneMore(s: State, steps: seq<Step>, step: Step)
    requires Execute(s, steps).Some?
    ensures Execute(s, steps + [step]) == Next(Execute(s, steps).value, step)
    decreases |steps|
  {
    if steps == [] {
      assert (steps + [step])[1..] == [];
    } else {
      ExecuteOneMore(Next(s, steps[0]).value, steps[1..], step);
      assert (steps + [step])[1..] == steps[1..] + [step];
    }
  }

  lemma StepOn(s: State, step: Step) returns (s': State)
    requires Reachable(s) && Next(s, step).Some?
    ensures Next(s, step) == Some(s') && Reachable(s')
  {
    var start: State, steps: seq<Step> :| IsRun(start, steps, s);
    ExecuteOneMore(start, steps, step);
    s' := Next(s, step).value;
    assert IsRun(start, steps + [step], s');
  }

  lemma RestoreOn(s: State, p: Pid, a: Action) returns (s': State)
    requires Reachable(s) && RestoreStep(s, p, a).Some?
    ensures RestoreStep(s, p, a) == Some(s') && Reachable(s')
  {
    s' := StepOn(s, Step(p, a));
  }

  lemma WriterOn(s: State, p: Pid, a: Action) returns (s': State)
    requires Reachable(s) && WriterStep(s, p, a).Some?
    ensures WriterStep(s, p, a) == Some(s') && Reachable(s')
  {
    s' := StepOn(s, Step(p, a));
  }

  lemma UnscopedOn(s: State, p: Pid, a: Action) returns (s': State)
    requires Reachable(s) && UnscopedStep(s, p, a).Some?
    ensures UnscopedStep(s, p, a) == Some(s') && Reachable(s')
  {
    s' := StepOn(s, Step(p, a));
  }

  lemma InitialIsReachable(s: State)
    requires Initial(s)
    ensures Reachable(s)
  {
    assert IsRun(s, [], s);
  }

  // ----- When a lock is granted -----------------------------------------------

  /** A writer enters a namespace unless its lock file is out of reach or a restore has
      closed it. */
  lemma EnterIff(s: State, p: Pid, db: Db)
    requires Reachable(s) && s.PhaseOf(p).Idle?
    ensures WriterStep(s, p, Enter(db)).Some? <==>
      !s.env.IsBlocked(p, db.dir) && forall q: Pid :: !s.PhaseOf(q).Closes(db.dir)
  {
    ReachableKeepsInv(s);
    if db.dir in s.exclusive {
      assert s.PhaseOf(s.exclusive[db.dir]).Closes(db.dir);
    }
  }

  /** A restore closes its live directory and then its sibling, each unless its lock file
      is out of reach, a writer is inside or a restore has closed it. */
  lemma CloseIff(s: State, p: Pid, dir: Dir)
    requires Reachable(s) && s.PhaseOf(p).Restoring? && s.PhaseOf(p).r.stage == Closing
    ensures RestoreStep(s, p, Close(dir)).Some? <==>
      && dir == (if s.PhaseOf(p).Closes(s.PhaseOf(p).r.live) then s.PhaseOf(p).r.aside else s.PhaseOf(p).r.live)
      && !s.env.IsBlocked(p, dir)
      && forall q: Pid :: !s.PhaseOf(q).Closes(dir) && !s.PhaseOf(q).Claims(dir)
  {
    ReachableKeepsInv(s);
    assert RestoreHolds(s.PhaseOf(p).r);
    if dir in s.exclusive {
      assert s.PhaseOf(s.exclusive[dir]).Closes(dir);
    }
    if IsShared(s, dir) {
      var claim :| claim in s.shared && claim.1 == dir;
      assert (claim.0, dir) in s.shared && s.PhaseOf(claim.0).Claims(dir);
    } else {
      forall q: Pid
        ensures !s.PhaseOf(q).Claims(dir)
      {
        assert (q, dir) !in s.shared;
      }
    }
  }

  /** A restore leases a database it listed, in a directory it closed, unless somebody has
      the lease. */
  lemma LeaseIff(s: State, p: Pid, db: Db)
    requires Reachable(s) && s.PhaseOf(p).Restoring? && s.PhaseOf(p).r.stage == Leasing
    ensures RestoreStep(s, p, Lease(db)).Some? <==>
      && db in s.PhaseOf(p).r.targets && db.dir in s.PhaseOf(p).r.closed
      && forall q: Pid :: !s.PhaseOf(q).Leases(db)
  {
    ReachableKeepsInv(s);
    if db in s.locks {
      assert s.PhaseOf(s.locks[db]).Leases(db);
    }
  }

  /** Authority is over the two directories: whatever is to become of them, and nothing
      else. */
  lemma DestroyIff(s: State, p: Pid, files: set<Db>)
    requires s.PhaseOf(p).Restoring?
    ensures RestoreStep(s, p, Destroy(files)).Some? <==>
      HasAuthority(s, p) && forall db: Db :: db.dir !in s.PhaseOf(p).r.Dirs() ==> (db in files <==> db in s.files)
    ensures RestoreStep(s, p, Destroy(files)).Some? ==> RestoreStep(s, p, Destroy(files)).value.files == files
  {
    var r := s.PhaseOf(p).r;
    var outside := set db | db in files && db.dir !in r.Dirs();
    var kept := s.files - s.In(r.Dirs());
    assert forall db :: db in outside <==> db in files && db.dir !in r.Dirs();
    assert forall db :: db in kept <==> db in s.files && db.dir !in r.Dirs();
    if forall db: Db :: db.dir !in r.Dirs() ==> (db in files <==> db in s.files) {
      assert outside == kept;
    }
  }

  /** A writer gets the lease of the database it has open unless somebody has it; and it
      removes the file when it did not get it and had created it, and only then. */
  lemma LockIff(s: State, p: Pid)
    requires Reachable(s) && (s.PhaseOf(p).Opened? || s.PhaseOf(p).UnscopedOpened?)
    ensures var db, next := s.PhaseOf(p).db, Next(s, Step(p, Lock));
      && next.Some?
      && (next.value.PhaseOf(p).Leases(db) <==> forall q: Pid :: !s.PhaseOf(q).Leases(db))
      && next.value.files ==
           if s.PhaseOf(p).created && !next.value.PhaseOf(p).Leases(db) then s.files - {db} else s.files
  {
    ReachableKeepsInv(s);
    var db := s.PhaseOf(p).db;
    LockedIff(s, db);
    if db !in s.locks {
      var step := Step(p, Lock);
      assert Next(s, step).value.PhaseOf(p).Leases(db);
    }
  }

  lemma LockedIff(s: State, db: Db)
    requires TablesMatch(s)
    ensures db in s.locks <==> exists q: Pid :: s.PhaseOf(q).Leases(db)
  {
    if db in s.locks {
      assert s.PhaseOf(s.locks[db]).Leases(db);
    }
  }

  /** Nobody may skip the claim on a directory that is no scratch root, is written to by no
      old release, and whose parent refuses nobody's files. */
  lemma ShieldedIff(env: Env, dir: Dir)
    ensures env.IsShielded(dir) <==>
      dir !in env.scratch && dir !in env.legacy && forall p: Pid :: (p, dir) !in env.denied
  {
    assert env.IsShielded(dir) ==> !env.MaySkip(0, dir);
    if dir !in env.scratch && dir !in env.legacy && forall p: Pid :: (p, dir) !in env.denied {
      assert forall p: Pid :: !env.MaySkip(p, dir);
    } else if p: Pid :| (p, dir) in env.denied {
      assert env.MaySkip(p, dir);
    }
  }

  // ----- Everything that is begun can be ended --------------------------------

  /** By `p`'s own steps, short of its exit, the state can come to be `s'`. */
  ghost predicate CanGo(s: State, p: Pid, s': State) {
    exists steps: seq<Step> :: AreOwn(steps, p) && Execute(s, steps) == Some(s')
  }

  predicate AreOwn(steps: seq<Step>, p: Pid) {
    forall i :: 0 <= i < |steps| ==> steps[i].actor == p && !steps[i].action.Exit?
  }

  lemma StaysPut(s: State, p: Pid)
    ensures CanGo(s, p, s)
  {
    assert AreOwn([], p) && Execute(s, []) == Some(s);
  }

  /** One more step of its own at the end. */
  lemma GoesOn(s: State, p: Pid, s1: State, a: Action) returns (s2: State)
    requires CanGo(s, p, s1) && !a.Exit? && Next(s1, Step(p, a)).Some?
    ensures Next(s1, Step(p, a)) == Some(s2) && CanGo(s, p, s2)
  {
    var steps: seq<Step> :| AreOwn(steps, p) && Execute(s, steps) == Some(s1);
    ExecuteOneMore(s, steps, Step(p, a));
    s2 := Next(s1, Step(p, a)).value;
    assert AreOwn(steps + [Step(p, a)], p);
  }

  lemma {:induction false} DropsLeases(s: State, p: Pid, s1: State) returns (s2: State)
    requires CanGo(s, p, s1) && s1.PhaseOf(p).Restoring? && s1.PhaseOf(p).r.stage == Unwinding
    ensures CanGo(s, p, s2) && s2.PhaseOf(p) == Restoring(s1.PhaseOf(p).r.(leased := {})) && s2.files == s1.files
    decreases |s1.PhaseOf(p).r.leased|
  {
    var r := s1.PhaseOf(p).r;
    if r.leased == {} {
      s2 := s1;
    } else {
      var db :| db in r.leased;
      var next := GoesOn(s, p, s1, DropLease(db));
      assert next.PhaseOf(p).r == r.(leased := r.leased - {db}) && next.files == s1.files;
      s2 := DropsLeases(s, p, next);
    }
  }

  lemma {:induction false} DropsNamespaces(s: State, p: Pid, s1: State) returns (s2: State)
    requires CanGo(s, p, s1) && s1.PhaseOf(p).Restoring? && s1.PhaseOf(p).r.stage == Unwinding
    requires s1.PhaseOf(p).r.leased == {}
    ensures CanGo(s, p, s2) && s2.PhaseOf(p) == Restoring(s1.PhaseOf(p).r.(closed := {})) && s2.files == s1.files
    decreases |s1.PhaseOf(p).r.closed|
  {
    var r := s1.PhaseOf(p).r;
    if r.closed == {} {
      s2 := s1;
    } else {
      var dir :| dir in r.closed;
      var next := GoesOn(s, p, s1, DropNamespace(dir));
      assert next.PhaseOf(p).r == r.(closed := r.closed - {dir}) && next.files == s1.files;
      s2 := DropsNamespaces(s, p, next);
    }
  }

  /** A restore can give up at any point, and then leaves no file changed and nothing
      locked. */
  lemma RestoreCanEnd(s: State, p: Pid) returns (s': State)
    requires Reachable(s) && s.PhaseOf(p).Restoring?
    ensures CanGo(s, p, s') && s'.PhaseOf(p).Idle? && s'.files == s.files
  {
    StaysPut(s, p);
    var given := GoesOn(s, p, s, Abandon);
    var dropped := DropsLeases(s, p, given);
    var freed := DropsNamespaces(s, p, dropped);
    s' := GoesOn(s, p, freed, Leave);
  }

  /** So can a writer, at any point. */
  lemma WriterCanEnd(s: State, p: Pid) returns (s': State)
    requires !s.PhaseOf(p).Restoring?
    ensures CanGo(s, p, s') && s'.PhaseOf(p).Idle?
  {
    StaysPut(s, p);
    s' := s;
    if s'.PhaseOf(p).InNamespace? {
      s' := GoesOn(s, p, s', Open);
    }
    if s'.PhaseOf(p).Opened? || s'.PhaseOf(p).UnscopedOpened? {
      s' := GoesOn(s, p, s', Lock);
    }
    s' := WriterLetsGo(s, p, s');
  }

  lemma WriterLetsGo(s: State, p: Pid, s1: State) returns (s': State)
    requires CanGo(s, p, s1)
    requires var phase := s1.PhaseOf(p);
      phase.Failed? || phase.Holding? || phase.Dropping? || phase.UnscopedHolding? || phase.Idle?
    ensures CanGo(s, p, s') && s'.PhaseOf(p).Idle?
  {
    s' := s1;
    if s'.PhaseOf(p).Failed? {
      s' := GoesOn(s, p, s', Leave);
    } else if s'.PhaseOf(p).Holding? {
      s' := GoesOn(s, p, s', CloseNamespaceFile);
    }
    if s'.PhaseOf(p).Dropping? || s'.PhaseOf(p).UnscopedHolding? {
      s' := GoesOn(s, p, s', Unlock);
    }
  }

  /** What a process does alone leaves the others where they are; and when it has ended,
      it holds nothing. */
  lemma {:induction false} OthersStand(s: State, p: Pid, steps: seq<Step>, q: Pid)
    requires AreOwn(steps, p) && Execute(s, steps).Some? && q != p
    ensures Execute(s, steps).value.PhaseOf(q) == s.PhaseOf(q)
    decreases |steps|
  {
    if steps != [] {
      OthersKeepTheirPhase(s, steps[0], q);
      assert AreOwn(steps[1..], p);
      OthersStand(Next(s, steps[0]).value, p, steps[1..], q);
    }
  }

  lemma EndedHoldsNothing(s: State, p: Pid)
    requires Reachable(s) && s.PhaseOf(p).Idle?
    ensures forall dir :: (p, dir) !in s.shared && !(dir in s.exclusive && s.exclusive[dir] == p)
    ensures forall db :: !(db in s.locks && s.locks[db] == p)
  {
    ReachableKeepsInv(s);
    forall dir: Dir
      ensures (p, dir) !in s.shared && !(dir in s.exclusive && s.exclusive[dir] == p)
    {
      assert !s.PhaseOf(p).Claims(dir) && !s.PhaseOf(p).Closes(dir);
    }
    forall db: Db
      ensures !(db in s.locks && s.locks[db] == p)
    {
      assert !s.PhaseOf(p).Leases(db);
    }
  }

  /** From every state of every run each process can come to an end by its own steps, with
      nothing locked and no other process disturbed. A restore that gives up, whatever it
      has got to, changes no file. */
  lemma EveryoneCanEnd(s: State, p: Pid) returns (s': State)
    requires Reachable(s)
    ensures CanGo(s, p, s') && Reachable(s') && s'.PhaseOf(p).Idle?
    ensures s.PhaseOf(p).Restoring? ==> s'.files == s.files
    ensures forall q: Pid :: q != p ==> s'.PhaseOf(q) == s.PhaseOf(q)
    ensures forall db :: !(db in s'.locks && s'.locks[db] == p)
    ensures forall dir :: (p, dir) !in s'.shared && !(dir in s'.exclusive && s'.exclusive[dir] == p)
  {
    if s.PhaseOf(p).Restoring? {
      s' := RestoreCanEnd(s, p);
    } else {
      s' := WriterCanEnd(s, p);
    }
    var steps: seq<Step> :| AreOwn(steps, p) && Execute(s, steps) == Some(s');
    forall q: Pid | q != p
      ensures s'.PhaseOf(q) == s.PhaseOf(q)
    {
      OthersStand(s, p, steps, q);
    }
    RunsOn(s, steps);
    EndedHoldsNothing(s', p);
  }

  lemma RunsOn(s: State, steps: seq<Step>)
    requires Reachable(s) && Execute(s, steps).Some?
    ensures Reachable(Execute(s, steps).value)
  {
    var start: State, before: seq<Step> :| IsRun(start, before, s);
    ExecuteMore(start, before, steps);
    assert IsRun(start, before + steps, Execute(s, steps).value);
  }

  lemma {:induction false} ExecuteMore(s: State, before: seq<Step>, steps: seq<Step>)
    requires Execute(s, before).Some?
    ensures Execute(s, before + steps) == Execute(Execute(s, before).value, steps)
    decreases |before|
  {
    if before == [] {
      assert before + steps == steps;
    } else {
      assert (before + steps)[1..] == before[1..] + steps;
      ExecuteMore(Next(s, before[0]).value, before[1..], steps);
    }
  }

  /** A restore that the namespace lock files of both directories are in reach of. */
  predicate MayRestore(env: Env, p: Pid, live: Dir, aside: Dir) {
    live != aside && !env.IsBlocked(p, live) && !env.IsBlocked(p, aside)
  }

  /** The state when a restore has begun and closed its live directory, or both. */
  function ClosedLive(s: State, p: Pid, live: Dir, aside: Dir): State {
    s.(exclusive := map[live := p])
     .Become(p, Restoring(Restore(live, aside, Closing, {live}, {}, {}, {}, false)))
  }

  function ClosedBoth(s: State, p: Pid, live: Dir, aside: Dir): State {
    s.(exclusive := map[live := p, aside := p])
     .Become(p, Restoring(Restore(live, aside, ListingLive, {live, aside}, {}, {}, {}, false)))
  }

  /** The state when it has listed both. */
  function Listed(s: State, p: Pid): State
    requires s.PhaseOf(p).Restoring?
  {
    var r := s.PhaseOf(p).r;
    s.Become(p, Restoring(r.(targets := s.In(r.Dirs()), stage := Leasing)))
  }

  /** The state when it has gained authority. */
  function Authorise(s: State, p: Pid): State
    requires s.PhaseOf(p).Restoring?
  {
    var r := s.PhaseOf(p).r;
    s.Become(p, Restoring(r.(observed := r.targets, stage := Authorised)))
  }

  lemma BecomeTwice(s: State, p: Pid, first: Phase, second: Phase)
    ensures s.Become(p, first).Become(p, second) == s.Become(p, second)
  {
    assert s.procs[p := first][p := second] == s.procs[p := second];
  }

  predicate IsFree(s: State, p: Pid) {
    s.shared == {} && s.exclusive == map[] && s.PhaseOf(p).Idle?
  }

  lemma ClosesLive(s: State, p: Pid, live: Dir, aside: Dir)
    requires Reachable(s) && IsFree(s, p) && !s.env.IsBlocked(p, live)
    ensures Reachable(ClosedLive(s, p, live, aside))
  {
    var s1 := RestoreOn(s, p, Begin(live, aside));
    var s2 := RestoreOn(s1, p, Close(live));
    assert s2.PhaseOf(p).r.closed == {live};
    BecomeTwice(s.(exclusive := map[live := p]), p, s1.PhaseOf(p), s2.PhaseOf(p));
  }

  /** With no claim on either directory, a restore can close both. */
  lemma ClosesBoth(s: State, p: Pid, live: Dir, aside: Dir)
    requires Reachable(s) && IsFree(s, p) && MayRestore(s.env, p, live, aside)
    ensures Reachable(ClosedBoth(s, p, live, aside))
  {
    ClosesLive(s, p, live, aside);
    var s1 := ClosedLive(s, p, live, aside);
    var s2 := RestoreOn(s1, p, Close(aside));
    assert {live} + {aside} == {live, aside};
    BecomeTwice(s.(exclusive := map[live := p, aside := p]), p, s1.PhaseOf(p), s2.PhaseOf(p));
  }

  lemma InOneOf(s: State, a: Dir, b: Dir)
    ensures s.In({a, b}) == s.In({a}) + s.In({b})
  {}

  lemma ListsBoth(s: State, p: Pid)
    requires Reachable(s) && s.PhaseOf(p).Restoring? && s.PhaseOf(p).r.stage == ListingLive
    ensures Reachable(Listed(s, p))
  {
    var r := s.PhaseOf(p).r;
    var s1 := RestoreOn(s, p, List);
    var s2 := RestoreOn(s1, p, List);
    InOneOf(s, r.live, r.aside);
    BecomeTwice(s, p, s1.PhaseOf(p), s2.PhaseOf(p));
  }

  lemma GainsAuthority(s: State, p: Pid)
    requires Reachable(s) && s.PhaseOf(p).Restoring? && s.PhaseOf(p).r.stage == Leasing
    requires s.PhaseOf(p).r.leased == s.PhaseOf(p).r.targets == s.In(s.PhaseOf(p).r.Dirs())
    ensures Reachable(Authorise(s, p))
  {
    var r := s.PhaseOf(p).r;
    InOneOf(s, r.live, r.aside);
    var s1 := RestoreOn(s, p, List);
    assert s1.PhaseOf(p).r == r.(observed := s.In({r.live}), stage := RelistingAside);
    assert s1.files == s.files && s1.In({r.aside}) == s.In({r.aside});
    var s2 := RestoreOn(s1, p, List);
    assert s2.PhaseOf(p).r == r.(observed := r.targets, stage := Authorised);
    BecomeTwice(s, p, s1.PhaseOf(p), s2.PhaseOf(p));
  }

  /** With nobody holding a lock on them, all targets can be leased. */
  lemma {:induction false} LeasesAll(s: State, p: Pid, left: set<Db>) returns (s': State)
    requires Reachable(s) && s.PhaseOf(p).Restoring? && s.PhaseOf(p).r.stage == Leasing
    requires var r := s.PhaseOf(p).r;
      && r.targets <= s.files && r.leased <= r.targets && left == r.targets - r.leased
      && (forall db :: db in left ==> db.dir in r.closed && db !in s.locks)
    ensures Reachable(s') && s'.env == s.env && s'.files == s.files
    ensures s'.PhaseOf(p) == Restoring(s.PhaseOf(p).r.(leased := s.PhaseOf(p).r.targets))
    decreases |left|
  {
    var r := s.PhaseOf(p).r;
    if left == {} {
      assert r.targets == r.leased + left;
      s' := s;
    } else {
      var db :| db in left;
      var next := RestoreOn(s, p, Lease(db));
      assert next.files == s.files && next.PhaseOf(p).r == r.(leased := r.leased + {db});
      assert r.targets - (r.leased + {db}) == left - {db};
      s' := LeasesAll(next, p, left - {db});
    }
  }

  /** Undisturbed, a restore gains authority over whatever databases exist in its two
      directories, and leases them all. */
  lemma AuthorityIsReachable(env: Env, files: set<Db>, live: Dir, aside: Dir, p: Pid)
    requires MayRestore(env, p, live, aside)
    ensures exists s: State ::
      && Reachable(s) && s.env == env && s.files == files && HasAuthorityOver(s, p, live, aside)
      && s.PhaseOf(p).r.leased == s.In({live, aside})
  {
    var start := Empty(env).(files := files);
    InitialIsReachable(start);
    ClosesBoth(start, p, live, aside);
    var closed := ClosedBoth(start, p, live, aside);
    ListsBoth(closed, p);
    var listed := Listed(closed, p);
    var targets := closed.In({live, aside});
    assert listed.PhaseOf(p).r == Restore(live, aside, Leasing, {live, aside}, targets, {}, {}, false);
    var s := LeasesAll(listed, p, targets - {});
    assert s.In({live, aside}) == targets;
    GainsAuthority(s, p);
    s := Authorise(s, p);
    assert s.In({live, aside}) == targets;
  }

  /** Where there is no database, authority needs no lease. */
  function EmptyAuthority(s: State, p: Pid, live: Dir, aside: Dir): State {
    ClosedBoth(s, p, live, aside)
      .Become(p, Restoring(Restore(live, aside, Authorised, {live, aside}, {}, {}, {}, false)))
  }

  lemma GainsEmptyAuthority(s: State, p: Pid, live: Dir, aside: Dir)
    requires Reachable(s) && IsFree(s, p) && s.files == {} && MayRestore(s.env, p, live, aside)
    ensures Reachable(EmptyAuthority(s, p, live, aside))
  {
    ClosesBoth(s, p, live, aside);
    var s1 := ClosedBoth(s, p, live, aside);
    ListsBoth(s1, p);
    var s2 := Listed(s1, p);
    assert s1.In({live, aside}) == {} && s2.In({live, aside}) == {};
    GainsAuthority(s2, p);
    BecomeTwice(s1, p, s2.PhaseOf(p), Authorise(s2, p).PhaseOf(p));
  }

  // ----- The remains of a lost race -------------------------------------------

  lemma OneOpens(env: Env, db: Db, p: Pid)
    requires !env.IsBlocked(p, db.dir)
    ensures Reachable(Empty(env).(files := {db}, shared := {(p, db.dir)}, procs := map[p := Opened(db, true)]))
  {
    InitialIsReachable(Empty(env));
    var s := WriterOn(Empty(env), p, Enter(db));
    s := WriterOn(s, p, Open);
    assert s == Empty(env).(files := {db}, shared := {(p, db.dir)}, procs := map[p := Opened(db, true)]);
  }

  /** Two writers open the same new database, which the loser of the race created. */
  function Race(env: Env, db: Db, loser: Pid, winner: Pid): State {
    Empty(env).(files := {db}, shared := {(loser, db.dir), (winner, db.dir)},
                procs := map[loser := Opened(db, true), winner := Opened(db, false)])
  }

  lemma BothOpen(env: Env, db: Db, loser: Pid, winner: Pid)
    requires loser != winner && !env.IsBlocked(loser, db.dir) && !env.IsBlocked(winner, db.dir)
    ensures Reachable(Race(env, db, loser, winner))
  {
    OneOpens(env, db, loser);
    var s := Empty(env).(files := {db}, shared := {(loser, db.dir)}, procs := map[loser := Opened(db, true)]);
    s := WriterOn(s, winner, Enter(db));
    s := WriterOn(s, winner, Open);
    assert s == Race(env, db, loser, winner);
  }

  /** The one that did not create it gets the lock. */
  function LostRace(env: Env, db: Db, loser: Pid, winner: Pid): State {
    Empty(env).(shared := {(loser, db.dir), (winner, db.dir)}, locks := map[db := winner],
                procs := map[loser := Failed(db), winner := Holding(db)])
  }

  lemma RaceIsLost(env: Env, db: Db, loser: Pid, winner: Pid)
    requires loser != winner && !env.IsBlocked(loser, db.dir) && !env.IsBlocked(winner, db.dir)
    ensures Reachable(LostRace(env, db, loser, winner))
  {
    BothOpen(env, db, loser, winner);
    var race := Race(env, db, loser, winner);
    var s := WriterOn(race, winner, Lock);
    assert s == race.(locks := map[db := winner], procs := race.procs[winner := Holding(db)]);
    assert s.PhaseOf(loser) == Opened(db, true);
    s := WriterOn(s, loser, Lock);
    assert s.procs == map[loser := Failed(db), winner := Holding(db)] && s.files == {};
  }

  /** The other has removed the file on its way out, and the winner begins to drop. */
  function AfterLostRace(env: Env, db: Db, loser: Pid, winner: Pid): State {
    Empty(env).(locks := map[db := winner], procs := map[loser := Idle, winner := Dropping(db)])
  }

  lemma LostRaceRemovesFile(env: Env, db: Db, loser: Pid, winner: Pid)
    requires loser != winner && !env.IsBlocked(loser, db.dir) && !env.IsBlocked(winner, db.dir)
    ensures Reachable(AfterLostRace(env, db, loser, winner))
  {
    RaceIsLost(env, db, loser, winner);
    var lost := LostRace(env, db, loser, winner);
    var s := WriterOn(lost, loser, Leave);
    assert s == lost.(shared := {(winner, db.dir)}, procs := lost.procs[loser := Idle]);
    assert s.PhaseOf(winner) == Holding(db);
    s := WriterOn(s, winner, CloseNamespaceFile);
    assert s.procs == map[loser := Idle, winner := Dropping(db)] && s.shared == {};
  }

  /** The remains do occur: a restore can gain authority while a writer still holds
      the lock of a database in the live directory. */
  lemma RemainsAreReachable(env: Env, db: Db, aside: Dir, loser: Pid, winner: Pid, p: Pid)
    requires loser != winner && loser != p && winner != p && MayRestore(env, p, db.dir, aside)
    requires !env.IsBlocked(loser, db.dir) && !env.IsBlocked(winner, db.dir)
    ensures exists s: State ::
      && Reachable(s) && s.env == env
      && HasAuthority(s, p) && db.dir in s.PhaseOf(p).r.Dirs() && s.PhaseOf(winner).Leases(db)
  {
    LostRaceRemovesFile(env, db, loser, winner);
    var s := AfterLostRace(env, db, loser, winner);
    GainsEmptyAuthority(s, p, db.dir, aside);
    s := EmptyAuthority(s, p, db.dir, aside);
  }

  // ----- Exactly when authority is exact --------------------------------------

  /** Authority over the two directories, not yet used. */
  predicate HasAuthorityOver(s: State, p: Pid, live: Dir, aside: Dir) {
    HasAuthority(s, p) && !s.PhaseOf(p).r.mutated && s.PhaseOf(p).r.live == live && s.PhaseOf(p).r.aside == aside
  }

  /** In every run, the leases of an authority over these directories are the databases
      that exist there. */
  ghost predicate AuthorityIsExact(env: Env, p: Pid, live: Dir, aside: Dir) {
    forall s: State :: Reachable(s) && s.env == env && HasAuthorityOver(s, p, live, aside) ==>
      s.PhaseOf(p).r.leased == s.In({live, aside})
  }

  /** A creator that may skip the claim adds a database under an authority: a release
      from before the protocol, or a writer that the parent directory refuses files
      while it lets the restore create its own. */
  lemma UnclaimedCreatorSlipsIn(env: Env, p: Pid, q: Pid, live: Dir, aside: Dir, db: Db)
    requires MayRestore(env, p, live, aside) && q != p
    requires db.dir in {live, aside} && env.MaySkip(q, db.dir)
    ensures exists s: State ::
      && Reachable(s) && s.env == env && HasAuthorityOver(s, p, live, aside)
      && db in s.files && s.PhaseOf(p).r.leased == {}
  {
    var s := Empty(env);
    InitialIsReachable(s);
    GainsEmptyAuthority(s, p, live, aside);
    s := EmptyAuthority(s, p, live, aside);
    assert s.PhaseOf(q).Idle? && s.env == env && HasAuthorityOver(s, p, live, aside);
    s := UnscopedOn(s, q, if env.IsBlocked(q, db.dir) then OpenUnscoped(db) else OpenOld(db));
    assert s.procs == EmptyAuthority(Empty(env), p, live, aside).procs[q := UnscopedOpened(db, true)];
  }

  /** Authority is exact in every run if and only if both directories are shielded. */
  lemma AuthorityIsExactIff(env: Env, p: Pid, live: Dir, aside: Dir)
    requires MayRestore(env, p, live, aside)
    ensures AuthorityIsExact(env, p, live, aside) <==> env.IsShielded(live) && env.IsShielded(aside)
  {
    if env.IsShielded(live) && env.IsShielded(aside) {
      forall s: State
        | Reachable(s) && s.env == env && HasAuthorityOver(s, p, live, aside)
        ensures s.PhaseOf(p).r.leased == s.In({live, aside})
      {
        LeasedIsActual(s, p);
      }
    } else {
      var dir := if env.IsShielded(live) then aside else live;
      var q: Pid :| env.MaySkip(q, dir);
      // The restore itself is not blocked, so only an old release can be meant.
      var creator := if q != p then q else p + 1;
      var db := Db(dir, "");
      UnclaimedCreatorSlipsIn(env, p, creator, live, aside, db);
      var s: State :| Reachable(s) && s.env == env && HasAuthorityOver(s, p, live, aside)
        && db in s.files && s.PhaseOf(p).r.leased == {};
      assert db in s.In({live, aside});
    }
  }
}
