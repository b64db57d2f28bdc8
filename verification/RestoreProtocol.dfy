/** The lock protocol between writers and a destructive restore, as a transition
    system over the kernel's locks (`crates/nestweaver-store/src/write_lease.rs`;
    `src/cli/backup.rs`, `require_exclusive_restore_access`).

    Any number of processes take part. A writer claims the namespace of its data
    directory (shared) before it opens or creates the database, and locks the
    database after. Three kinds of writer take no namespace claim: one whose data
    directory is a scratch root, one that may not create files in the directory's
    parent, and one of a release from before the protocol. A restore closes two
    namespaces (exclusive), lists the databases, leases each, lists again, and only
    then destroys. A process may exit at any time, and the kernel then releases
    everything it held. */
module RestoreProtocol {
  import opened Base

  type Pid = nat
  type Dir = string
  datatype Db = Db(dir: Dir, name: string)

  // ----- Processes ------------------------------------------------------------

  datatype Stage = Closing | ListingLive | ListingAside | Leasing | RelistingAside | Authorised | Unwinding

  /** `live` and `aside` are the data directory and its `.restoring` sibling. */
  datatype Restore = Restore(
    live: Dir, aside: Dir, stage: Stage,
    closed: set<Dir>, targets: set<Db>, leased: set<Db>, observed: set<Db>, mutated: bool)
  {
    function Dirs(): set<Dir> {
      {live, aside}
    }
  }

  datatype Phase =
    | Idle
    | InNamespace(db: Db)
    | Opened(db: Db, created: bool)
    | Failed(db: Db)
    | Holding(db: Db)
    | Dropping(db: Db)
    | UnscopedOpened(db: Db, created: bool)
    | UnscopedHolding(db: Db)
    | Restoring(r: Restore)
  {
    /** Holds the shared claim on `dir`. */
    predicate Claims(dir: Dir) {
      (InNamespace? || Opened? || Failed? || Holding?) && db.dir == dir
    }

    predicate Closes(dir: Dir) {
      Restoring? && dir in r.closed
    }

    predicate Leases(other: Db) {
      ((Holding? || Dropping? || UnscopedHolding?) && db == other) || (Restoring? && other in r.leased)
    }

    predicate IsUnscoped() {
      UnscopedOpened? || UnscopedHolding?
    }
  }

  /** What never changes: the scratch roots, the directories in whose parent a process
      may not create files, and the directories that old releases write to. */
  datatype Env = Env(scratch: set<Dir>, denied: iset<(Pid, Dir)>, legacy: set<Dir>)
  {
    /** The namespace lock file of `dir` is out of the process's reach. An ordinary
        writer then goes on without a claim; a restore refuses. */
    predicate IsBlocked(p: Pid, dir: Dir) {
      dir in scratch || (p, dir) in denied
    }

    predicate MaySkip(p: Pid, dir: Dir) {
      IsBlocked(p, dir) || dir in legacy
    }

    /** Every process claims the namespace of `dir` before it opens a database there. */
    ghost predicate IsShielded(dir: Dir) {
      forall p: Pid :: !MaySkip(p, dir)
    }
  }

  /** Files on disk, and the three lock tables of the kernel. */
  datatype State = State(
    env: Env, files: set<Db>, shared: set<(Pid, Dir)>, exclusive: map<Dir, Pid>, locks: map<Db, Pid>,
    procs: map<Pid, Phase>)
  {
    function PhaseOf(p: Pid): Phase {
      if p in procs then procs[p] else Idle
    }

    function In(dirs: set<Dir>): set<Db> {
      set db | db in files && db.dir in dirs
    }

    function Become(p: Pid, phase: Phase): State {
      this.(procs := procs[p := phase])
    }
  }

  function Empty(env: Env): State {
    State(env, {}, {}, map[], map[], map[])
  }

  // ----- Steps ----------------------------------------------------------------

  datatype Action =
    | Enter(db: Db) | Open | Lock | Leave | CloseNamespaceFile | Unlock
    | OpenUnscoped(target: Db) | OpenOld(target: Db)
    | Begin(live: Dir, aside: Dir) | Close(dir: Dir) | List | Lease(lease: Db) | Destroy(files: set<Db>)
    | Abandon | DropLease(dropped: Db) | DropNamespace(dir: Dir)
    | Exit

  function WriterStep(s: State, p: Pid, a: Action): Option<State> {
    match (s.PhaseOf(p), a)
    // LOCK_SH on the namespace file succeeds only while nobody holds it LOCK_EX.
    case (Idle, Enter(db)) =>
      if s.env.IsBlocked(p, db.dir) || db.dir in s.exclusive then None
      else Some(s.(shared := s.shared + {(p, db.dir)}).Become(p, InNamespace(db)))
    case (InNamespace(db), Open) =>
      Some(s.(files := s.files + {db}).Become(p, Opened(db, db !in s.files)))
    // A lost race for the database lock removes the inode this call created.
    case (Opened(db, created), Lock) =>
      if db in s.locks then
        Some(s.(files := if created then s.files - {db} else s.files).Become(p, Failed(db)))
      else
        Some(s.(locks := s.locks[db := p]).Become(p, Holding(db)))
    case (Failed(db), Leave) =>
      Some(s.(shared := s.shared - {(p, db.dir)}).Become(p, Idle))
    // Fields drop in declaration order: the namespace file before the database.
    case (Holding(db), CloseNamespaceFile) =>
      Some(s.(shared := s.shared - {(p, db.dir)}).Become(p, Dropping(db)))
    case (Dropping(db), Unlock) =>
      Some(s.(locks := s.locks - {db}).Become(p, Idle))
    case _ => None
  }

  function UnscopedStep(s: State, p: Pid, a: Action): Option<State> {
    match (s.PhaseOf(p), a)
    case (Idle, OpenUnscoped(db)) =>
      if !s.env.IsBlocked(p, db.dir) then None
      else Some(s.(files := s.files + {db}).Become(p, UnscopedOpened(db, db !in s.files)))
    case (Idle, OpenOld(db)) =>
      if db.dir !in s.env.legacy then None
      else Some(s.(files := s.files + {db}).Become(p, UnscopedOpened(db, db !in s.files)))
    case (UnscopedOpened(db, created), Lock) =>
      if db in s.locks then
        Some(s.(files := if created then s.files - {db} else s.files).Become(p, Idle))
      else
        Some(s.(locks := s.locks[db := p]).Become(p, UnscopedHolding(db)))
    case (UnscopedHolding(db), Unlock) =>
      Some(s.(locks := s.locks - {db}).Become(p, Idle))
    case _ => None
  }

  predicate IsShared(s: State, dir: Dir) {
    exists claim :: claim in s.shared && claim.1 == dir
  }

  /** `Abandon` covers every refusal and error return; once anything is held, it
      leads to `Unwinding`, where leases are dropped before namespaces. */
  function RestoreStep(s: State, p: Pid, a: Action): Option<State> {
    match (s.PhaseOf(p), a)
    case (Idle, Begin(live, aside)) =>
      Some(s.Become(p, Restoring(Restore(live, aside, Closing, {}, {}, {}, {}, false))))
    case (Restoring(r), Close(dir)) =>
      // The live directory first, then its sibling; a directory that is its own
      // sibling is refused by the lock this process already holds.
      if r.stage != Closing || dir != (if r.closed == {} then r.live else r.aside)
         || s.env.IsBlocked(p, dir) || dir in s.exclusive || IsShared(s, dir) then None
      else
        var stage := if r.closed == {} then Closing else ListingLive;
        Some(s.(exclusive := s.exclusive[dir := p])
              .Become(p, Restoring(r.(closed := r.closed + {dir}, stage := stage))))
    case (Restoring(r), List) => (
      match r.stage
      case ListingLive =>
        Some(s.Become(p, Restoring(r.(targets := s.In({r.live}), stage := ListingAside))))
      case ListingAside =>
        Some(s.Become(p, Restoring(r.(targets := r.targets + s.In({r.aside}), stage := Leasing))))
      case Leasing =>
        if r.leased != r.targets then None
        else Some(s.Become(p, Restoring(r.(observed := s.In({r.live}), stage := RelistingAside))))
      case RelistingAside =>
        var observed := r.observed + s.In({r.aside});
        var stage := if observed == r.targets then Authorised else Unwinding;
        Some(s.Become(p, Restoring(r.(observed := observed, stage := stage))))
      case _ => None)
    case (Restoring(r), Lease(db)) =>
      // Acquiring under the namespace may recreate a file that vanished.
      if r.stage != Leasing || db !in r.targets || db.dir !in r.closed || db in s.locks then None
      else Some(s.(locks := s.locks[db := p], files := s.files + {db})
                 .Become(p, Restoring(r.(leased := r.leased + {db}))))
    case (Restoring(r), Destroy(files)) =>
      if r.stage != Authorised || (set db | db in files && db.dir !in r.Dirs()) != s.files - s.In(r.Dirs()) then None
      else Some(s.(files := files).Become(p, Restoring(r.(mutated := true))))
    case (Restoring(r), Abandon) =>
      Some(s.Become(p, Restoring(r.(stage := Unwinding))))
    case (Restoring(r), DropLease(db)) =>
      if r.stage != Unwinding || db !in r.leased then None
      else Some(s.(locks := s.locks - {db}).Become(p, Restoring(r.(leased := r.leased - {db}))))
    case (Restoring(r), DropNamespace(dir)) =>
      if r.stage != Unwinding || r.leased != {} || dir !in r.closed then None
      else Some(s.(exclusive := s.exclusive - {dir}).Become(p, Restoring(r.(closed := r.closed - {dir}))))
    case (Restoring(r), Leave) =>
      if r.stage != Unwinding || r.leased != {} || r.closed != {} then None
      else Some(s.Become(p, Idle))
    case _ => None
  }

  /** The kernel releases what an exiting process held. */
  function ExitStep(s: State, p: Pid): State {
    s.(shared := (set claim | claim in s.shared && claim.0 != p),
       exclusive := (map dir | dir in s.exclusive && s.exclusive[dir] != p :: s.exclusive[dir]),
       locks := (map db | db in s.locks && s.locks[db] != p :: s.locks[db])).Become(p, Idle)
  }

  datatype Step = Step(actor: Pid, action: Action)

  function Next(s: State, step: Step): Option<State> {
    if step.action.Exit? then Some(ExitStep(s, step.actor))
    else if WriterStep(s, step.actor, step.action).Some? then WriterStep(s, step.actor, step.action)
    else if UnscopedStep(s, step.actor, step.action).Some? then UnscopedStep(s, step.actor, step.action)
    else RestoreStep(s, step.actor, step.action)
  }

  // ----- The invariant of every run -------------------------------------------

  /** The lock tables say exactly what the phases of the processes say. */
  ghost predicate TablesMatch(s: State) {
    && (forall p: Pid, dir: Dir :: (p, dir) in s.shared <==> s.PhaseOf(p).Claims(dir))
    && (forall p: Pid, dir: Dir :: (dir in s.exclusive && s.exclusive[dir] == p) <==> s.PhaseOf(p).Closes(dir))
    && (forall p: Pid, db: Db :: (db in s.locks && s.locks[db] == p) <==> s.PhaseOf(p).Leases(db))
  }

  ghost predicate NamespacesExclude(s: State) {
    forall p: Pid, dir: Dir :: dir in s.exclusive ==> (p, dir) !in s.shared
  }

  /** What a restore has by the time it reaches its stage. Its database leases sit
      inside namespaces it holds, also while it unwinds. */
  predicate RestoreHolds(r: Restore) {
    && r.leased <= r.targets
    && (forall db :: db in r.leased ==> db.dir in r.closed)
    && (r.stage == Closing ==> r.closed <= {r.live} && r.leased == {})
    && (r.stage != Closing && r.stage != Unwinding ==> r.closed == r.Dirs())
    && (r.stage in {ListingLive, ListingAside} ==> r.leased == {})
    && (r.stage == ListingAside ==> forall db :: db in r.targets ==> db.dir == r.live)
    && (r.stage in {RelistingAside, Authorised} ==> r.leased == r.targets)
    && (r.stage == Authorised ==> r.observed == r.targets)
    && (r.mutated ==> r.stage in {Authorised, Unwinding})
  }

  ghost predicate Inv(s: State) {
    && TablesMatch(s)
    && NamespacesExclude(s)
    && (forall p: Pid :: s.PhaseOf(p).Restoring? ==> RestoreHolds(s.PhaseOf(p).r))
    && ClaimsAreDue(s)
  }

  /** Only those go without a claim who may, and nobody has closed a directory whose
      lock file is out of reach. */
  ghost predicate ClaimsAreDue(s: State) {
    && (forall p: Pid :: s.PhaseOf(p).IsUnscoped() ==> s.env.MaySkip(p, s.PhaseOf(p).db.dir))
    && (forall dir :: dir in s.exclusive ==> !s.env.IsBlocked(s.exclusive[dir], dir))
  }

  /** A step in which only process `p` changes its phase, and the tables change
      for `p` alone, keeps the tables in agreement with the phases. */
  lemma OnlyActorMoves(s: State, s': State, p: Pid)
    requires TablesMatch(s)
    requires forall q: Pid :: q != p ==> s'.PhaseOf(q) == s.PhaseOf(q)
    requires forall q: Pid, dir: Dir :: q != p ==> ((q, dir) in s'.shared <==> (q, dir) in s.shared)
    requires forall dir: Dir :: (p, dir) in s'.shared <==> s'.PhaseOf(p).Claims(dir)
    requires forall dir: Dir :: dir in s'.exclusive && s'.exclusive[dir] != p ==>
      dir in s.exclusive && s.exclusive[dir] == s'.exclusive[dir]
    requires forall dir: Dir :: dir in s.exclusive && s.exclusive[dir] != p ==>
      dir in s'.exclusive && s'.exclusive[dir] == s.exclusive[dir]
    requires forall dir: Dir :: (dir in s'.exclusive && s'.exclusive[dir] == p) <==> s'.PhaseOf(p).Closes(dir)
    requires forall db: Db :: db in s'.locks && s'.locks[db] != p ==> db in s.locks && s.locks[db] == s'.locks[db]
    requires forall db: Db :: db in s.locks && s.locks[db] != p ==> db in s'.locks && s'.locks[db] == s.locks[db]
    requires forall db: Db :: (db in s'.locks && s'.locks[db] == p) <==> s'.PhaseOf(p).Leases(db)
    ensures TablesMatch(s')
  {
    forall q: Pid, dir: Dir
      ensures (q, dir) in s'.shared <==> s'.PhaseOf(q).Claims(dir)
      ensures (dir in s'.exclusive && s'.exclusive[dir] == q) <==> s'.PhaseOf(q).Closes(dir)
    {
      assert q != p ==> s'.PhaseOf(q) == s.PhaseOf(q);
    }
    forall q: Pid, db: Db
      ensures (db in s'.locks && s'.locks[db] == q) <==> s'.PhaseOf(q).Leases(db)
    {
      assert q != p ==> s'.PhaseOf(q) == s.PhaseOf(q);
    }
  }

  lemma OnlyStageMoves(s: State, s': State, p: Pid)
    requires TablesMatch(s)
    requires s'.shared == s.shared && s'.exclusive == s.exclusive && s'.locks == s.locks
    requires forall q: Pid :: q != p ==> s'.PhaseOf(q) == s.PhaseOf(q)
    requires var phase, phase' := s.PhaseOf(p), s'.PhaseOf(p);
      && (forall dir: Dir :: phase'.Claims(dir) == phase.Claims(dir) && phase'.Closes(dir) == phase.Closes(dir))
      && (forall db: Db :: phase'.Leases(db) == phase.Leases(db))
    ensures TablesMatch(s')
  {
    OnlyActorMoves(s, s', p);
  }

  /** The invariant from its parts. */
  lemma PartsMakeInv(s: State, s': State, p: Pid)
    requires Inv(s) && TablesMatch(s') && NamespacesExclude(s') && ClaimsAreDue(s')
    requires forall q: Pid :: q != p ==> s'.PhaseOf(q) == s.PhaseOf(q)
    requires s'.PhaseOf(p).Restoring? ==> RestoreHolds(s'.PhaseOf(p).r)
    ensures Inv(s')
  {
    assert forall q: Pid :: q != p && s'.PhaseOf(q).Restoring? ==> RestoreHolds(s.PhaseOf(q).r);
  }

  lemma ClaimStepKeepsTables(s: State, p: Pid, a: Action)
    requires TablesMatch(s) && WriterStep(s, p, a).Some? && (a.Enter? || a.Leave? || a.CloseNamespaceFile?)
    ensures TablesMatch(WriterStep(s, p, a).value)
  {
    OnlyActorMoves(s, WriterStep(s, p, a).value, p);
  }

  lemma WriterStepKeepsTables(s: State, p: Pid, a: Action)
    requires TablesMatch(s) && WriterStep(s, p, a).Some?
    ensures TablesMatch(WriterStep(s, p, a).value)
  {
    if a.Enter? || a.Leave? || a.CloseNamespaceFile? {
      ClaimStepKeepsTables(s, p, a);
    } else if a.Open? {
      OnlyStageMoves(s, WriterStep(s, p, a).value, p);
    } else {
      OnlyActorMoves(s, WriterStep(s, p, a).value, p);
    }
  }

  lemma WriterKeepsExclusion(s: State, p: Pid, a: Action)
    requires NamespacesExclude(s) && ClaimsAreDue(s) && WriterStep(s, p, a).Some?
    ensures NamespacesExclude(WriterStep(s, p, a).value) && ClaimsAreDue(WriterStep(s, p, a).value)
  {
    var s' := WriterStep(s, p, a).value;
    assert forall q: Pid :: q != p ==> s'.PhaseOf(q) == s.PhaseOf(q);
  }

  lemma WriterStepKeepsInv(s: State, p: Pid, a: Action)
    requires Inv(s) && WriterStep(s, p, a).Some?
    ensures Inv(WriterStep(s, p, a).value)
  {
    WriterStepKeepsTables(s, p, a);
    WriterKeepsExclusion(s, p, a);
    PartsMakeInv(s, WriterStep(s, p, a).value, p);
  }

  lemma UnscopedStepKeepsTables(s: State, p: Pid, a: Action)
    requires TablesMatch(s) && UnscopedStep(s, p, a).Some?
    ensures TablesMatch(UnscopedStep(s, p, a).value)
  {
    if a.OpenUnscoped? || a.OpenOld? {
      OnlyStageMoves(s, UnscopedStep(s, p, a).value, p);
    } else {
      OnlyActorMoves(s, UnscopedStep(s, p, a).value, p);
    }
  }

  lemma UnscopedKeepsExclusion(s: State, p: Pid, a: Action)
    requires NamespacesExclude(s) && ClaimsAreDue(s) && UnscopedStep(s, p, a).Some?
    ensures NamespacesExclude(UnscopedStep(s, p, a).value) && ClaimsAreDue(UnscopedStep(s, p, a).value)
  {
    var s' := UnscopedStep(s, p, a).value;
    assert forall q: Pid :: q != p ==> s'.PhaseOf(q) == s.PhaseOf(q);
  }

  lemma UnscopedStepKeepsInv(s: State, p: Pid, a: Action)
    requires Inv(s) && UnscopedStep(s, p, a).Some?
    ensures Inv(UnscopedStep(s, p, a).value)
  {
    UnscopedStepKeepsTables(s, p, a);
    UnscopedKeepsExclusion(s, p, a);
    PartsMakeInv(s, UnscopedStep(s, p, a).value, p);
  }

  /** The stage of the acting restore advances with what it holds. */
  lemma RestoreAdvances(s: State, p: Pid, a: Action)
    requires Inv(s) && RestoreStep(s, p, a).Some?
    ensures var phase := RestoreStep(s, p, a).value.PhaseOf(p);
      phase.Restoring? ==> RestoreHolds(phase.r)
  {
    assert s.PhaseOf(p).Restoring? ==> RestoreHolds(s.PhaseOf(p).r);
  }

  lemma LeaseStepKeepsTables(s: State, p: Pid, a: Action)
    requires TablesMatch(s) && RestoreStep(s, p, a).Some? && (a.Lease? || a.DropLease?)
    ensures TablesMatch(RestoreStep(s, p, a).value)
  {
    OnlyActorMoves(s, RestoreStep(s, p, a).value, p);
  }

  lemma NamespaceStepKeepsTables(s: State, p: Pid, a: Action)
    requires TablesMatch(s) && RestoreStep(s, p, a).Some? && (a.Close? || a.DropNamespace?)
    ensures TablesMatch(RestoreStep(s, p, a).value)
  {
    OnlyActorMoves(s, RestoreStep(s, p, a).value, p);
  }

  lemma RestoreStepKeepsTables(s: State, p: Pid, a: Action)
    requires TablesMatch(s) && RestoreStep(s, p, a).Some?
    ensures TablesMatch(RestoreStep(s, p, a).value)
  {
    if a.Lease? || a.DropLease? {
      LeaseStepKeepsTables(s, p, a);
    } else if a.Close? || a.DropNamespace? {
      NamespaceStepKeepsTables(s, p, a);
    } else {
      OnlyStageMoves(s, RestoreStep(s, p, a).value, p);
    }
  }

  lemma NamespacesStillExclude(s: State, p: Pid, a: Action)
    requires NamespacesExclude(s) && RestoreStep(s, p, a).Some?
    ensures NamespacesExclude(RestoreStep(s, p, a).value)
  {}

  lemma ClaimsStillDue(s: State, p: Pid, a: Action)
    requires ClaimsAreDue(s) && RestoreStep(s, p, a).Some?
    ensures ClaimsAreDue(RestoreStep(s, p, a).value)
  {
    var s' := RestoreStep(s, p, a).value;
    assert forall q: Pid :: q != p ==> s'.PhaseOf(q) == s.PhaseOf(q);
  }

  lemma RestoreStepKeepsInv(s: State, p: Pid, a: Action)
    requires Inv(s) && RestoreStep(s, p, a).Some?
    ensures Inv(RestoreStep(s, p, a).value)
  {
    RestoreAdvances(s, p, a);
    RestoreStepKeepsTables(s, p, a);
    NamespacesStillExclude(s, p, a);
    ClaimsStillDue(s, p, a);
    PartsMakeInv(s, RestoreStep(s, p, a).value, p);
  }

  lemma ExitKeepsInv(s: State, p: Pid)
    requires Inv(s)
    ensures Inv(ExitStep(s, p))
  {
    var s' := ExitStep(s, p);
    OnlyActorMoves(s, s', p);
    assert forall q: Pid :: q != p ==> s'.PhaseOf(q) == s.PhaseOf(q);
  }

  lemma NextKeepsInv(s: State, step: Step)
    requires Inv(s) && Next(s, step).Some?
    ensures Inv(Next(s, step).value)
  {
    if step.action.Exit? {
      ExitKeepsInv(s, step.actor);
    } else if WriterStep(s, step.actor, step.action).Some? {
      WriterStepKeepsInv(s, step.actor, step.action);
    } else if UnscopedStep(s, step.actor, step.action).Some? {
      UnscopedStepKeepsInv(s, step.actor, step.action);
    } else {
      RestoreStepKeepsInv(s, step.actor, step.action);
    }
  }

  // ----- Runs -----------------------------------------------------------------

  function Execute(s: State, steps: seq<Step>): Option<State>
    decreases |steps|
  {
    if steps == [] then Some(s)
    else match Next(s, steps[0])
      case None => None
      case Some(s') => Execute(s', steps[1..])
  }

  /** Nobody holds anything; the disk may hold any databases. */
  ghost predicate Initial(s: State) {
    s == Empty(s.env).(files := s.files)
  }

  ghost predicate IsRun(start: State, steps: seq<Step>, s: State) {
    Initial(start) && Execute(start, steps) == Some(s)
  }

  ghost predicate Reachable(s: State) {
    exists start: State, steps: seq<Step> :: IsRun(start, steps, s)
  }

  lemma {:induction false} ExecuteKeepsInv(s: State, steps: seq<Step>)
    requires Inv(s) && Execute(s, steps).Some?
    ensures Inv(Execute(s, steps).value)
    decreases |steps|
  {
    if steps != [] {
      NextKeepsInv(s, steps[0]);
      ExecuteKeepsInv(Next(s, steps[0]).value, steps[1..]);
    }
  }

  lemma ReachableKeepsInv(s: State)
    requires Reachable(s)
    ensures Inv(s)
  {
    var start: State, steps: seq<Step> :| IsRun(start, steps, s);
    ExecuteKeepsInv(start, steps);
  }
}
