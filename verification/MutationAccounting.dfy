/** Accounting for the evidence a mutation run leaves behind
    (`scripts/report-mutation-results.py`, `classify` and its helpers). */
module MutationAccounting {
  import opened Base
  import opened Sequences

  // ----- Evidence -------------------------------------------------------------

  /** A mutant record; a missing or non-string field is empty. `rest` stands for the
      fields that are not named here. */
  datatype Mutant = Mutant(name: string, package: string, file: string, genre: string, rest: string, diff: string)
  {
    predicate IsValid() {
      name != "" && package != "" && file != "" && genre != ""
    }

    /** The record without its diff, which scenarios omit. */
    function Identity(): Mutant {
      this.(diff := "")
    }
  }

  datatype Status = Success | TimedOut | Failed(code: int) | OtherStatus

  datatype Phase = Phase(kind: string, argvIsList: bool, status: Status)

  datatype Verdict = Caught | Survived | Timeout | Unviable

  /** The `summary` of a record: a verdict, the baseline's success, or anything else. */
  datatype Summary = Verdicted(verdict: Verdict) | BaselineSuccess | OtherSummary

  datatype Record =
    | Baseline(summary: Summary)
    | Outcome(mutant: Mutant, phases: seq<Phase>, summary: Summary)
    | Broken

  /** A file that may be missing or unreadable. */
  datatype File<T> = Absent | Torn | Present(contents: T)

  datatype Report = Report(records: seq<Record>, counters: Verdict -> Option<int>, total: Option<int>)

  datatype Discovery = NotDiscovered | NotAList | Discovered(mutants: seq<Mutant>)

  datatype Evidence = Evidence(
    status: Option<int>, truncated: Option<bool>, noPackages: bool,
    plan: File<seq<Mutant>>, discovery: Discovery, zeroMessage: bool,
    report: File<Report>, verdictFiles: Verdict -> Option<seq<string>>)

  // ----- Plans ----------------------------------------------------------------

  function Identities(plan: seq<Mutant>): seq<Mutant> {
    seq(|plan|, i requires 0 <= i < |plan| => plan[i].Identity())
  }

  function Names(plan: seq<Mutant>): seq<string> {
    seq(|plan|, i requires 0 <= i < |plan| => plan[i].name)
  }

  predicate IsPlan(plan: seq<Mutant>) {
    && (forall i :: 0 <= i < |plan| ==> plan[i].IsValid())
    && IsDistinct(Identities(plan)) && IsDistinct(Names(plan))
  }

  /** No field is missing and no name is repeated; then no record is repeated either. */
  lemma PlanIff(plan: seq<Mutant>)
    ensures IsPlan(plan) <==>
      && (forall m :: m in plan ==> |m.name| > 0 && |m.package| > 0 && |m.file| > 0 && |m.genre| > 0)
      && (forall i, j :: 0 <= i < j < |plan| ==> plan[i].name != plan[j].name)
  {
    assert forall i :: 0 <= i < |plan| ==> plan[i] in plan;
    assert forall i :: 0 <= i < |plan| ==> Names(plan)[i] == plan[i].name && Identities(plan)[i].name == plan[i].name;
  }

  // ----- Verdicts from phases -------------------------------------------------

  predicate IsFailure(status: Status) {
    status.Failed? && status.code != 0
  }

  predicate ArePhases(phases: seq<Phase>) {
    phases != [] &&
    forall i :: 0 <= i < |phases| ==> phases[i].kind in ["Build", "Check", "Test"] && phases[i].argvIsList
  }

  function PhaseVerdict(phases: seq<Phase>): Option<Verdict> {
    if !ArePhases(phases) then None
    else
      var last := phases[|phases| - 1];
      if exists i :: 0 <= i < |phases| && phases[i].kind != "Test" && IsFailure(phases[i].status) then Some(Unviable)
      else if exists i :: 0 <= i < |phases| && phases[i].status.TimedOut? then Some(Timeout)
      else if last.kind == "Test" && IsFailure(last.status) then Some(Caught)
      else if last.kind == "Test" && last.status.Success? then Some(Survived)
      else None
  }

  predicate BuildFailed(phases: seq<Phase>) {
    exists i :: 0 <= i < |phases| && phases[i].kind in ["Build", "Check"] && IsFailure(phases[i].status)
  }

  predicate AnyTimedOut(phases: seq<Phase>) {
    exists i :: 0 <= i < |phases| && phases[i].status.TimedOut?
  }

  /** Each verdict by what happened: a failed build decides, then a timeout, and only
      then how the tests ended. */
  lemma PhaseVerdictMeans(phases: seq<Phase>)
    requires ArePhases(phases)
    ensures var last := phases[|phases| - 1];
      && (PhaseVerdict(phases) == Some(Unviable) <==> BuildFailed(phases))
      && (PhaseVerdict(phases) == Some(Timeout) <==> AnyTimedOut(phases) && !BuildFailed(phases))
      && (PhaseVerdict(phases) == Some(Caught) <==>
            !BuildFailed(phases) && !AnyTimedOut(phases) && last.kind == "Test" && IsFailure(last.status))
      && (PhaseVerdict(phases) == Some(Survived) <==>
            !BuildFailed(phases) && !AnyTimedOut(phases) && last.kind == "Test" && last.status.Success?)
  {
    assert |"Test"| == 4 && |"Build"| == 5 && |"Check"| == 5;
    forall i | 0 <= i < |phases|
      ensures phases[i].kind != "Test" <==> phases[i].kind in ["Build", "Check"]
    {
      assert phases[i].kind in ["Build", "Check", "Test"];
    }
  }

  // ----- What is accounted ----------------------------------------------------

  /** One verdict: the name shown for it, and what identifies its mutant, which is
      the whole record in a report and the name alone in a verdict file. */
  datatype Account<K> = Account(key: K, name: string, verdict: Verdict)

  function Keys<K>(accounts: seq<Account<K>>): seq<K> {
    seq(|accounts|, i requires 0 <= i < |accounts| => accounts[i].key)
  }

  function Count<K>(accounts: seq<Account<K>>, verdict: Verdict): nat {
    if accounts == [] then 0
    else Count(accounts[..|accounts| - 1], verdict) + if accounts[|accounts| - 1].verdict == verdict then 1 else 0
  }

  lemma {:induction false} CountsAddUp<K>(accounts: seq<Account<K>>)
    ensures Count(accounts, Caught) + Count(accounts, Survived) + Count(accounts, Timeout) + Count(accounts, Unviable)
         == |accounts|
  {
    if accounts != [] {
      CountsAddUp(accounts[..|accounts| - 1]);
    }
  }

  /** Every key is planned and none is repeated. */
  predicate Fits<K(==)>(accounts: seq<Account<K>>, planned: seq<K>) {
    && IsDistinct(Keys(accounts))
    && forall i :: 0 <= i < |accounts| ==> accounts[i].key in planned
  }

  predicate IsTrustworthy(record: Record) {
    match record
    case Baseline(summary) => summary.BaselineSuccess?
    case Outcome(mutant, phases, summary) =>
      mutant.IsValid() && summary.Verdicted? && PhaseVerdict(phases) == Some(summary.verdict)
    case Broken => false
  }

  /** The verdicts of the outcome records, in order. */
  function Outcomes(records: seq<Record>): seq<Account<Mutant>>
    requires forall i :: 0 <= i < |records| ==> IsTrustworthy(records[i])
  {
    if records == [] then []
    else
      var last := records[|records| - 1];
      assert IsTrustworthy(last);
      Outcomes(records[..|records| - 1]) + OutcomeOf(last)
  }

  function OutcomeOf(record: Record): seq<Account<Mutant>>
    requires IsTrustworthy(record)
  {
    if record.Baseline? then [] else [Account(record.mutant.Identity(), record.mutant.name, record.summary.verdict)]
  }

  predicate CountersAgree(report: Report, accounts: seq<Account<Mutant>>) {
    && (forall v: Verdict :: report.counters(v) == Some(Count(accounts, v)))
    && report.total == Some(|accounts|)
  }

  /** A report whose records can all be trusted, whose outcomes fit the plan and whose
      counters are those of its outcomes. */
  predicate IsAccount(report: Report, plan: seq<Mutant>) {
    && (forall i :: 0 <= i < |report.records| ==> IsTrustworthy(report.records[i]))
    && Fits(Outcomes(report.records), Identities(plan))
    && CountersAgree(report, Outcomes(report.records))
  }

  const VERDICTS := [Caught, Survived, Timeout, Unviable]

  function Lines(names: seq<string>, verdict: Verdict): seq<Account<string>> {
    seq(|names|, i requires 0 <= i < |names| => Account(names[i], names[i], verdict))
  }

  /** The lines of the first `n` verdict files. */
  function FileLines(files: Verdict -> Option<seq<string>>, n: nat): seq<Account<string>>
    requires n <= 4 && forall k :: 0 <= k < n ==> files(VERDICTS[k]).Some?
  {
    if n == 0 then []
    else
      assert files(VERDICTS[n - 1]).Some?;
      FileLines(files, n - 1) + Lines(files(VERDICTS[n - 1]).value, VERDICTS[n - 1])
  }

  /** A name is read with a verdict exactly when it stands in the file of that verdict. */
  lemma {:induction false} FileLinesMean(files: Verdict -> Option<seq<string>>, n: nat, name: string, k: nat)
    requires k < 4 && n <= 4 && forall j :: 0 <= j < n ==> files(VERDICTS[j]).Some?
    ensures Account(name, name, VERDICTS[k]) in FileLines(files, n) <==> k < n && name in files(VERDICTS[k]).value
  {
    if n > 0 {
      FileLinesMean(files, n - 1, name, k);
      var names, verdict := files(VERDICTS[n - 1]).value, VERDICTS[n - 1];
      LinesMean(names, verdict, name, VERDICTS[k]);
      assert VERDICTS[k] == VERDICTS[n - 1] ==> k == n - 1;
    }
  }

  lemma LinesMean(names: seq<string>, verdict: Verdict, name: string, other: Verdict)
    ensures Account(name, name, other) in Lines(names, verdict) <==> name in names && other == verdict
  {
    if name in names && other == verdict {
      var i :| 0 <= i < |names| && names[i] == name;
      assert Lines(names, verdict)[i] == Account(name, name, other);
    }
  }

  predicate AreAccount(files: Verdict -> Option<seq<string>>, plan: seq<Mutant>) {
    && (forall k :: 0 <= k < 4 ==> files(VERDICTS[k]).Some?)
    && Fits(FileLines(files, 4), Names(plan))
  }

  // ----- Reading the accounts -------------------------------------------------

  lemma FitsOneMore<K>(accounts: seq<Account<K>>, planned: seq<K>, account: Account<K>)
    ensures Fits(accounts + [account], planned) <==>
      Fits(accounts, planned) && account.key in planned && account.key !in Keys(accounts)
  {
    var more := accounts + [account];
    assert forall i :: 0 <= i < |accounts| ==> Keys(more)[i] == Keys(accounts)[i];
    assert Keys(more)[|accounts|] == account.key;
    if Fits(more, planned) {
      assert more[|accounts|].key in planned;
      assert forall i :: 0 <= i < |accounts| ==> more[i] == accounts[i];
    }
  }

  lemma {:induction false} FitsPrefix<K>(accounts: seq<Account<K>>, planned: seq<K>, more: seq<Account<K>>)
    requires Fits(accounts + more, planned)
    ensures Fits(accounts, planned)
    decreases |more|
  {
    if more == [] {
      assert accounts + more == accounts;
    } else {
      var n := |more| - 1;
      assert accounts + more == accounts + more[..n] + [more[n]];
      FitsOneMore(accounts + more[..n], planned, more[n]);
      FitsPrefix(accounts, planned, more[..n]);
    }
  }

  /** The accounts before the first that does not fit. */
  function Fitting<K(==)>(accounts: seq<Account<K>>, planned: seq<K>): seq<Account<K>> {
    FittingFrom(accounts, planned, 0)
  }

  function FittingFrom<K(==)>(accounts: seq<Account<K>>, planned: seq<K>, n: nat): seq<Account<K>>
    requires n <= |accounts|
    decreases |accounts| - n
  {
    if n == |accounts| || !Fits(accounts[..n + 1], planned) then accounts[..n]
    else FittingFrom(accounts, planned, n + 1)
  }

  lemma {:induction false} FittingReaches<K>(accounts: seq<Account<K>>, planned: seq<K>, n: nat)
    requires n <= |accounts| && Fits(accounts[..n], planned)
    ensures Fitting(accounts, planned) == FittingFrom(accounts, planned, n)
    decreases n
  {
    if n > 0 {
      assert accounts[..n] == accounts[..n - 1] + accounts[n - 1..n];
      FitsPrefix(accounts[..n - 1], planned, accounts[n - 1..n]);
      FittingReaches(accounts, planned, n - 1);
    }
  }

  /** Reading stops where the next account does not fit, or at the end. */
  lemma FittingStops<K>(accounts: seq<Account<K>>, planned: seq<K>, found: seq<Account<K>>)
    requires found <= accounts && Fits(found, planned)
    requires found == accounts || !Fits(found + [accounts[|found|]], planned)
    ensures Fitting(accounts, planned) == found
  {
    var n := |found|;
    assert accounts[..n] == found;
    FittingReaches(accounts, planned, n);
    if n < |accounts| {
      assert accounts[..n + 1] == found + [accounts[n]];
    }
  }

  lemma {:induction false} OutcomesPrefix(records: seq<Record>, n: nat) returns (more: seq<Account<Mutant>>)
    requires n <= |records| && forall i :: 0 <= i < |records| ==> IsTrustworthy(records[i])
    ensures Outcomes(records) == Outcomes(records[..n]) + more
    decreases |records|
  {
    if n == |records| {
      assert records[..n] == records;
      more := [];
    } else {
      var last := |records| - 1;
      var before := records[..last];
      assert before[..n] == records[..n];
      var rest := OutcomesPrefix(before, n);
      assert IsTrustworthy(records[last]);
      var tail := OutcomeOf(records[last]);
      more := rest + tail;
      Assoc(Outcomes(records[..n]), rest, tail);
    }
  }

  /** The records before the first that cannot be trusted. */
  function Trusted(records: seq<Record>, n: nat): (trusted: seq<Record>)
    requires n <= |records| && forall i :: 0 <= i < n ==> IsTrustworthy(records[i])
    ensures trusted <= records && |trusted| >= n
    ensures forall i :: 0 <= i < |trusted| ==> IsTrustworthy(trusted[i])
    ensures trusted == records || !IsTrustworthy(records[|trusted|])
    decreases |records| - n
  {
    if n == |records| || !IsTrustworthy(records[n]) then records[..n] else Trusted(records, n + 1)
  }

  lemma TrustedAtLeast(records: seq<Record>, n: nat)
    requires n <= |records| && forall i :: 0 <= i < n ==> IsTrustworthy(records[i])
    ensures |Trusted(records, 0)| >= n && records[..n] <= Trusted(records, 0)
  {
    var trusted := Trusted(records, 0);
    assert trusted == records[..|trusted|];
  }

  lemma OutcomesOneMore(records: seq<Record>, i: nat)
    requires i < |records| && forall k :: 0 <= k <= i ==> IsTrustworthy(records[k])
    ensures Outcomes(records[..i + 1]) == Outcomes(records[..i]) + OutcomeOf(records[i])
  {
    assert records[..i + 1][..i] == records[..i];
  }

  /** Outcomes read so far begin those of all trusted records. */
  lemma OutcomesBegin(records: seq<Record>, n: nat)
    requires n <= |records| && forall i :: 0 <= i < n ==> IsTrustworthy(records[i])
    ensures Outcomes(records[..n]) <= Outcomes(Trusted(records, 0))
  {
    var trusted := Trusted(records, 0);
    TrustedAtLeast(records, n);
    var more := OutcomesPrefix(trusted, n);
    assert trusted[..n] == records[..n];
  }

  lemma StopsBefore<K>(all: seq<Account<K>>, planned: seq<K>, found: seq<Account<K>>, next: Account<K>)
    requires found + [next] <= all && Fits(found, planned) && !Fits(found + [next], planned)
    ensures Fitting(all, planned) == found
  {
    assert all[|found|] == (found + [next])[|found|] == next;
    FittingStops(all, planned, found);
  }

  /** Reading ends with the records, or at one that cannot be trusted. */
  lemma StopsUntrusted(records: seq<Record>, planned: seq<Mutant>, n: nat)
    requires n <= |records| && forall k :: 0 <= k < n ==> IsTrustworthy(records[k])
    requires n < |records| ==> !IsTrustworthy(records[n])
    requires Fits(Outcomes(records[..n]), planned)
    ensures Fitting(Outcomes(Trusted(records, 0)), planned) == Outcomes(records[..n])
  {
    TrustedAtLeast(records, n);
    assert Trusted(records, 0) == records[..n];
    FittingStops(Outcomes(records[..n]), planned, Outcomes(records[..n]));
  }

  /** Or at one that does not fit, and then the report is refused. */
  lemma StopsAtMisfit(report: Report, plan: seq<Mutant>, n: nat)
    requires n < |report.records| && report.records[n].Outcome?
    requires forall k :: 0 <= k <= n ==> IsTrustworthy(report.records[k])
    requires Fits(Outcomes(report.records[..n]), Identities(plan))
    requires !Fits(Outcomes(report.records[..n + 1]), Identities(plan))
    ensures Fitting(Outcomes(Trusted(report.records, 0)), Identities(plan)) == Outcomes(report.records[..n])
    ensures !IsAccount(report, plan)
  {
    var record := report.records[n];
    var account := Account(record.mutant.Identity(), record.mutant.name, record.summary.verdict);
    OutcomesOneMore(report.records, n);
    OutcomesBegin(report.records, n + 1);
    StopsBefore(Outcomes(Trusted(report.records, 0)), Identities(plan), Outcomes(report.records[..n]), account);
    MisfitIsRefused(report, plan, n + 1);
  }

  /** Read the outcome records one by one until one cannot be trusted or does not fit,
      then compare the counters. What was read is kept either way. */
  method ReadReport(report: Report, plan: seq<Mutant>) returns (found: seq<Account<Mutant>>, accepted: bool)
    ensures accepted <==> IsAccount(report, plan)
    ensures found == Fitting(Outcomes(Trusted(report.records, 0)), Identities(plan))
    ensures accepted ==> found == Outcomes(report.records)
  {
    var records, planned := report.records, Identities(plan);
    var seen: set<Mutant> := {};
    found := [];
    for i := 0 to |records|
      invariant forall k :: 0 <= k < i ==> IsTrustworthy(records[k])
      invariant found == Outcomes(records[..i])
      invariant Fits(found, planned)
      invariant forall key :: key in seen <==> key in Keys(found)
    {
      var record := records[i];
      if !IsTrustworthy(record) {
        StopsUntrusted(records, planned, i);
        return found, false;
      }
      OutcomesOneMore(records, i);
      if record.Outcome? {
        var account := Account(record.mutant.Identity(), record.mutant.name, record.summary.verdict);
        FitsOneMore(found, planned, account);
        if account.key !in planned || account.key in seen {
          StopsAtMisfit(report, plan, i);
          return found, false;
        }
        seen := seen + {account.key};
        assert Keys(found + [account]) == Keys(found) + [account.key];
        found := found + [account];
      }
    }
    assert records[..|records|] == records;
    StopsUntrusted(records, planned, |records|);
    accepted := CompareCounters(report, found);
  }

  method CompareCounters(report: Report, accounts: seq<Account<Mutant>>) returns (agree: bool)
    ensures agree <==> CountersAgree(report, accounts)
  {
    for k := 0 to 4
      invariant forall j :: 0 <= j < k ==> report.counters(VERDICTS[j]) == Some(Count(accounts, VERDICTS[j]))
    {
      if report.counters(VERDICTS[k]) != Some(Count(accounts, VERDICTS[k])) {
        return false;
      }
    }
    forall v: Verdict
      ensures report.counters(v) == Some(Count(accounts, v))
    {
      assert v == VERDICTS[0] || v == VERDICTS[1] || v == VERDICTS[2] || v == VERDICTS[3];
    }
    return report.total == Some(|accounts|);
  }

  lemma MisfitIsRefused(report: Report, plan: seq<Mutant>, n: nat)
    requires n <= |report.records| && forall k :: 0 <= k < n ==> IsTrustworthy(report.records[k])
    requires !Fits(Outcomes(report.records[..n]), Identities(plan))
    ensures !IsAccount(report, plan)
  {
    if IsAccount(report, plan) {
      var more := OutcomesPrefix(report.records, n);
      FitsPrefix(Outcomes(report.records[..n]), Identities(plan), more);
    }
  }

  /** How many of the four verdict files can be read before one is missing. */
  function Readable(files: Verdict -> Option<seq<string>>, n: nat): (m: nat)
    requires n <= 4 && forall k :: 0 <= k < n ==> files(VERDICTS[k]).Some?
    ensures n <= m <= 4 && (forall k :: 0 <= k < m ==> files(VERDICTS[k]).Some?)
    ensures m < 4 ==> files(VERDICTS[m]).None?
    decreases 4 - n
  {
    if n == 4 || files(VERDICTS[n]).None? then n else Readable(files, n + 1)
  }

  /** All lines up to the first missing file. */
  function ReadableLines(files: Verdict -> Option<seq<string>>): seq<Account<string>> {
    FileLines(files, Readable(files, 0))
  }

  lemma LinesOneMore(names: seq<string>, verdict: Verdict, i: nat)
    requires i < |names|
    ensures Lines(names[..i + 1], verdict) == Lines(names[..i], verdict) + [Account(names[i], names[i], verdict)]
  {}

  lemma {:induction false} FileLinesPrefix(files: Verdict -> Option<seq<string>>, n: nat, m: nat)
    returns (more: seq<Account<string>>)
    requires n <= m <= 4 && forall k :: 0 <= k < m ==> files(VERDICTS[k]).Some?
    ensures FileLines(files, m) == FileLines(files, n) + more
    decreases m
  {
    if n == m {
      more := [];
    } else {
      var rest := FileLinesPrefix(files, n, m - 1);
      more := rest + Lines(files(VERDICTS[m - 1]).value, VERDICTS[m - 1]);
    }
  }

  lemma Reassociate(a: seq<Account<string>>, b: seq<Account<string>>, c: seq<Account<string>>, d: seq<Account<string>>)
    ensures a + (b + c) + d == a + b + (c + d)
  {}

  lemma LinesFromHere(files: Verdict -> Option<seq<string>>, k: nat, i: nat) returns (more: seq<Account<string>>)
    requires k < 4 && (forall j :: 0 <= j <= k ==> files(VERDICTS[j]).Some?)
    requires i <= |files(VERDICTS[k]).value|
    ensures ReadableLines(files) == FileLines(files, k) + Lines(files(VERDICTS[k]).value[..i], VERDICTS[k]) + more
  {
    var names := files(VERDICTS[k]).value;
    assert Readable(files, 0) > k;
    var later := FileLinesPrefix(files, k + 1, Readable(files, 0));
    var part, rest := Lines(names[..i], VERDICTS[k]), Lines(names[i..], VERDICTS[k]);
    assert Lines(names, VERDICTS[k]) == part + rest;
    assert FileLines(files, k + 1) == FileLines(files, k) + (part + rest);
    more := rest + later;
    Reassociate(FileLines(files, k), part, rest, later);
  }

  lemma MissingFileEnds(files: Verdict -> Option<seq<string>>, k: nat)
    requires k <= 4 && (forall j :: 0 <= j < k ==> files(VERDICTS[j]).Some?)
    requires k < 4 ==> files(VERDICTS[k]).None?
    ensures Readable(files, 0) == k && ReadableLines(files) == FileLines(files, k)
  {}

  /** The next line does not fit: reading stops before it, and the files are refused. */
  lemma RefusedLine(files: Verdict -> Option<seq<string>>, plan: seq<Mutant>, k: nat, i: nat)
    requires k < 4 && (forall j :: 0 <= j <= k ==> files(VERDICTS[j]).Some?)
    requires i < |files(VERDICTS[k]).value|
    requires var found := FileLines(files, k) + Lines(files(VERDICTS[k]).value[..i], VERDICTS[k]);
      Fits(found, Names(plan)) &&
      !Fits(FileLines(files, k) + Lines(files(VERDICTS[k]).value[..i + 1], VERDICTS[k]), Names(plan))
    ensures !AreAccount(files, plan)
    ensures Fitting(ReadableLines(files), Names(plan)) ==
      FileLines(files, k) + Lines(files(VERDICTS[k]).value[..i], VERDICTS[k])
  {
    var names := files(VERDICTS[k]).value;
    var found, next := FileLines(files, k) + Lines(names[..i], VERDICTS[k]), Account(names[i], names[i], VERDICTS[k]);
    var more := LinesFromHere(files, k, i + 1);
    LinesOneMore(names, VERDICTS[k], i);
    assert FileLines(files, k) + Lines(names[..i + 1], VERDICTS[k]) == found + [next];
    StopsBefore(ReadableLines(files), Names(plan), found, next);
    if AreAccount(files, plan) {
      FitsPrefix(found + [next], Names(plan), more);
    }
  }

  /** Read the four verdict files until one is missing or a name does not fit. What was
      read is kept either way. */
  method ReadVerdictFiles(files: Verdict -> Option<seq<string>>, plan: seq<Mutant>)
    returns (found: seq<Account<string>>, accepted: bool)
    ensures accepted <==> AreAccount(files, plan)
    ensures found == Fitting(ReadableLines(files), Names(plan))
    ensures accepted ==> found == FileLines(files, 4)
  {
    var planned := Names(plan);
    var seen: set<string> := {};
    found := [];
    for k := 0 to 4
      invariant forall j :: 0 <= j < k ==> files(VERDICTS[j]).Some?
      invariant found == FileLines(files, k)
      invariant Fits(found, planned)
      invariant forall key :: key in seen <==> key in Keys(found)
    {
      if files(VERDICTS[k]).None? {
        MissingFileEnds(files, k);
        FittingStops(found, planned, found);
        return found, false;
      }
      var names := files(VERDICTS[k]).value;
      ghost var before := found;
      for i := 0 to |names|
        invariant found == before + Lines(names[..i], VERDICTS[k])
        invariant Fits(found, planned)
        invariant forall key :: key in seen <==> key in Keys(found)
      {
        var account := Account(names[i], names[i], VERDICTS[k]);
        FitsOneMore(found, planned, account);
        LinesOneMore(names, VERDICTS[k], i);
        assert found + [account] == before + Lines(names[..i + 1], VERDICTS[k]);
        if account.key !in planned || account.key in seen {
          RefusedLine(files, plan, k, i);
          return found, false;
        }
        seen := seen + {account.key};
        assert Keys(found + [account]) == Keys(found) + [account.key];
        found := found + [account];
      }
      assert names[..|names|] == names;
    }
    MissingFileEnds(files, 4);
    FittingStops(found, planned, found);
    accepted := true;
  }

  // ----- Three ways to succeed ------------------------------------------------

  predicate IsDriver(ev: Evidence) {
    ev.status.Some? && ev.truncated.Some?
  }

  predicate IsExhausted(ev: Evidence) {
    ev.status == Some(124) || ev.status == Some(137) || ev.truncated == Some(true)
  }

  predicate IsNoPackageRun(ev: Evidence) {
    IsDriver(ev) && ev.noPackages && ev.status == Some(0) && !IsExhausted(ev)
  }

  /** The executed plan; a missing one counts as empty if discovery and the tool say
      there was nothing to do. */
  function PlanOf(ev: Evidence): Option<seq<Mutant>> {
    if ev.plan.Absent? && ev.discovery == Discovered([]) && ev.zeroMessage then Some([])
    else if ev.plan.Present? then Some(ev.plan.contents)
    else None
  }

  /** The plan is sound and, if there was a discovery, is what was discovered. */
  predicate HasPlan(ev: Evidence) {
    && PlanOf(ev).Some? && IsPlan(PlanOf(ev).value)
    && DiscoveryAgrees(ev)
  }

  predicate DiscoveryAgrees(ev: Evidence)
    requires PlanOf(ev).Some?
  {
    match ev.discovery
    case NotDiscovered => true
    case NotAList => false
    case Discovered(mutants) => IsPlan(mutants) && Identities(mutants) == Identities(PlanOf(ev).value)
  }

  predicate IsEmptyReport(report: Report) {
    report.records == [] && report.total == Some(0) && forall v: Verdict :: report.counters(v) == Some(0)
  }

  predicate IsZeroRun(ev: Evidence) {
    && IsDriver(ev) && HasPlan(ev) && PlanOf(ev) == Some([])
    && ev.status == Some(0) && !IsExhausted(ev) && ev.discovery == Discovered([]) && ev.zeroMessage
    && (ev.report.Absent? || (ev.report.Present? && IsEmptyReport(ev.report.contents)))
  }

  function ByName<K>(accounts: seq<Account<K>>): seq<Account<string>> {
    seq(|accounts|, i requires 0 <= i < |accounts| => Account(accounts[i].name, accounts[i].name, accounts[i].verdict))
  }

  /** What is accounted for, mutant by mutant: from the report if there is one, and
      otherwise from the verdict files. */
  function AccountsOf(ev: Evidence): Option<seq<Account<string>>>
    requires HasPlan(ev)
  {
    AccountsFor(PlanOf(ev).value, ev)
  }

  function AccountsFor(plan: seq<Mutant>, ev: Evidence): Option<seq<Account<string>>> {
    match ev.report
    case Torn => None
    case Present(report) => if IsAccount(report, plan) then Some(ByName(Outcomes(report.records))) else None
    case Absent => if AreAccount(ev.verdictFiles, plan) then Some(FileLines(ev.verdictFiles, 4)) else None
  }

  /** What is read before the evidence turns out to be bad, or all of it. */
  function FoundIn(ev: Evidence): seq<Account<string>>
    requires HasPlan(ev)
  {
    match ev.report
    case Torn => []
    case Present(report) => ByName(Fitting(Outcomes(Trusted(report.records, 0)), Identities(PlanOf(ev).value)))
    case Absent => Fitting(ReadableLines(ev.verdictFiles), Names(PlanOf(ev).value))
  }

  /** The exit status cargo-mutants gives for these verdicts. */
  function ImpliedStatus(accounts: seq<Account<string>>): int {
    if Count(accounts, Timeout) > 0 then 3 else if Count(accounts, Survived) > 0 then 2 else 0
  }

  predicate IsCompleteRun(ev: Evidence) {
    && IsDriver(ev) && !IsNoPackageRun(ev) && !IsExhausted(ev)
    && HasPlan(ev) && PlanOf(ev).value != []
    && AccountsOf(ev).Some?
    && |AccountsOf(ev).value| == |PlanOf(ev).value|
    && ev.status == Some(ImpliedStatus(AccountsOf(ev).value))
  }

  // ----- The classifier -------------------------------------------------------

  datatype Reason =
    | Unverifiable | LegitimateZero | OuterExhausted | UntrustworthyStatus | IncompleteAccounting | CompleteAccounting

  datatype Accounting = Accounting(
    planned: Option<nat>, accounted: Option<nat>, outstanding: Option<nat>,
    caught: nat, survived: nat, timedOut: nat, unviable: nat,
    complete: bool, outerExhausted: bool, exitStatus: int, reason: Reason, verdicts: seq<Account<string>>)

  predicate CountsAreThoseOf(result: Accounting, accounts: seq<Account<string>>) {
    && result.caught == Count(accounts, Caught) && result.survived == Count(accounts, Survived)
    && result.timedOut == Count(accounts, Timeout) && result.unviable == Count(accounts, Unviable)
  }

  function WithCounts(base: Accounting, found: seq<Account<string>>): Accounting {
    base.(caught := Count(found, Caught), survived := Count(found, Survived),
          timedOut := Count(found, Timeout), unviable := Count(found, Unviable), verdicts := found)
  }

  /** The evidence gets as far as its verdicts. */
  predicate IsCounted(ev: Evidence) {
    IsDriver(ev) && !IsNoPackageRun(ev) && HasPlan(ev) && PlanOf(ev).value != []
  }

  function PlannedOf(ev: Evidence): Option<nat> {
    if !IsDriver(ev) then None
    else if IsNoPackageRun(ev) then Some(0)
    else if PlanOf(ev).Some? && IsPlan(PlanOf(ev).value) then Some(|PlanOf(ev).value|)
    else None
  }

  const UNVERIFIABLE := Accounting(None, None, None, 0, 0, 0, 0, false, false, 1, Unverifiable, [])

  method ReadAccounts(ev: Evidence) returns (found: seq<Account<string>>, accepted: bool)
    requires HasPlan(ev)
    ensures accepted <==> AccountsOf(ev).Some?
    ensures accepted ==> AccountsOf(ev) == Some(found)
    ensures found == FoundIn(ev)
  {
    var plan := PlanOf(ev).value;
    match ev.report {
      case Torn =>
        return [], false;
      case Present(report) =>
        var outcomes;
        outcomes, accepted := ReadReport(report, plan);
        found := ByName(outcomes);
      case Absent =>
        found, accepted := ReadVerdictFiles(ev.verdictFiles, plan);
    }
  }

  /** The result reports success exactly for a run without packages, a recognised
      empty plan, or a complete accounting; a complete one carries the verdicts of the
      evidence, counted kind by kind. */
  method Classify(ev: Evidence) returns (result: Accounting)
    ensures result.exitStatus == 0 || result.exitStatus == 1
    ensures result.exitStatus == 0 <==> IsNoPackageRun(ev) || IsZeroRun(ev) || IsCompleteRun(ev)
    ensures result.complete <==> IsCompleteRun(ev)
    ensures result.complete ==>
      && result.planned == result.accounted == Some(|PlanOf(ev).value|) && result.outstanding == Some(0)
      && result.verdicts == AccountsOf(ev).value
    // What is reported, whether the run succeeds or not.
    ensures result.verdicts == if IsCounted(ev) then FoundIn(ev) else []
    ensures CountsAreThoseOf(result, result.verdicts)
    ensures result.planned == PlannedOf(ev)
    ensures result.outerExhausted <==>
      ev.status.Some? && ev.truncated.Some? && (ev.status.value in {124, 137} || ev.truncated.value)
    ensures result.outstanding.Some? ==>
      && result.planned.Some? && result.accounted == Some(|result.verdicts|)
      && result.accounted.value + result.outstanding.value == result.planned.value
    ensures result.reason == LegitimateZero <==> IsNoPackageRun(ev) || IsZeroRun(ev)
    ensures result.reason == CompleteAccounting <==> result.complete
    ensures result.reason == OuterExhausted <==> IsCounted(ev) && AccountsOf(ev).Some? && IsExhausted(ev)
    ensures result.reason == UntrustworthyStatus <==>
      IsCounted(ev) && AccountsOf(ev).Some? && !IsExhausted(ev) && ev.status.value !in {0, 2, 3}
    ensures result.reason == IncompleteAccounting <==>
      && IsCounted(ev) && AccountsOf(ev).Some? && !IsExhausted(ev) && ev.status.value in {0, 2, 3}
      && |AccountsOf(ev).value| < |PlanOf(ev).value|
  {
    result := UNVERIFIABLE;
    if !IsDriver(ev) {
      return;
    }
    result := result.(outerExhausted := IsExhausted(ev));
    if IsNoPackageRun(ev) {
      result := result.(planned := Some(0), accounted := Some(0), outstanding := Some(0));
      result := result.(exitStatus := 0, reason := LegitimateZero);
      return;
    }
    if PlanOf(ev).None? || !IsPlan(PlanOf(ev).value) {
      return;
    }
    var plan := PlanOf(ev).value;
    result := result.(planned := Some(|plan|));
    if !DiscoveryAgrees(ev) {
      return;
    }
    if plan == [] {
      result := ClassifyEmpty(ev, result);
    } else {
      result := ClassifyCounted(ev, result);
    }
  }

  method ClassifyEmpty(ev: Evidence, base: Accounting) returns (result: Accounting)
    requires IsDriver(ev) && HasPlan(ev) && PlanOf(ev).value == [] && base.outerExhausted == IsExhausted(ev)
    ensures result ==
      if !IsZeroRun(ev) then base
      else base.(accounted := Some(0), outstanding := Some(0), exitStatus := 0, reason := LegitimateZero)
  {
    result := base;
    if ev.status.value != 0 || result.outerExhausted || ev.discovery != Discovered([]) || !ev.zeroMessage {
      return;
    }
    if ev.report.Torn? || (ev.report.Present? && !IsEmptyReport(ev.report.contents)) {
      return;
    }
    result := result.(accounted := Some(0), outstanding := Some(0), exitStatus := 0, reason := LegitimateZero);
  }

  method ClassifyCounted(ev: Evidence, base: Accounting) returns (result: Accounting)
    requires IsCounted(ev)
    requires base == UNVERIFIABLE.(outerExhausted := IsExhausted(ev), planned := Some(|PlanOf(ev).value|))
    ensures result.exitStatus == if IsCompleteRun(ev) then 0 else 1
    ensures result.complete <==> IsCompleteRun(ev)
    ensures result.complete ==> result.outstanding == Some(0) && result.verdicts == AccountsOf(ev).value
    ensures result.verdicts == FoundIn(ev) && CountsAreThoseOf(result, result.verdicts)
    ensures result.planned == base.planned && result.outerExhausted == base.outerExhausted
    ensures result.outstanding.Some? ==>
      result.accounted == Some(|result.verdicts|) && |result.verdicts| + result.outstanding.value == base.planned.value
    ensures result.reason != LegitimateZero && (result.reason == CompleteAccounting <==> result.complete)
    ensures result.reason == OuterExhausted <==> IsCounted(ev) && AccountsOf(ev).Some? && IsExhausted(ev)
    ensures result.reason == UntrustworthyStatus <==>
      IsCounted(ev) && AccountsOf(ev).Some? && !IsExhausted(ev) && ev.status.value !in {0, 2, 3}
    ensures result.reason == IncompleteAccounting <==>
      && IsCounted(ev) && AccountsOf(ev).Some? && !IsExhausted(ev) && ev.status.value in {0, 2, 3}
      && |AccountsOf(ev).value| < |PlanOf(ev).value|
  {
    result := base;
    var plan, status := PlanOf(ev).value, ev.status.value;
    var found, accepted := ReadAccounts(ev);
    result := WithCounts(base, found);
    if !accepted {
      return;
    }
    CountsAddUp(found);
    NoMoreThanPlanned(ev);
    assert found == AccountsOf(ev).value && |found| <= |plan|;
    var accounted := result.caught + result.survived + result.timedOut + result.unviable;
    result := result.(accounted := Some(accounted));
    if accounted > |plan| {
      return;
    }
    result := Settle(result.(outstanding := Some(|plan| - accounted)), |plan|, accounted, status);
  }

  /** An accepted account has no more verdicts than the plan has mutants. */
  lemma NoMoreThanPlanned(ev: Evidence)
    requires HasPlan(ev) && AccountsOf(ev).Some?
    ensures |AccountsOf(ev).value| <= |PlanOf(ev).value|
  {
    AccountsFit(ev);
    var keys, names := Keys(AccountsOf(ev).value), Names(PlanOf(ev).value);
    DistinctSize(keys);
    SetIsSmaller(names);
    assert forall i :: 0 <= i < |keys| ==> keys[i] == AccountsOf(ev).value[i].key;
    SetsOfSubsets(AsSet(keys), AsSet(names));
  }

  /** The last decision, once everything is counted. */
  method Settle(counted: Accounting, planned: nat, accounted: nat, status: int) returns (result: Accounting)
    requires !counted.complete && counted.exitStatus == 1 && counted.reason == Unverifiable
    ensures result == counted.(complete := result.complete, exitStatus := result.exitStatus, reason := result.reason)
    ensures result.complete <==> result.exitStatus == 0
    ensures result.exitStatus == 0 || result.exitStatus == 1
    ensures result.complete <==>
      && !counted.outerExhausted && accounted == planned
      && status == if counted.timedOut > 0 then 3 else if counted.survived > 0 then 2 else 0
    ensures result.reason != LegitimateZero && (result.reason == CompleteAccounting <==> result.complete)
    ensures result.reason == OuterExhausted <==> counted.outerExhausted
    ensures result.reason == UntrustworthyStatus <==> !counted.outerExhausted && status !in {0, 2, 3}
    ensures result.reason == IncompleteAccounting <==>
      !counted.outerExhausted && status in {0, 2, 3} && accounted != planned
  {
    result := counted;
    if result.outerExhausted {
      result := result.(reason := OuterExhausted);
    } else if status != 0 && status != 2 && status != 3 {
      result := result.(reason := UntrustworthyStatus);
    } else if accounted != planned {
      result := result.(reason := IncompleteAccounting);
    } else if status == (if result.timedOut > 0 then 3 else if result.survived > 0 then 2 else 0) {
      result := result.(complete := true, exitStatus := 0, reason := CompleteAccounting);
    }
  }

  // ----- What success means ---------------------------------------------------

  predicate IsInBudget(ev: Evidence) {
    ev.truncated.Some? && !ev.truncated.value
  }

  /** The driver ended well and within its budget, and there was no package. */
  lemma NoPackageRunIff(ev: Evidence)
    ensures IsNoPackageRun(ev) <==> ev.status == Some(0) && IsInBudget(ev) && ev.noPackages
  {}

  /** Or it ended well, discovery and the tool both say that there was nothing to do, and
      neither plan nor report, if they exist, hold anything. */
  lemma ZeroRunIff(ev: Evidence)
    ensures IsZeroRun(ev) <==>
      && ev.status == Some(0) && IsInBudget(ev)
      && ev.discovery == Discovered([]) && ev.zeroMessage
      && (ev.plan == Absent || ev.plan == Present([]))
      && (ev.report.Absent? ||
          (ev.report.Present? && ev.report.contents.records == [] && ev.report.contents.total == Some(0) &&
           forall k :: 0 <= k < 4 ==> ev.report.contents.counters(VERDICTS[k]) == Some(0)))
  {
    if ev.report.Present? {
      AllVerdicts(ev.report.contents);
    }
    assert Identities([]) == [] && Names([]) == [];
  }

  lemma AllVerdicts(report: Report)
    ensures (forall v: Verdict :: report.counters(v) == Some(0)) <==>
      forall k :: 0 <= k < 4 ==> report.counters(VERDICTS[k]) == Some(0)
  {
    if forall k :: 0 <= k < 4 ==> report.counters(VERDICTS[k]) == Some(0) {
      forall v: Verdict
        ensures report.counters(v) == Some(0)
      {
        assert v == VERDICTS[0] || v == VERDICTS[1] || v == VERDICTS[2] || v == VERDICTS[3];
      }
    }
  }

  /** What is reported as planned by a run that had packages. */
  lemma PlannedIff(ev: Evidence)
    requires IsDriver(ev) && !IsNoPackageRun(ev)
    ensures PlannedOf(ev) ==
      match ev.plan
      case Absent => if ev.discovery == Discovered([]) && ev.zeroMessage then Some(0) else None
      case Torn => None
      case Present(plan) => if IsPlan(plan) then Some(|plan|) else None
  {}

  /** Whether two plans are the same but for the diffs. */
  predicate SameButDiffs(a: seq<Mutant>, b: seq<Mutant>) {
    |a| == |b| && forall i :: 0 <= i < |a| ==> a[i].(diff := b[i].diff) == b[i]
  }

  lemma SameIdentitiesIff(a: seq<Mutant>, b: seq<Mutant>)
    ensures Identities(a) == Identities(b) <==> SameButDiffs(a, b)
    ensures SameButDiffs(a, b) ==> (IsPlan(a) <==> IsPlan(b))
  {
    var idsA, idsB := Identities(a), Identities(b);
    assert |idsA| == |a| && |idsB| == |b|;
    if SameButDiffs(a, b) {
      assert forall i :: 0 <= i < |a| ==> idsA[i] == idsB[i] && a[i].IsValid() == b[i].IsValid();
      assert Names(a) == Names(b);
    } else if |a| == |b| {
      var i :| 0 <= i < |a| && a[i].(diff := b[i].diff) != b[i];
      assert idsA[i] != idsB[i];
    }
  }

  /** Or the plan that was executed is the plan discovered, nothing was cut short, every
      planned mutant has one verdict and no other has any, and the status is the one for
      these verdicts: 3 with a timeout, otherwise 2 with a survivor, otherwise 0. */
  lemma CompleteRunIff(ev: Evidence)
    ensures IsCompleteRun(ev) <==>
      && IsInBudget(ev) && ev.plan.Present? && ev.plan.contents != [] && IsPlan(ev.plan.contents)
      && (ev.discovery == NotDiscovered ||
          (ev.discovery.Discovered? && SameButDiffs(ev.discovery.mutants, ev.plan.contents)))
      && AccountsFor(ev.plan.contents, ev).Some?
      && var accounts := AccountsFor(ev.plan.contents, ev).value;
      && |accounts| == |ev.plan.contents|
      && ev.status == Some(if Holds(accounts, Timeout) then 3 else if Holds(accounts, Survived) then 2 else 0)
      && !(ev.noPackages && ev.status == Some(0))
  {
    if ev.discovery.Discovered? && ev.plan.Present? {
      SameIdentitiesIff(ev.discovery.mutants, ev.plan.contents);
    }
    if HasPlan(ev) && AccountsOf(ev).Some? {
      StatusByVerdicts(AccountsOf(ev).value);
    }
  }

  lemma StatusByVerdicts(accounts: seq<Account<string>>)
    ensures ImpliedStatus(accounts) ==
      if Holds(accounts, Timeout) then 3 else if Holds(accounts, Survived) then 2 else 0
  {
    CountIsPositive(accounts, Timeout);
    CountIsPositive(accounts, Survived);
  }

  lemma {:induction false} CountIsPositive<K>(accounts: seq<Account<K>>, verdict: Verdict)
    ensures Count(accounts, verdict) > 0 <==> Holds(accounts, verdict)
  {
    if accounts != [] {
      var n := |accounts| - 1;
      CountIsPositive(accounts[..n], verdict);
      assert accounts == accounts[..n] + [accounts[n]];
    }
  }

  predicate Holds<K>(accounts: seq<Account<K>>, verdict: Verdict) {
    exists i :: 0 <= i < |accounts| && accounts[i].verdict == verdict
  }

  // ----- What a verdict means -------------------------------------------------

  /** What must have happened to a mutant with the given verdict. */
  ghost predicate IsEarned(phases: seq<Phase>, verdict: Verdict) {
    && phases != []
    && (forall phase :: phase in phases ==> phase.kind in {"Build", "Check", "Test"} && phase.argvIsList)
    && var last := phases[|phases| - 1];
    match verdict
    case Unviable => exists phase :: phase in phases && phase.kind in {"Build", "Check"} && EndedBadly(phase.status)
    case Timeout => AnyTimedOut(phases) && !BuildFailed(phases)
    case Caught => !BuildFailed(phases) && !AnyTimedOut(phases) && last.kind == "Test" && EndedBadly(last.status)
    case Survived => !BuildFailed(phases) && !AnyTimedOut(phases) && last.kind == "Test" && last.status.Success?
  }

  ghost predicate EndedBadly(status: Status) {
    exists code: int :: code != 0 && status == Failed(code)
  }

  ghost predicate IsEarnedBy(account: Account<Mutant>, record: Record) {
    record.Outcome? && record.mutant.Identity() == account.key && IsEarned(record.phases, account.verdict)
  }

  /** A record of a mutant can be trusted if and only if its fields are there and its
      verdict was earned by its phases; one of the baseline, if that succeeded. */
  lemma TrustworthyIff(record: Record)
    ensures IsTrustworthy(record) <==>
      || (record.Baseline? && record.summary.BaselineSuccess?)
      || (record.Outcome? && record.mutant.IsValid() && record.summary.Verdicted? &&
          IsEarned(record.phases, record.summary.verdict))
  {
    if record.Outcome? {
      PhasesIff(record.phases);
      EndedBadlyIff(record.phases);
      if ArePhases(record.phases) {
        PhaseVerdictMeans(record.phases);
      }
    }
  }

  lemma PhasesIff(phases: seq<Phase>)
    ensures ArePhases(phases) <==>
      phases != [] && forall phase :: phase in phases ==> phase.kind in {"Build", "Check", "Test"} && phase.argvIsList
  {
    assert forall i :: 0 <= i < |phases| ==> phases[i] in phases;
  }

  lemma EndedBadlyIff(phases: seq<Phase>)
    ensures forall i :: 0 <= i < |phases| ==> (EndedBadly(phases[i].status) <==> IsFailure(phases[i].status))
  {
    forall i | 0 <= i < |phases|
      ensures EndedBadly(phases[i].status) <==> IsFailure(phases[i].status)
    {
      assert phases[i].status.Failed? ==> phases[i].status == Failed(phases[i].status.code);
    }
  }

  lemma {:induction false} OutcomeIsEarned(records: seq<Record>, i: nat)
    requires (forall j :: 0 <= j < |records| ==> IsTrustworthy(records[j])) && i < |Outcomes(records)|
    ensures exists k :: 0 <= k < |records| && IsEarnedBy(Outcomes(records)[i], records[k])
    decreases |records|
  {
    var n := |records| - 1;
    var before := Outcomes(records[..n]);
    assert IsTrustworthy(records[n]);
    if i < |before| {
      OutcomeIsEarned(records[..n], i);
      var k :| 0 <= k < n && IsEarnedBy(before[i], records[..n][k]);
      assert records[k] == records[..n][k] && Outcomes(records)[i] == before[i];
    } else {
      TrustworthyIff(records[n]);
      assert IsEarnedBy(Outcomes(records)[i], records[n]);
    }
  }

  /** In an accepted report every verdict was earned by its mutant's own phases: a
      survivor's last test passed after everything was built in time, a caught one's
      failed, and an unviable one never built. */
  lemma VerdictsAreEarned(report: Report, plan: seq<Mutant>, i: nat)
    requires IsAccount(report, plan) && i < |Outcomes(report.records)|
    ensures exists k :: 0 <= k < |report.records| && IsEarnedBy(Outcomes(report.records)[i], report.records[k])
  {
    OutcomeIsEarned(report.records, i);
  }

  // ----- What completeness means ----------------------------------------------

  /** As many accounts as planned keys, none repeated and all planned: every planned
      key has one. */
  lemma FullFitCovers<K>(accounts: seq<Account<K>>, planned: seq<K>)
    requires Fits(accounts, planned) && |accounts| == |planned|
    ensures forall key :: key in planned ==> key in Keys(accounts)
  {
    forall key | key in Keys(accounts)
      ensures key in planned
    {
      var i :| 0 <= i < |accounts| && Keys(accounts)[i] == key;
    }
    DistinctCovers(Keys(accounts), planned);
  }

  lemma {:induction false} OutcomeNames(records: seq<Record>)
    requires forall i :: 0 <= i < |records| ==> IsTrustworthy(records[i])
    ensures forall i :: 0 <= i < |Outcomes(records)| ==> Outcomes(records)[i].name == Outcomes(records)[i].key.name
    decreases |records|
  {
    if records != [] {
      OutcomeNames(records[..|records| - 1]);
    }
  }

  /** In a sound plan, outcomes that fit by identity fit by name. */
  lemma FitsByName(accounts: seq<Account<Mutant>>, plan: seq<Mutant>)
    requires IsPlan(plan) && Fits(accounts, Identities(plan))
    requires forall i :: 0 <= i < |accounts| ==> accounts[i].name == accounts[i].key.name
    ensures Fits(ByName(accounts), Names(plan))
  {
    forall i | 0 <= i < |accounts|
      ensures accounts[i].name in Names(plan)
    {
      var k :| 0 <= k < |plan| && Identities(plan)[k] == accounts[i].key;
      assert Names(plan)[k] == accounts[i].name;
    }
    forall i, j | 0 <= i < j < |accounts|
      ensures accounts[i].name != accounts[j].name
    {
      var k :| 0 <= k < |plan| && Identities(plan)[k] == accounts[i].key;
      var l :| 0 <= l < |plan| && Identities(plan)[l] == accounts[j].key;
      assert Keys(accounts)[i] != Keys(accounts)[j];
      assert Names(plan)[k] == accounts[i].name && Names(plan)[l] == accounts[j].name;
    }
  }

  lemma AccountsFit(ev: Evidence)
    requires HasPlan(ev) && AccountsOf(ev).Some?
    ensures Fits(AccountsOf(ev).value, Names(PlanOf(ev).value))
    ensures forall i :: 0 <= i < |AccountsOf(ev).value| ==> AccountsOf(ev).value[i].key == AccountsOf(ev).value[i].name
  {
    match ev.report
    case Torn =>
    case Present(report) =>
      OutcomeNames(report.records);
      FitsByName(Outcomes(report.records), PlanOf(ev).value);
    case Absent =>
      FileLineKeys(ev.verdictFiles, 4);
  }

  lemma {:induction false} FileLineKeys(files: Verdict -> Option<seq<string>>, n: nat)
    requires n <= 4 && forall k :: 0 <= k < n ==> files(VERDICTS[k]).Some?
    ensures forall i :: 0 <= i < |FileLines(files, n)| ==> FileLines(files, n)[i].key == FileLines(files, n)[i].name
  {
    if n > 0 {
      FileLineKeys(files, n - 1);
    }
  }

  /** A complete run accounts for every planned mutant with exactly one verdict and
      for nothing else; the four counters sum to the plan. */
  lemma CompleteIsBijection(ev: Evidence)
    requires IsCompleteRun(ev)
    ensures var plan, accounts := PlanOf(ev).value, AccountsOf(ev).value;
      && (forall m :: 0 <= m < |plan| ==> exists i :: 0 <= i < |accounts| && accounts[i].name == plan[m].name)
      && (forall i, j :: 0 <= i < j < |accounts| ==> accounts[i].name != accounts[j].name)
      && (forall i :: 0 <= i < |accounts| ==> accounts[i].name in Names(plan))
      && Count(accounts, Caught) + Count(accounts, Survived) + Count(accounts, Timeout) + Count(accounts, Unviable)
         == |plan|
  {
    var plan, accounts := PlanOf(ev).value, AccountsOf(ev).value;
    AccountsFit(ev);
    FullFitCovers(accounts, Names(plan));
    CountsAddUp(accounts);
    forall m | 0 <= m < |plan|
      ensures exists i :: 0 <= i < |accounts| && accounts[i].name == plan[m].name
    {
      assert Names(plan)[m] in Names(plan);
      var i :| 0 <= i < |accounts| && Keys(accounts)[i] == plan[m].name;
      assert accounts[i].name == plan[m].name;
    }
    forall i, j | 0 <= i < j < |accounts|
      ensures accounts[i].name != accounts[j].name
    {
      assert Keys(accounts)[i] != Keys(accounts)[j];
    }
  }
}
