/** The budgeted attack on a problem: attempts under a ladder and a cap, feeding a monotone ledger. */
module AttackLoop {

  import opened Basics
  import opened Budget
  import opened Progress

  datatype AttemptRecord = AttemptRecord(attempt: int, granted: int, spent: int, verified: bool)

  datatype AttackReport = AttackReport(
    problemId: string, solved: bool, attempts: nat, spent: int, evidence: Option<string>, history: seq<AttemptRecord>)

  /** The configuration of a loop together with the arguments of one attack. */
  datatype Job = Job(rungs: seq<int>, cost: int, cap: int, candidate: (nat, string) -> string, verify: string -> bool,
                     problemId: string, statement: string, markers: seq<string>, maxAttempts: int)

  // ---------------------------------------------------------------- the statement gate

  predicate Contains(text: string, part: string) {
    part <= text || (text != [] && Contains(text[1..], part))
  }

  /** The part stands at place i of the text. */
  ghost predicate StandsAt(text: string, part: string, i: int) {
    0 <= i <= |text| - |part| && text[i..i + |part|] == part
  }

  ghost predicate Occurs(text: string, part: string) {
    exists i :: StandsAt(text, part, i)
  }

  lemma SliceShift(text: string, lo: nat, hi: nat)
    requires 1 <= lo <= hi <= |text|
    ensures text[1..][lo - 1..hi - 1] == text[lo..hi]
  {
  }

  /** The search finds a part wherever it stands. */
  lemma {:induction false} ContainsIff(text: string, part: string)
    ensures Contains(text, part) <==> Occurs(text, part)
  {
    if part <= text {
      assert StandsAt(text, part, 0);
    } else if text != [] {
      ContainsIff(text[1..], part);
      forall i | 0 < i <= |text| - |part| ensures StandsAt(text, part, i) <==> StandsAt(text[1..], part, i - 1) {
        SliceShift(text, i, i + |part|);
      }
      if i :| StandsAt(text, part, i) {
        assert i != 0;
        assert StandsAt(text[1..], part, i - 1);
      }
      if i :| StandsAt(text[1..], part, i) {
        assert StandsAt(text, part, i + 1);
      }
    }
  }

  ghost predicate AllPresent(statement: string, markers: seq<string>) {
    forall m :: m in markers ==> Occurs(statement, m)
  }

  /** `check_statement_integrity`: the distinct markers the statement lacks; an empty marker is an error. */
  method CheckStatementIntegrity(statement: string, markers: seq<string>) returns (r: Result<seq<string>>)
    ensures r.ValueError? <==> "" in markers
    ensures r.Ok? ==> forall m :: m in r.value <==> m in markers && !Occurs(statement, m)
    ensures r.Ok? ==> forall i, j :: 0 <= i < j < |r.value| ==> r.value[i] != r.value[j]
    ensures r.Ok? ==> forall i, j, at :: 0 <= i < j < |r.value| && 0 <= at < |markers| && markers[at] == r.value[j] ==> r.value[i] in markers[..at]
    ensures r.Ok? ==> (r.value == [] <==> AllPresent(statement, markers))
  {
    hide Occurs, Contains;
    var missing: seq<string>, seen: set<string> := [], {};
    for i := 0 to |markers|
      invariant "" !in markers[..i]
      invariant forall m :: m in seen <==> m in markers[..i]
      invariant forall m :: m in missing <==> m in seen && !Occurs(statement, m)
      invariant forall j, k, at :: 0 <= j < k < |missing| && 0 <= at < |markers| && markers[at] == missing[k] ==> missing[j] in markers[..at]
      invariant forall j, k :: 0 <= j < k < |missing| ==> missing[j] != missing[k]
    {
      var marker := markers[i];
      assert markers[..i + 1] == markers[..i] + [marker];
      if marker == "" {
        return ValueError;
      }
      if marker !in seen {
        seen := seen + {marker};
        ContainsIff(statement, marker);
        if !Contains(statement, marker) {
          missing := missing + [marker];
        }
      }
    }
    assert markers[..|markers|] == markers;
    if missing != [] {
      assert missing[0] in missing;
    }
    return Ok(missing);
  }

  // ---------------------------------------------------------------- what an attack amounts to

  ghost predicate Configured(job: Job) {
    LadderOk(job.rungs) && job.cost > 0
  }

  /** Attempt i would be certified: the statement has every marker and the verifier accepts the candidate. */
  ghost predicate Good(job: Job, i: nat) {
    AllPresent(job.statement, job.markers) && job.verify(job.candidate(i, job.problemId))
  }

  /** The cap has something left for attempt i. */
  ghost predicate Funded(job: Job, i: nat)
    requires Configured(job)
  {
    Allotted(job.rungs, i) < job.cap
  }

  ghost function RecordOf(job: Job, i: nat, verified: bool): AttemptRecord
    requires Configured(job)
  {
    var grant := Grant(job.rungs, job.cap, i);
    AttemptRecord(i, grant, Min(job.cost, grant), verified)
  }

  /** The attempts 0 to n - 1 were made, with these records, and none of them was certified. */
  ghost predicate Tried(job: Job, n: nat, history: seq<AttemptRecord>)
    requires Configured(job)
  {
    && |history| == n <= job.maxAttempts
    && forall i :: 0 <= i < n ==> Funded(job, i) && !Good(job, i) && history[i] == RecordOf(job, i, false)
  }

  /** The report of an attack that made attempts: it ends at the first certified one, or when attempts or cap run out. */
  ghost predicate Describes(job: Job, report: AttackReport)
    requires Configured(job)
  {
    var n := report.attempts;
    && report.problemId == job.problemId && |report.history| == n
    && report.spent == Min(job.cap, Allotted(job.rungs, n))
    && (report.solved ==>
      && n > 0 && n <= job.maxAttempts && Tried(job, n - 1, report.history[..n - 1])
      && Funded(job, n - 1) && Good(job, n - 1) && report.history[n - 1] == RecordOf(job, n - 1, true)
      && report.evidence == Some(job.candidate(n - 1, job.problemId)))
    && (!report.solved ==>
      && Tried(job, n, report.history) && (n == job.maxAttempts || !Funded(job, n)) && report.evidence == None)
  }

  /** A first certified attempt whose candidate is the empty string, which the ledger refuses. */
  ghost predicate EmptyProof(job: Job)
    requires Configured(job)
  {
    exists n: nat, history :: Tried(job, n, history) && n < job.maxAttempts && Funded(job, n) && Good(job, n)
      && job.candidate(n, job.problemId) == ""
  }

  /** One attack: what it returns and what it leaves in the ledger. */
  ghost predicate Attacked(before: map<string, string>, job: Job, r: Result<AttackReport>, after: map<string, string>)
    requires Configured(job)
  {
    if job.problemId == "" || job.maxAttempts < 1 then r.ValueError? && after == before
    else if job.problemId in before then
      r == Ok(AttackReport(job.problemId, true, 0, 0, Some(before[job.problemId]), [])) && after == before
    else if "" in job.markers || job.cap <= 0 then r.ValueError? && after == before
    else
      match r
      case ValueError => EmptyProof(job) && after == before
      case Ok(report) =>
        && Describes(job, report)
        && (!report.solved ==> after == before)
        && (report.solved ==> report.evidence.value != "" && after == before[job.problemId := report.evidence.value])
  }

  // ---------------------------------------------------------------- the loop

  class Loop {
    const ledger: ProgressLedger
    const candidate: (nat, string) -> string
    const verify: string -> bool
    const rungs: seq<int>
    const cost: int
    const cap: int

    constructor (ledger: ProgressLedger, candidate: (nat, string) -> string, verify: string -> bool, rungs: seq<int>, cost: int, cap: int)
      requires LadderOk(rungs) && cost > 0
      ensures this.ledger == ledger && this.candidate == candidate && this.verify == verify
      ensures this.rungs == rungs && this.cost == cost && this.cap == cap
    {
      this.ledger, this.candidate, this.verify := ledger, candidate, verify;
      this.rungs, this.cost, this.cap := rungs, cost, cap;
    }

    ghost function JobOf(problemId: string, statement: string, markers: seq<string>, maxAttempts: int): Job {
      Job(rungs, cost, cap, candidate, verify, problemId, statement, markers, maxAttempts)
    }

    /** One round of the loop: reserve the grant, and unless it is empty ask for a candidate, check it and pay. */
    method Attempt(budget: AttackBudget, attempt: nat, problemId: string, complete: bool, ghost job: Job)
      returns (record: AttemptRecord, proof: string)
      requires job.rungs == rungs && job.cost == cost && job.cap == cap && job.candidate == candidate && job.verify == verify
      requires job.problemId == problemId && Configured(job) && complete == AllPresent(job.statement, job.markers)
      requires budget.Valid() && budget.rungs == rungs && budget.cap == cap
      requires budget.committed == Min(cap, Allotted(rungs, attempt))
      modifies budget
      ensures budget.Valid() && budget.committed == Min(cap, Allotted(rungs, attempt + 1))
      ensures record.granted > 0 <==> Funded(job, attempt)
      ensures record.granted > 0 ==> proof == candidate(attempt, problemId) && record == RecordOf(job, attempt, record.verified)
      ensures record.granted > 0 ==> (record.verified <==> Good(job, attempt))
      ensures record.granted <= 0 ==> budget.committed == old(budget.committed)
    {
      CommitStep(rungs, cap, attempt);
      GrantPositiveIff(rungs, cap, attempt);
      hide AllPresent, LadderOk, Rung, Allotted;
      var granted := budget.StartAttempt(attempt);
      if granted.value <= 0 {
        return AttemptRecord(attempt, granted.value, 0, false), "";
      }
      proof := candidate(attempt, problemId);
      var verified := complete && verify(proof);
      var spentNow := Min(cost, granted.value);
      var charged := budget.Consume(spentNow);
      assert charged.Ok?;
      record := AttemptRecord(attempt, granted.value, spentNow, verified);
    }

    /** `attack`. The budget never refuses a charge, so every error is one of those `Attacked` lists. */
    method Attack(problemId: string, statement: string, markers: seq<string>, maxAttempts: int) returns (r: Result<AttackReport>)
      requires LadderOk(rungs) && cost > 0 && ledger.Valid()
      modifies ledger
      ensures ledger.Valid()
      ensures Attacked(old(ledger.solved), JobOf(problemId, statement, markers, maxAttempts), r, ledger.solved)
      ensures old(Once(ledger.Journal())) ==> Once(ledger.Journal())
      ensures old(ledger.file) <= ledger.file && old(ledger.written) <= ledger.written
    {
      hide Contains, AllPresent, Rung, Allotted, Replay, Loads, Once, Describes, Tried, Good, Funded, RecordOf, EmptyProof;
      assert rungs != [];
      hide LadderOk;
      if problemId == "" || maxAttempts < 1 {
        return ValueError;
      }
      if problemId in ledger.solved {
        return Ok(AttackReport(problemId, true, 0, 0, Some(ledger.solved[problemId]), []));
      }
      var missing := CheckStatementIntegrity(statement, markers);
      if missing.ValueError? || cap <= 0 {
        return ValueError;
      }
      ghost var job := JobOf(problemId, statement, markers, maxAttempts);
      var budget := new AttackBudget(rungs, cap);
      var history: seq<AttemptRecord> := [];
      NothingTried(job);
      for attempt := 0 to maxAttempts
        invariant budget.Valid() && fresh(budget) && budget.rungs == rungs && budget.cap == cap
        invariant budget.committed == Min(cap, Allotted(rungs, attempt))
        invariant Tried(job, attempt, history)
        invariant ledger.Valid() && unchanged(ledger)
      {
        var record, proof := Attempt(budget, attempt, problemId, missing.value == [], job);
        if record.granted <= 0 {
          r := Ok(AttackReport(problemId, false, attempt, budget.committed, None, history));
          UnsolvedDescribed(job, attempt, history);
          return;
        }
        if record.verified {
          SolvedDescribed(job, attempt, history, record);
          var marked := ledger.MarkSolved(problemId, proof);
          if marked.ValueError? {
            return ValueError;
          }
          return Ok(AttackReport(problemId, true, attempt + 1, budget.committed, Some(proof), history + [record]));
        }
        TriedMore(job, attempt, history, record);
        history := history + [record];
      }
      UnsolvedDescribed(job, maxAttempts, history);
      return Ok(AttackReport(problemId, false, maxAttempts, budget.committed, None, history));
    }
  }

  lemma CommitStep(rungs: seq<int>, cap: int, n: nat)
    requires LadderOk(rungs) && cap > 0
    ensures Min(cap, Min(cap, Allotted(rungs, n)) + Rung(rungs, n)) == Min(cap, Allotted(rungs, n + 1))
    ensures 0 <= Allotted(rungs, n)
  {
    AllottedGrows(rungs, 0, n);
    assert Allotted(rungs, n + 1) == Allotted(rungs, n) + Rung(rungs, n);
  }

  lemma NothingTried(job: Job)
    requires Configured(job) && job.maxAttempts >= 0 && job.cap > 0
    ensures Tried(job, 0, []) && Min(job.cap, Allotted(job.rungs, 0)) == 0
  {
  }

  lemma TriedMore(job: Job, n: nat, history: seq<AttemptRecord>, record: AttemptRecord)
    requires Configured(job) && Tried(job, n, history) && n < job.maxAttempts
    requires Funded(job, n) && !Good(job, n) && record == RecordOf(job, n, false)
    ensures Tried(job, n + 1, history + [record])
  {
  }

  lemma SolvedDescribed(job: Job, n: nat, history: seq<AttemptRecord>, record: AttemptRecord)
    requires Configured(job) && Tried(job, n, history) && n < job.maxAttempts
    requires Funded(job, n) && Good(job, n) && record == RecordOf(job, n, true)
    ensures Describes(job, AttackReport(job.problemId, true, n + 1, Min(job.cap, Allotted(job.rungs, n + 1)),
                                        Some(job.candidate(n, job.problemId)), history + [record]))
    ensures job.candidate(n, job.problemId) == "" ==> EmptyProof(job)
  {
    assert (history + [record])[..n] == history;
  }

  lemma UnsolvedDescribed(job: Job, n: nat, history: seq<AttemptRecord>)
    requires Configured(job) && Tried(job, n, history) && (n == job.maxAttempts || !Funded(job, n))
    ensures Describes(job, AttackReport(job.problemId, false, n, Min(job.cap, Allotted(job.rungs, n)), None, history))
  {
  }

  // ---------------------------------------------------------------- one attack

  lemma FundedBefore(job: Job, i: nat, j: nat)
    requires Configured(job) && i <= j && Funded(job, j)
    ensures Funded(job, i)
  {
    AllottedGrows(job.rungs, i, j);
  }

  /** Attempt i is made and ends the attack: it is affordable and the first that is certified. */
  ghost predicate Wins(job: Job, i: nat)
    requires Configured(job)
  {
    i < job.maxAttempts && Funded(job, i) && Good(job, i) && forall j: nat :: j < i ==> !Good(job, j)
  }

  /** An attack succeeds exactly when some affordable attempt would be certified, and ends at the first of them. */
  lemma SolvedIff(job: Job, report: AttackReport)
    requires Configured(job) && Describes(job, report)
    ensures report.solved <==> exists i: nat :: i < job.maxAttempts && Funded(job, i) && Good(job, i)
    ensures report.solved ==> Wins(job, report.attempts - 1)
  {
    var n := report.attempts;
    if report.solved {
      assert Funded(job, n - 1) && Good(job, n - 1);
    } else {
      forall i: nat | i < job.maxAttempts && Funded(job, i) ensures !Good(job, i) {
        if n <= i {
          FundedBefore(job, n, i);
        }
      }
    }
  }

  lemma StopsNoEarlier(job: Job, a: AttackReport, b: AttackReport)
    requires Configured(job) && Describes(job, a) && Describes(job, b) && !a.solved && !b.solved
    ensures b.attempts <= a.attempts
  {
  }

  /** Nothing about a report is left open: two descriptions of one attack are the same report. */
  lemma ReportIsDetermined(job: Job, a: AttackReport, b: AttackReport)
    requires Configured(job) && Describes(job, a) && Describes(job, b)
    ensures a == b
  {
    SolvedIff(job, a);
    SolvedIff(job, b);
    if a.solved {
      assert a.attempts - 1 == b.attempts - 1;
      assert a.history[..a.attempts - 1] == b.history[..a.attempts - 1];
    } else {
      StopsNoEarlier(job, a, b);
      StopsNoEarlier(job, b, a);
    }
    assert a.history == b.history;
  }

  function GrantedIn(history: seq<AttemptRecord>): int {
    if history == [] then 0 else GrantedIn(history[..|history| - 1]) + history[|history| - 1].granted
  }

  function SpentIn(history: seq<AttemptRecord>): int {
    if history == [] then 0 else SpentIn(history[..|history| - 1]) + history[|history| - 1].spent
  }

  lemma {:induction false} GrantsTelescope(job: Job, history: seq<AttemptRecord>)
    requires Configured(job) && job.cap > 0
    requires forall i :: 0 <= i < |history| ==> Funded(job, i) && history[i] == RecordOf(job, i, history[i].verified)
    ensures GrantedIn(history) == Min(job.cap, Allotted(job.rungs, |history|))
    ensures |history| <= SpentIn(history) <= GrantedIn(history)
  {
    if history != [] {
      var n := |history| - 1;
      GrantsTelescope(job, history[..n]);
      GrantPositiveIff(job.rungs, job.cap, n);
      assert history[n] == RecordOf(job, n, history[n].verified);
    }
  }

  lemma RecordsOfReport(job: Job, report: AttackReport, i: nat)
    requires Configured(job) && Describes(job, report) && i < report.attempts
    ensures Funded(job, i) && report.history[i] == RecordOf(job, i, report.history[i].verified)
    ensures report.history[i].verified <==> report.solved && i == report.attempts - 1
  {
    if report.solved && i < report.attempts - 1 {
      assert report.history[..report.attempts - 1][i] == report.history[i];
    }
  }

  /** The reported spend is the sum of the grants, within the cap; every charge is positive and fits its grant. */
  lemma SpendIsGrants(job: Job, report: AttackReport)
    requires Configured(job) && job.cap > 0 && Describes(job, report)
    ensures report.spent == GrantedIn(report.history) <= job.cap
    ensures report.attempts <= SpentIn(report.history) <= report.spent
    ensures forall i :: 0 <= i < report.attempts ==> 0 < report.history[i].spent <= report.history[i].granted
    ensures forall i :: 0 <= i < report.attempts ==> (report.history[i].verified <==> report.solved && i == report.attempts - 1)
  {
    forall i: nat | i < report.attempts
      ensures Funded(job, i) && report.history[i] == RecordOf(job, i, report.history[i].verified)
      ensures 0 < report.history[i].spent <= report.history[i].granted
      ensures report.history[i].verified <==> report.solved && i == report.attempts - 1
    {
      RecordsOfReport(job, report, i);
      GrantPositiveIff(job.rungs, job.cap, i);
    }
    GrantsTelescope(job, report.history);
  }

  /** Attempt i was given its rung, the last one if the ladder has no more, or what the attempts before it had left of the
      cap; and was charged its cost, or all it was given. */
  ghost predicate Accounted(job: Job, history: seq<AttemptRecord>, i: nat)
    requires job.rungs != [] && i < |history|
  {
    var rung, left := if i < |job.rungs| then job.rungs[i] else job.rungs[|job.rungs| - 1], job.cap - GrantedIn(history[..i]);
    && history[i].attempt == i
    && history[i].granted == (if rung <= left then rung else left)
    && history[i].spent == if job.cost <= history[i].granted then job.cost else history[i].granted
  }

  /** Every attempt of a report is accounted for so. */
  lemma HistoryIs(job: Job, report: AttackReport, i: nat)
    requires Configured(job) && job.cap > 0 && Describes(job, report) && i < report.attempts
    ensures Accounted(job, report.history, i)
  {
    var before := report.history[..i];
    forall l: nat | l <= i
      ensures Funded(job, l) && report.history[l] == RecordOf(job, l, report.history[l].verified)
    {
      RecordsOfReport(job, report, l);
    }
    GrantsTelescope(job, before);
    assert Allotted(job.rungs, i + 1) == Allotted(job.rungs, i) + Rung(job.rungs, i);
  }

  /** A failed attack costs what the ladder would give all its attempts, up to the cap. */
  lemma FailureSpend(job: Job, report: AttackReport)
    requires Configured(job) && Describes(job, report) && !report.solved
    ensures report.spent == Min(job.cap, Allotted(job.rungs, job.maxAttempts))
  {
    AllottedGrows(job.rungs, report.attempts, job.maxAttempts);
  }

  // ---------------------------------------------------------------- any number of attacks

  /** Attacks one after the other on one ledger: `ledgers[i]` is what attack i found. */
  ghost predicate Series(ledgers: seq<map<string, string>>, jobs: seq<Job>, results: seq<Result<AttackReport>>) {
    && |ledgers| == |jobs| + 1 && |results| == |jobs|
    && forall i :: 0 <= i < |jobs| ==> Configured(jobs[i]) && Attacked(ledgers[i], jobs[i], results[i], ledgers[i + 1])
  }

  /** A solved problem stays solved, with its first evidence. */
  lemma {:induction false} SolvedForever(ledgers: seq<map<string, string>>, jobs: seq<Job>, results: seq<Result<AttackReport>>, i: nat, j: nat, id: string)
    requires Series(ledgers, jobs, results) && i <= j < |ledgers| && id in ledgers[i]
    ensures id in ledgers[j] && ledgers[j][id] == ledgers[i][id]
    decreases j
  {
    if i < j {
      SolvedForever(ledgers, jobs, results, i, j - 1, id);
      assert Attacked(ledgers[j - 1], jobs[j - 1], results[j - 1], ledgers[j]);
    }
  }

  /** Attacking it again spends nothing, makes no attempt and reports the first evidence. */
  lemma LaterAttacksFree(ledgers: seq<map<string, string>>, jobs: seq<Job>, results: seq<Result<AttackReport>>, i: nat, j: nat)
    requires Series(ledgers, jobs, results) && i <= j < |jobs|
    requires jobs[j].problemId in ledgers[i] && jobs[j].problemId != "" && jobs[j].maxAttempts >= 1
    ensures var id := jobs[j].problemId;
      results[j] == Ok(AttackReport(id, true, 0, 0, Some(ledgers[i][id]), [])) && ledgers[j + 1] == ledgers[j]
  {
    SolvedForever(ledgers, jobs, results, i, j, jobs[j].problemId);
    assert Attacked(ledgers[j], jobs[j], results[j], ledgers[j + 1]);
  }

  /** Attack k put this evidence there: a certified, affordable candidate of its own. */
  ghost predicate Certified(job: Job, r: Result<AttackReport>, id: string, evidence: string)
    requires Configured(job)
  {
    && job.problemId == id && evidence != ""
    && r.Ok? && r.value.solved && r.value.evidence == Some(evidence) && r.value.attempts > 0
    && Wins(job, r.value.attempts - 1) && evidence == job.candidate(r.value.attempts - 1, id)
  }

  /** Every solution the series adds was certified by the attack that added it. */
  lemma {:induction false} SolutionsAreCertified(ledgers: seq<map<string, string>>, jobs: seq<Job>, results: seq<Result<AttackReport>>, j: nat, id: string)
    requires Series(ledgers, jobs, results) && j < |ledgers| && id in ledgers[j] && id !in ledgers[0]
    ensures exists k :: 0 <= k < j && Configured(jobs[k]) && Certified(jobs[k], results[k], id, ledgers[j][id])
    decreases j
  {
    var k := j - 1;
    assert Configured(jobs[k]) && Attacked(ledgers[k], jobs[k], results[k], ledgers[j]);
    if id in ledgers[k] {
      SolutionsAreCertified(ledgers, jobs, results, k, id);
    } else {
      SolvedIff(jobs[k], results[k].value);
      assert Certified(jobs[k], results[k], id, ledgers[j][id]);
    }
  }

  // ---------------------------------------------------------------- what a problem costs

  /** The spend reported by the attacks on one problem. */
  function SpentOn(jobs: seq<Job>, results: seq<Result<AttackReport>>, id: string): int
    requires |jobs| == |results|
  {
    if results == [] then 0
    else
      var n := |results| - 1;
      SpentOn(jobs[..n], results[..n], id) + if jobs[n].problemId == id && results[n].Ok? then results[n].value.spent else 0
  }

  /** What the one that succeeded has spent. */
  function WonOn(jobs: seq<Job>, results: seq<Result<AttackReport>>, id: string): int
    requires |jobs| == |results|
  {
    if results == [] then 0
    else
      var n := |results| - 1;
      WonOn(jobs[..n], results[..n], id)
      + if jobs[n].problemId == id && results[n].Ok? && results[n].value.solved then results[n].value.spent else 0
  }

  /** The terms of an attack: ladder, cap and number of attempts. */
  datatype Terms = Terms(rungs: seq<int>, cap: int, maxAttempts: int)

  function TermsOf(job: Job): Terms {
    Terms(job.rungs, job.cap, job.maxAttempts)
  }

  ghost predicate TermsOk(terms: Terms) {
    LadderOk(terms.rungs) && terms.cap > 0 && terms.maxAttempts >= 1
  }

  /** The price of a failed attack. */
  function Price(terms: Terms): int
    requires terms.rungs != []
  {
    Min(terms.cap, Allotted(terms.rungs, if terms.maxAttempts > 0 then terms.maxAttempts else 0))
  }

  /** What the attacks on a problem that failed cost, each its own price. */
  ghost function PricesOn(jobs: seq<Job>, results: seq<Result<AttackReport>>, id: string): int
    requires |jobs| == |results| && forall i :: 0 <= i < |jobs| ==> Configured(jobs[i])
  {
    if results == [] then 0
    else
      var n := |results| - 1;
      assert Configured(jobs[n]);
      PricesOn(jobs[..n], results[..n], id)
      + if jobs[n].problemId == id && results[n].Ok? && !results[n].value.solved then Price(TermsOf(jobs[n])) else 0
  }

  /** One attack: a failure costs the price, a success at most that, and an attack on a solved problem nothing. */
  lemma AttackCost(before: map<string, string>, job: Job, r: Result<AttackReport>, after: map<string, string>)
    requires Configured(job) && Attacked(before, job, r, after) && r.Ok?
    ensures job.problemId in before ==> r.value.solved && r.value.spent == 0
    ensures !r.value.solved ==> r.value.spent == Price(TermsOf(job)) > 0
    ensures r.value.solved && job.problemId !in before ==> 0 < r.value.spent <= Price(TermsOf(job)) <= job.cap && job.problemId in after
  {
    AllottedGrows(job.rungs, 0, job.maxAttempts);
    if job.problemId !in before {
      if r.value.solved {
        AllottedGrows(job.rungs, 0, r.value.attempts);
        AllottedGrows(job.rungs, r.value.attempts, job.maxAttempts);
      } else {
        FailureSpend(job, r.value);
      }
    }
  }

  /** The books of one problem after some attacks: the price of each failure, then perhaps one success. */
  ghost predicate Booked(first: map<string, string>, last: map<string, string>, id: string, spent: int, prices: int, won: int) {
    && spent == prices + won && won >= 0
    && (won > 0 <==> id in last && id !in first)
    && (id in first ==> prices == 0 && id in last)
  }

  lemma BookOne(first: map<string, string>, before: map<string, string>, after: map<string, string>, job: Job, r: Result<AttackReport>,
                id: string, spent: int, prices: int, won: int)
    requires Booked(first, before, id, spent, prices, won)
    requires Configured(job) && Attacked(before, job, r, after)
    ensures var counts := job.problemId == id && r.Ok?;
      Booked(first, after, id,
             spent + (if counts then r.value.spent else 0),
             prices + (if counts && !r.value.solved then Price(TermsOf(job)) else 0),
             won + (if counts && r.value.solved then r.value.spent else 0))
  {
    if job.problemId == id && r.Ok? {
      AttackCost(before, job, r, after);
      hide Price, Configured;
    }
  }

  lemma {:induction false} SeriesBooked(ledgers: seq<map<string, string>>, jobs: seq<Job>, results: seq<Result<AttackReport>>, id: string)
    requires Series(ledgers, jobs, results)
    ensures Booked(ledgers[0], ledgers[|jobs|], id, SpentOn(jobs, results, id), PricesOn(jobs, results, id), WonOn(jobs, results, id))
  {
    if jobs != [] {
      var n := |jobs| - 1;
      SeriesBooked(ledgers[..n + 1], jobs[..n], results[..n], id);
      assert Attacked(ledgers[n], jobs[n], results[n], ledgers[n + 1]);
      hide Booked, Attacked, Configured;
      BookOne(ledgers[0], ledgers[n], ledgers[n + 1], jobs[n], results[n], id,
              SpentOn(jobs[..n], results[..n], id), PricesOn(jobs[..n], results[..n], id), WonOn(jobs[..n], results[..n], id));
    }
  }

  /** Attack k solved the problem and has spent this, no more than its failure would have cost. */
  ghost predicate SolvedFor(jobs: seq<Job>, results: seq<Result<AttackReport>>, id: string, k: nat, spent: int)
    requires |jobs| == |results|
  {
    && k < |jobs| && Configured(jobs[k]) && jobs[k].problemId == id
    && results[k].Ok? && results[k].value.solved && results[k].value.spent == spent
    && 0 < spent <= Price(TermsOf(jobs[k])) <= jobs[k].cap
  }

  /** What was won was spent by one attack. */
  lemma {:induction false} WonByOne(ledgers: seq<map<string, string>>, jobs: seq<Job>, results: seq<Result<AttackReport>>, id: string)
    returns (k: nat)
    requires Series(ledgers, jobs, results) && id !in ledgers[0] && id in ledgers[|jobs|]
    ensures SolvedFor(jobs, results, id, k, WonOn(jobs, results, id))
  {
    var n := |jobs| - 1;
    var front, before := jobs[..n], results[..n];
    assert Series(ledgers[..n + 1], front, before);
    assert Attacked(ledgers[n], jobs[n], results[n], ledgers[n + 1]);
    SeriesBooked(ledgers[..n + 1], front, before, id);
    if jobs[n].problemId == id && results[n].Ok? {
      AttackCost(ledgers[n], jobs[n], results[n], ledgers[n + 1]);
    }
    hide Price, Configured, Describes, EmptyProof;
    if id in ledgers[n] {
      k := WonByOne(ledgers[..n + 1], front, before, id);
    } else {
      k := n;
    }
  }

  /** Over any series the attacks on a problem cost the price of each that failed, on its own terms, and, once the problem
      is solved, what the one success has spent. */
  lemma ProblemCost(ledgers: seq<map<string, string>>, jobs: seq<Job>, results: seq<Result<AttackReport>>, id: string)
    requires Series(ledgers, jobs, results) && id !in ledgers[0]
    ensures SpentOn(jobs, results, id) == PricesOn(jobs, results, id) + WonOn(jobs, results, id)
    ensures id !in ledgers[|jobs|] ==> WonOn(jobs, results, id) == 0
    ensures id in ledgers[|jobs|] ==> exists k: nat :: SolvedFor(jobs, results, id, k, WonOn(jobs, results, id))
  {
    SeriesBooked(ledgers, jobs, results, id);
    if id in ledgers[|jobs|] {
      var k := WonByOne(ledgers, jobs, results, id);
    }
  }

  /** Whatever candidates and verifier come with it, the next attack on these terms keeps the total within the cap. */
  ghost predicate NextIsSafe(before: map<string, string>, id: string, terms: Terms, spent: int)
    requires TermsOk(terms)
  {
    forall job, r, after :: Configured(job) && TermsOf(job) == terms && job.problemId == id && Attacked(before, job, r, after) && r.Ok?
      ==> spent + r.value.spent <= terms.cap
  }

  /** What a caller can check before attacking an unsolved problem again. */
  lemma NextIsSafeIff(before: map<string, string>, id: string, terms: Terms, spent: int)
    requires TermsOk(terms) && id != "" && id !in before
    ensures NextIsSafe(before, id, terms, spent) <==> spent + Price(terms) <= terms.cap
  {
    if spent + Price(terms) <= terms.cap {
      forall job, r, after | Configured(job) && TermsOf(job) == terms && job.problemId == id && Attacked(before, job, r, after) && r.Ok?
        ensures spent + r.value.spent <= terms.cap
      {
        AttackCost(before, job, r, after);
      }
    } else {
      var job := Job(terms.rungs, 1, terms.cap, (i, p) => "", _ => false, id, "", [], terms.maxAttempts);
      var report := RejectedReport(job);
      assert Attacked(before, job, Ok(report), before);
      FailureSpend(job, report);
    }
  }

  /** With a verifier that accepts nothing there is a report of failure. */
  lemma RejectedReport(job: Job) returns (report: AttackReport)
    requires Configured(job) && job.maxAttempts >= 0 && forall i: nat :: !Good(job, i)
    ensures Describes(job, report) && !report.solved
  {
    var history := RejectedHistory(job, [], 0);
    var n := |history|;
    report := AttackReport(job.problemId, false, n, Min(job.cap, Allotted(job.rungs, n)), None, history);
  }

  lemma {:induction false} RejectedHistory(job: Job, tried: seq<AttemptRecord>, n: nat) returns (history: seq<AttemptRecord>)
    requires Configured(job) && Tried(job, n, tried) && forall i: nat :: !Good(job, i)
    ensures Tried(job, |history|, history) && (|history| == job.maxAttempts || !Funded(job, |history|))
    decreases job.maxAttempts - n
  {
    if n == job.maxAttempts || !Funded(job, n) {
      history := tried;
    } else {
      var record := RecordOf(job, n, false);
      TriedMore(job, n, tried, record);
      history := RejectedHistory(job, tried + [record], n + 1);
    }
  }

  /** A ladder of one rung as large as the cap and a verifier that accepts nothing: two attacks spend twice the cap. */
  lemma CapIsPerAttack(id: string, cap: nat) returns (ledgers: seq<map<string, string>>, jobs: seq<Job>, results: seq<Result<AttackReport>>)
    requires id != "" && cap > 0
    ensures Series(ledgers, jobs, results) && ledgers[0] == map[] && |jobs| == 2
    ensures forall i :: 0 <= i < 2 ==> jobs[i].problemId == id && jobs[i].cap == cap
    ensures SpentOn(jobs, results, id) == 2 * cap > cap
  {
    var job := Job([cap], 1, cap, (i, p) => "", _ => false, id, "", [], 1);
    var report := RejectedReport(job);
    FailureSpend(job, report);
    assert Allotted([cap], 1) == cap;
    assert Attacked(map[], job, Ok(report), map[]);
    ledgers, jobs, results := [map[], map[], map[]], [job, job], [Ok(report), Ok(report)];
    assert jobs[..1] == [job] && results[..1] == [Ok(report)];
    assert SpentOn(jobs[..1], results[..1], id) == cap;
  }
}
