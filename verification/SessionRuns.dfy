/**
 * Many sessions over one set of tables, every await-free segment one step, in any order.
 */
module SessionRuns {
  import opened Options
  import opened Bytes
  import opened Bits
  import opened HexIds
  import opened VersionRotation
  import opened MiningJobs
  import opened Transactions
  import opened Merkle
  import opened JobTables
  import opened Sessions

  /** A submission that passed the lookups and the duplicate check, and the tip height at that moment. */
  datatype Pass = Pass(session: nat, submission: Submission, job: Job, template: Template, tip: int)

  datatype World = World(tables: Tables, sessions: map<nat, Session>, passed: seq<Pass>)

  datatype Event =
    | Connected(id: nat)
    | Refreshed(id: nat, node: NodeTemplate, now: int, fits: bool)
    | LocallyRefreshed(id: nat, now: int, fits: bool)
    | DifficultyChanged(id: nat, node: NodeTemplate, now: int, fits: bool)
    | JobWritten(id: nat, timestamp: int, now: int)
    | Closed(id: nat)
    | Submitted(id: nat, submission: Submission)

  const START := World(EMPTY_TABLES, map[], [])

  function Put(w: World, id: nat, r: (Tables, Session)): World {
    w.(tables := r.0, sessions := w.sessions[id := r.1])
  }

  /** Every template is fetched for the pool's one wallet address. */
  function Step(w: World, pool: Pool, e: Event): World {
    if e.Connected? then
      if e.id in w.sessions then w else w.(sessions := w.sessions[e.id := NEW_SESSION])
    else if e.id !in w.sessions then w
    else
      var s := w.sessions[e.id];
      match e
      case Refreshed(id, node, now, fits) => Put(w, id, AfterRefresh(w.tables, s, pool, node, now, fits))
      case LocallyRefreshed(id, now, fits) => Put(w, id, AfterLocalRefresh(w.tables, s, now, fits))
      case DifficultyChanged(id, node, now, fits) =>
        Put(w, id, AfterDifficultyChange(w.tables, s, pool, node, now, fits))
      case JobWritten(id, timestamp, now) =>
        Put(w, id, (w.tables, s.(lastSentTimestamp := Some(timestamp), lastLocalWorkSentAt := now)))
      case Closed(id) => Put(w, id, (w.tables, s.(open := false, current := None)))
      case Submitted(id, submission) => AfterSubmit(w, pool, id, submission)
  }

  function AfterSubmit(w: World, pool: Pool, id: nat, submission: Submission): World
    requires id in w.sessions
  {
    var verdict := Check(w.tables, w.sessions[id], submission);
    var w' := Put(w, id, (w.tables, AfterCheck(w.tables, w.sessions[id], submission)));
    if verdict.Fresh? then
      w'.(passed := w.passed + [Pass(id, submission, verdict.job, verdict.template, LastHeight(w.tables, pool.address))])
    else w'
  }

  function Run(pool: Pool, events: seq<Event>): World {
    if events == [] then START else Step(Run(pool, events[..|events| - 1]), pool, events[|events| - 1])
  }

  // ---------- tables ----------

  /** The id was handed out by a counter that now stands at n. */
  ghost predicate IssuedBefore(id: string, n: nat) {
    exists k: nat :: k < n && id == Hex(k)
  }

  lemma NextIdIsNew(n: nat)
    ensures !IssuedBefore(Hex(n), n)
    ensures IssuedBefore(Hex(n), n + 1)
  {
    forall k: nat | k < n ensures Hex(k) != Hex(n) {
      if Hex(k) == Hex(n) { HexInjective(k, n); }
    }
  }

  lemma StillIssued(id: string, n: nat)
    requires IssuedBefore(id, n)
    ensures IssuedBefore(id, n + 1)
  {
  }

  /** A job's own copy differs from the template in the version alone. */
  predicate SameWork(own: JobTemplate, work: JobTemplate) {
    own == Versioned(work, own.block.version)
  }

  ghost predicate TemplateOk(H: HashFunction, latestId: nat, height: int, k: string, template: Template) {
    && IssuedBefore(k, latestId) && template.work.id == k
    && template.work.height == height && BranchOk(H, template.work)
  }

  ghost predicate TemplatesOk(t: Tables, pool: Pool) {
    && t.latestJobTemplateId >= 1 && (t.latestJobTemplateId > 1 ==> Hex(t.latestJobTemplateId - 1) in t.blocks)
    && (forall k :: k in t.blocks ==>
          TemplateOk(pool.H, t.latestJobTemplateId, LastHeight(t, pool.address), k, t.blocks[k]))
  }

  ghost predicate JobOk(t: Tables, k: string, job: Job) {
    && IssuedBefore(k, t.latestJobId) && job.jobId == k
    && IssuedBefore(job.work.id, t.latestJobTemplateId)
    && (job.work.id in t.blocks ==> SameWork(job.work, t.blocks[job.work.id].work))
  }

  ghost predicate JobsOk(t: Tables) {
    forall k :: k in t.jobs ==> JobOk(t, k, t.jobs[k])
  }

  ghost predicate TablesOk(t: Tables, pool: Pool) {
    TemplatesOk(t, pool) && JobsOk(t)
  }

  /** A template some session holds: if it is still in the table, it is the same one. */
  ghost predicate HeldOk(t: Tables, held: Template) {
    && IssuedBefore(held.work.id, t.latestJobTemplateId)
    && (held.work.id in t.blocks ==> t.blocks[held.work.id].work == held.work)
  }

  ghost predicate SessionOk(t: Tables, s: Session) {
    && (s.current.Some? ==> HeldOk(t, s.current.value))
    && IssuedOk(s)
  }

  /** How tables may change: ids are never reused, and what is still there is what was there. */
  ghost predicate TablesGrow(t: Tables, t': Tables) {
    && t.latestJobId <= t'.latestJobId && t.latestJobTemplateId <= t'.latestJobTemplateId
    && (forall k :: k in t'.jobs && IssuedBefore(k, t.latestJobId) ==> k in t.jobs && t'.jobs[k] == t.jobs[k])
    && (forall k :: k in t'.blocks && IssuedBefore(k, t.latestJobTemplateId) ==>
          k in t.blocks && t'.blocks[k] == t.blocks[k])
  }

  lemma {:induction false} IssuedLater(id: string, n: nat, m: nat)
    requires IssuedBefore(id, n) && n <= m
    ensures IssuedBefore(id, m)
  {
  }

  lemma HeldStaysOk(t: Tables, t': Tables, held: Template)
    requires HeldOk(t, held) && TablesGrow(t, t')
    ensures HeldOk(t', held)
  {
    IssuedLater(held.work.id, t.latestJobTemplateId, t'.latestJobTemplateId);
  }

  lemma BuildKeepsTables(t: Tables, pool: Pool, node: NodeTemplate, now: int)
    requires TablesOk(t, pool)
    ensures var t' := AfterBuild(t, pool, node, now);
            TablesOk(t', pool) && TablesGrow(t, t') && HeldOk(t', BuiltTemplate(t, pool, node, now))
  {
    BuildKeepsTemplates(t, pool, node, now);
    BuildKeepsJobs(t, pool, node, now);
    BuildGrows(t, pool, node, now);
    NextIdIsNew(t.latestJobTemplateId);
  }

  lemma BuiltOk(t: Tables, pool: Pool, node: NodeTemplate, now: int)
    ensures TemplateOk(pool.H, t.latestJobTemplateId + 1, node.height, Hex(t.latestJobTemplateId),
                       BuiltTemplate(t, pool, node, now))
  {
    NextIdIsNew(t.latestJobTemplateId);
  }

  lemma TemplateStaysOk(H: HashFunction, latestId: nat, height: int, k: string, template: Template)
    requires TemplateOk(H, latestId, height, k, template)
    ensures TemplateOk(H, latestId + 1, height, k, template)
  {
    StillIssued(k, latestId);
  }

  lemma BuildKeepsTemplates(t: Tables, pool: Pool, node: NodeTemplate, now: int)
    requires TemplatesOk(t, pool)
    ensures TemplatesOk(AfterBuild(t, pool, node, now), pool)
  {
    var t' := AfterBuild(t, pool, node, now);
    var id := Hex(t.latestJobTemplateId);
    BuiltOk(t, pool, node, now);
    assert t'.blocks[id] == BuiltTemplate(t, pool, node, now) && LastHeight(t', pool.address) == node.height;
    forall k | k in t'.blocks ensures TemplateOk(pool.H, t'.latestJobTemplateId, node.height, k, t'.blocks[k]) {
      if k != id {
        assert k in t.blocks && t'.blocks[k] == t.blocks[k] && node.height == LastHeight(t, pool.address);
        TemplateStaysOk(pool.H, t.latestJobTemplateId, node.height, k, t.blocks[k]);
      }
    }
  }

  lemma BuildGrows(t: Tables, pool: Pool, node: NodeTemplate, now: int)
    ensures TablesGrow(t, AfterBuild(t, pool, node, now))
  {
    NextIdIsNew(t.latestJobTemplateId);
  }

  lemma BuildKeepsJobs(t: Tables, pool: Pool, node: NodeTemplate, now: int)
    requires JobsOk(t)
    ensures JobsOk(AfterBuild(t, pool, node, now))
  {
    var t' := AfterBuild(t, pool, node, now);
    NextIdIsNew(t.latestJobTemplateId);
    forall k | k in t'.jobs ensures JobOk(t', k, t'.jobs[k]) {
      assert JobOk(t, k, t.jobs[k]);
      StillIssued(t.jobs[k].work.id, t.latestJobTemplateId);
    }
  }

  lemma AddJobKeepsTables(t: Tables, pool: Pool, template: Template, version: Word, now: int)
    requires TablesOk(t, pool) && HeldOk(t, template)
    ensures var t' := AfterAddJob(t, JobOf(t, template, version, now));
            TablesOk(t', pool) && TablesGrow(t, t')
  {
    var job := JobOf(t, template, version, now);
    var t' := AfterAddJob(t, job);
    NewJobOk(t, template, version, now);
    forall k | k in t'.jobs ensures JobOk(t', k, t'.jobs[k]) {
      if k != job.jobId { OldJobOk(t, job, k); }
    }
    AddJobGrows(t, job);
  }

  lemma OldJobOk(t: Tables, job: Job, k: string)
    requires k in t.jobs && JobOk(t, k, t.jobs[k])
    ensures JobOk(AfterAddJob(t, job), k, t.jobs[k])
  {
    StillIssued(k, t.latestJobId);
  }

  lemma AddJobGrows(t: Tables, job: Job)
    requires job.jobId == Hex(t.latestJobId)
    ensures TablesGrow(t, AfterAddJob(t, job))
    ensures forall pool :: TemplatesOk(t, pool) ==> TemplatesOk(AfterAddJob(t, job), pool)
  {
    NextIdIsNew(t.latestJobId);
  }

  lemma NewJobOk(t: Tables, template: Template, version: Word, now: int)
    requires HeldOk(t, template)
    ensures var job := JobOf(t, template, version, now); JobOk(AfterAddJob(t, job), job.jobId, job)
  {
    NextIdIsNew(t.latestJobId);
  }

  lemma SendKeepsOk(t: Tables, s: Session, pool: Pool, template: Template, now: int, fits: bool)
    requires TablesOk(t, pool) && SessionOk(t, s) && HeldOk(t, template)
    ensures var (t', s') := AfterSend(t, s, template, now, fits);
            TablesOk(t', pool) && SessionOk(t', s') && TablesGrow(t, t') && s'.hashes == s.hashes
  {
    var (t', s') := AfterSend(t, s, template, now, fits);
    if s.open {
      SendTables(t, s, pool, template, now, fits);
      SendIssues(t, s, template, now, fits);
      if s.current.Some? { HeldStaysOk(t, t', s.current.value); }
    }
  }

  lemma SendTables(t: Tables, s: Session, pool: Pool, template: Template, now: int, fits: bool)
    requires TablesOk(t, pool) && HeldOk(t, template) && s.open
    ensures var t' := AfterSend(t, s, template, now, fits).0; TablesOk(t', pool) && TablesGrow(t, t')
  {
    var counter := if template.clearJobs then 0 else s.counter;
    AddJobKeepsTables(t, pool, template, RotatedVersion(template.work.block.version, counter), now);
  }

  ghost predicate IssuedOk(s: Session) {
    s.counter == |s.issued| && forall i :: 0 <= i < |s.issued| ==> s.issued[i].jobVersion == JobVersion(s.issued[i].base, i)
  }

  lemma SendIssues(t: Tables, s: Session, template: Template, now: int, fits: bool)
    requires IssuedOk(s) && s.open
    ensures var s' := AfterSend(t, s, template, now, fits).1;
            IssuedOk(s') && s'.current == s.current && s'.hashes == s.hashes
  {
  }

  // ---------- the whole system ----------

  /** A passed submission is remembered by its session, or its job is gone for good. */
  ghost predicate PassOk(w: World, pool: Pool, p: Pass) {
    && p.session in w.sessions
    && IssuedBefore(p.submission.jobId, w.tables.latestJobId)
    && (SubmissionHash(p.submission) in w.sessions[p.session].hashes || p.submission.jobId !in w.tables.jobs)
    && SameWork(p.job.work, p.template.work) && BranchOk(pool.H, p.template.work)
    && p.job.jobId == p.submission.jobId && (p.submission.jobId in w.tables.jobs ==> w.tables.jobs[p.submission.jobId] == p.job)
    && p.template.work.height == p.tip
  }

  ghost predicate Inv(w: World, pool: Pool) {
    && TablesOk(w.tables, pool)
    && (forall id :: id in w.sessions ==> SessionOk(w.tables, w.sessions[id]))
    && (forall i :: 0 <= i < |w.passed| ==> PassOk(w, pool, w.passed[i]))
    && (forall i, j :: 0 <= i < j < |w.passed| && w.passed[i].session == w.passed[j].session ==>
          w.passed[i].submission != w.passed[j].submission)
    && (forall i, j :: 0 <= i < j < |w.passed| && w.passed[i].submission.jobId == w.passed[j].submission.jobId ==>
          w.passed[i].job == w.passed[j].job)
  }

  /** No job handed out earlier is left. */
  ghost predicate Wiped(t: Tables, t': Tables) {
    forall k :: k in t'.jobs ==> !IssuedBefore(k, t.latestJobId)
  }

  lemma SessionStaysOk(t: Tables, t': Tables, s: Session)
    requires SessionOk(t, s) && TablesGrow(t, t')
    ensures SessionOk(t', s)
  {
    if s.current.Some? { HeldStaysOk(t, t', s.current.value); }
  }

  /** A session's hash set may only be forgotten together with all earlier jobs. */
  lemma PutKeepsPass(w: World, pool: Pool, id: nat, t': Tables, s': Session, p: Pass)
    requires PassOk(w, pool, p) && id in w.sessions && TablesGrow(w.tables, t')
    requires w.sessions[id].hashes <= s'.hashes || Wiped(w.tables, t')
    ensures PassOk(Put(w, id, (t', s')), pool, p)
  {
    IssuedLater(p.submission.jobId, w.tables.latestJobId, t'.latestJobId);
  }

  lemma PutKeepsInv(w: World, pool: Pool, id: nat, t': Tables, s': Session)
    requires Inv(w, pool) && id in w.sessions
    requires TablesOk(t', pool) && TablesGrow(w.tables, t') && SessionOk(t', s')
    requires w.sessions[id].hashes <= s'.hashes || Wiped(w.tables, t')
    ensures Inv(Put(w, id, (t', s')), pool)
  {
    forall k | k in w.sessions && k != id ensures SessionOk(t', w.sessions[k]) {
      SessionStaysOk(w.tables, t', w.sessions[k]);
    }
    forall i | 0 <= i < |w.passed| ensures PassOk(Put(w, id, (t', s')), pool, w.passed[i]) {
      PutKeepsPass(w, pool, id, t', s', w.passed[i]);
    }
  }

  lemma GrowTransitive(a: Tables, b: Tables, c: Tables)
    requires TablesGrow(a, b) && TablesGrow(b, c)
    ensures TablesGrow(a, c)
  {
    forall k | k in c.jobs && IssuedBefore(k, a.latestJobId)
      ensures k in a.jobs && c.jobs[k] == a.jobs[k]
    {
      IssuedLater(k, a.latestJobId, b.latestJobId);
    }
    forall k | k in c.blocks && IssuedBefore(k, a.latestJobTemplateId) ensures k in a.blocks && c.blocks[k] == a.blocks[k] {
      IssuedLater(k, a.latestJobTemplateId, b.latestJobTemplateId);
    }
  }

  lemma RefreshKeepsInv(w: World, pool: Pool, id: nat, node: NodeTemplate, now: int, fits: bool)
    requires Inv(w, pool) && id in w.sessions
    ensures Inv(Put(w, id, AfterRefresh(w.tables, w.sessions[id], pool, node, now, fits)), pool)
  {
    var t, s := w.tables, w.sessions[id];
    var template := BuiltTemplate(t, pool, node, now);
    var t1 := AfterBuild(t, pool, node, now);
    BuildKeepsTables(t, pool, node, now);
    var s1 := s.(hashes := if template.clearJobs then {} else s.hashes, current := Some(template));
    SendKeepsOk(t1, s1, pool, template, now, fits);
    var (t2, s2) := AfterSend(t1, s1, template, now, fits);
    GrowTransitive(t, t1, t2);
    if template.clearJobs {
      NextIdIsNew(t.latestJobId);
      assert Wiped(t, t2);
    }
    PutKeepsInv(w, pool, id, t2, s2);
  }

  lemma LocalRefreshKeepsInv(w: World, pool: Pool, id: nat, now: int, fits: bool)
    requires Inv(w, pool) && id in w.sessions
    ensures Inv(Put(w, id, AfterLocalRefresh(w.tables, w.sessions[id], now, fits)), pool)
  {
    var t, s := w.tables, w.sessions[id];
    var (t', s') := AfterLocalRefresh(t, s, now, fits);
    if s.open && s.current.Some? && now - s.lastLocalWorkSentAt >= 350 {
      SendKeepsOk(t, s, pool, LocalTemplate(s.current.value, now), now, fits);
    }
    PutKeepsInv(w, pool, id, t', s');
  }

  lemma DifficultyChangeKeepsInv(w: World, pool: Pool, id: nat, node: NodeTemplate, now: int, fits: bool)
    requires Inv(w, pool) && id in w.sessions
    ensures Inv(Put(w, id, AfterDifficultyChange(w.tables, w.sessions[id], pool, node, now, fits)), pool)
  {
    var t, s := w.tables, w.sessions[id];
    var t1 := if s.current.Some? then t else AfterBuild(t, pool, node, now);
    var base := if s.current.Some? then s.current.value else BuiltTemplate(t, pool, node, now);
    BuildKeepsTables(t, pool, node, now);
    var cleared := ClearedTemplate(base, s.lastSentTimestamp, now);
    SendKeepsOk(t1, s.(current := Some(base)), pool, cleared, now, fits);
    var (t2, s2) := AfterSend(t1, s.(current := Some(base)), cleared, now, fits);
    GrowTransitive(t, t1, t2);
    PutKeepsInv(w, pool, id, t2, s2);
  }

  lemma NewPassOk(w: World, pool: Pool, id: nat, submission: Submission)
    requires Inv(w, pool) && id in w.sessions && Check(w.tables, w.sessions[id], submission).Fresh?
    ensures var verdict := Check(w.tables, w.sessions[id], submission);
            PassOk(Put(w, id, (w.tables, AfterCheck(w.tables, w.sessions[id], submission))), pool,
                   Pass(id, submission, verdict.job, verdict.template, LastHeight(w.tables, pool.address)))
  {
    assert JobOk(w.tables, submission.jobId, w.tables.jobs[submission.jobId]);
  }

  lemma RecordKeepsInv(w: World, pool: Pool, p: Pass)
    requires Inv(w, pool) && PassOk(w, pool, p)
    requires forall i :: 0 <= i < |w.passed| && w.passed[i].session == p.session ==> w.passed[i].submission != p.submission
    requires p.submission.jobId in w.tables.jobs
    ensures Inv(w.(passed := w.passed + [p]), pool)
  {
    var w' := w.(passed := w.passed + [p]);
    forall i | 0 <= i < |w'.passed| ensures PassOk(w', pool, w'.passed[i]) {
      assert PassOk(w, pool, w'.passed[i]);
    }
    forall i | 0 <= i < |w.passed| && w.passed[i].submission.jobId == p.submission.jobId ensures w.passed[i].job == p.job {
      assert PassOk(w, pool, w.passed[i]);
    }
  }

  lemma NotPassedBefore(w: World, pool: Pool, id: nat, submission: Submission, i: nat)
    requires Inv(w, pool) && id in w.sessions && Check(w.tables, w.sessions[id], submission).Fresh?
    requires i < |w.passed| && w.passed[i].session == id
    ensures w.passed[i].submission != submission
  {
    assert PassOk(w, pool, w.passed[i]);
  }

  lemma SubmitKeepsInv(w: World, pool: Pool, id: nat, submission: Submission)
    requires Inv(w, pool) && id in w.sessions
    ensures Inv(AfterSubmit(w, pool, id, submission), pool)
  {
    var s' := AfterCheck(w.tables, w.sessions[id], submission);
    PutKeepsInv(w, pool, id, w.tables, s');
    var verdict := Check(w.tables, w.sessions[id], submission);
    if verdict.Fresh? {
      NewPassOk(w, pool, id, submission);
      forall i | 0 <= i < |w.passed| && w.passed[i].session == id ensures w.passed[i].submission != submission {
        NotPassedBefore(w, pool, id, submission, i);
      }
      var p := Pass(id, submission, verdict.job, verdict.template, LastHeight(w.tables, pool.address));
      RecordKeepsInv(Put(w, id, (w.tables, s')), pool, p);
    }
  }

  lemma ConnectKeepsInv(w: World, pool: Pool, id: nat)
    requires Inv(w, pool)
    ensures Inv(Step(w, pool, Connected(id)), pool)
  {
    var w' := Step(w, pool, Connected(id));
    forall i | 0 <= i < |w.passed| ensures PassOk(w', pool, w.passed[i]) { assert PassOk(w, pool, w.passed[i]); }
  }

  lemma StepKeepsInv(w: World, pool: Pool, e: Event)
    requires Inv(w, pool)
    ensures Inv(Step(w, pool, e), pool)
  {
    if e.Connected? {
      ConnectKeepsInv(w, pool, e.id);
    } else if e.id in w.sessions {
      var s := w.sessions[e.id];
      match e
      case Refreshed(id, node, now, fits) => RefreshKeepsInv(w, pool, id, node, now, fits);
      case LocallyRefreshed(id, now, fits) => LocalRefreshKeepsInv(w, pool, id, now, fits);
      case DifficultyChanged(id, node, now, fits) => DifficultyChangeKeepsInv(w, pool, id, node, now, fits);
      case JobWritten(id, timestamp, now) =>
        PutKeepsInv(w, pool, id, w.tables, s.(lastSentTimestamp := Some(timestamp), lastLocalWorkSentAt := now));
      case Closed(id) => PutKeepsInv(w, pool, id, w.tables, s.(open := false, current := None));
      case Submitted(id, submission) => SubmitKeepsInv(w, pool, id, submission);
    }
  }

  lemma {:induction false} RunKeepsInv(pool: Pool, events: seq<Event>)
    ensures Inv(Run(pool, events), pool)
  {
    if events != [] {
      RunKeepsInv(pool, events[..|events| - 1]);
      StepKeepsInv(Run(pool, events[..|events| - 1]), pool, events[|events| - 1]);
    }
  }

  // ---------- what follows for every run ----------

  /** One tuple passes a session's duplicate check at most once, although the hash set is cleared. */
  lemma AtMostOneCredit(pool: Pool, events: seq<Event>, i: nat, j: nat)
    requires var w := Run(pool, events);
             i < j < |w.passed| && w.passed[i].session == w.passed[j].session
    ensures var w := Run(pool, events);
            w.passed[i].submission != w.passed[j].submission
  {
    RunKeepsInv(pool, events);
  }

  /**
   * Whatever passes both lookups is for the height of the most recently built template, and the template
   * found is the one its job was built from.
   */
  lemma NoStaleWork(pool: Pool, events: seq<Event>, id: nat, submission: Submission)
    requires var w := Run(pool, events);
             id in w.sessions && Check(w.tables, w.sessions[id], submission).Fresh?
    ensures var w := Run(pool, events);
            var verdict := Check(w.tables, w.sessions[id], submission);
            && verdict.template.work.height == LastHeight(w.tables, pool.address)
            && SameWork(verdict.job.work, verdict.template.work) && BranchOk(pool.H, verdict.template.work)
            && verdict.job.jobId == submission.jobId
  {
    RunKeepsInv(pool, events);
  }

  /** Right after a refresh, no job and no template is older than five minutes, the job just sent included. */
  lemma NothingOldAfterRefresh(w: World, pool: Pool, e: Event)
    requires e.Refreshed? && e.id in w.sessions
    ensures var t := Step(w, pool, e).tables;
            && (forall k :: k in t.blocks ==> e.now - t.blocks[k].creation <= MAX_AGE_MS)
            && (forall k :: k in t.jobs ==> e.now - t.jobs[k].creation <= MAX_AGE_MS)
  {
    NothingOldRemains(w.tables, pool, e.node, e.now);
  }

  // ---------- work on the latest previous hash ----------

  predicate HasNewest(t: Tables) {
    t.latestJobTemplateId > 1 && Hex(t.latestJobTemplateId - 1) in t.blocks
  }

  /** The most recently built template. */
  function Newest(t: Tables): Template
    requires HasNewest(t)
  {
    t.blocks[Hex(t.latestJobTemplateId - 1)]
  }

  function TipOf(template: Template): Hash {
    template.work.block.prevHash
  }

  predicate AllOn(blocks: map<string, Template>, tip: Hash) {
    forall k :: k in blocks ==> TipOf(blocks[k]) == tip
  }

  /** Every template in the table is on the newest one's previous hash. */
  predicate OneTip(t: Tables) {
    HasNewest(t) ==> AllOn(t.blocks, TipOf(Newest(t)))
  }

  /** Checkable before a build: a new height, or no recent template on another previous hash. */
  predicate KeepsTip(t: Tables, pool: Pool, node: NodeTemplate, now: int) {
    || node.height != LastHeight(t, pool.address)
    || forall k :: k in t.blocks && now - t.blocks[k].creation <= MAX_AGE_MS ==> TipOf(t.blocks[k]) == node.prevHash
  }

  /** `clearJobs` compares heights alone: one tip is left exactly when the recent templates were on it already. */
  lemma BuildLeavesOneTipIff(t: Tables, pool: Pool, node: NodeTemplate, now: int)
    requires TemplatesOk(t, pool)
    ensures OneTip(AfterBuild(t, pool, node, now)) <==> KeepsTip(t, pool, node, now)
  {
    var t' := AfterBuild(t, pool, node, now);
    NextIdIsNew(t.latestJobTemplateId);
    NewestIsBuilt(t, pool, node, now);
    if node.height == LastHeight(t, pool.address) {
      KeptAndNew(t.blocks, t'.blocks, Hex(t.latestJobTemplateId), node.prevHash, now);
    }
  }

  lemma NewestIsBuilt(t: Tables, pool: Pool, node: NodeTemplate, now: int)
    requires t.latestJobTemplateId >= 1
    ensures var t' := AfterBuild(t, pool, node, now);
            && HasNewest(t') && Newest(t') == BuiltTemplate(t, pool, node, now) && TipOf(Newest(t')) == node.prevHash
            && (node.height != LastHeight(t, pool.address) ==> t'.blocks.Keys == {Hex(t.latestJobTemplateId)})
  {
  }

  lemma KeptAndNew(blocks: map<string, Template>, after: map<string, Template>, id: string, tip: Hash, now: int)
    requires id !in blocks && id in after && TipOf(after[id]) == tip
    requires forall k :: k in after && k != id <==> k in blocks && now - blocks[k].creation <= MAX_AGE_MS
    requires forall k :: k in after && k != id ==> after[k] == blocks[k]
    ensures AllOn(after, tip) <==>
              forall k :: k in blocks && now - blocks[k].creation <= MAX_AGE_MS ==> TipOf(blocks[k]) == tip
  {
    if AllOn(after, tip) {
      forall k | k in blocks && now - blocks[k].creation <= MAX_AGE_MS ensures TipOf(blocks[k]) == tip {
        assert k in after && k != id;
      }
    }
  }

  /** The event asks the node for a template. */
  predicate Builds(w: World, e: Event) {
    !e.Connected? && e.id in w.sessions && (e.Refreshed? || (e.DifficultyChanged? && w.sessions[e.id].current.None?))
  }

  lemma StepBlocks(w: World, pool: Pool, e: Event)
    ensures var t := if Builds(w, e) then AfterBuild(w.tables, pool, e.node, e.now) else w.tables;
            var t' := Step(w, pool, e).tables;
            t'.blocks == t.blocks && t'.latestJobTemplateId == t.latestJobTemplateId
  {
  }

  lemma StepLeavesOneTipIff(w: World, pool: Pool, e: Event)
    requires TemplatesOk(w.tables, pool)
    ensures OneTip(Step(w, pool, e).tables) <==>
              if Builds(w, e) then KeepsTip(w.tables, pool, e.node, e.now) else OneTip(w.tables)
  {
    StepBlocks(w, pool, e);
    if Builds(w, e) {
      BuildLeavesOneTipIff(w.tables, pool, e.node, e.now);
    }
  }

  /** The last build of the run found the tip it kept. */
  predicate LastBuildKeptTip(pool: Pool, events: seq<Event>) {
    events == [] ||
    var front, last := events[..|events| - 1], events[|events| - 1];
    if Builds(Run(pool, front), last) then KeepsTip(Run(pool, front).tables, pool, last.node, last.now)
    else LastBuildKeptTip(pool, front)
  }

  /** In every run all templates in the table are on one previous hash exactly when the last build kept the tip. */
  lemma {:induction false} OneTipIff(pool: Pool, events: seq<Event>)
    ensures OneTip(Run(pool, events).tables) <==> LastBuildKeptTip(pool, events)
  {
    if events != [] {
      var front, last := events[..|events| - 1], events[|events| - 1];
      RunKeepsInv(pool, front);
      StepLeavesOneTipIff(Run(pool, front), pool, last);
      OneTipIff(pool, front);
      assert Run(pool, events) == Step(Run(pool, front), pool, last);
    }
  }

  /** A job whose template is still in the table, on another previous hash than the newest template. */
  predicate Stale(t: Tables, k: string)
    requires HasNewest(t) && k in t.jobs
  {
    t.jobs[k].work.id in t.blocks && TipOf(t.blocks[t.jobs[k].work.id]) != TipOf(Newest(t))
  }

  /** Every session can still submit something for every job in the table. */
  lemma FreshExists(hashes: set<string>, jobId: string) returns (submission: Submission)
    ensures submission.jobId == jobId && SubmissionHash(submission) !in hashes
  {
    var n := LongerThanAll(hashes);
    submission := Submission(jobId, seq(n, _ => '0'), "", "", None);
    assert |SubmissionHash(submission)| >= n;
  }

  lemma {:induction false} LongerThanAll(hashes: set<string>) returns (n: nat)
    ensures forall h :: h in hashes ==> |h| < n
    decreases |hashes|
  {
    if hashes == {} {
      n := 0;
    } else {
      var h :| h in hashes;
      var m := LongerThanAll(hashes - {h});
      n := if m > |h| then m else |h| + 1;
      forall g | g in hashes ensures |g| < n {
        if g != h { assert g in hashes - {h}; }
      }
    }
  }

  /**
   * Everything a session can get past both lookups is on the newest template's previous hash exactly when no
   * job in the table is stale.
   */
  lemma WorkIsCurrentIff(pool: Pool, events: seq<Event>, id: nat)
    requires var w := Run(pool, events); id in w.sessions && w.tables.latestJobTemplateId > 1
    ensures var w := Run(pool, events);
            && HasNewest(w.tables)
            && ((forall s :: Check(w.tables, w.sessions[id], s).Fresh? ==>
                   TipOf(Check(w.tables, w.sessions[id], s).template) == TipOf(Newest(w.tables)))
                <==> forall k :: k in w.tables.jobs ==> !Stale(w.tables, k))
  {
    RunKeepsInv(pool, events);
    var w := Run(pool, events);
    forall k | k in w.tables.jobs && Stale(w.tables, k)
      ensures exists s :: Check(w.tables, w.sessions[id], s).Fresh?
                && TipOf(Check(w.tables, w.sessions[id], s).template) != TipOf(Newest(w.tables))
    {
      var s := FreshExists(w.sessions[id].hashes, k);
      assert Check(w.tables, w.sessions[id], s).Fresh?;
    }
  }

  /** With one tip in the table no job is stale; when every template has a job, only then. */
  lemma NoStaleJobIff(t: Tables)
    requires HasNewest(t)
    ensures OneTip(t) ==> forall k :: k in t.jobs ==> !Stale(t, k)
    ensures (forall b :: b in t.blocks ==> exists k :: k in t.jobs && t.jobs[k].work.id == b) ==>
              (OneTip(t) <==> forall k :: k in t.jobs ==> !Stale(t, k))
  {
    if (forall b :: b in t.blocks ==> exists k :: k in t.jobs && t.jobs[k].work.id == b)
       && (forall k :: k in t.jobs ==> !Stale(t, k)) {
      forall b | b in t.blocks ensures TipOf(t.blocks[b]) == TipOf(Newest(t)) {
        var k :| k in t.jobs && t.jobs[k].work.id == b;
        assert !Stale(t, k);
      }
    }
  }

  /**
   * A block replaced at the same height: the template and the job on the old previous hash stay, and a
   * share for that job still passes both lookups.
   */
  lemma SameHeightReplacement(pool: Pool, earlier: NodeTemplate, later: NodeTemplate, now: int, submission: Submission)
    requires earlier.height == later.height && earlier.prevHash != later.prevHash && submission.jobId == Hex(1)
    ensures var w := Run(pool, [Connected(0), Refreshed(0, earlier, now, true), Refreshed(0, later, now, true)]);
            && 0 in w.sessions && HasNewest(w.tables)
            && var verdict := Check(w.tables, w.sessions[0], submission);
               && verdict.Fresh? && TipOf(verdict.template) == earlier.prevHash
               && TipOf(Newest(w.tables)) == later.prevHash
  {
    var events := [Connected(0), Refreshed(0, earlier, now, true), Refreshed(0, later, now, true)];
    var one := OneRefresh(pool, earlier, now);
    assert events[..2] == [Connected(0), Refreshed(0, earlier, now, true)];
    assert Run(pool, events) == Step(one, pool, events[2]);
    if Hex(1) == Hex(2) { HexInjective(1, 2); }
  }

  /** The world after the first refresh of the first session. */
  lemma OneRefresh(pool: Pool, node: NodeTemplate, now: int) returns (w: World)
    ensures w == Run(pool, [Connected(0), Refreshed(0, node, now, true)])
    ensures w.tables.latestJobId == 2 && w.tables.latestJobTemplateId == 2
    ensures w.tables.blocks.Keys == {Hex(1)} && w.tables.jobs.Keys == {Hex(1)}
    ensures w.tables.blocks[Hex(1)].work == BuiltWork(EMPTY_TABLES, pool.H, node)
    ensures w.tables.blocks[Hex(1)].creation == now && w.tables.jobs[Hex(1)].creation == now
    ensures w.tables.jobs[Hex(1)].work == Versioned(BuiltWork(EMPTY_TABLES, pool.H, node), w.tables.jobs[Hex(1)].work.block.version)
    ensures LastHeight(w.tables, pool.address) == node.height
    ensures w.tables.jobs[Hex(1)].work.block.version == RotatedVersion(node.version, 0)
    ensures w.sessions.Keys == {0} && w.sessions[0].open && w.sessions[0].hashes == {} && w.passed == []
    ensures w.sessions[0].counter == 1
  {
    var events := [Connected(0), Refreshed(0, node, now, true)];
    assert events[..1] == [Connected(0)] && events[..1][..0] == [];
    var first := Step(START, pool, Connected(0));
    assert Run(pool, events[..1]) == first;
    w := Step(first, pool, events[1]);
  }

  /** All templates in the table have one height, the latest. */
  lemma OneHeight(pool: Pool, events: seq<Event>, a: string, b: string)
    requires var blocks := Run(pool, events).tables.blocks; a in blocks && b in blocks
    ensures var t := Run(pool, events).tables;
            t.blocks[a].work.height == t.blocks[b].work.height == LastHeight(t, pool.address)
  {
    RunKeepsInv(pool, events);
  }

  /** The i-th job since the last reset carries rotation i on its template's version. */
  lemma RotationFollowsCounter(pool: Pool, events: seq<Event>, id: nat, i: nat)
    requires var w := Run(pool, events); id in w.sessions && i < |w.sessions[id].issued|
    ensures var r := Run(pool, events).sessions[id].issued[i];
            r.jobVersion == JobVersion(r.base, i)
  {
    RunKeepsInv(pool, events);
    var w := Run(pool, events);
    assert SessionOk(w.tables, w.sessions[id]);
  }

  /** Since the last reset, a job differs from its template's version in bits 13-16 only. */
  lemma OtherVersionBitsAreTheTemplates(pool: Pool, events: seq<Event>, id: nat, i: nat, bit: nat)
    requires var w := Run(pool, events); id in w.sessions && i < |w.sessions[id].issued|
    requires bit < 13 || bit >= 17
    ensures var r := Run(pool, events).sessions[id].issued[i];
            Bit(r.jobVersion, bit) == Bit(r.base, bit)
  {
    RotationFollowsCounter(pool, events, id, i);
    JobVersionBit(Run(pool, events).sessions[id].issued[i].base, i, bit);
  }

  /**
   * Since the last reset, two jobs of a session less than 16 apart never lead to the same header while
   * miners roll only the bits they were granted (BIP 320), whatever the rest of the headers.
   */
  lemma DisjointSearchSpaces(pool: Pool, events: seq<Event>, id: nat, i: nat, j: nat, m: Number, n: Number,
                             prev1: Hash, root1: Hash, time1: Number, bits1: Uint32, nonce1: Number,
                             prev2: Hash, root2: Hash, time2: Number, bits2: Uint32, nonce2: Number)
    requires var w := Run(pool, events); id in w.sessions && i < j < |w.sessions[id].issued| && j - i < 16
    requires WithinMinerMask(ToWord(m)) && WithinMinerMask(ToWord(n))
    ensures var issued := Run(pool, events).sessions[id].issued;
            var first := EncodeHeader(HeaderVersion(issued[i].jobVersion, m), prev1, root1, time1, bits1, nonce1);
            var second := EncodeHeader(HeaderVersion(issued[j].jobVersion, n), prev2, root2, time2, bits2, nonce2);
            first.Some? && second.Some? ==> first != second
  {
    RotationFollowsCounter(pool, events, id, i);
    RotationFollowsCounter(pool, events, id, j);
    var issued := Run(pool, events).sessions[id].issued;
    DifferentRotation(i, j);
    RotatedHeadersDiffer(issued[i].base, i, m, issued[j].base, j, n,
                         prev1, root1, time1, bits1, nonce1, prev2, root2, time2, bits2, nonce2);
  }

  lemma DifferentRotation(i: nat, j: nat)
    requires i < j < i + 16
    ensures i % 16 != j % 16
  {
  }

  // ---------- where the work comes from ----------

  predicate AsksNode(e: Event) {
    e.Refreshed? || e.DifficultyChanged?
  }

  /** The k-th event brought the node's answer that this work carries. */
  predicate AnsweredAt(H: HashFunction, events: seq<Event>, work: JobTemplate, k: nat) {
    k < |events| && AsksNode(events[k]) && AnswersWith(H, work, events[k].node)
  }

  ghost predicate Answered(H: HashFunction, events: seq<Event>, work: JobTemplate) {
    exists k: nat :: AnsweredAt(H, events, work, k)
  }

  lemma StillAnswered(H: HashFunction, events: seq<Event>, e: Event, work: JobTemplate)
    requires Answered(H, events, work)
    ensures Answered(H, events + [e], work)
  {
    var k: nat :| AnsweredAt(H, events, work, k);
    assert AnsweredAt(H, events + [e], work, k);
  }

  ghost predicate AllAnswered(H: HashFunction, events: seq<Event>, w: World) {
    && (forall k :: k in w.tables.blocks ==> Answered(H, events, w.tables.blocks[k].work))
    && (forall i :: 0 <= i < |w.passed| ==> Answered(H, events, w.passed[i].template.work))
  }

  lemma StepPassed(w: World, pool: Pool, e: Event)
    ensures var w' := Step(w, pool, e);
            || w'.passed == w.passed
            || (|w'.passed| == |w.passed| + 1 && w'.passed[..|w.passed|] == w.passed
                && exists k :: k in w.tables.blocks && w'.passed[|w.passed|].template == w.tables.blocks[k])
  {
  }

  lemma BuiltAnswers(t: Tables, pool: Pool, node: NodeTemplate, now: int)
    ensures var t' := AfterBuild(t, pool, node, now);
            forall k :: k in t'.blocks ==>
              AnswersWith(pool.H, t'.blocks[k].work, node) || (k in t.blocks && t'.blocks[k] == t.blocks[k])
  {
  }

  lemma StepAnswered(w: World, pool: Pool, events: seq<Event>, e: Event)
    requires AllAnswered(pool.H, events, w)
    ensures AllAnswered(pool.H, events + [e], Step(w, pool, e))
  {
    var w' := Step(w, pool, e);
    StepBlocks(w, pool, e);
    forall k | k in w'.tables.blocks ensures Answered(pool.H, events + [e], w'.tables.blocks[k].work) {
      if Builds(w, e) && AnswersWith(pool.H, w'.tables.blocks[k].work, e.node) {
        assert AnsweredAt(pool.H, events + [e], w'.tables.blocks[k].work, |events|);
      } else {
        if Builds(w, e) { BuiltAnswers(w.tables, pool, e.node, e.now); }
        StillAnswered(pool.H, events, e, w'.tables.blocks[k].work);
      }
    }
    StepPassed(w, pool, e);
    forall i | 0 <= i < |w'.passed| ensures Answered(pool.H, events + [e], w'.passed[i].template.work) {
      if i < |w.passed| { assert w'.passed[i] == w.passed[i]; }
      StillAnswered(pool.H, events, e, w'.passed[i].template.work);
    }
  }

  /** In every run each template in the table, and each one a share passed on, carries an answer of the node. */
  lemma {:induction false} EveryTemplateIsAnswered(pool: Pool, events: seq<Event>)
    ensures AllAnswered(pool.H, events, Run(pool, events))
  {
    if events != [] {
      var front, last := events[..|events| - 1], events[|events| - 1];
      EveryTemplateIsAnswered(pool, front);
      StepAnswered(Run(pool, front), pool, front, last);
      assert events == front + [last];
    }
  }
}
