/** One miner's connection: job refreshes, version rotation, and the checks on a submitted share. */
module Sessions {
  import opened Options
  import opened Bytes
  import opened HexIds
  import opened VersionRotation
  import opened MiningJobs
  import opened JobTables

  datatype Submission = Submission(jobId: string, extraNonce2: string, ntime: string, nonce: string,
                                   versionMask: Option<string>)

  datatype Verdict = JobNotFound | TemplateNotFound | DuplicateShare | Fresh(job: Job, template: Template)

  /** One rotation: the template's version and the version the job got. */
  datatype Rotation = Rotation(base: Word, jobVersion: Word)

  /** `issued` is the history of rotations since the counter was last reset. */
  datatype Session = Session(hashes: set<string>, counter: nat, current: Option<Template>, open: bool,
                             lastLocalWorkSentAt: int, lastSentTimestamp: Option<int>, issued: seq<Rotation>)

  const NEW_SESSION := Session({}, 0, None, true, 0, None, [])

  /** The fields joined with colons; an absent mask is the empty string. */
  function SubmissionHash(s: Submission): string {
    s.jobId + ":" + s.extraNonce2 + ":" + s.ntime + ":" + s.nonce + ":" + MaskText(s)
  }

  function MaskText(s: Submission): string {
    if s.versionMask.Some? then s.versionMask.value else ""
  }

  // ---------- what each await-free segment does ----------

  function JobOf(t: Tables, template: Template, version: Word, now: int): Job {
    Job(Hex(t.latestJobId), now, Versioned(template.work, version))
  }

  /**
   * `sendNewMiningJob` up to its write: reset on clearJobs, rotate, build the job, add it. Building
   * throws when the block would be overweight (`fits` is false); the rotation has happened by then.
   */
  function AfterSend(t: Tables, s: Session, template: Template, now: int, fits: bool): (Tables, Session) {
    if !s.open then (t, s)
    else
      var counter := if template.clearJobs then 0 else s.counter;
      var issued := if template.clearJobs then [] else s.issued;
      var jobVersion := RotatedVersion(template.work.block.version, counter);
      var job := JobOf(t, template, jobVersion, now);
      (if fits then AfterAddJob(t, job) else t,
       s.(counter := counter + 1, issued := issued + [Rotation(template.work.block.version, jobVersion)]))
  }

  /** `refreshMiningJob` from the node's answer on; the connection may have closed in the meantime. */
  function AfterRefresh(t: Tables, s: Session, pool: Pool, node: NodeTemplate, now: int, fits: bool): (Tables, Session) {
    var template := BuiltTemplate(t, pool, node, now);
    AfterSend(AfterBuild(t, pool, node, now),
              s.(hashes := if template.clearJobs then {} else s.hashes, current := Some(template)),
              template, now, fits)
  }

  function LocalTemplate(base: Template, now: int): Template {
    base.(timestamp := if base.timestamp > now / 1000 then base.timestamp else now / 1000, clearJobs := false)
  }

  /** `refreshLocalMiningWork`: no node call, at most every 350 ms. */
  function AfterLocalRefresh(t: Tables, s: Session, now: int, fits: bool): (Tables, Session) {
    if !s.open || s.current.None? || now - s.lastLocalWorkSentAt < 350 then (t, s)
    else AfterSend(t, s, LocalTemplate(s.current.value, now), now, fits)
  }

  /** The template re-sent after a difficulty change: a later time and the clearJobs flag. */
  function ClearedTemplate(base: Template, lastSentTimestamp: Option<int>, now: int): Template {
    var next := (if lastSentTimestamp.Some? then lastSentTimestamp.value else 0) + 1;
    var time := if base.timestamp > now / 1000 then base.timestamp else now / 1000;
    base.(timestamp := if time > next then time else next, clearJobs := true)
  }

  /**
   * Work is never dated before the node's minimum time, a local refresh never goes back, and work re-sent
   * after a difficulty change is later than the work sent last.
   */
  lemma TimesMoveForward(t: Tables, pool: Pool, node: NodeTemplate, base: Template, last: int, now: int)
    ensures BuiltTemplate(t, pool, node, now).timestamp >= node.mintime
    ensures LocalTemplate(base, now).timestamp >= base.timestamp && LocalTemplate(base, now).timestamp >= now / 1000
    ensures ClearedTemplate(base, Some(last), now).timestamp > last
    ensures ClearedTemplate(base, Some(last), now).timestamp >= base.timestamp
    ensures ClearedTemplate(base, Some(last), now).timestamp >= now / 1000
    ensures LocalTemplate(base, now).timestamp in {base.timestamp, now / 1000}
    ensures ClearedTemplate(base, Some(last), now).timestamp in {base.timestamp, now / 1000, last + 1}
  {
  }

  /** The job part of `checkDifficulty`: a session without a template fetches one, without touching its hash set. */
  function AfterDifficultyChange(t: Tables, s: Session, pool: Pool, node: NodeTemplate, now: int, fits: bool)
    : (Tables, Session)
  {
    var t' := if s.current.Some? then t else AfterBuild(t, pool, node, now);
    var base := if s.current.Some? then s.current.value else BuiltTemplate(t, pool, node, now);
    AfterSend(t', s.(current := Some(base)), ClearedTemplate(base, s.lastSentTimestamp, now), now, fits)
  }

  /** The lookups and the duplicate check. */
  function Check(t: Tables, s: Session, submission: Submission): Verdict {
    if submission.jobId !in t.jobs then JobNotFound
    else
      var job := t.jobs[submission.jobId];
      if job.work.id !in t.blocks then TemplateNotFound
      else if SubmissionHash(submission) in s.hashes then DuplicateShare
      else Fresh(job, t.blocks[job.work.id])
  }

  function AfterCheck(t: Tables, s: Session, submission: Submission): Session {
    if Check(t, s, submission).Fresh? then s.(hashes := s.hashes + {SubmissionHash(submission)}) else s
  }

  // ---------- the connection object ----------

  class StratumV1Client {
    const jobsService: StratumV1JobsService
    const poolWalletAddress: string
    var miningSubmissionHashes: set<string>
    var elektronPoolVersionCounter: nat
    var currentJobTemplate: Option<Template>
    var connectionOpen: bool
    var lastLocalWorkSentAt: int
    var lastSentMiningJobTimestamp: Option<int>
    ghost var issued: seq<Rotation>

    ghost function State(): Session
      reads this
    {
      Session(miningSubmissionHashes, elektronPoolVersionCounter, currentJobTemplate, connectionOpen,
              lastLocalWorkSentAt, lastSentMiningJobTimestamp, issued)
    }

    constructor (service: StratumV1JobsService, pool: string)
      ensures State() == NEW_SESSION && jobsService == service && poolWalletAddress == pool
    {
      jobsService, poolWalletAddress := service, pool;
      miningSubmissionHashes, elektronPoolVersionCounter, currentJobTemplate := {}, 0, None;
      connectionOpen, lastLocalWorkSentAt, lastSentMiningJobTimestamp := true, 0, None;
      issued := [];
    }

    method SendNewMiningJob(jobTemplate: Template, now: int, fits: bool)
      modifies jobsService`jobs, jobsService`latestJobId, this`elektronPoolVersionCounter, this`issued
      ensures (jobsService.State(), State()) == AfterSend(old(jobsService.State()), old(State()), jobTemplate, now, fits)
      ensures !connectionOpen ==> State() == old(State()) && jobsService.State() == old(jobsService.State())
      ensures connectionOpen ==>
                var rotation := if jobTemplate.clearJobs then 0 else old(elektronPoolVersionCounter);
                && elektronPoolVersionCounter == rotation + 1
                && jobsService.jobs ==
                   if !fits then old(jobsService.jobs)
                   else old(jobsService.jobs)[Hex(old(jobsService.latestJobId)) :=
                          Job(Hex(old(jobsService.latestJobId)), now,
                              jobTemplate.work.(block := jobTemplate.work.block.(
                                version := RotatedVersion(jobTemplate.work.block.version, rotation))))]
    {
      if !connectionOpen {
        return;
      }
      if jobTemplate.clearJobs {
        elektronPoolVersionCounter := 0;
        issued := [];
      }
      var jobVersion := RotatedVersion(jobTemplate.work.block.version, elektronPoolVersionCounter);
      elektronPoolVersionCounter := elektronPoolVersionCounter + 1;
      issued := issued + [Rotation(jobTemplate.work.block.version, jobVersion)];
      if !fits {
        return;
      }
      var job := Job(jobsService.GetNextId(), now, Versioned(jobTemplate.work, jobVersion));
      jobsService.AddJob(job);
    }

    method RefreshMiningJob(node: NodeTemplate, now: int, fits: bool)
      modifies jobsService, this
      ensures (jobsService.State(), State())
           == AfterRefresh(old(jobsService.State()), old(State()), Pool(poolWalletAddress, jobsService.H), node, now, fits)
      // the new template is held, and the duplicate set is emptied exactly when the height is new
      ensures currentJobTemplate.Some? && AnswersWith(jobsService.H, currentJobTemplate.value.work, node)
      ensures miningSubmissionHashes ==
              if node.height == (if poolWalletAddress in old(jobsService.lastTemplateHeightByAddress)
                                 then old(jobsService.lastTemplateHeightByAddress)[poolWalletAddress] else 0)
              then old(miningSubmissionHashes) else {}
    {
      var jobTemplate := jobsService.BuildTemplateFor(poolWalletAddress, node, now);
      if jobTemplate.clearJobs {
        miningSubmissionHashes := {};
      }
      currentJobTemplate := Some(jobTemplate);
      SendNewMiningJob(jobTemplate, now, fits);
    }

    method RefreshLocalMiningWork(now: int, fits: bool)
      modifies jobsService`jobs, jobsService`latestJobId, this`elektronPoolVersionCounter, this`issued
      ensures (jobsService.State(), State()) == AfterLocalRefresh(old(jobsService.State()), old(State()), now, fits)
      ensures elektronPoolVersionCounter == old(elektronPoolVersionCounter)
              + if connectionOpen && currentJobTemplate.Some? && now - lastLocalWorkSentAt >= 350 then 1 else 0
    {
      if !connectionOpen || currentJobTemplate.None? || now - lastLocalWorkSentAt < 350 {
        return;
      }
      var baseTemplate := currentJobTemplate.value;
      var timestamp := if baseTemplate.timestamp > now / 1000 then baseTemplate.timestamp else now / 1000;
      SendNewMiningJob(baseTemplate.(timestamp := timestamp, clearJobs := false), now, fits);
    }

    method ResendAfterDifficultyChange(node: NodeTemplate, now: int, fits: bool)
      modifies jobsService, this
      ensures (jobsService.State(), State())
           == AfterDifficultyChange(old(jobsService.State()), old(State()), Pool(poolWalletAddress, jobsService.H), node, now, fits)
      ensures miningSubmissionHashes == old(miningSubmissionHashes)
      ensures old(currentJobTemplate).Some? ==> currentJobTemplate == old(currentJobTemplate)
      ensures connectionOpen ==> elektronPoolVersionCounter == 1
    {
      var jobTemplate;
      if currentJobTemplate.Some? {
        jobTemplate := currentJobTemplate.value;
      } else {
        jobTemplate := jobsService.BuildTemplateFor(poolWalletAddress, node, now);
      }
      currentJobTemplate := Some(jobTemplate);
      SendNewMiningJob(ClearedTemplate(jobTemplate, lastSentMiningJobTimestamp, now), now, fits);
    }

    method CheckSubmission(submission: Submission) returns (verdict: Verdict)
      modifies this`miningSubmissionHashes
      ensures verdict == Check(jobsService.State(), old(State()), submission)
      ensures State() == AfterCheck(jobsService.State(), old(State()), submission)
      // which refusal: an unknown job first, then its template, then the key
      ensures verdict.JobNotFound? <==> submission.jobId !in jobsService.jobs
      ensures verdict.TemplateNotFound? <==>
                submission.jobId in jobsService.jobs && jobsService.jobs[submission.jobId].work.id !in jobsService.blocks
      ensures verdict.DuplicateShare? <==>
                && submission.jobId in jobsService.jobs && jobsService.jobs[submission.jobId].work.id in jobsService.blocks
                && SubmissionHash(submission) in old(miningSubmissionHashes)
      ensures miningSubmissionHashes ==
              old(miningSubmissionHashes) + if verdict.Fresh? then {SubmissionHash(submission)} else {}
      ensures verdict.Fresh? ==>
                && verdict.job == jobsService.jobs[submission.jobId]
                && verdict.template == jobsService.blocks[verdict.job.work.id]
    {
      var job := jobsService.GetJobById(submission.jobId);
      if job.None? {
        return JobNotFound;
      }
      var jobTemplate := jobsService.GetJobTemplateById(job.value.work.id);
      if jobTemplate.None? {
        return TemplateNotFound;
      }
      var submissionHash := SubmissionHash(submission);
      if submissionHash in miningSubmissionHashes {
        return DuplicateShare;
      }
      miningSubmissionHashes := miningSubmissionHashes + {submissionHash};
      verdict := Fresh(job.value, jobTemplate.value);
    }
  }

  // ---------- the duplicate key ----------

  predicate NoColon(s: string) {
    ':' !in s
  }

  lemma {:induction false} FirstFieldDetermined(a: string, x: string, b: string, y: string)
    requires NoColon(a) && NoColon(b) && a + ":" + x == b + ":" + y
    ensures a == b && x == y
  {
    var l, r := a + ":" + x, b + ":" + y;
    assert l[|a|] == ':' && r[|b|] == ':';
    assert (forall i :: 0 <= i < |a| ==> l[i] == a[i] != ':') && (forall i :: 0 <= i < |b| ==> r[i] == b[i] != ':');
    assert |a| == |b|;
    assert a == l[..|a|] && b == r[..|b|];
    assert x == l[|a| + 1..] && y == r[|b| + 1..];
  }

  /** The five texts of the key; an absent mask is the empty text. */
  predicate SameTexts(s: Submission, t: Submission) {
    && s.jobId == t.jobId && s.extraNonce2 == t.extraNonce2 && s.ntime == t.ntime && s.nonce == t.nonce
    && MaskText(s) == MaskText(t)
  }

  predicate NoColons(s: Submission) {
    NoColon(s.jobId) && NoColon(s.extraNonce2) && NoColon(s.ntime) && NoColon(s.nonce) && NoColon(MaskText(s))
  }

  function Colons(text: string): nat {
    if text == [] then 0 else Colons(text[..|text| - 1]) + if text[|text| - 1] == ':' then 1 else 0
  }

  lemma {:induction false} ColonsConcat(a: string, b: string)
    ensures Colons(a + b) == Colons(a) + Colons(b)
  {
    if b == [] {
      assert a + b == a;
    } else {
      assert (a + b)[..|a| + (|b| - 1)] == a + b[..|b| - 1];
      ColonsConcat(a, b[..|b| - 1]);
    }
  }

  lemma {:induction false} NoColonIff(text: string)
    ensures Colons(text) == 0 <==> NoColon(text)
  {
    if text != [] {
      NoColonIff(text[..|text| - 1]);
      assert text == text[..|text| - 1] + [text[|text| - 1]];
    }
  }

  lemma OneSeparator(a: string, b: string)
    ensures Colons(a + ":" + b) == Colons(a) + 1 + Colons(b)
  {
    ColonsConcat(a + ":", b);
    ColonsConcat(a, ":");
    assert ":"[..0] == [] && Colons(":") == 1;
  }

  /** The key holds four colons and those of the texts. */
  lemma ColonsOfKey(s: Submission)
    ensures Colons(SubmissionHash(s))
         == 4 + Colons(s.jobId) + Colons(s.extraNonce2) + Colons(s.ntime) + Colons(s.nonce) + Colons(MaskText(s))
  {
    KeyNests(s);
    OneSeparator(s.jobId, AfterJobId(s));
    OneSeparator(s.extraNonce2, AfterExtraNonce(s));
    OneSeparator(s.ntime, AfterTime(s));
    OneSeparator(s.nonce, MaskText(s));
  }

  lemma NoColonsIff(s: Submission)
    ensures NoColons(s) <==> Colons(SubmissionHash(s)) == 4
  {
    ColonsOfKey(s);
    NoColonIff(s.jobId);
    NoColonIff(s.extraNonce2);
    NoColonIff(s.ntime);
    NoColonIff(s.nonce);
    NoColonIff(MaskText(s));
  }

  /** A submission without colons is told apart from every other one, whatever that holds. */
  lemma KeyDeterminesSubmission(s: Submission, t: Submission)
    requires NoColons(s)
    ensures SubmissionHash(s) == SubmissionHash(t) <==> SameTexts(s, t)
  {
    KeyNests(s);
    KeyNests(t);
    NoColonsIff(s);
    NoColonsIff(t);
    if SubmissionHash(s) == SubmissionHash(t) {
      FirstFieldDetermined(s.jobId, AfterJobId(s), t.jobId, AfterJobId(t));
      FirstFieldDetermined(s.extraNonce2, AfterExtraNonce(s), t.extraNonce2, AfterExtraNonce(t));
      FirstFieldDetermined(s.ntime, AfterTime(s), t.ntime, AfterTime(t));
      FirstFieldDetermined(s.nonce, MaskText(s), t.nonce, MaskText(t));
    }
  }

  /** Cutting a text at its colon: the part before it and the part after it. */
  lemma CutAtColon(text: string) returns (u: string, v: string)
    requires !NoColon(text)
    ensures text == u + ":" + v && |u| < |text| && |v| < |text|
  {
    var i :| 0 <= i < |text| && text[i] == ':';
    u, v := text[..i], text[i + 1..];
  }

  /** A boundary between two fields may move to a colon inside either of them. */
  lemma BoundaryMoves(f: string, g: string, rest: string, u: string, v: string)
    ensures (u + ":" + v) + ":" + g == u + ":" + (v + ":" + g)
    ensures f + ":" + (u + ":" + v) == (f + ":" + u) + ":" + v
    ensures (u + ":" + v) + ":" + (g + ":" + rest) == u + ":" + ((v + ":" + g) + ":" + rest)
  {
  }

  /** With a colon in any text there is a submission of other texts with the same key. */
  lemma Collides(s: Submission) returns (t: Submission)
    requires !NoColons(s)
    ensures SubmissionHash(t) == SubmissionHash(s) && !SameTexts(s, t)
  {
    if !NoColon(s.jobId) {
      var u, v := CutAtColon(s.jobId);
      t := s.(jobId := u, extraNonce2 := v + ":" + s.extraNonce2);
      BoundaryMoves("", s.extraNonce2, AfterExtraNonce(s), u, v);
    } else if !NoColon(s.extraNonce2) {
      var u, v := CutAtColon(s.extraNonce2);
      t := s.(extraNonce2 := u, ntime := v + ":" + s.ntime);
      BoundaryMoves("", s.ntime, AfterTime(s), u, v);
    } else if !NoColon(s.ntime) {
      var u, v := CutAtColon(s.ntime);
      t := s.(ntime := u, nonce := v + ":" + s.nonce);
      BoundaryMoves("", s.nonce, MaskText(s), u, v);
    } else if !NoColon(s.nonce) {
      var u, v := CutAtColon(s.nonce);
      t := s.(nonce := u, versionMask := Some(v + ":" + MaskText(s)));
      BoundaryMoves("", MaskText(s), "", u, v);
    } else {
      var u, v := CutAtColon(MaskText(s));
      t := s.(nonce := s.nonce + ":" + u, versionMask := Some(v));
      BoundaryMoves(s.nonce, "", "", u, v);
    }
    KeyNests(s);
    KeyNests(t);
  }

  /** A submission's key is its own exactly when none of its five texts contains a colon. */
  lemma KeyIsUniqueIff(s: Submission)
    ensures NoColons(s) <==> forall t :: SubmissionHash(t) == SubmissionHash(s) ==> SameTexts(s, t)
  {
    if NoColons(s) {
      forall t | SubmissionHash(t) == SubmissionHash(s) ensures SameTexts(s, t) { KeyDeterminesSubmission(s, t); }
    } else {
      var t := Collides(s);
    }
  }

  function AfterTime(s: Submission): string { s.nonce + ":" + MaskText(s) }

  function AfterExtraNonce(s: Submission): string { s.ntime + ":" + AfterTime(s) }

  function AfterJobId(s: Submission): string { s.extraNonce2 + ":" + AfterExtraNonce(s) }

  lemma KeyNests(s: Submission)
    ensures SubmissionHash(s) == s.jobId + ":" + AfterJobId(s)
  {
  }

  /** With colons inside fields, two different submissions may share a key: the second is taken for a duplicate. */
  lemma ColonsCollide()
    ensures var s := Submission("1", "a:b", "c", "d", Some("0"));
            var t := Submission("1", "a", "b:c", "d", Some("0"));
            s != t && SubmissionHash(s) == SubmissionHash(t)
  {
    assert "1" + ":" + "a:b" + ":" + "c" + ":" + "d" + ":" + "0" == "1:a:b:c:d:0";
    assert "1" + ":" + "a" + ":" + "b:c" + ":" + "d" + ":" + "0" == "1:a:b:c:d:0";
  }
}
