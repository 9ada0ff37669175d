/** The headers behind submissions: when two shares that passed the duplicate check are the same work. */
module ShareHeaders {
  import opened Options
  import opened Bytes
  import opened Bits
  import opened HexIds
  import opened HexNumbers
  import opened VersionRotation
  import opened Transactions
  import opened Merkle
  import opened MiningJobs
  import opened JobTables
  import opened Sessions
  import opened SessionRuns

  function MaskOf(s: Submission): Number {
    if s.versionMask.None? then NaN else ParseHex(s.versionMask.value)
  }

  /** The mining job object is the one built for this entry of the job table. */
  ghost predicate Carries(job: MiningJob, entry: Job, payouts: seq<AddressObject>, paymentScript: string -> seq<Byte>)
    reads job
  {
    && job.Valid() && job.jobVersion == entry.work.block.version && job.merkleBranchBuffers == entry.work.merkleBranch
    && IsCoinbase(job.coinbaseTransaction, payouts, entry.work, paymentScript)
  }

  /** The header that a submission stands for. */
  function HeaderOf(H: HashFunction, job: MiningJob, template: JobTemplate, s: Submission): Option<seq<Byte>>
    reads job
  {
    job.FastHeader(H, template, MaskOf(s), ParseHex(s.nonce), ParseHex(s.ntime))
  }

  function RolledVersion(entry: Job, s: Submission): Word {
    XorWord(entry.work.block.version, ToWord(MaskOf(s)))
  }

  /** The Merkle root that goes into a job's headers. */
  function RootOf(H: HashFunction, job: MiningJob): Hash
    reads job
  {
    Fold(H, H(job.coinbasePart1Buffer + job.coinbasePart2Buffer), job.merkleBranchBuffers)
  }

  /** The rolled version, the time and the nonce agree as 32-bit words. */
  predicate SameWords(p: Pass, q: Pass) {
    && RolledVersion(p.job, p.submission) == RolledVersion(q.job, q.submission)
    && ToWord(ParseHex(p.submission.ntime)) == ToWord(ParseHex(q.submission.ntime))
    && ToWord(ParseHex(p.submission.nonce)) == ToWord(ParseHex(q.submission.nonce))
  }

  /**
   * Any two shares that passed in any run, of any sessions, jobs and templates, are the same 80 bytes exactly
   * when their three words, previous hashes, targets and Merkle roots agree. The second extranonce, the job id
   * and the template id play no part.
   */
  lemma SameHeaderIff(pool: Pool, events: seq<Event>, i: nat, j: nat, first: MiningJob, second: MiningJob,
                      payouts: seq<AddressObject>, paymentScript: string -> seq<Byte>)
    requires i < |Run(pool, events).passed| && j < |Run(pool, events).passed|
    requires Carries(first, Run(pool, events).passed[i].job, payouts, paymentScript)
    requires Carries(second, Run(pool, events).passed[j].job, payouts, paymentScript)
    requires PassHeader(pool.H, first, Run(pool, events).passed[i]).Some?
    requires PassHeader(pool.H, second, Run(pool, events).passed[j]).Some?
    ensures var p, q := Run(pool, events).passed[i], Run(pool, events).passed[j];
            PassHeader(pool.H, first, p) == PassHeader(pool.H, second, q) <==>
              && SameWords(p, q)
              && p.template.work.block.prevHash == q.template.work.block.prevHash
              && p.template.work.block.bits == q.template.work.block.bits
              && RootOf(pool.H, first) == RootOf(pool.H, second)
  {
    PassHeadersEqualIff(pool.H, Run(pool, events).passed[i], Run(pool, events).passed[j], first, second, payouts,
                        paymentScript);
  }

  function PassHeader(H: HashFunction, job: MiningJob, p: Pass): Option<seq<Byte>>
    reads job
  {
    HeaderOf(H, job, p.template.work, p.submission)
  }

  lemma PassHeadersEqualIff(H: HashFunction, p: Pass, q: Pass, first: MiningJob, second: MiningJob,
                            payouts: seq<AddressObject>, paymentScript: string -> seq<Byte>)
    requires Carries(first, p.job, payouts, paymentScript) && Carries(second, q.job, payouts, paymentScript)
    requires PassHeader(H, first, p).Some? && PassHeader(H, second, q).Some?
    ensures PassHeader(H, first, p) == PassHeader(H, second, q) <==>
              && SameWords(p, q)
              && p.template.work.block.prevHash == q.template.work.block.prevHash
              && p.template.work.block.bits == q.template.work.block.bits
              && RootOf(H, first) == RootOf(H, second)
  {
    var s, t, a, b := p.submission, q.submission, p.template.work.block, q.template.work.block;
    VersionBytes(first.jobVersion, MaskOf(s));
    VersionBytes(second.jobVersion, MaskOf(t));
    HeadersEqualIff(HeaderVersion(first.jobVersion, MaskOf(s)), a.prevHash, RootOf(H, first),
                    ParseHex(s.ntime), a.bits, ParseHex(s.nonce),
                    HeaderVersion(second.jobVersion, MaskOf(t)), b.prevHash, RootOf(H, second),
                    ParseHex(t.ntime), b.bits, ParseHex(t.nonce));
  }

  /** Two templates of the same work: each refresh and each session builds its own id. */
  predicate SameButId(a: JobTemplate, b: JobTemplate) {
    a == b.(id := a.id)
  }

  /** On the same work, under whatever template and job ids, the three words alone decide. */
  lemma SameHeaderOnSameWorkIff(pool: Pool, events: seq<Event>, i: nat, j: nat, first: MiningJob, second: MiningJob,
                                payouts: seq<AddressObject>, paymentScript: string -> seq<Byte>)
    requires i < |Run(pool, events).passed| && j < |Run(pool, events).passed|
    requires SameButId(Run(pool, events).passed[i].template.work, Run(pool, events).passed[j].template.work)
    requires Carries(first, Run(pool, events).passed[i].job, payouts, paymentScript)
    requires Carries(second, Run(pool, events).passed[j].job, payouts, paymentScript)
    requires PassHeader(pool.H, first, Run(pool, events).passed[i]).Some?
    requires PassHeader(pool.H, second, Run(pool, events).passed[j]).Some?
    ensures var p, q := Run(pool, events).passed[i], Run(pool, events).passed[j];
            PassHeader(pool.H, first, p) == PassHeader(pool.H, second, q) <==> SameWords(p, q)
  {
    RunKeepsInv(pool, events);
    var w := Run(pool, events);
    assert PassOk(w, pool, w.passed[i]) && PassOk(w, pool, w.passed[j]);
    SameRoot(pool.H, w.passed[i], w.passed[j], first, second, payouts, paymentScript);
    SameHeaderIff(pool, events, i, j, first, second, payouts, paymentScript);
  }

  lemma SameRoot(H: HashFunction, p: Pass, q: Pass, first: MiningJob, second: MiningJob, payouts: seq<AddressObject>,
                 paymentScript: string -> seq<Byte>)
    requires SameWork(p.job.work, p.template.work) && SameWork(q.job.work, q.template.work)
    requires SameButId(p.template.work, q.template.work)
    requires Carries(first, p.job, payouts, paymentScript) && Carries(second, q.job, payouts, paymentScript)
    ensures RootOf(H, first) == RootOf(H, second)
  {
    CoinbaseUnique(first.coinbaseTransaction, second.coinbaseTransaction, payouts, p.template.work, paymentScript);
  }

  lemma XorCancels(v: Word, a: Word, b: Word)
    ensures XorWord(v, a) == XorWord(v, b) <==> a == b
  {
    if XorWord(v, a) == XorWord(v, b) {
      forall k: nat ensures Bit(a, k) == Bit(b, k) {
        BitwiseBit(Xor, v, a, k);
        BitwiseBit(Xor, v, b, k);
      }
      BitsExtensional(a, b);
    }
  }

  // ---------- the same work twice ----------

  /** One share, sent again with another second extranonce or another spelling of its nonce, passes again. */
  lemma SameHeaderPassesAgain(pool: Pool, node: NodeTemplate, now: int, s: Submission, again: Submission)
    requires s.jobId == Hex(1) && AllDigits(s.nonce) && s.nonce != []
    requires again == s.(extraNonce2 := s.extraNonce2 + "0") || again == s.(nonce := "0" + s.nonce)
    ensures var w := Run(pool, [Connected(0), Refreshed(0, node, now, true), Submitted(0, s), Submitted(0, again)]);
            && |w.passed| == 2 && w.passed[0].submission == s && w.passed[1].submission == again
            && w.passed[0].job == w.passed[1].job && w.passed[0].template == w.passed[1].template
            && forall job: MiningJob ::
                 HeaderOf(pool.H, job, w.passed[0].template.work, s) == HeaderOf(pool.H, job, w.passed[1].template.work, again)
  {
    LongerKeyDiffers(s);
    var events := [Connected(0), Refreshed(0, node, now, true)];
    var one := OneRefresh(pool, node, now);
    BothPass(pool, events, 0, s, 0, again);
    assert events + [Submitted(0, s), Submitted(0, again)]
        == [Connected(0), Refreshed(0, node, now, true), Submitted(0, s), Submitted(0, again)];
    var work := PassOf(one, pool, 0, s).template.work;
    forall job: MiningJob ensures HeaderOf(pool.H, job, work, s) == HeaderOf(pool.H, job, work, again) {
      SameText(pool.H, job, work, s, again);
    }
  }

  lemma SameText(H: HashFunction, job: MiningJob, work: JobTemplate, s: Submission, again: Submission)
    requires AllDigits(s.nonce) && s.nonce != []
    requires again == s.(extraNonce2 := s.extraNonce2 + "0") || again == s.(nonce := "0" + s.nonce)
    ensures HeaderOf(H, job, work, s) == HeaderOf(H, job, work, again)
  {
    Respelled(s.nonce);
  }

  function PassOf(w: World, pool: Pool, id: nat, s: Submission): Pass
    requires id in w.sessions && Check(w.tables, w.sessions[id], s).Fresh?
  {
    var verdict := Check(w.tables, w.sessions[id], s);
    Pass(id, s, verdict.job, verdict.template, LastHeight(w.tables, pool.address))
  }

  /** Two submissions that would pass and do not share both session and key do pass one after the other. */
  lemma BothPass(pool: Pool, events: seq<Event>, i: nat, s: Submission, j: nat, t: Submission)
    requires i in Run(pool, events).sessions && j in Run(pool, events).sessions
    requires Check(Run(pool, events).tables, Run(pool, events).sessions[i], s).Fresh?
    requires Check(Run(pool, events).tables, Run(pool, events).sessions[j], t).Fresh?
    requires i != j || SubmissionHash(s) != SubmissionHash(t)
    ensures var w := Run(pool, events);
            Run(pool, events + [Submitted(i, s), Submitted(j, t)]).passed
            == w.passed + [PassOf(w, pool, i, s), PassOf(w, pool, j, t)]
  {
    var w := Run(pool, events);
    OneSubmit(pool, events, i, s);
    OneSubmit(pool, events + [Submitted(i, s)], j, t);
    assert (events + [Submitted(i, s)]) + [Submitted(j, t)] == events + [Submitted(i, s), Submitted(j, t)];
    StillFresh(w, pool, i, s, j, t);
  }

  lemma OneSubmit(pool: Pool, events: seq<Event>, i: nat, s: Submission)
    requires i in Run(pool, events).sessions
    ensures Run(pool, events + [Submitted(i, s)]) == AfterSubmit(Run(pool, events), pool, i, s)
    ensures AfterSubmit(Run(pool, events), pool, i, s).sessions.Keys == Run(pool, events).sessions.Keys
  {
    assert (events + [Submitted(i, s)])[..|events|] == events;
  }

  lemma StillFresh(w: World, pool: Pool, i: nat, s: Submission, j: nat, t: Submission)
    requires i in w.sessions && j in w.sessions
    requires Check(w.tables, w.sessions[i], s).Fresh? && Check(w.tables, w.sessions[j], t).Fresh?
    requires i != j || SubmissionHash(s) != SubmissionHash(t)
    ensures AfterSubmit(AfterSubmit(w, pool, i, s), pool, j, t).passed
         == w.passed + [PassOf(w, pool, i, s), PassOf(w, pool, j, t)]
  {
    var w1 := AfterSubmit(w, pool, i, s);
    assert w1.tables == w.tables && w1.passed == w.passed + [PassOf(w, pool, i, s)];
    assert Check(w1.tables, w1.sessions[j], t) == Check(w.tables, w.sessions[j], t);
  }

  /** The same share through two connections passes on each: lookups know no session. */
  lemma SameSharePassesInEachSession(pool: Pool, node: NodeTemplate, now: int, s: Submission)
    requires s.jobId == Hex(1)
    ensures var w := Run(pool, [Connected(0), Refreshed(0, node, now, true), Connected(1), Submitted(0, s), Submitted(1, s)]);
            && |w.passed| == 2 && w.passed[0].submission == s == w.passed[1].submission
            && w.passed[0].session != w.passed[1].session
            && w.passed[0].job == w.passed[1].job && w.passed[0].template == w.passed[1].template
  {
    var events := [Connected(0), Refreshed(0, node, now, true), Connected(1)];
    var one := OneRefresh(pool, node, now);
    assert events[..2] == [Connected(0), Refreshed(0, node, now, true)];
    assert Run(pool, events) == Step(one, pool, Connected(1));
    BothPass(pool, events, 0, s, 1, s);
    assert events + [Submitted(0, s), Submitted(1, s)]
        == [Connected(0), Refreshed(0, node, now, true), Connected(1), Submitted(0, s), Submitted(1, s)];
  }

  /** A second refresh for the same answer of the node, and a re-send after a difficulty change. */
  lemma ThreeJobs(pool: Pool, node: NodeTemplate, now: int) returns (w: World)
    ensures w == Run(pool, [Connected(0), Refreshed(0, node, now, true), Refreshed(0, node, now, true),
                            DifficultyChanged(0, node, now, true)])
    ensures w.sessions.Keys == {0} && w.sessions[0].hashes == {} && w.passed == []
    ensures Hex(1) in w.tables.blocks && Hex(2) in w.tables.blocks && Hex(1) in w.tables.jobs && Hex(3) in w.tables.jobs
    ensures w.tables.blocks[Hex(1)].work.id == Hex(1) && w.tables.blocks[Hex(2)].work.id == Hex(2)
    ensures SameButId(w.tables.blocks[Hex(1)].work, w.tables.blocks[Hex(2)].work)
    ensures w.tables.jobs[Hex(1)].work == Versioned(w.tables.blocks[Hex(1)].work, RotatedVersion(node.version, 0))
    ensures w.tables.jobs[Hex(3)].work == Versioned(w.tables.blocks[Hex(2)].work, RotatedVersion(node.version, 0))
  {
    var events := [Connected(0), Refreshed(0, node, now, true), Refreshed(0, node, now, true),
                   DifficultyChanged(0, node, now, true)];
    var one := OneRefresh(pool, node, now);
    assert events[..3][..2] == [Connected(0), Refreshed(0, node, now, true)];
    IdsDiffer();
    var two := SecondRefresh(pool, one, node, now);
    assert Run(pool, events[..3]) == two;
    w := Resent(pool, two, node, now);
    assert Run(pool, events) == Step(Run(pool, events[..3]), pool, events[3]);
  }

  /** The held template is sent once more, under a third job id and with the rotation restarted. */
  lemma Resent(pool: Pool, two: World, node: NodeTemplate, now: int) returns (w: World)
    requires two.tables.latestJobId == 3 && two.tables.jobs.Keys == {Hex(1), Hex(2)} && Hex(2) in two.tables.blocks
    requires two.sessions.Keys == {0} && two.sessions[0].open && two.sessions[0].hashes == {} && two.passed == []
    requires two.sessions[0].current == Some(two.tables.blocks[Hex(2)])
    requires two.tables.blocks[Hex(2)].work.block.version == node.version
    ensures w == Step(two, pool, DifficultyChanged(0, node, now, true))
    ensures w.tables.blocks == two.tables.blocks && w.sessions.Keys == {0} && w.sessions[0].hashes == {} && w.passed == []
    ensures Hex(1) in w.tables.jobs && w.tables.jobs[Hex(1)] == two.tables.jobs[Hex(1)] && Hex(3) in w.tables.jobs
    ensures w.tables.jobs[Hex(3)].work == Versioned(two.tables.blocks[Hex(2)].work, RotatedVersion(node.version, 0))
  {
    IdsDiffer();
    w := Step(two, pool, DifficultyChanged(0, node, now, true));
  }

  lemma IdsDiffer()
    ensures Hex(1) != Hex(2) && Hex(1) != Hex(3) && Hex(2) != Hex(3)
  {
    if Hex(1) == Hex(2) { HexInjective(1, 2); }
    if Hex(1) == Hex(3) { HexInjective(1, 3); }
    if Hex(2) == Hex(3) { HexInjective(2, 3); }
  }

  lemma SecondRefresh(pool: Pool, one: World, node: NodeTemplate, now: int) returns (two: World)
    requires one == Run(pool, [Connected(0), Refreshed(0, node, now, true)])
    ensures two == Step(one, pool, Refreshed(0, node, now, true))
    ensures two.tables.latestJobId == 3
    ensures two.tables.blocks.Keys == {Hex(1), Hex(2)} && two.tables.jobs.Keys == {Hex(1), Hex(2)}
    ensures two.tables.blocks[Hex(1)].work.id == Hex(1) && two.tables.blocks[Hex(2)].work.id == Hex(2)
    ensures SameButId(two.tables.blocks[Hex(1)].work, two.tables.blocks[Hex(2)].work)
    ensures two.tables.jobs[Hex(1)].work == Versioned(two.tables.blocks[Hex(1)].work, RotatedVersion(node.version, 0))
    ensures two.sessions.Keys == {0} && two.sessions[0].open && two.sessions[0].hashes == {} && two.passed == []
    ensures two.sessions[0].current == Some(two.tables.blocks[Hex(2)])
    ensures two.tables.blocks[Hex(2)].work.block.version == node.version
  {
    var w := OneRefresh(pool, node, now);
    IdsDiffer();
    two := Step(one, pool, Refreshed(0, node, now, true));
  }

  /**
   * The same texts but the job id, after a refresh and a re-sent job: both shares pass, on templates and jobs
   * that are equal in all but their ids, and their headers are the same.
   */
  lemma SameHeaderPassesOnTwoJobs(pool: Pool, node: NodeTemplate, now: int, s: Submission)
    requires s.jobId == Hex(1)
    ensures var w := Run(pool, [Connected(0), Refreshed(0, node, now, true), Refreshed(0, node, now, true),
                                DifficultyChanged(0, node, now, true), Submitted(0, s), Submitted(0, s.(jobId := Hex(3)))]);
            && |w.passed| == 2 && w.passed[0].submission == s && w.passed[1].submission == s.(jobId := Hex(3))
            && SameButId(w.passed[0].template.work, w.passed[1].template.work)
            && SameButId(w.passed[0].job.work, w.passed[1].job.work)
            && SameWords(w.passed[0], w.passed[1])
  {
    var t := s.(jobId := Hex(3));
    var events := [Connected(0), Refreshed(0, node, now, true), Refreshed(0, node, now, true),
                   DifficultyChanged(0, node, now, true)];
    var w := ThreeJobs(pool, node, now);
    JobIdInKey(s);
    TwoJobsOfOneWork(w, pool, node.version, s, t);
    BothPass(pool, events, 0, s, 0, t);
    ghost var all := events + [Submitted(0, s), Submitted(0, t)];
    assert all == [Connected(0), Refreshed(0, node, now, true), Refreshed(0, node, now, true),
                   DifficultyChanged(0, node, now, true), Submitted(0, s), Submitted(0, t)];
    assert Run(pool, all).passed == [PassOf(w, pool, 0, s), PassOf(w, pool, 0, t)];
  }

  lemma TwoJobsOfOneWork(w: World, pool: Pool, version: Word, s: Submission, t: Submission)
    requires 0 in w.sessions && w.sessions[0].hashes == {} && s.jobId == Hex(1) && t == s.(jobId := Hex(3))
    requires Hex(1) in w.tables.blocks && Hex(2) in w.tables.blocks && Hex(1) in w.tables.jobs && Hex(3) in w.tables.jobs
    requires w.tables.blocks[Hex(1)].work.id == Hex(1) && w.tables.blocks[Hex(2)].work.id == Hex(2)
    requires SameButId(w.tables.blocks[Hex(1)].work, w.tables.blocks[Hex(2)].work)
    requires w.tables.jobs[Hex(1)].work == Versioned(w.tables.blocks[Hex(1)].work, RotatedVersion(version, 0))
    requires w.tables.jobs[Hex(3)].work == Versioned(w.tables.blocks[Hex(2)].work, RotatedVersion(version, 0))
    ensures Check(w.tables, w.sessions[0], s).Fresh? && Check(w.tables, w.sessions[0], t).Fresh?
    ensures var p, q := PassOf(w, pool, 0, s), PassOf(w, pool, 0, t);
            SameButId(p.template.work, q.template.work) && SameButId(p.job.work, q.job.work) && SameWords(p, q)
  {
  }

  lemma JobIdInKey(s: Submission)
    requires s.jobId == Hex(1)
    ensures SubmissionHash(s) != SubmissionHash(s.(jobId := Hex(3)))
  {
    assert Hex(1) == "1" && Hex(3) == "3";
    KeyNests(s);
    KeyNests(s.(jobId := Hex(3)));
    assert SubmissionHash(s)[0] == '1' && SubmissionHash(s.(jobId := Hex(3)))[0] == '3';
  }

  lemma LongerKeyDiffers(s: Submission)
    ensures SubmissionHash(s) != SubmissionHash(s.(extraNonce2 := s.extraNonce2 + "0"))
    ensures SubmissionHash(s) != SubmissionHash(s.(nonce := "0" + s.nonce))
  {
    assert |SubmissionHash(s)| + 1 == |SubmissionHash(s.(extraNonce2 := s.extraNonce2 + "0"))|;
    assert |SubmissionHash(s)| + 1 == |SubmissionHash(s.(nonce := "0" + s.nonce))|;
  }

  // ---------- canonical spellings ----------

  /** Eight lower-case hexadecimal digits, as miners write a word. */
  predicate Canonical(text: string) {
    |text| == 8 && forall i :: 0 <= i < 8 ==> '0' <= text[i] <= '9' || 'a' <= text[i] <= 'f'
  }

  predicate LowerCase(text: string) {
    forall i :: 0 <= i < |text| ==> '0' <= text[i] <= '9' || 'a' <= text[i] <= 'f'
  }

  lemma {:induction false} ValueInjective(a: string, b: string)
    requires |a| == |b| && LowerCase(a) && LowerCase(b) && Value(a) == Value(b)
    ensures a == b
  {
    if a != [] {
      var n := |a| - 1;
      assert ValueOf(a[n]) < 16 && ValueOf(b[n]) < 16;
      ValueInjective(a[..n], b[..n]);
      assert a == a[..n] + [a[n]] && b == b[..n] + [b[n]];
    }
  }

  function Pow16(n: nat): nat {
    if n == 0 then 1 else 16 * Pow16(n - 1)
  }

  lemma {:induction false} ValueBelow(a: string)
    requires LowerCase(a)
    ensures Value(a) < Pow16(|a|)
  {
    if a != [] {
      ValueBelow(a[..|a| - 1]);
      assert ValueOf(a[|a| - 1]) < 16;
    }
  }

  /** Canonical fields are equal exactly when the words they stand for are. */
  lemma CanonicalIff(a: string, b: string)
    requires Canonical(a) && Canonical(b)
    ensures ToWord(ParseHex(a)) == ToWord(ParseHex(b)) <==> a == b
  {
    CanonicalWord(a);
    CanonicalWord(b);
    if Value(a) == Value(b) { ValueInjective(a, b); }
  }

  lemma CanonicalWord(a: string)
    requires Canonical(a)
    ensures ParseHex(a) == Num(Value(a)) && Value(a) < 0x1_0000_0000 && ToWord(ParseHex(a)) == Value(a)
  {
    assert IsDigit(a[0]) && AllDigits(a);
    ReadsPlain(a);
    ValueBelow(a);
    assert Pow16(4) == 0x1_0000 && Pow16(8) == 0x1_0000_0000;
  }

  predicate CanonicalFields(s: Submission) {
    Canonical(s.ntime) && Canonical(s.nonce) && s.versionMask.Some? && Canonical(s.versionMask.value)
  }

  /**
   * While a miner keeps one second extranonce and spells its fields canonically, no header is credited twice
   * on a job, in any run.
   */
  lemma NoHeaderTwiceOnJob(pool: Pool, events: seq<Event>, i: nat, j: nat, job: MiningJob, payouts: seq<AddressObject>,
                           paymentScript: string -> seq<Byte>)
    requires var w := Run(pool, events);
             && i < j < |w.passed| && w.passed[i].session == w.passed[j].session
             && w.passed[i].submission.jobId == w.passed[j].submission.jobId
             && w.passed[i].submission.extraNonce2 == w.passed[j].submission.extraNonce2
             && CanonicalFields(w.passed[i].submission) && CanonicalFields(w.passed[j].submission)
             && Carries(job, w.passed[i].job, payouts, paymentScript)
    ensures var w := Run(pool, events);
            var first := HeaderOf(pool.H, job, w.passed[i].template.work, w.passed[i].submission);
            var second := HeaderOf(pool.H, job, w.passed[j].template.work, w.passed[j].submission);
            first.Some? && second.Some? ==> first != second
  {
    RunKeepsInv(pool, events);
    AtMostOneCredit(pool, events, i, j);
    var w := Run(pool, events);
    var p, q := w.passed[i], w.passed[j];
    assert PassOk(w, pool, p) && PassOk(w, pool, q);
    if PassHeader(pool.H, job, p).Some? && PassHeader(pool.H, job, q).Some? {
      PassHeadersEqualIff(pool.H, p, q, job, job, payouts, paymentScript);
      XorCancels(job.jobVersion, ToWord(MaskOf(p.submission)), ToWord(MaskOf(q.submission)));
      CanonicalIff(p.submission.ntime, q.submission.ntime);
      CanonicalIff(p.submission.nonce, q.submission.nonce);
      CanonicalIff(p.submission.versionMask.value, q.submission.versionMask.value);
    }
  }

  /**
   * A share in canonical spelling has a header, unless a zero mask meets a version with its top bit set; and the
   * header holds the time and the nonce that were sent, and the job's version with the mask's bits flipped.
   */
  lemma CanonicalHeader(H: HashFunction, job: MiningJob, template: JobTemplate, s: Submission)
    requires CanonicalFields(s) && (Value(s.versionMask.value) != 0 || job.jobVersion < 0x8000_0000)
    ensures HeaderOf(H, job, template, s).Some?
    ensures var h := HeaderOf(H, job, template, s).value;
            && FromLE(h[68..72]) == Value(s.ntime) && FromLE(h[76..80]) == Value(s.nonce)
            && forall i: nat :: Bit(FromLE(h[0..4]), i) == (Bit(job.jobVersion, i) != Bit(Value(s.versionMask.value), i))
  {
    CanonicalWord(s.ntime);
    CanonicalWord(s.nonce);
    CanonicalWord(s.versionMask.value);
    HeaderExistsIff(job, H, template, MaskOf(s), ParseHex(s.nonce), ParseHex(s.ntime));
    HeaderContents(job, H, template, MaskOf(s), ParseHex(s.nonce), ParseHex(s.ntime));
  }
}
