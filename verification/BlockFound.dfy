/** From a share that passed the duplicate check to the block that is submitted. */
module BlockFound {
  import opened Options
  import opened Bytes
  import opened Transactions
  import opened Merkle
  import opened VersionRotation
  import opened MiningJobs
  import opened JobTables
  import opened Sessions
  import opened SessionRuns
  import opened HexNumbers
  import opened ShareHeaders
  import opened Difficulties

  /** How a share ends: an unwritable field, too little work, accepted, or accepted with a block to submit. */
  datatype Result = Thrown | LowDifficulty | Accepted | Found(block: Block)

  /**
   * A block worth submitting: its header is the share's, the hash meets the block's own compact target, the
   * job's coinbase comes first, and the Merkle root commits to the block's own transactions.
   */
  ghost predicate ValidWork(H: HashFunction, block: Block, header: seq<Byte>, coinbase: Tx)
  {
    && BlockHeader(block) == Some(header)
    && FromLE(H(header)) as real <= CompactTarget(block.bits)
    && block.transactions != [] && block.transactions[0] == coinbase
    && block.merkleRoot == Root(H, TxIds(H, block.transactions))
  }

  lemma SubmittedBlockIsValidWork(job: MiningJob, H: HashFunction, template: JobTemplate, versionMask: Number,
                                  nonce: Number, timestamp: Number)
    requires job.Valid() && BranchOk(H, template) && job.merkleBranchBuffers == template.merkleBranch
    requires var header := job.FastHeader(H, template, versionMask, nonce, timestamp);
             && header.Some?
             && AtLeast(ShareDifficulty(H(header.value)), NetworkDifficulty(template.block.bits))
    ensures var header := job.FastHeader(H, template, versionMask, nonce, timestamp);
            var block := job.UpdatedBlock(H, template, versionMask, nonce, timestamp);
            block.Some? && ValidWork(H, block.value, header.value, job.coinbaseTransaction)
  {
    var header := job.FastHeader(H, template, versionMask, nonce, timestamp).value;
    FastHeaderIsBlockHeader(job, H, template, versionMask, nonce, timestamp);
    BlockCommitsToItsTransactions(job, H, template, versionMask, nonce, timestamp);
    BlockFoundIffHashMeetsTarget(H(header), template.block.bits);
    CloneIsIdentity(job.coinbaseTransaction);
  }

  /** The share's hash is at most the target of its difficulty, or of the network's. */
  predicate MeetsSession(H: HashFunction, header: seq<Byte>, sessionDifficulty: real)
    requires sessionDifficulty > 0.0
  {
    FromLE(H(header)) as real <= TRUE_DIFF_ONE / sessionDifficulty
  }

  predicate MeetsNetwork(H: HashFunction, header: seq<Byte>, bits: nat) {
    FromLE(H(header)) as real <= CompactTarget(bits)
  }

  /** A submission after the duplicate check: header, difficulty, acceptance, and the block to submit. */
  method HandleShare(H: HashFunction, job: MiningJob, template: JobTemplate, sessionDifficulty: real, s: Submission)
    returns (result: Result)
    requires job.Valid() && BranchOk(H, template) && job.merkleBranchBuffers == template.merkleBranch
    requires sessionDifficulty > 0.0
    ensures var header := HeaderOf(H, job, template, s);
            match result
            case Thrown => header.None?
            case LowDifficulty => header.Some? && !MeetsSession(H, header.value, sessionDifficulty)
            case Accepted => header.Some? && MeetsSession(H, header.value, sessionDifficulty)
                             && !MeetsNetwork(H, header.value, template.block.bits)
            case Found(block) => header.Some? && MeetsSession(H, header.value, sessionDifficulty)
                                 && MeetsNetwork(H, header.value, template.block.bits)
                                 && ValidWork(H, block, header.value, job.coinbaseTransaction)
                                 && BlockToSubmit(H, job, template, s) == Some(block)
    ensures CanonicalFields(s) && (Value(s.versionMask.value) != 0 || job.jobVersion < 0x8000_0000) ==> result != Thrown
  {
    if CanonicalFields(s) && (Value(s.versionMask.value) != 0 || job.jobVersion < 0x8000_0000) {
      CanonicalHeader(H, job, template, s);
    }
    var versionMask, nonce, timestamp := MaskOf(s), ParseHex(s.nonce), ParseHex(s.ntime);
    var header := job.BuildHeaderBuffer(H, template, versionMask, nonce, timestamp);
    if header.None? {
      return Thrown;
    }
    var submissionDifficulty := CalculateDifficulty(H, header.value);
    ShareAcceptedIff(H(header.value), sessionDifficulty);
    if !AtLeast(submissionDifficulty, Finite(sessionDifficulty)) {
      return LowDifficulty;
    }
    BlockFoundIffHashMeetsTarget(H(header.value), template.block.bits);
    if AtLeast(submissionDifficulty, NetworkDifficulty(template.block.bits)) {
      var block := job.CopyAndUpdateBlock(H, template, versionMask, nonce, timestamp);
      SubmittedBlockIsValidWork(job, H, template, versionMask, nonce, timestamp);
      return Found(block);
    }
    result := Accepted;
  }

  /** The block of a share: valid work on the template's previous hash, with the template's coinbase and transactions. */
  ghost predicate BlockOf(H: HashFunction, work: JobTemplate, header: Option<seq<Byte>>, block: Option<Block>,
                          payouts: seq<AddressObject>, paymentScript: string -> seq<Byte>)
  {
    && header.Some? && block.Some? && block.value.transactions != [] && work.block.transactions != []
    && ValidWork(H, block.value, header.value, block.value.transactions[0])
    && IsCoinbase(block.value.transactions[0], payouts, work, paymentScript)
    && block.value.transactions[1..] == work.block.transactions[1..]
    && block.value.prevHash == work.block.prevHash && block.value.bits == work.block.bits
  }

  /** The header meets the network's target. */
  predicate IsBlock(H: HashFunction, work: JobTemplate, header: Option<seq<Byte>>) {
    header.Some? && MeetsNetwork(H, header.value, work.block.bits)
  }

  function BlockToSubmit(H: HashFunction, job: MiningJob, work: JobTemplate, s: Submission): Option<Block>
    reads job
  {
    job.UpdatedBlock(H, work, MaskOf(s), ParseHex(s.nonce), ParseHex(s.ntime))
  }

  /**
   * The coinbase the node asks for, behind n payouts: the required outputs in their order, or the commitment to
   * the witnesses when there are none; the given scriptSig, or the height; the locktime one below the height.
   */
  predicate AsNodeAsks(H: HashFunction, coinbase: Tx, node: NodeTemplate, n: nat) {
    && |coinbase.ins| == 1 && |coinbase.outs| >= n
    && coinbase.ins[0].script == (if node.scriptSigPrefix != [] then node.scriptSigPrefix else HeightScript(node.height))
    && coinbase.locktime == node.height - 1
    && coinbase.outs[n..] ==
       (if node.requiredOutputs != [] then node.requiredOutputs
        else [TxOut(0, [0x6a, 0x24, 0xaa, 0x21, 0xa9, 0xed] + WitnessCommit(H, [Placeholder()] + node.transactions))])
  }

  lemma CoinbaseIsAsked(H: HashFunction, coinbase: Tx, work: JobTemplate, node: NodeTemplate, payouts: seq<AddressObject>,
                        paymentScript: string -> seq<Byte>)
    requires IsCoinbase(coinbase, payouts, work, paymentScript) && AnswersWith(H, work, node)
    ensures AsNodeAsks(H, coinbase, node, |payouts|)
    ensures SumValues(coinbase.outs[..|payouts|]) == node.coinbasevalue
  {
    if node.requiredOutputs == [] {
      CommitmentScript(WitnessCommit(H, [Placeholder()] + node.transactions));
    }
  }

  lemma CommitmentScript(commitment: seq<Byte>)
    ensures [0x6a, 0x24] + ([0xaa, 0x21, 0xa9, 0xed] + commitment) == [0x6a, 0x24, 0xaa, 0x21, 0xa9, 0xed] + commitment
  {
  }

  /** A block on a node's answer: its transactions, its previous hash and target, and the coinbase it asks for. */
  ghost predicate BlockOnAnswer(H: HashFunction, block: Block, node: NodeTemplate, n: nat) {
    && block.transactions != [] && block.transactions[1..] == node.transactions
    && block.prevHash == node.prevHash && block.bits == node.bits
    && AsNodeAsks(H, block.transactions[0], node, n)
    && SumValues(block.transactions[0].outs[..n]) == node.coinbasevalue
  }

  /**
   * In every run, a share that passed the duplicate check and meets the network's target gives a valid block
   * at the tip of that moment, on an answer that the node gave in the k-th event: nothing is assumed but what
   * building the template and the job did.
   */
  lemma EveryBlockFoundIsValidWork(pool: Pool, events: seq<Event>, i: nat, job: MiningJob, payouts: seq<AddressObject>,
                                   paymentScript: string -> seq<Byte>) returns (k: nat)
    requires i < |Run(pool, events).passed| && Carries(job, Run(pool, events).passed[i].job, payouts, paymentScript)
    requires var p := Run(pool, events).passed[i];
             IsBlock(pool.H, p.template.work, HeaderOf(pool.H, job, p.template.work, p.submission))
    ensures var p := Run(pool, events).passed[i];
            BlockOf(pool.H, p.template.work, HeaderOf(pool.H, job, p.template.work, p.submission),
                    BlockToSubmit(pool.H, job, p.template.work, p.submission), payouts, paymentScript)
    ensures k < |events| && AsksNode(events[k]) && events[k].node.height == Run(pool, events).passed[i].tip
    ensures var p := Run(pool, events).passed[i];
            BlockOnAnswer(pool.H, BlockToSubmit(pool.H, job, p.template.work, p.submission).value, events[k].node, |payouts|)
  {
    RunKeepsInv(pool, events);
    EveryTemplateIsAnswered(pool, events);
    var p := Run(pool, events).passed[i];
    assert PassOk(Run(pool, events), pool, p);
    assert Answered(pool.H, events, p.template.work);
    k :| AnsweredAt(pool.H, events, p.template.work, k);
    ShareMakesBlock(pool.H, p, job, payouts, paymentScript);
    BlockIsOnAnswer(pool.H, p.template.work, HeaderOf(pool.H, job, p.template.work, p.submission),
                    BlockToSubmit(pool.H, job, p.template.work, p.submission), payouts, paymentScript, events[k].node);
  }

  lemma BlockIsOnAnswer(H: HashFunction, work: JobTemplate, header: Option<seq<Byte>>, block: Option<Block>,
                        payouts: seq<AddressObject>, paymentScript: string -> seq<Byte>, node: NodeTemplate)
    requires BlockOf(H, work, header, block, payouts, paymentScript) && AnswersWith(H, work, node)
    ensures BlockOnAnswer(H, block.value, node, |payouts|)
  {
    CoinbaseIsAsked(H, block.value.transactions[0], work, node, payouts, paymentScript);
  }

  lemma ShareMakesBlock(H: HashFunction, p: Pass, job: MiningJob, payouts: seq<AddressObject>,
                        paymentScript: string -> seq<Byte>)
    requires SameWork(p.job.work, p.template.work) && BranchOk(H, p.template.work)
    requires Carries(job, p.job, payouts, paymentScript)
    requires IsBlock(H, p.template.work, HeaderOf(H, job, p.template.work, p.submission))
    ensures BlockOf(H, p.template.work, HeaderOf(H, job, p.template.work, p.submission),
                    BlockToSubmit(H, job, p.template.work, p.submission), payouts, paymentScript)
  {
    var header := HeaderOf(H, job, p.template.work, p.submission).value;
    BlockFoundIffHashMeetsTarget(H(header), p.template.work.block.bits);
    SubmittedBlockIsValidWork(job, H, p.template.work, MaskOf(p.submission), ParseHex(p.submission.nonce),
                              ParseHex(p.submission.ntime));
    BlockContents(H, job, p.template.work, p.submission);
  }

  /** Apart from its header a block is the job's coinbase and the template's other transactions. */
  lemma BlockContents(H: HashFunction, job: MiningJob, work: JobTemplate, s: Submission)
    requires job.Valid() && work.block.transactions != []
    ensures var block := BlockToSubmit(H, job, work, s);
            && block.Some? && block.value.transactions != []
            && block.value.transactions[0] == job.coinbaseTransaction
            && block.value.transactions[1..] == work.block.transactions[1..]
            && block.value.prevHash == work.block.prevHash && block.value.bits == work.block.bits
  {
    CloneIsIdentity(job.coinbaseTransaction);
  }

  /**
   * The whole way: the node's answer becomes a template and a job, and a share for that job a block. The
   * block holds the node's transactions behind a coinbase that pays the whole reward to the pool.
   */
  method FromNodeToBlock(service: StratumV1JobsService, coinbaseAddress: string, node: NodeTemplate, version: Word,
                         now: int, paymentScript: string -> seq<Byte>, sessionDifficulty: real, s: Submission)
    returns (result: Option<Result>, header: Option<seq<Byte>>)
    requires sessionDifficulty > 0.0
    modifies service
    ensures result.Some? && result.value.Found? ==>
              var block := result.value.block;
              && header.Some? && block.transactions != []
              && ValidWork(service.H, block, header.value, block.transactions[0])
              && PaysPool(block.transactions[0], node.coinbasevalue, paymentScript(coinbaseAddress))
              && block.transactions[1..] == node.transactions
              && block.prevHash == node.prevHash && block.bits == node.bits
              && (node.requiredOutputs != [] ==> block.transactions[0].outs[1..] == node.requiredOutputs)
              && (node.scriptSigPrefix != [] ==> block.transactions[0].ins[0].script == node.scriptSigPrefix)
              && block.transactions[0].locktime == node.height - 1
              && AsNodeAsks(service.H, block.transactions[0], node, 1)
  {
    var template := service.BuildTemplateFor(coinbaseAddress, node, now);
    var work := Versioned(template.work, version);
    var payouts := [AddressObject(coinbaseAddress, 100.0)];
    var job := MiningJob.Build(service.GetNextId(), now, payouts, work, paymentScript);
    if job == null {
      return None, None;
    }
    header := HeaderOf(service.H, job, template.work, s);
    var shareResult := HandleShare(service.H, job, template.work, sessionDifficulty, s);
    result := Some(shareResult);
    if shareResult.Found? {
      FoundOnAnswer(service.H, template.work, node, job, s, shareResult.block, payouts[0], paymentScript);
    }
  }

  lemma FoundOnAnswer(H: HashFunction, work: JobTemplate, node: NodeTemplate, job: MiningJob, s: Submission, block: Block,
                      payout: AddressObject, paymentScript: string -> seq<Byte>)
    requires job.Valid() && AnswersWith(H, work, node) && IsCoinbase(job.coinbaseTransaction, [payout], work, paymentScript)
    requires BlockToSubmit(H, job, work, s) == Some(block)
    ensures block.transactions != [] && block.transactions[0] == job.coinbaseTransaction
    ensures PaysPool(block.transactions[0], node.coinbasevalue, paymentScript(payout.address))
    ensures BlockOnAnswer(H, block, node, 1)
  {
    var coinbase := job.coinbaseTransaction;
    BlockContents(H, job, work, s);
    CoinbaseIsAsked(H, coinbase, work, node, [payout], paymentScript);
    assert coinbase.outs[..1][..0] == [];
    assert SumValues(coinbase.outs[..1]) == coinbase.outs[0].value;
  }

  /** The first output is the reward. */
  predicate PaysPool(coinbase: Tx, reward: int, script: seq<Byte>) {
    |coinbase.ins| == 1 && coinbase.outs != [] && coinbase.outs[0] == TxOut(reward, script)
  }
}
