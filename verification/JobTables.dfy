/** The job and template tables that all sessions share. */
module JobTables {
  import opened Options
  import opened Bytes
  import opened HexIds
  import opened VersionRotation
  import opened Transactions
  import opened Merkle
  import opened MiningJobs

  const MAX_AGE_MS := 1000 * 60 * 5

  /** The pool's wallet address, and the hash function. */
  datatype Pool = Pool(address: string, H: HashFunction)

  /** What the node returns for `getblocktemplate`. */
  datatype NodeTemplate = NodeTemplate(height: nat, version: Word, prevHash: Hash, bits: Uint32, mintime: int,
                                       coinbasevalue: int, transactions: seq<Tx>, requiredOutputs: seq<TxOut>,
                                       scriptSigPrefix: seq<Byte>)

  datatype Template = Template(work: JobTemplate, creation: int, timestamp: int, clearJobs: bool)

  /** A job is made from its own, versioned copy of the template. */
  datatype Job = Job(jobId: string, creation: int, work: JobTemplate)

  datatype Tables = Tables(latestJobId: nat, latestJobTemplateId: nat, jobs: map<string, Job>,
                           blocks: map<string, Template>, lastTemplateHeightByAddress: map<string, int>)

  const EMPTY_TABLES := Tables(1, 1, map[], map[], map[])

  function LastHeight(t: Tables, address: string): int {
    if address in t.lastTemplateHeightByAddress then t.lastTemplateHeightByAddress[address] else 0
  }

  /** The work of a template: a placeholder coinbase before the node's transactions, their branch and commitment. */
  function BuiltWork(t: Tables, H: HashFunction, node: NodeTemplate): JobTemplate {
    var transactions := WithPlaceholder(node.transactions);
    var block := BlockTemplate(node.version, node.prevHash, node.bits, transactions, Some(WitnessCommit(H, transactions)));
    JobTemplate(Hex(t.latestJobTemplateId), node.height, node.coinbasevalue, block,
                Siblings(H, TxIds(H, transactions)), node.requiredOutputs, node.scriptSigPrefix)
  }

  /** The work carries what the node answered, and nothing else. */
  predicate AnswersWith(H: HashFunction, work: JobTemplate, node: NodeTemplate) {
    && work.height == node.height && work.coinbasevalue == node.coinbasevalue
    && work.requiredOutputs == node.requiredOutputs && work.scriptSigPrefix == node.scriptSigPrefix
    && work.block.version == node.version && work.block.prevHash == node.prevHash && work.block.bits == node.bits
    && work.block.transactions == [Placeholder()] + node.transactions
    && work.block.witnessCommit == Some(WitnessCommit(H, [Placeholder()] + node.transactions))
  }

  function BuiltTemplate(t: Tables, pool: Pool, node: NodeTemplate, now: int): Template {
    Template(BuiltWork(t, pool.H, node), now, if node.mintime > now / 1000 then node.mintime else now / 1000,
             LastHeight(t, pool.address) != node.height)
  }

  /** A new height empties both tables; otherwise entries older than five minutes go. The new template is added. */
  function AfterBuild(t: Tables, pool: Pool, node: NodeTemplate, now: int): Tables {
    var template := BuiltTemplate(t, pool, node, now);
    var blocks := if template.clearJobs then map[]
                  else map k | k in t.blocks && now - t.blocks[k].creation <= MAX_AGE_MS :: t.blocks[k];
    var jobs := if template.clearJobs then map[]
                else map k | k in t.jobs && now - t.jobs[k].creation <= MAX_AGE_MS :: t.jobs[k];
    Tables(t.latestJobId, t.latestJobTemplateId + 1, jobs, blocks[template.work.id := template],
           t.lastTemplateHeightByAddress[pool.address := node.height])
  }

  function AfterAddJob(t: Tables, job: Job): Tables {
    t.(jobs := t.jobs[job.jobId := job], latestJobId := t.latestJobId + 1)
  }

  /** Right after a build, nothing in either table is older than five minutes. */
  lemma NothingOldRemains(t: Tables, pool: Pool, node: NodeTemplate, now: int)
    ensures var t' := AfterBuild(t, pool, node, now);
            && (forall k :: k in t'.blocks ==> now - t'.blocks[k].creation <= MAX_AGE_MS)
            && (forall k :: k in t'.jobs ==> now - t'.jobs[k].creation <= MAX_AGE_MS)
  {
  }

  class StratumV1JobsService {
    const H: HashFunction
    var latestJobId: nat
    var latestJobTemplateId: nat
    var jobs: map<string, Job>
    var blocks: map<string, Template>
    var lastTemplateHeightByAddress: map<string, int>

    function State(): Tables
      reads this
    {
      Tables(latestJobId, latestJobTemplateId, jobs, blocks, lastTemplateHeightByAddress)
    }

    constructor (H: HashFunction)
      ensures State() == EMPTY_TABLES && this.H == H
    {
      this.H := H;
      latestJobId, latestJobTemplateId := 1, 1;
      jobs, blocks, lastTemplateHeightByAddress := map[], map[], map[];
    }

    method BuildTemplateFor(coinbaseAddress: string, blockTemplate: NodeTemplate, nowMs: int) returns (jobTemplate: Template)
      modifies this
      ensures jobTemplate == BuiltTemplate(old(State()), Pool(coinbaseAddress, H), blockTemplate, nowMs)
      ensures State() == AfterBuild(old(State()), Pool(coinbaseAddress, H), blockTemplate, nowMs)
      // the template, field by field
      ensures AnswersWith(H, jobTemplate.work, blockTemplate) && jobTemplate.work.id == Hex(old(latestJobTemplateId))
      ensures jobTemplate.creation == nowMs
      ensures jobTemplate.timestamp >= blockTemplate.mintime && jobTemplate.timestamp >= nowMs / 1000
      ensures jobTemplate.timestamp == blockTemplate.mintime || jobTemplate.timestamp == nowMs / 1000
      ensures jobTemplate.clearJobs <==>
                blockTemplate.height != if coinbaseAddress in old(lastTemplateHeightByAddress)
                                        then old(lastTemplateHeightByAddress)[coinbaseAddress] else 0
      // the tables: everything goes at a new height, otherwise what is older than five minutes
      ensures forall k :: k in blocks <==>
                k == jobTemplate.work.id
                || (!jobTemplate.clearJobs && k in old(blocks) && nowMs - old(blocks)[k].creation <= 300000)
      ensures blocks[jobTemplate.work.id] == jobTemplate
      ensures forall k :: k in blocks && k != jobTemplate.work.id ==> blocks[k] == old(blocks)[k]
      ensures forall k :: k in jobs <==> !jobTemplate.clearJobs && k in old(jobs) && nowMs - old(jobs)[k].creation <= 300000
      ensures forall k :: k in jobs ==> jobs[k] == old(jobs)[k]
      ensures lastTemplateHeightByAddress == old(lastTemplateHeightByAddress)[coinbaseAddress := blockTemplate.height]
      ensures latestJobTemplateId == old(latestJobTemplateId) + 1 && latestJobId == old(latestJobId)
    {
      jobTemplate := NewTemplate(coinbaseAddress, blockTemplate, nowMs);
      lastTemplateHeightByAddress := lastTemplateHeightByAddress[coinbaseAddress := blockTemplate.height];
      latestJobTemplateId := latestJobTemplateId + 1;
      if jobTemplate.clearJobs {
        blocks, jobs := map[], map[];
      } else {
        DropOldTemplates(nowMs);
        DropOldJobs(nowMs);
      }
      blocks := blocks[jobTemplate.work.id := jobTemplate];
    }

    /** The part that only computes: time, `clearJobs` and work. */
    method NewTemplate(coinbaseAddress: string, blockTemplate: NodeTemplate, nowMs: int) returns (jobTemplate: Template)
      ensures jobTemplate == BuiltTemplate(State(), Pool(coinbaseAddress, H), blockTemplate, nowMs)
    {
      var currentTime := nowMs / 1000;
      var timestamp := if blockTemplate.mintime > currentTime then blockTemplate.mintime else currentTime;
      var previousHeight :=
        if coinbaseAddress in lastTemplateHeightByAddress then lastTemplateHeightByAddress[coinbaseAddress] else 0;
      var clearJobs := previousHeight != blockTemplate.height;
      var work := BuildWork(blockTemplate);
      jobTemplate := Template(work, nowMs, timestamp, clearJobs);
    }

    /** The block and its branch, from the node's transactions behind a placeholder coinbase. */
    method BuildWork(blockTemplate: NodeTemplate) returns (work: JobTemplate)
      ensures work == BuiltWork(State(), H, blockTemplate) && BranchOk(H, work) && AnswersWith(H, work, blockTemplate)
    {
      var transactions, merkleBranch := TemplateTransactions(H, blockTemplate.transactions);
      var block := BlockTemplate(blockTemplate.version, blockTemplate.prevHash, blockTemplate.bits, transactions,
                                 Some(WitnessCommit(H, transactions)));
      work := JobTemplate(GetNextTemplateId(), blockTemplate.height, blockTemplate.coinbasevalue, block, merkleBranch,
                          blockTemplate.requiredOutputs, blockTemplate.scriptSigPrefix);
    }

    method DropOldTemplates(now: int)
      modifies this`blocks
      ensures blocks == map k | k in old(blocks) && now - old(blocks)[k].creation <= 300000 :: old(blocks)[k]
    {
      var todo := blocks.Keys;
      ghost var all := blocks;
      while todo != {}
        invariant todo <= all.Keys
        invariant blocks == map k | k in all && (k in todo || now - all[k].creation <= MAX_AGE_MS) :: all[k]
        decreases |todo|
      {
        var templateId :| templateId in todo;
        if now - blocks[templateId].creation > MAX_AGE_MS {
          blocks := blocks - {templateId};
        }
        todo := todo - {templateId};
      }
    }

    method DropOldJobs(now: int)
      modifies this`jobs
      ensures jobs == map k | k in old(jobs) && now - old(jobs)[k].creation <= 300000 :: old(jobs)[k]
    {
      var todo := jobs.Keys;
      ghost var all := jobs;
      while todo != {}
        invariant todo <= all.Keys
        invariant jobs == map k | k in all && (k in todo || now - all[k].creation <= MAX_AGE_MS) :: all[k]
        decreases |todo|
      {
        var jobId :| jobId in todo;
        if now - jobs[jobId].creation > MAX_AGE_MS {
          jobs := jobs - {jobId};
        }
        todo := todo - {jobId};
      }
    }

    method AddJob(job: Job)
      modifies this`jobs, this`latestJobId
      ensures State() == AfterAddJob(old(State()), job)
      ensures jobs == old(jobs)[job.jobId := job] && latestJobId == old(latestJobId) + 1
    {
      jobs := jobs[job.jobId := job];
      latestJobId := latestJobId + 1;
    }

    function GetJobTemplateById(jobTemplateId: string): Option<Template>
      reads this
    {
      if jobTemplateId in blocks then Some(blocks[jobTemplateId]) else None
    }

    function GetJobById(jobId: string): Option<Job>
      reads this
    {
      if jobId in jobs then Some(jobs[jobId]) else None
    }

    function GetNextTemplateId(): string
      reads this
    {
      Hex(latestJobTemplateId)
    }

    function GetNextId(): string
      reads this
    {
      Hex(latestJobId)
    }
  }
}
