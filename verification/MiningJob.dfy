/**
 * A mining job: the coinbase transaction, its two halves on the wire, and the block header built both
 * from the halves and from the full block.
 */
module MiningJobs {
  import opened Bytes
  import opened Options
  import opened Bits
  import opened Transactions
  import opened Merkle
  import opened VersionRotation

  const MAX_BLOCK_WEIGHT := 4_000_000
  /** The largest value bitcoinjs accepts for an added output. */
  const SATOSHI_MAX := 2_100_000_000_000_000

  type Uint32 = n: nat | n < 0x1_0000_0000

  /** What `parseInt` makes of a field of a submission. */
  datatype Number = NaN | Num(value: int)

  datatype AddressObject = AddressObject(address: string, percent: real)

  datatype BlockTemplate = BlockTemplate(
    version: Word, prevHash: Hash, bits: Uint32, transactions: seq<Tx>, witnessCommit: Option<Hash>)

  datatype JobTemplate = JobTemplate(
    id: string, height: nat, coinbasevalue: int, block: BlockTemplate, merkleBranch: seq<Hash>,
    requiredOutputs: seq<TxOut>, scriptSigPrefix: seq<Byte>)

  datatype Block = Block(version: int, prevHash: Hash, merkleRoot: Hash, timestamp: Number, bits: Uint32, nonce: Number,
                         transactions: seq<Tx>)

  /** A job's own copy of its template, with the rotated version. */
  function Versioned(template: JobTemplate, version: Word): JobTemplate {
    template.(block := template.block.(version := version))
  }

  function SizeOfAll(txs: seq<Tx>, withWitness: bool): nat {
    if txs == [] then 0
    else
      var tx := txs[|txs| - 1];
      SizeOfAll(txs[..|txs| - 1], withWitness) + if withWitness then |ToBuffer(tx)| else |Serialize(tx, false)|
  }

  /** `weight()` of a block: three times the size without witnesses plus the full size. */
  function BlockWeight(txs: seq<Tx>): nat {
    var head := 80 + |VarInt(|txs|)|;
    3 * (head + SizeOfAll(txs, false)) + (head + SizeOfAll(txs, true))
  }

  function SumWeights(txs: seq<Tx>): nat {
    if txs == [] then 0 else SumWeights(txs[..|txs| - 1]) + Weight(txs[|txs| - 1])
  }

  /** A block weighs four times its header and transaction count, and what its transactions weigh. */
  lemma {:induction false} BlockWeightIs(txs: seq<Tx>)
    ensures BlockWeight(txs) == 4 * (80 + |VarInt(|txs|)|) + SumWeights(txs)
  {
    SizesAreWeights(txs);
  }

  lemma {:induction false} SizesAreWeights(txs: seq<Tx>)
    ensures 3 * SizeOfAll(txs, false) + SizeOfAll(txs, true) == SumWeights(txs)
  {
    if txs != [] { SizesAreWeights(txs[..|txs| - 1]); }
  }

  /** A transaction weighs four times its stripped size; with witnesses, their bytes, marker and flag once more. */
  lemma WeightIs(tx: Tx)
    ensures Weight(tx) == 4 * |Serialize(tx, false)| + if HasWitness(tx) then 2 + |WriteAll(Witness, tx.ins)| else 0
  {
  }

  // ---------- the coinbase ----------

  predicate IsSatoshi(value: int) {
    0 <= value <= SATOSHI_MAX
  }

  function Amount(a: AddressObject, reward: int): int {
    (a.percent / 100.0 * reward as real).Floor
  }

  /** An address's share of the reward is the exact percentage, rounded down to whole lep. */
  lemma AmountIs(a: AddressObject, reward: int)
    ensures Amount(a, reward) as real <= a.percent / 100.0 * reward as real < (Amount(a, reward) + 1) as real
  {
  }

  function SumValues(outs: seq<TxOut>): int {
    if outs == [] then 0 else SumValues(outs[..|outs| - 1]) + outs[|outs| - 1].value
  }

  lemma {:induction false} SumValuesReplaced(outs: seq<TxOut>, i: nat, o: TxOut)
    requires i < |outs|
    ensures SumValues(outs[i := o]) == SumValues(outs) - outs[i].value + o.value
  {
    var n := |outs| - 1;
    if i < n {
      assert outs[i := o][..n] == outs[..n][i := o];
      SumValuesReplaced(outs[..n], i, o);
    } else {
      assert outs[i := o][..n] == outs[..n];
    }
  }

  /** One output per address, all of the reward, and the input with its 32-byte zero witness. */
  method CreateCoinbaseTransaction(addresses: seq<AddressObject>, reward: int, paymentScript: string -> seq<Byte>)
    returns (tx: Option<Tx>)
    ensures tx.None? <==>
            addresses == [] || exists i :: 0 <= i < |addresses|
                                        && !(0 <= Amount(addresses[i], reward) <= 2_100_000_000_000_000)
    ensures tx.Some? ==>
            var t := tx.value;
            && t.version == 2
            && t.ins == [TxIn(ZERO_HASH, 0xffff_ffff, [], 0xffff_fffe, [ZERO_HASH])]
            && |t.outs| == |addresses|
            && SumValues(t.outs) == reward
            && (forall i :: 0 <= i < |addresses| ==> t.outs[i].script == paymentScript(addresses[i].address))
            && (forall i :: 1 <= i < |addresses| ==> t.outs[i].value == Amount(addresses[i], reward))
  {
    var outs: seq<TxOut> := [];
    var rewardBalance := reward;
    for k := 0 to |addresses|
      invariant |outs| == k
      invariant SumValues(outs) + rewardBalance == reward
      invariant forall i :: 0 <= i < k ==>
                  && IsSatoshi(Amount(addresses[i], reward))
                  && outs[i] == TxOut(Amount(addresses[i], reward), paymentScript(addresses[i].address))
    {
      var amount := Amount(addresses[k], reward);
      rewardBalance := rewardBalance - amount;
      if !IsSatoshi(amount) {
        return None;
      }
      outs := outs + [TxOut(amount, paymentScript(addresses[k].address))];
      assert outs[..k] + [outs[k]] == outs;
    }
    if outs == [] {
      return None;
    }
    var first := outs[0].(value := outs[0].value + rewardBalance);
    SumValuesReplaced(outs, 0, first);
    outs := outs[0 := first];
    tx := Some(Tx(2, [TxIn(ZERO_HASH, 0xffff_ffff, [], 0xffff_fffe, [ZERO_HASH])], outs, 0));
  }

  /** The size of the height as a script number: little-endian, with room for a clear sign bit. */
  function ScriptNumSize(n: nat): nat {
    if n > 0x7fff_ffff then 5 else if n > 0x7f_ffff then 4 else if n > 0x7fff then 3
    else if n > 0x7f then 2 else if n > 0 then 1 else 0
  }

  /** The encoder shifts a 32-bit integer, so only the low 32 bits of a height are written. */
  function HeightScript(height: nat): seq<Byte> {
    var encoded := LE(ScriptNumSize(height), height % UINT32);
    var push: seq<Byte> := [|encoded|] + encoded;
    if |push| < 2 then push + [0] else push
  }

  function ScriptSig(template: JobTemplate): seq<Byte> {
    if |template.scriptSigPrefix| > 0 then template.scriptSigPrefix else HeightScript(template.height)
  }

  /** The script is never a single byte nor looks negative, and the pushed bytes decode to the height exactly below 2^32. */
  lemma HeightScriptDecodes(height: nat)
    ensures var s := HeightScript(height);
            && |s| >= 2 && s[0] <= 5 && s[|s| - 1] < 128
            && (FromLE(s[1..]) == height <==> height < UINT32)
  {
    var n, low := ScriptNumSize(height), height % UINT32;
    PowersUpTo5();
    LERoundTrip(n, low);
    var s := HeightScript(height);
    if n == 0 {
      assert s[1..] == [0];
    } else {
      assert s[1..] == LE(n, low);
      LastByte(n, low);
    }
  }

  lemma PowersUpTo5()
    ensures Pow256(0) == 1 && Pow256(1) == 0x100 && Pow256(2) == 0x1_0000 && Pow256(3) == 0x100_0000
    ensures Pow256(4) == 0x1_0000_0000 && Pow256(5) == 0x100_0000_0000
  {
    Pow256Values();
  }

  /** The script pushes as few bytes as a positive number allows, behind their count. */
  lemma HeightScriptIsShort(height: nat)
    requires 0 < height < 0x1_0000_0000
    ensures var s := HeightScript(height);
            |s| == 1 + s[0] && |s| >= 2 && (s[0] == 1 || s[|s| - 1] > 0 || s[|s| - 2] >= 128)
  {
    var n := ScriptNumSize(height);
    SizeIsNeeded(height);
    assert HeightScript(height) == [n] + LE(n, height);
    LastByte(n, height);
    if n > 1 && height < Pow256(n - 1) {
      ByteBelow(n, height);
    }
  }

  /** The size holds the height, and one byte less would leave no room for it or for a clear sign bit. */
  lemma SizeIsNeeded(height: nat)
    requires 0 < height < 0x1_0000_0000
    ensures var n := ScriptNumSize(height);
            && 1 <= n <= 5 && height < Pow256(n)
            && (n > 1 && height < Pow256(n - 1) ==> height / Pow256(n - 2) >= 128)
            && (n > 1 && height >= Pow256(n - 1) ==> height / Pow256(n - 1) > 0)
  {
    PowersUpTo5();
  }

  /** A number that would fit without the last byte has its top byte before it. */
  lemma {:induction false} ByteBelow(n: nat, v: nat)
    requires n >= 2 && v < Pow256(n - 1)
    ensures LE(n, v)[n - 2] == v / Pow256(n - 2)
  {
    LastByte(n - 1, v);
    LEPrefix(n, v);
  }

  lemma {:induction false} LEPrefix(n: nat, v: nat)
    requires n >= 1
    ensures LE(n, v)[..n - 1] == LE(n - 1, v)
  {
    if n > 1 { LEPrefix(n - 1, v / 256); }
  }

  lemma {:induction false} LastByte(n: nat, v: nat)
    requires n >= 1 && v < Pow256(n)
    ensures LE(n, v)[n - 1] == v / Pow256(n - 1)
  {
    if n > 1 {
      LastByte(n - 1, v / 256);
      var p := Pow256(n - 2);
      assert LE(n, v)[n - 1] == LE(n - 1, v / 256)[n - 2];
      DivDiv(v, p);
    }
  }

  lemma DivDiv(v: nat, p: nat)
    requires p >= 1
    ensures v / 256 / p == v / (256 * p)
  {
    var q := v / 256 / p;
    var r := v / 256 % p;
    assert v / 256 == q * p + r;
    assert q * (256 * p) == 256 * (q * p);
    RemainderUnique(v, 256 * p, q, 256 * r + v % 256);
    SmallMultiple(q - v / (256 * p), 256 * p);
    assert (q - v / (256 * p)) * (256 * p) == 0;
  }

  /** The outputs after the payout: the required ones in template order, or the witness commitment. */
  function TrailingOutputs(template: JobTemplate): seq<TxOut> {
    if |template.requiredOutputs| > 0 then template.requiredOutputs
    else if template.block.witnessCommit.Some? then
      var commitment: seq<Byte> := [0xaa, 0x21, 0xa9, 0xed] + template.block.witnessCommit.value;
      [TxOut(0, [0x6a, 0x24] + commitment)]
    else []
  }

  /** The transaction a job carries, described from its parts. */
  ghost predicate IsCoinbase(tx: Tx, payouts: seq<AddressObject>, template: JobTemplate,
                             paymentScript: string -> seq<Byte>)
  {
    var n := |payouts|;
    && tx.version == 2
    && tx.ins == [TxIn(ZERO_HASH, 0xffff_ffff, ScriptSig(template), 0xffff_fffe, [ZERO_HASH])]
    && tx.locktime == template.height - 1
    && |tx.outs| >= n
    && tx.outs[n..] == TrailingOutputs(template)
    && SumValues(tx.outs[..n]) == template.coinbasevalue
    && (forall i :: 0 <= i < n ==> tx.outs[i].script == paymentScript(payouts[i].address))
    && (forall i :: 1 <= i < n ==> tx.outs[i].value == Amount(payouts[i], template.coinbasevalue))
  }

  /** The description leaves no freedom. */
  lemma CoinbaseUnique(a: Tx, b: Tx, payouts: seq<AddressObject>, template: JobTemplate,
                       paymentScript: string -> seq<Byte>)
    requires IsCoinbase(a, payouts, template, paymentScript) && IsCoinbase(b, payouts, template, paymentScript)
    ensures a == b
  {
    var n := |payouts|;
    if n > 0 {
      var same := a.outs[..n][0 := b.outs[0]];
      SumValuesReplaced(a.outs[..n], 0, b.outs[0]);
      assert same == b.outs[..n];
    }
    assert a.outs == a.outs[..n] + a.outs[n..] && b.outs == b.outs[..n] + b.outs[n..];
    assert a.outs[..n] == b.outs[..n];
  }

  /** When the described coinbase can be written: 32-bit locktime, and values and lengths the format holds. */
  lemma CoinbaseSerializableIff(tx: Tx, payouts: seq<AddressObject>, template: JobTemplate, paymentScript: string -> seq<Byte>)
    requires IsCoinbase(tx, payouts, template, paymentScript)
    ensures Serializable(tx) <==>
              && 1 <= template.height <= 0x1_0000_0000
              && |ScriptSig(template)| <= 0x1f_ffff_ffff_ffff && |tx.outs| <= 0x1f_ffff_ffff_ffff
              && forall o :: o in tx.outs ==> 0 <= o.value <= 0x1f_ffff_ffff_ffff && |o.script| <= 0x1f_ffff_ffff_ffff
  {
    assert tx.ins[0] in tx.ins;
  }

  // ---------- the wire halves ----------

  /** Everything up to and including the last scriptSig byte. */
  function UpToScriptSig(tx: Tx): seq<Byte>
    requires |tx.ins| == 1
  {
    Version(tx.version) + ([1] + HeadOf(tx.ins[0]))
  }

  function AfterScriptSig(tx: Tx): seq<Byte>
    requires |tx.ins| == 1
  {
    LE(4, tx.ins[0].sequence)
    + (VarInt(|tx.outs|) + (WriteAll(WriteOut, tx.outs) + LE(4, if tx.locktime < 0 then 0 else tx.locktime)))
  }

  lemma SerializeOneInput(tx: Tx)
    requires |tx.ins| == 1
    ensures Serialize(tx, false) == UpToScriptSig(tx) + AfterScriptSig(tx)
  {
    var i := tx.ins[0];
    var head := HeadOf(i);
    var outs := VarInt(|tx.outs|) + WriteAll(WriteOut, tx.outs);
    var end := LE(4, if tx.locktime < 0 then 0 else tx.locktime);
    BodyOneInput(tx);
    assert Serialize(tx, false) == Version(tx.version) + ([1] + ((head + LE(4, i.sequence)) + outs) + end);
    AfterRegrouped(tx);
    Regroup(Version(tx.version), [1], head, LE(4, i.sequence), outs, end);
  }

  lemma BodyOneInput(tx: Tx)
    requires |tx.ins| == 1
    ensures Body(tx.ins, tx.outs)
         == [1] + ((HeadOf(tx.ins[0]) + LE(4, tx.ins[0].sequence)) + (VarInt(|tx.outs|) + WriteAll(WriteOut, tx.outs)))
  {
    var i := tx.ins[0];
    assert WriteAll(WriteIn, tx.ins) == WriteIn(i) by { assert tx.ins[1..] == []; }
    assert WriteIn(i) == HeadOf(i) + LE(4, i.sequence);
  }

  /** An input up to its script. */
  function HeadOf(i: TxIn): seq<Byte> {
    i.hash + (LE(4, i.index) + VarSlice(i.script))
  }

  lemma AfterRegrouped(tx: Tx)
    requires |tx.ins| == 1
    ensures AfterScriptSig(tx)
         == LE(4, tx.ins[0].sequence) + ((VarInt(|tx.outs|) + WriteAll(WriteOut, tx.outs))
                                         + LE(4, if tx.locktime < 0 then 0 else tx.locktime))
  {
  }

  lemma Regroup(v: seq<Byte>, one: seq<Byte>, head: seq<Byte>, sequence: seq<Byte>, outs: seq<Byte>, end: seq<Byte>)
    ensures v + (one + ((head + sequence) + outs) + end) == (v + (one + head)) + (sequence + (outs + end))
  {
  }

  function SplitOffset(scriptSig: seq<Byte>): nat {
    41 + 1 + |scriptSig|
  }

  /**
   * The first half ends at the last scriptSig byte, and the second starts at nSequence, exactly when the
   * scriptSig's length takes one byte; the cut never changes the concatenation.
   */
  lemma CutAtScriptSigEnd(tx: Tx)
    requires |tx.ins| == 1
    ensures var full := Serialize(tx, false);
            var cut := SplitOffset(tx.ins[0].script);
            && cut <= |full|
            && full[..cut] + full[cut..] == full
            && (full[..cut] == UpToScriptSig(tx) <==> |tx.ins[0].script| < 253)
            && (|tx.ins[0].script| < 253 ==> full[cut..] == AfterScriptSig(tx))
  {
    SerializeOneInput(tx);
    UpToScriptSigLength(tx);
    Cut(UpToScriptSig(tx), AfterScriptSig(tx), SplitOffset(tx.ins[0].script));
  }

  lemma UpToScriptSigLength(tx: Tx)
    requires |tx.ins| == 1
    ensures |UpToScriptSig(tx)| == 41 + |VarInt(|tx.ins[0].script|)| + |tx.ins[0].script|
  {
  }

  lemma Cut(front: seq<Byte>, back: seq<Byte>, cut: nat)
    requires cut <= |front|
    ensures var full := front + back;
            && full[..cut] + full[cut..] == full
            && (full[..cut] == front <==> cut == |front|)
            && (cut == |front| ==> full[cut..] == back)
  {
  }

  /** A length in front of a list or a script. */
  lemma VarIntIs(n: nat)
    requires n < 0x1_0000
    ensures VarInt(n) == if n < 253 then [n] else [253, n % 256, n / 256]
  {
    if n >= 253 { assert LE(2, n) == [n % 256] + LE(1, n / 256); }
  }

  /** The first half, byte by byte: version 2, one input, no outpoint, the scriptSig behind its length. */
  lemma FirstHalfIs(tx: Tx)
    requires tx.version == 2 && |tx.ins| == 1 && tx.ins[0].hash == ZERO_HASH && tx.ins[0].index == 0xffff_ffff
    requires |tx.ins[0].script| < 253
    ensures UpToScriptSig(tx)
         == [2, 0, 0, 0, 1] + seq(32, _ => 0) + [0xff, 0xff, 0xff, 0xff, |tx.ins[0].script|] + tx.ins[0].script
  {
    VarIntIs(|tx.ins[0].script|);
    assert LE(4, 2) == [2, 0, 0, 0];
    AllOnesBytes();
  }

  lemma AllOnesBytes()
    ensures LE(4, 0xffff_ffff) == [0xff, 0xff, 0xff, 0xff]
  {
    assert LE(2, 0xffff) == [0xff, 0xff];
    assert LE(3, 0xff_ffff) == [0xff] + LE(2, 0xffff);
  }

  /** The second half: nSequence fe ff ff ff, the outputs behind their count, the locktime. */
  lemma SecondHalfIs(tx: Tx)
    requires |tx.ins| == 1 && tx.ins[0].sequence == 0xffff_fffe && 0 <= tx.locktime < 0x1_0000_0000
    ensures var half := AfterScriptSig(tx);
            && |half| >= 8 && half[..4] == [0xfe, 0xff, 0xff, 0xff]
            && FromLE(half[|half| - 4..]) == tx.locktime
            && half[4..|half| - 4] == VarInt(|tx.outs|) + WriteAll(WriteOut, tx.outs)
  {
    SequenceBytes();
    WordReadBack(tx.locktime);
    var middle := VarInt(|tx.outs|) + WriteAll(WriteOut, tx.outs);
    assert AfterScriptSig(tx) == LE(4, tx.ins[0].sequence) + middle + LE(4, tx.locktime);
  }

  /** An output: its value in eight bytes, its script behind its length. */
  lemma OutputIs(o: TxOut)
    requires SerializableOut(o) && |o.script| < 253
    ensures var bytes := WriteOut(o);
            |bytes| == 9 + |o.script| && FromLE(bytes[..8]) == o.value && bytes[8] == |o.script| && bytes[9..] == o.script
  {
    VarIntIs(|o.script|);
    Pow256Values();
    LERoundTrip(8, o.value);
    assert WriteOut(o)[..8] == LE(8, o.value);
  }

  lemma SequenceBytes()
    ensures LE(4, 0xffff_fffe) == [0xfe, 0xff, 0xff, 0xff]
  {
    assert LE(2, 0xffff) == [0xff, 0xff];
    assert LE(3, 0xff_ffff) == [0xff] + LE(2, 0xffff);
  }

  // ---------- headers ----------

  /** `ToInt32` of a word. */
  function Signed(w: Word): int {
    if w < 0x8000_0000 then w else w - 0x1_0000_0000
  }

  lemma XorIsWord(v: Word, m: Word)
    ensures Bitwise(Xor, v, m) < 0x1_0000_0000
  {
    Constants();
    forall i: nat | 32 <= i ensures !Bit(Bitwise(Xor, v, m), i) {
      BitwiseBit(Xor, v, m, i);
      WordBit(v, i);
      WordBit(m, i);
    }
    NoHighBits(Bitwise(Xor, v, m), 32);
  }

  function XorWord(v: Word, m: Word): (w: Word)
    ensures w == Bitwise(Xor, v, m)
  {
    XorIsWord(v, m);
    Bitwise(Xor, v, m)
  }

  /** `ToUint32`. */
  function ToWord(n: Number): Word {
    if n.NaN? then 0 else n.value % UINT32
  }

  /** The version as a JavaScript number: a zero mask leaves it unsigned, XOR makes it signed. */
  function HeaderVersion(jobVersion: Word, versionMask: Number): int {
    if versionMask == Num(0) then jobVersion else Signed(XorWord(jobVersion, ToWord(versionMask)))
  }

  /** `writeUInt32LE` refuses what is out of range; what is not a number compares as in range and is written as 0. */
  predicate Writable(n: Number) {
    n.NaN? || 0 <= n.value < UINT32
  }

  /** The 80 header bytes, or the range error of a field write. */
  function EncodeHeader(version: int, prevHash: Hash, merkleRoot: Hash, timestamp: Number, bits: Uint32, nonce: Number)
    : (header: Option<seq<Byte>>)
    ensures header.Some? ==> |header.value| == 80
  {
    if -0x8000_0000 <= version < 0x8000_0000 && Writable(timestamp) && Writable(nonce) then
      Some(Version(version) + prevHash + merkleRoot + LE(4, ToWord(timestamp)) + LE(4, bits) + LE(4, ToWord(nonce)))
    else None
  }

  /** Where each field sits, by reading the bytes back. */
  lemma HeaderFields(version: int, prevHash: Hash, merkleRoot: Hash, timestamp: Number, bits: Uint32, nonce: Number)
    requires EncodeHeader(version, prevHash, merkleRoot, timestamp, bits, nonce).Some?
    ensures var h := EncodeHeader(version, prevHash, merkleRoot, timestamp, bits, nonce).value;
            && FromLE(h[0..4]) == version % UINT32 && h[4..36] == prevHash && h[36..68] == merkleRoot
            && FromLE(h[68..72]) == ToWord(timestamp) && FromLE(h[72..76]) == bits
            && FromLE(h[76..80]) == ToWord(nonce)
  {
    var h := EncodeHeader(version, prevHash, merkleRoot, timestamp, bits, nonce).value;
    FieldSlices(Version(version), prevHash, merkleRoot, LE(4, ToWord(timestamp)), LE(4, bits), LE(4, ToWord(nonce)), h);
    WordReadBack(version % UINT32);
    WordReadBack(ToWord(timestamp));
    WordReadBack(bits);
    WordReadBack(ToWord(nonce));
  }

  lemma FieldSlices(v: seq<Byte>, prev: seq<Byte>, root: seq<Byte>, time: seq<Byte>, bits: seq<Byte>, nonce: seq<Byte>,
                    h: seq<Byte>)
    requires |v| == |time| == |bits| == |nonce| == 4 && |prev| == |root| == 32
    requires h == v + prev + root + time + bits + nonce
    ensures h[0..4] == v && h[4..36] == prev && h[36..68] == root
    ensures h[68..72] == time && h[72..76] == bits && h[76..80] == nonce
  {
  }

  lemma WordReadBack(w: Word)
    ensures FromLE(LE(4, w)) == w
  {
    Pow256Values();
    LERoundTrip(4, w);
  }

  /** Two headers are the same bytes exactly when every field is, version, time and nonce as 32-bit words. */
  lemma HeadersEqualIff(version1: int, prev1: Hash, root1: Hash, time1: Number, bits1: Uint32, nonce1: Number,
                        version2: int, prev2: Hash, root2: Hash, time2: Number, bits2: Uint32, nonce2: Number)
    requires EncodeHeader(version1, prev1, root1, time1, bits1, nonce1).Some?
    requires EncodeHeader(version2, prev2, root2, time2, bits2, nonce2).Some?
    ensures EncodeHeader(version1, prev1, root1, time1, bits1, nonce1)
         == EncodeHeader(version2, prev2, root2, time2, bits2, nonce2)
       <==> version1 % UINT32 == version2 % UINT32 && prev1 == prev2 && root1 == root2
            && ToWord(time1) == ToWord(time2) && bits1 == bits2 && ToWord(nonce1) == ToWord(nonce2)
  {
    HeaderFields(version1, prev1, root1, time1, bits1, nonce1);
    HeaderFields(version2, prev2, root2, time2, bits2, nonce2);
  }

  /** `toBuffer(true)` of a block. */
  function BlockHeader(b: Block): Option<seq<Byte>> {
    EncodeHeader(b.version, b.prevHash, b.merkleRoot, b.timestamp, b.bits, b.nonce)
  }

  /** The field writes into the 80-byte buffer; an out-of-range integer field throws. */
  method WriteHeader(version: int, prevHash: Hash, merkleRoot: Hash, timestamp: Number, bits: Uint32, nonce: Number)
    returns (header: Option<seq<Byte>>)
    ensures header == EncodeHeader(version, prevHash, merkleRoot, timestamp, bits, nonce)
  {
    var buffer := new Byte[80](_ => 0);
    if !(-0x8000_0000 <= version < 0x8000_0000) {
      return None;
    }
    Put(buffer, 0, Version(version));
    Put(buffer, 4, prevHash);
    assert buffer[..36] == Version(version) + prevHash;
    Put(buffer, 36, merkleRoot);
    assert buffer[..68] == Version(version) + prevHash + merkleRoot;
    if !Writable(timestamp) {
      return None;
    }
    Put(buffer, 68, LE(4, ToWord(timestamp)));
    Put(buffer, 72, LE(4, bits));
    ghost var front := Version(version) + prevHash + merkleRoot + LE(4, ToWord(timestamp)) + LE(4, bits);
    assert buffer[..76] == front;
    if !Writable(nonce) {
      return None;
    }
    Put(buffer, 76, LE(4, ToWord(nonce)));
    assert buffer[..] == front + LE(4, ToWord(nonce));
    header := Some(buffer[..]);
  }

  class MiningJob {
    const jobId: string
    const jobTemplateId: string
    const creation: int
    var coinbaseTransaction: Tx
    var coinbasePart1Buffer: seq<Byte>
    var coinbasePart2Buffer: seq<Byte>
    var merkleBranchBuffers: seq<Hash>
    var jobVersion: Word

    ghost predicate Valid()
      reads this
    {
      && Serializable(coinbaseTransaction)
      && |coinbaseTransaction.ins| == 1
      && coinbaseTransaction.ins[0].stack != []
      && coinbasePart1Buffer + coinbasePart2Buffer == Serialize(coinbaseTransaction, false)
    }

    constructor (jobId: string, creation: int, template: JobTemplate, tx: Tx, part1: seq<Byte>, part2: seq<Byte>)
      requires Serializable(tx) && |tx.ins| == 1 && tx.ins[0].stack != [] && part1 + part2 == Serialize(tx, false)
      ensures Valid()
      ensures this.jobId == jobId && this.creation == creation && jobTemplateId == template.id
      ensures coinbaseTransaction == tx && coinbasePart1Buffer == part1 && coinbasePart2Buffer == part2
      ensures merkleBranchBuffers == template.merkleBranch && jobVersion == template.block.version
    {
      this.jobId, this.creation, jobTemplateId := jobId, creation, template.id;
      coinbaseTransaction, coinbasePart1Buffer, coinbasePart2Buffer := tx, part1, part2;
      merkleBranchBuffers, jobVersion := template.merkleBranch, template.block.version;
    }

    /**
     * The source's constructor. It throws (no job) when there is no payout, an output value is out of
     * range, the block would be overweight or the transaction cannot be written.
     */
    static method Build(jobId: string, creation: int, payouts: seq<AddressObject>, template: JobTemplate,
                        paymentScript: string -> seq<Byte>) returns (job: MiningJob?)
      ensures job != null ==>
              && fresh(job) && job.Valid()
              && job.jobId == jobId && job.creation == creation && job.jobTemplateId == template.id
              && job.jobVersion == template.block.version && job.merkleBranchBuffers == template.merkleBranch
              && IsCoinbase(job.coinbaseTransaction, payouts, template, paymentScript)
              && Weight(job.coinbaseTransaction) + BlockWeight(template.block.transactions) <= 4_000_000
      ensures job != null ==>
              var tx := job.coinbaseTransaction;
              && (job.coinbasePart1Buffer == UpToScriptSig(tx) <==> |ScriptSig(template)| < 253)
              && (|ScriptSig(template)| < 253 ==>
                    && job.coinbasePart2Buffer == AfterScriptSig(tx)
                    && job.coinbasePart2Buffer[..4] == [0xfe, 0xff, 0xff, 0xff])
      ensures job == null <==>
              || payouts == []
              || (exists i :: 0 <= i < |payouts| && !(0 <= Amount(payouts[i], template.coinbasevalue) <= 2_100_000_000_000_000))
              || (exists i :: 0 <= i < |template.requiredOutputs|
                           && !(0 <= template.requiredOutputs[i].value <= 2_100_000_000_000_000))
              || (exists tx :: IsCoinbase(tx, payouts, template, paymentScript)
                           && (!Serializable(tx) || Weight(tx) + BlockWeight(template.block.transactions) > 4_000_000))
    {
      var completed := CompleteCoinbase(payouts, template, paymentScript);
      if completed.None? {
        return null;
      }
      var tx := completed.value;
      forall other | IsCoinbase(other, payouts, template, paymentScript) ensures other == tx {
        CoinbaseUnique(other, tx, payouts, template, paymentScript);
      }
      if Weight(tx) + BlockWeight(template.block.transactions) > MAX_BLOCK_WEIGHT {
        return null;
      }
      if !Serializable(tx) {
        return null;
      }
      var full := Serialize(tx, false);
      var cut := SplitOffset(ScriptSig(template));
      CutAtScriptSigEnd(tx);
      SequenceBytes();
      job := new MiningJob(jobId, creation, template, tx, full[..cut], full[cut..]);
    }

    /** The coinbase with its locktime, scriptSig and trailing outputs. */
    static method CompleteCoinbase(payouts: seq<AddressObject>, template: JobTemplate, paymentScript: string -> seq<Byte>)
      returns (completed: Option<Tx>)
      ensures completed.Some? ==> IsCoinbase(completed.value, payouts, template, paymentScript)
      ensures completed.None? <==>
              || payouts == []
              || (exists i :: 0 <= i < |payouts| && !(0 <= Amount(payouts[i], template.coinbasevalue) <= 2_100_000_000_000_000))
              || (exists i :: 0 <= i < |template.requiredOutputs|
                           && !(0 <= template.requiredOutputs[i].value <= 2_100_000_000_000_000))
    {
      var created := CreateCoinbaseTransaction(payouts, template.coinbasevalue, paymentScript);
      if created.None? {
        return None;
      }
      var tx := created.value;
      var payoutOuts := tx.outs;
      var scriptSig := ScriptSig(template);
      tx := tx.(locktime := template.height - 1, ins := [tx.ins[0].(script := scriptSig)]);
      if |template.requiredOutputs| > 0 {
        for k := 0 to |template.requiredOutputs|
          invariant tx == created.value.(locktime := template.height - 1, ins := tx.ins, outs := tx.outs)
          invariant tx.ins == [created.value.ins[0].(script := scriptSig)]
          invariant tx.outs == payoutOuts + template.requiredOutputs[..k]
          invariant forall i :: 0 <= i < k ==> IsSatoshi(template.requiredOutputs[i].value)
        {
          var out := template.requiredOutputs[k];
          if !IsSatoshi(out.value) {
            return None;
          }
          tx := tx.(outs := tx.outs + [out]);
          assert template.requiredOutputs[..k + 1] == template.requiredOutputs[..k] + [out];
        }
        assert tx.outs == payoutOuts + TrailingOutputs(template);
      } else {
        tx := tx.(outs := tx.outs + TrailingOutputs(template));
      }
      assert tx.outs[..|payouts|] == payoutOuts && tx.outs[|payouts|..] == TrailingOutputs(template);
      completed := Some(tx);
    }

    /** The header as the fast path sees it: the two wire halves hashed and folded through the branch. */
    function FastHeader(H: HashFunction, template: JobTemplate, versionMask: Number, nonce: Number, timestamp: Number)
      : Option<seq<Byte>>
      reads this
    {
      var coinbaseHash := H(coinbasePart1Buffer + coinbasePart2Buffer);
      EncodeHeader(HeaderVersion(jobVersion, versionMask), template.block.prevHash,
                   Fold(H, coinbaseHash, merkleBranchBuffers), timestamp, template.block.bits, nonce)
    }

    /** The block as the slow path builds it: the coinbase written with its witness, parsed back and hashed without. */
    function UpdatedBlock(H: HashFunction, template: JobTemplate, versionMask: Number, nonce: Number, timestamp: Number)
      : Option<Block>
      reads this
    {
      match FromBuffer(ToBuffer(coinbaseTransaction))
      case None => None
      case Some(clone) =>
        var txs := template.block.transactions;
        Some(Block(HeaderVersion(jobVersion, versionMask), template.block.prevHash,
                   Fold(H, TxId(H, clone), merkleBranchBuffers), timestamp, template.block.bits, nonce,
                   [clone] + if txs == [] then [] else txs[1..]))
    }

    method BuildHeaderBuffer(H: HashFunction, template: JobTemplate, versionMask: Number, nonce: Number, timestamp: Number)
      returns (header: Option<seq<Byte>>)
      ensures header == FastHeader(H, template, versionMask, nonce, timestamp)
      ensures header.Some? <==>
                && (versionMask == Num(0) ==> jobVersion < 0x8000_0000)
                && (timestamp.NaN? || 0 <= timestamp.value < 0x1_0000_0000)
                && (nonce.NaN? || 0 <= nonce.value < 0x1_0000_0000)
      ensures header.Some? ==>
                && header.value[4..36] == template.block.prevHash
                && FromLE(header.value[68..72]) == (if timestamp.NaN? then 0 else timestamp.value)
                && FromLE(header.value[72..76]) == template.block.bits
                && FromLE(header.value[76..80]) == (if nonce.NaN? then 0 else nonce.value)
    {
      HeaderExistsIff(this, H, template, versionMask, nonce, timestamp);
      if FastHeader(H, template, versionMask, nonce, timestamp).Some? {
        HeaderContents(this, H, template, versionMask, nonce, timestamp);
      }
      var coinbaseHash := H(coinbasePart1Buffer + coinbasePart2Buffer);
      var merkleRoot := CalculateMerkleRootHash(H, coinbaseHash, merkleBranchBuffers);
      var version: int := jobVersion;
      if versionMask != Num(0) {
        version := Signed(XorWord(jobVersion, ToWord(versionMask)));
      }
      header := WriteHeader(version, template.block.prevHash, merkleRoot, timestamp, template.block.bits, nonce);
    }

    method CopyAndUpdateBlock(H: HashFunction, template: JobTemplate, versionMask: Number, nonce: Number, timestamp: Number)
      returns (testBlock: Block)
      requires Valid()
      ensures UpdatedBlock(H, template, versionMask, nonce, timestamp) == Some(testBlock)
      ensures testBlock.transactions[..1] == [coinbaseTransaction]
    {
      var version: int := jobVersion;
      CloneIsIdentity(coinbaseTransaction);
      var clone := FromBuffer(ToBuffer(coinbaseTransaction)).value;
      var txs := template.block.transactions;
      if versionMask != Num(0) {
        version := Signed(XorWord(jobVersion, ToWord(versionMask)));
      }
      var merkleRoot := CalculateMerkleRootHash(H, TxId(H, clone), merkleBranchBuffers);
      testBlock := Block(version, template.block.prevHash, merkleRoot, timestamp, template.block.bits, nonce,
                         [clone] + if txs == [] then [] else txs[1..]);
    }
  }

  /** A header exists exactly when the version fits a signed word and time and nonce fit an unsigned one. */
  lemma HeaderExistsIff(job: MiningJob, H: HashFunction, template: JobTemplate, versionMask: Number, nonce: Number,
                        timestamp: Number)
    ensures job.FastHeader(H, template, versionMask, nonce, timestamp).Some? <==>
              && (versionMask == Num(0) ==> job.jobVersion < 0x8000_0000)
              && (timestamp.NaN? || 0 <= timestamp.value < 0x1_0000_0000)
              && (nonce.NaN? || 0 <= nonce.value < 0x1_0000_0000)
  {
  }

  /** Each field of a header, read back: version bits flipped by the mask, and the rest as given; NaN is zero. */
  lemma HeaderContents(job: MiningJob, H: HashFunction, template: JobTemplate, versionMask: Number, nonce: Number,
                       timestamp: Number)
    requires job.FastHeader(H, template, versionMask, nonce, timestamp).Some?
    ensures var h := job.FastHeader(H, template, versionMask, nonce, timestamp).value;
            && |h| == 80
            && (forall i: nat :: Bit(FromLE(h[0..4]), i) ==
                  (Bit(job.jobVersion, i) != (versionMask.Num? && Bit(versionMask.value % 0x1_0000_0000, i))))
            && h[4..36] == template.block.prevHash
            && h[36..68] == Fold(H, H(job.coinbasePart1Buffer + job.coinbasePart2Buffer), job.merkleBranchBuffers)
            && FromLE(h[68..72]) == (if timestamp.NaN? then 0 else timestamp.value)
            && FromLE(h[72..76]) == template.block.bits
            && FromLE(h[76..80]) == (if nonce.NaN? then 0 else nonce.value)
  {
    var root := Fold(H, H(job.coinbasePart1Buffer + job.coinbasePart2Buffer), job.merkleBranchBuffers);
    HeaderFields(HeaderVersion(job.jobVersion, versionMask), template.block.prevHash, root, timestamp, template.block.bits,
                 nonce);
    RolledBits(job.jobVersion, versionMask);
  }

  /** A mask flips its bits of the version, as a number of any size and sign would, and nothing else. */
  lemma RolledBits(jobVersion: Word, versionMask: Number)
    ensures forall i: nat :: Bit(HeaderVersion(jobVersion, versionMask) % UINT32, i) ==
                             (Bit(jobVersion, i) != (versionMask.Num? && Bit(versionMask.value % 0x1_0000_0000, i)))
  {
    VersionBytes(jobVersion, versionMask);
    forall i: nat ensures Bit(XorWord(jobVersion, ToWord(versionMask)), i) ==
                          (Bit(jobVersion, i) != (versionMask.Num? && Bit(versionMask.value % 0x1_0000_0000, i)))
    {
      BitwiseBit(Xor, jobVersion, ToWord(versionMask), i);
      ZeroBit(i);
    }
  }

  /** The fast header is the header of the block that would be submitted, range errors included. */
  lemma FastHeaderIsBlockHeader(job: MiningJob, H: HashFunction, template: JobTemplate, versionMask: Number, nonce: Number,
                                timestamp: Number)
    requires job.Valid()
    ensures var block := job.UpdatedBlock(H, template, versionMask, nonce, timestamp);
            && block.Some?
            && BlockHeader(block.value) == job.FastHeader(H, template, versionMask, nonce, timestamp)
  {
    CloneIsIdentity(job.coinbaseTransaction);
  }

  /** The stand-in for the coinbase while the branch is computed. */
  function Placeholder(): Tx {
    Tx(2, [TxIn(ZERO_HASH, 0xffff_ffff, [], 0xffff_ffff, [ZERO_HASH])], [], 0)
  }

  function WithPlaceholder(nodeTransactions: seq<Tx>): (transactions: seq<Tx>)
    ensures transactions != []
  {
    [Placeholder()] + nodeTransactions
  }

  /** A template as the jobs service builds it: a placeholder first, and the branch of the transaction list. */
  ghost predicate BranchOk(H: HashFunction, template: JobTemplate) {
    && template.block.transactions != []
    && template.merkleBranch == Siblings(H, TxIds(H, template.block.transactions))
  }

  /** `getHash(true)`: a coinbase counts as zero. */
  function WitnessId(H: HashFunction, tx: Tx): Hash {
    if |tx.ins| == 1 && tx.ins[0].hash == ZERO_HASH then ZERO_HASH else H(ToBuffer(tx))
  }

  /** The commitment over all witness ids and the placeholder's 32-byte zero witness. */
  function WitnessCommit(H: HashFunction, txs: seq<Tx>): Hash
    requires txs != []
  {
    H(Pair(Root(H, WitnessIds(H, txs)), ZERO_HASH))
  }

  function WitnessIds(H: HashFunction, txs: seq<Tx>): (ids: seq<Hash>)
    ensures |ids| == |txs|
  {
    seq(|txs|, i requires 0 <= i < |txs| => WitnessId(H, txs[i]))
  }

  /** Zero for the placeholder, the hash with witnesses for every node transaction that is no coinbase. */
  lemma WitnessCommitIs(H: HashFunction, nodeTransactions: seq<Tx>, hashes: seq<Hash>)
    requires NoCoinbases(nodeTransactions) && |hashes| == |nodeTransactions|
    requires forall i :: 0 <= i < |hashes| ==> hashes[i] == H(ToBuffer(nodeTransactions[i]))
    ensures var root: seq<Byte> := Root(H, [ZERO_HASH] + hashes);
            WitnessCommit(H, WithPlaceholder(nodeTransactions)) == H(root + seq(32, _ => 0))
  {
    WitnessIdsAre(H, nodeTransactions, hashes);
  }

  /** No transaction has a single input without a previous output. */
  predicate NoCoinbases(txs: seq<Tx>) {
    forall i :: 0 <= i < |txs| ==> |txs[i].ins| != 1 || txs[i].ins[0].hash != ZERO_HASH
  }

  lemma WitnessIdsAre(H: HashFunction, nodeTransactions: seq<Tx>, hashes: seq<Hash>)
    requires NoCoinbases(nodeTransactions) && |hashes| == |nodeTransactions|
    requires forall i :: 0 <= i < |hashes| ==> hashes[i] == H(ToBuffer(nodeTransactions[i]))
    ensures WitnessIds(H, WithPlaceholder(nodeTransactions)) == [ZERO_HASH] + hashes
  {
    var all := WithPlaceholder(nodeTransactions);
    PlaceholderIsCoinbase();
    forall i | 0 <= i < |all| ensures WitnessId(H, all[i]) == ([ZERO_HASH] + hashes)[i] {
      if i > 0 { assert all[i] == nodeTransactions[i - 1]; }
    }
  }

  lemma PlaceholderIsCoinbase()
    ensures |Placeholder().ins| == 1 && Placeholder().ins[0].hash == ZERO_HASH
  {
  }

  /** The template's transaction list and branch: a placeholder coinbase in front of the node's transactions. */
  method TemplateTransactions(H: HashFunction, nodeTransactions: seq<Tx>) returns (transactions: seq<Tx>, branch: seq<Hash>)
    ensures transactions == WithPlaceholder(nodeTransactions)
    ensures branch == Siblings(H, TxIds(H, transactions))
    ensures forall coinbase :: Fold(H, TxId(H, coinbase), branch) == Root(H, TxIds(H, [coinbase] + nodeTransactions))
  {
    transactions := [Placeholder()] + nodeTransactions;
    var ids := TxIds(H, transactions);
    var root;
    root, branch := ExtractBranch(H, ids);
    forall coinbase ensures Fold(H, TxId(H, coinbase), branch) == Root(H, TxIds(H, [coinbase] + nodeTransactions)) {
      FoldIsRoot(H, ids, TxId(H, coinbase));
      assert TxIds(H, [coinbase] + nodeTransactions) == ids[0 := TxId(H, coinbase)];
    }
  }

  /** With the branch of its template, the submitted block commits to exactly the transactions it contains. */
  lemma BlockCommitsToItsTransactions(job: MiningJob, H: HashFunction, template: JobTemplate, versionMask: Number,
                                      nonce: Number, timestamp: Number)
    requires job.Valid() && BranchOk(H, template) && job.merkleBranchBuffers == template.merkleBranch
    ensures var block := job.UpdatedBlock(H, template, versionMask, nonce, timestamp);
            && block.Some?
            && block.value.merkleRoot == Root(H, TxIds(H, block.value.transactions))
  {
    CloneIsIdentity(job.coinbaseTransaction);
    ReplacedCoinbase(H, template.block.transactions, job.coinbaseTransaction);
  }

  lemma ReplacedCoinbase(H: HashFunction, txs: seq<Tx>, coinbase: Tx)
    requires txs != []
    ensures Fold(H, TxId(H, coinbase), Siblings(H, TxIds(H, txs))) == Root(H, TxIds(H, [coinbase] + txs[1..]))
  {
    FoldIsRoot(H, TxIds(H, txs), TxId(H, coinbase));
    assert TxIds(H, [coinbase] + txs[1..]) == TxIds(H, txs)[0 := TxId(H, coinbase)];
  }

  lemma XorZero(v: nat)
    ensures Bitwise(Xor, v, 0) == v
  {
    forall i: nat ensures Bit(Bitwise(Xor, v, 0), i) == Bit(v, i) {
      BitwiseBit(Xor, v, 0, i);
      ZeroBit(i);
    }
    BitsExtensional(Bitwise(Xor, v, 0), v);
  }

  lemma SignedBits(w: Word)
    ensures Signed(w) % UINT32 == w
  {
  }

  /** The first four header bytes are the little-endian bits of the rolled version. */
  lemma VersionBytes(jobVersion: Word, versionMask: Number)
    ensures HeaderVersion(jobVersion, versionMask) % UINT32 == XorWord(jobVersion, ToWord(versionMask))
  {
    if versionMask == Num(0) {
      XorZero(jobVersion);
    } else {
      SignedBits(XorWord(jobVersion, ToWord(versionMask)));
    }
  }

  /**
   * Headers of two rotated jobs never coincide while miners stay inside their granted mask, whatever
   * else goes into them.
   */
  lemma RotatedHeadersDiffer(v: Word, c: nat, m: Number, w: Word, d: nat, n: Number,
                             prev1: Hash, root1: Hash, time1: Number, bits1: Uint32, nonce1: Number,
                             prev2: Hash, root2: Hash, time2: Number, bits2: Uint32, nonce2: Number)
    requires c % 16 != d % 16
    requires WithinMinerMask(ToWord(m)) && WithinMinerMask(ToWord(n))
    ensures JobVersion(v, c) < 0x1_0000_0000 && JobVersion(w, d) < 0x1_0000_0000
    ensures var first := EncodeHeader(HeaderVersion(JobVersion(v, c), m), prev1, root1, time1, bits1, nonce1);
            var second := EncodeHeader(HeaderVersion(JobVersion(w, d), n), prev2, root2, time2, bits2, nonce2);
            first.Some? && second.Some? ==> first != second
  {
    JobVersionIsWord(v, c);
    JobVersionIsWord(w, d);
    VersionBytes(JobVersion(v, c), m);
    VersionBytes(JobVersion(w, d), n);
    SearchSpacesDisjoint(v, w, c, d, ToWord(m), ToWord(n));
    var first := EncodeHeader(HeaderVersion(JobVersion(v, c), m), prev1, root1, time1, bits1, nonce1);
    var second := EncodeHeader(HeaderVersion(JobVersion(w, d), n), prev2, root2, time2, bits2, nonce2);
    if first.Some? && second.Some? && first == second {
      assert first.value[..4] == Version(HeaderVersion(JobVersion(v, c), m));
      assert second.value[..4] == Version(HeaderVersion(JobVersion(w, d), n));
      Pow256Values();
      LEInjective(4, XorWord(JobVersion(v, c), ToWord(m)), XorWord(JobVersion(w, d), ToWord(n)));
    }
  }
}
