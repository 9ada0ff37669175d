/**
 * Transactions and their wire format (BIP 144): the serialisation behind the coinbase halves sent to
 * miners, and the parser that `cloneCoinbaseTransaction` uses to copy a transaction.
 */
module Transactions {
  import opened Bytes
  import opened Options

  datatype TxIn = TxIn(hash: Hash, index: nat, script: seq<Byte>, sequence: nat, stack: seq<seq<Byte>>)

  datatype TxOut = TxOut(value: int, script: seq<Byte>)

  datatype Tx = Tx(version: int, ins: seq<TxIn>, outs: seq<TxOut>, locktime: int)

  /** The result of reading one item: the item and the bytes after it, or failure at the end of input. */
  type Parsed<+T> = Option<(T, seq<Byte>)>

  const UINT32 := 0x1_0000_0000
  const MAX_SAFE_INTEGER := 0x1f_ffff_ffff_ffff

  // ---------- integers and byte strings ----------

  function VarInt(n: nat): seq<Byte> {
    if n < 253 then [n]
    else if n < 0x1_0000 then [253] + LE(2, n)
    else if n < UINT32 then [254] + LE(4, n)
    else [255] + LE(8, n)
  }

  function VarSlice(s: seq<Byte>): seq<Byte> {
    VarInt(|s|) + s
  }

  function ReadLE(n: nat, s: seq<Byte>): Parsed<nat> {
    if |s| < n then None else Some((FromLE(s[..n]), s[n..]))
  }

  function ReadVarInt(s: seq<Byte>): Parsed<nat> {
    if s == [] then None
    else if s[0] < 253 then Some((s[0], s[1..]))
    else ReadLE(if s[0] == 253 then 2 else if s[0] == 254 then 4 else 8, s[1..])
  }

  function ReadSlice(n: nat, s: seq<Byte>): Parsed<seq<Byte>> {
    if |s| < n then None else Some((s[..n], s[n..]))
  }

  function ReadVarSlice(s: seq<Byte>): Parsed<seq<Byte>> {
    match ReadVarInt(s)
    case None => None
    case Some((n, rest)) => ReadSlice(n, rest)
  }

  // ---------- lists ----------

  function WriteAll<T>(write: T -> seq<Byte>, xs: seq<T>): seq<Byte> {
    if xs == [] then [] else write(xs[0]) + WriteAll(write, xs[1..])
  }

  function ReadMany<T>(read: seq<Byte> -> Parsed<T>, n: nat, s: seq<Byte>): Parsed<seq<T>> {
    if n == 0 then Some(([], s))
    else match read(s)
      case None => None
      case Some((x, rest)) =>
        match ReadMany(read, n - 1, rest)
        case None => None
        case Some((xs, end)) => Some(([x] + xs, end))
  }

  /** A list preceded by its length: bitcoinjs' "vector". */
  function Vector(items: seq<seq<Byte>>): seq<Byte> {
    VarInt(|items|) + WriteAll(VarSlice, items)
  }

  function ReadVector(s: seq<Byte>): Parsed<seq<seq<Byte>>> {
    match ReadVarInt(s)
    case None => None
    case Some((n, rest)) => ReadMany(ReadVarSlice, n, rest)
  }

  // ---------- inputs and outputs ----------

  function WriteIn(i: TxIn): seq<Byte> {
    i.hash + (LE(4, i.index) + (VarSlice(i.script) + LE(4, i.sequence)))
  }

  function WriteOut(o: TxOut): seq<Byte> {
    LE(8, if o.value < 0 then 0 else o.value) + VarSlice(o.script)
  }

  /** Reads an input; its witness comes later in the format and is empty until then. */
  function ReadIn(s: seq<Byte>): Parsed<TxIn> {
    if |s| < 32 then None
    else match ReadLE(4, s[32..])
      case None => None
      case Some((index, rest)) =>
        match ReadVarSlice(rest)
        case None => None
        case Some((script, rest)) =>
          match ReadLE(4, rest)
          case None => None
          case Some((sequence, rest)) =>
            Some((TxIn(s[..32], index, script, sequence, []), rest))
  }

  function ReadOut(s: seq<Byte>): Parsed<TxOut> {
    match ReadLE(8, s)
    case None => None
    case Some((value, rest)) =>
      match ReadVarSlice(rest)
      case None => None
      case Some((script, rest)) => Some((TxOut(value, script), rest))
  }

  // ---------- transactions ----------

  predicate HasWitness(tx: Tx) {
    exists i :: 0 <= i < |tx.ins| && tx.ins[i].stack != []
  }

  /** What the two 32-bit fields and the values must satisfy for the library's range checks to pass. */
  predicate Serializable(tx: Tx) {
    && -0x8000_0000 <= tx.version < 0x8000_0000
    && 0 <= tx.locktime < UINT32
    && |tx.ins| <= MAX_SAFE_INTEGER && |tx.outs| <= MAX_SAFE_INTEGER
    && (forall i :: i in tx.ins ==> SerializableIn(i))
    && (forall o :: o in tx.outs ==> SerializableOut(o))
  }

  predicate SerializableIn(i: TxIn) {
    && i.index < UINT32 && i.sequence < UINT32 && |i.script| <= MAX_SAFE_INTEGER
    && SerializableItems(i.stack)
  }

  predicate SerializableItems(items: seq<seq<Byte>>) {
    |items| <= MAX_SAFE_INTEGER && forall w :: w in items ==> |w| <= MAX_SAFE_INTEGER
  }

  predicate SerializableOut(o: TxOut) {
    0 <= o.value <= MAX_SAFE_INTEGER && |o.script| <= MAX_SAFE_INTEGER
  }

  function Version(v: int): seq<Byte> {
    LE(4, v % UINT32)
  }

  function Witness(i: TxIn): seq<Byte> {
    Vector(i.stack)
  }

  function Body(ins: seq<TxIn>, outs: seq<TxOut>): seq<Byte> {
    VarInt(|ins|) + (WriteAll(WriteIn, ins) + (VarInt(|outs|) + WriteAll(WriteOut, outs)))
  }

  /** `__toBuffer`: inputs, outputs and, when asked for, the marker, the flag and the witnesses. */
  function Serialize(tx: Tx, withWitness: bool): seq<Byte> {
    var body := Body(tx.ins, tx.outs);
    var end := LE(4, if tx.locktime < 0 then 0 else tx.locktime);
    Version(tx.version) + if withWitness then [0, 1] + (body + (WriteAll(Witness, tx.ins) + end)) else body + end
  }

  /** `toBuffer` writes the witnesses exactly when there is one. */
  function ToBuffer(tx: Tx): seq<Byte> {
    Serialize(tx, HasWitness(tx))
  }

  /** `getHash(false)`: witnesses are not hashed. */
  function TxId(H: HashFunction, tx: Tx): Hash {
    H(Serialize(tx, false))
  }

  function TxIds(H: HashFunction, txs: seq<Tx>): seq<Hash> {
    seq(|txs|, i requires 0 <= i < |txs| => TxId(H, txs[i]))
  }

  /** `weight()`: three times the size without witnesses plus the full size. */
  function Weight(tx: Tx): nat {
    3 * |Serialize(tx, false)| + |ToBuffer(tx)|
  }

  function WithWitnesses(ins: seq<TxIn>, witnesses: seq<seq<seq<Byte>>>): seq<TxIn>
    requires |ins| == |witnesses|
  {
    seq(|ins|, i requires 0 <= i < |ins| => ins[i].(stack := witnesses[i]))
  }

  function ReadInsOuts(s: seq<Byte>): Parsed<(seq<TxIn>, seq<TxOut>)> {
    match ReadVarInt(s)
    case None => None
    case Some((nIns, rest)) =>
      match ReadMany(ReadIn, nIns, rest)
      case None => None
      case Some((ins, rest)) =>
        match ReadVarInt(rest)
        case None => None
        case Some((nOuts, rest)) =>
          match ReadMany(ReadOut, nOuts, rest)
          case None => None
          case Some((outs, rest)) => Some(((ins, outs), rest))
  }

  /** The end of the transaction: the locktime, and nothing after it. */
  function ReadEnd(version: int, ins: seq<TxIn>, outs: seq<TxOut>, s: seq<Byte>): Option<Tx> {
    match ReadLE(4, s)
    case None => None
    case Some((locktime, rest)) => if rest == [] then Some(Tx(version, ins, outs, locktime)) else None
  }

  /** Everything after the version and the optional marker and flag; witnesses that are all empty are refused. */
  function ReadRest(version: int, hasWitness: bool, s: seq<Byte>): Option<Tx> {
    match ReadInsOuts(s)
    case None => None
    case Some(((ins, outs), rest)) =>
      if !hasWitness then ReadEnd(version, ins, outs, rest)
      else match ReadMany(ReadVector, |ins|, rest)
        case None => None
        case Some((stacks, rest)) =>
          if |stacks| != |ins| || forall i :: 0 <= i < |stacks| ==> stacks[i] == [] then None
          else ReadEnd(version, WithWitnesses(ins, stacks), outs, rest)
  }

  /** `fromBuffer`: a zero input count followed by a one is taken as the witness marker and flag. */
  function FromBuffer(s: seq<Byte>): Option<Tx> {
    if |s| < 6 then None else
      var v := FromLE(s[..4]);
      var version := if v < 0x8000_0000 then v else v - UINT32;
      if s[4] == 0 && s[5] == 1 then ReadRest(version, true, s[6..]) else ReadRest(version, false, s[4..])
  }

  // ---------- round trips ----------

  lemma ReadLEWritten(n: nat, v: nat, rest: seq<Byte>)
    requires v < Pow256(n)
    ensures ReadLE(n, LE(n, v) + rest) == Some((v, rest))
  {
    LERoundTrip(n, v);
    var s := LE(n, v) + rest;
    assert s[..n] == LE(n, v) && s[n..] == rest;
  }

  lemma ReadVarIntWritten(v: nat, rest: seq<Byte>)
    requires v <= MAX_SAFE_INTEGER
    ensures ReadVarInt(VarInt(v) + rest) == Some((v, rest))
  {
    Pow256Values();
    var s := VarInt(v) + rest;
    if v < 253 {
      assert s[1..] == rest;
    } else {
      var n := if v < 0x1_0000 then 2 else if v < UINT32 then 4 else 8;
      assert s[1..] == LE(n, v) + rest;
      ReadLEWritten(n, v, rest);
    }
  }

  lemma ReadVarSliceWritten(x: seq<Byte>, rest: seq<Byte>)
    requires |x| <= MAX_SAFE_INTEGER
    ensures ReadVarSlice(VarSlice(x) + rest) == Some((x, rest))
  {
    ReadVarIntWritten(|x|, x + rest);
    assert VarSlice(x) + rest == VarInt(|x|) + (x + rest);
    assert (x + rest)[..|x|] == x && (x + rest)[|x|..] == rest;
  }

  /** An item reader that undoes an item writer also undoes it over lists. */
  lemma {:induction false} ReadManyWritten<T, U>(write: T -> seq<Byte>, read: seq<Byte> -> Parsed<U>,
                                                 xs: seq<T>, ys: seq<U>, rest: seq<Byte>)
    requires |xs| == |ys|
    requires forall i, r :: 0 <= i < |xs| ==> read(write(xs[i]) + r) == Some((ys[i], r))
    ensures ReadMany(read, |xs|, WriteAll(write, xs) + rest) == Some((ys, rest))
  {
    if xs == [] {
      assert WriteAll(write, xs) + rest == rest;
    } else {
      var tail := WriteAll(write, xs[1..]) + rest;
      assert WriteAll(write, xs) + rest == write(xs[0]) + tail;
      assert read(write(xs[0]) + tail) == Some((ys[0], tail));
      ReadManyWritten(write, read, xs[1..], ys[1..], rest);
      assert ys == [ys[0]] + ys[1..];
    }
  }

  lemma ReadVectorWritten(items: seq<seq<Byte>>, rest: seq<Byte>)
    requires SerializableItems(items)
    ensures ReadVector(Vector(items) + rest) == Some((items, rest))
  {
    var tail := WriteAll(VarSlice, items) + rest;
    assert Vector(items) + rest == VarInt(|items|) + tail;
    ReadVarIntWritten(|items|, tail);
    forall i, r | 0 <= i < |items| ensures ReadVarSlice(VarSlice(items[i]) + r) == Some((items[i], r)) {
      ReadVarSliceWritten(items[i], r);
    }
    ReadManyWritten(VarSlice, ReadVarSlice, items, items, rest);
  }

  function NoWitness(i: TxIn): TxIn {
    i.(stack := [])
  }

  function NoWitnesses(ins: seq<TxIn>): seq<TxIn> {
    seq(|ins|, i requires 0 <= i < |ins| => NoWitness(ins[i]))
  }

  function Stacks(ins: seq<TxIn>): seq<seq<seq<Byte>>> {
    seq(|ins|, i requires 0 <= i < |ins| => ins[i].stack)
  }

  lemma ReadInWritten(x: TxIn, rest: seq<Byte>)
    requires SerializableIn(x)
    ensures ReadIn(WriteIn(x) + rest) == Some((NoWitness(x), rest))
  {
    Pow256Values();
    var s := WriteIn(x) + rest;
    assert s[..32] == x.hash;
    assert s[32..] == LE(4, x.index) + (VarSlice(x.script) + (LE(4, x.sequence) + rest));
    ReadLEWritten(4, x.index, VarSlice(x.script) + (LE(4, x.sequence) + rest));
    ReadVarSliceWritten(x.script, LE(4, x.sequence) + rest);
    ReadLEWritten(4, x.sequence, rest);
  }

  lemma ReadOutWritten(x: TxOut, rest: seq<Byte>)
    requires SerializableOut(x)
    ensures ReadOut(WriteOut(x) + rest) == Some((x, rest))
  {
    Pow256Values();
    assert WriteOut(x) + rest == LE(8, x.value) + (VarSlice(x.script) + rest);
    ReadLEWritten(8, x.value, VarSlice(x.script) + rest);
    ReadVarSliceWritten(x.script, rest);
  }

  lemma ReadBodyWritten(tx: Tx, rest: seq<Byte>)
    requires Serializable(tx)
    ensures ReadInsOuts(Body(tx.ins, tx.outs) + rest) == Some(((NoWitnesses(tx.ins), tx.outs), rest))
  {
    var outs := WriteAll(WriteOut, tx.outs) + rest;
    var ins := WriteAll(WriteIn, tx.ins) + (VarInt(|tx.outs|) + outs);
    assert Body(tx.ins, tx.outs) + rest == VarInt(|tx.ins|) + ins;
    ReadVarIntWritten(|tx.ins|, ins);
    ReadInsWritten(tx, VarInt(|tx.outs|) + outs);
    ReadVarIntWritten(|tx.outs|, outs);
    ReadOutsWritten(tx, rest);
  }

  lemma ReadInsWritten(tx: Tx, rest: seq<Byte>)
    requires Serializable(tx)
    ensures ReadMany(ReadIn, |tx.ins|, WriteAll(WriteIn, tx.ins) + rest) == Some((NoWitnesses(tx.ins), rest))
  {
    forall i, r | 0 <= i < |tx.ins|
      ensures ReadIn(WriteIn(tx.ins[i]) + r) == Some((NoWitnesses(tx.ins)[i], r))
    {
      ReadInWritten(tx.ins[i], r);
    }
    ReadManyWritten(WriteIn, ReadIn, tx.ins, NoWitnesses(tx.ins), rest);
  }

  lemma ReadOutsWritten(tx: Tx, rest: seq<Byte>)
    requires Serializable(tx)
    ensures ReadMany(ReadOut, |tx.outs|, WriteAll(WriteOut, tx.outs) + rest) == Some((tx.outs, rest))
  {
    forall i, r | 0 <= i < |tx.outs| ensures ReadOut(WriteOut(tx.outs[i]) + r) == Some((tx.outs[i], r)) {
      ReadOutWritten(tx.outs[i], r);
    }
    ReadManyWritten(WriteOut, ReadOut, tx.outs, tx.outs, rest);
  }

  lemma ReadWitnessesWritten(tx: Tx, rest: seq<Byte>)
    requires Serializable(tx)
    ensures ReadMany(ReadVector, |tx.ins|, WriteAll(Witness, tx.ins) + rest) == Some((Stacks(tx.ins), rest))
  {
    forall i, r | 0 <= i < |tx.ins|
      ensures ReadVector(Witness(tx.ins[i]) + r) == Some((Stacks(tx.ins)[i], r))
    {
      assert tx.ins[i] in tx.ins;
      ReadVectorWritten(tx.ins[i].stack, r);
    }
    ReadManyWritten(Witness, ReadVector, tx.ins, Stacks(tx.ins), rest);
  }

  lemma ReadEndWritten(tx: Tx, ins: seq<TxIn>)
    requires 0 <= tx.locktime < UINT32
    ensures ReadEnd(tx.version, ins, tx.outs, LE(4, tx.locktime)) == Some(tx.(ins := ins))
  {
    Pow256Values();
    ReadLEWritten(4, tx.locktime, []);
    assert LE(4, tx.locktime) + [] == LE(4, tx.locktime);
  }

  lemma VersionRead(v: int, rest: seq<Byte>)
    requires -0x8000_0000 <= v < 0x8000_0000
    ensures var s := Version(v) + rest;
            var u := FromLE(s[..4]);
            v == if u < 0x8000_0000 then u else u - UINT32
  {
    Pow256Values();
    LERoundTrip(4, v % UINT32);
    assert (Version(v) + rest)[..4] == Version(v);
  }

  /** Parsing undoes serialising, for every transaction the library can write that has an input. */
  lemma CloneIsIdentity(tx: Tx)
    requires Serializable(tx) && tx.ins != []
    ensures FromBuffer(ToBuffer(tx)) == Some(tx)
  {
    if HasWitness(tx) {
      CloneWithWitness(tx);
    } else {
      CloneWithoutWitness(tx);
    }
  }

  lemma CloneWithoutWitness(tx: Tx)
    requires Serializable(tx) && tx.ins != [] && !HasWitness(tx)
    ensures FromBuffer(ToBuffer(tx)) == Some(tx)
  {
    var s := ToBuffer(tx);
    var body := Body(tx.ins, tx.outs);
    var end := LE(4, tx.locktime);
    assert s == Version(tx.version) + (body + end);
    VersionRead(tx.version, body + end);
    assert s[4..] == body + end;
    assert s[4] == VarInt(|tx.ins|)[0] != 0;
    ReadBodyWritten(tx, end);
    assert NoWitnesses(tx.ins) == tx.ins;
    ReadEndWritten(tx, tx.ins);
  }

  lemma CloneWithWitness(tx: Tx)
    requires Serializable(tx) && HasWitness(tx)
    ensures FromBuffer(ToBuffer(tx)) == Some(tx)
  {
    MarkerRead(tx.version, Body(tx.ins, tx.outs) + (WriteAll(Witness, tx.ins) + LE(4, tx.locktime)));
    ReadRestWithWitness(tx);
  }

  lemma MarkerRead(version: int, rest: seq<Byte>)
    requires -0x8000_0000 <= version < 0x8000_0000
    ensures FromBuffer(Version(version) + ([0, 1] + rest)) == ReadRest(version, true, rest)
  {
    var s := Version(version) + ([0, 1] + rest);
    VersionRead(version, [0, 1] + rest);
    assert s[4] == 0 && s[5] == 1 && s[6..] == rest;
  }

  lemma ReadRestWithWitness(tx: Tx)
    requires Serializable(tx) && HasWitness(tx)
    ensures ReadRest(tx.version, true, Body(tx.ins, tx.outs) + (WriteAll(Witness, tx.ins) + LE(4, tx.locktime)))
         == Some(tx)
  {
    var end := LE(4, tx.locktime);
    ReadBodyWritten(tx, WriteAll(Witness, tx.ins) + end);
    ReadWitnessesWritten(tx, end);
    StacksPutBack(tx);
    ReadEndWritten(tx, tx.ins);
  }

  lemma StacksPutBack(tx: Tx)
    requires HasWitness(tx)
    ensures WithWitnesses(NoWitnesses(tx.ins), Stacks(tx.ins)) == tx.ins
    ensures !forall i :: 0 <= i < |Stacks(tx.ins)| ==> Stacks(tx.ins)[i] == []
  {
    var i :| 0 <= i < |tx.ins| && tx.ins[i].stack != [];
    assert Stacks(tx.ins)[i] != [];
  }
}
