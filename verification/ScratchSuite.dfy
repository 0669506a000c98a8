/**
 * The async benchmark suite over one scratch file with a cursor: prepare a zero-filled
 * file, run any list of access patterns, in place, at sequential or random blocks, and
 * remove the file. Any operation on it may fail, a write after part of it got through.
 */
module ScratchSuite {
  import opened Wrappers
  import opened BlockIo
  import opened RawBench

  datatype IoPattern = SequentialRead | SequentialWrite | RandomRead | RandomWrite {
    predicate Random() {
      RandomRead? || RandomWrite?
    }

    predicate Writes() {
      SequentialWrite? || RandomWrite?
    }
  }

  datatype SuiteError = BadBlockSize | BadFileSize | UnexpectedEof | Io

  datatype ScenarioResult = ScenarioResult(pattern: IoPattern, blockSize: nat, totalBytes: nat, samples: nat)

  const PREP_CHUNK: nat := 0x10_0000

  function Zeros(n: nat): (z: Bytes)
    ensures |z| == n && forall i | 0 <= i < n :: z[i] == 0
  {
    seq(n, _ => 0)
  }

  /** What the system does with an operation: perform it, or break it off part of the way. */
  datatype Fault = Fine | Breaks(after: nat)

  predicate Faultless(faults: seq<Fault>) {
    forall f | f in faults :: f.Fine?
  }

  function NextFault(faults: seq<Fault>): Fault {
    if faults == [] then Fine else faults[0]
  }

  function RestFaults(faults: seq<Fault>): seq<Fault> {
    if faults == [] then [] else faults[1..]
  }

  /** The first `n` operations are performed. */
  predicate Clean(faults: seq<Fault>, n: nat) {
    n == 0 || (NextFault(faults).Fine? && Clean(RestFaults(faults), n - 1))
  }

  /** The faults still to come after `n` operations, or after the first that breaks off. */
  function After(faults: seq<Fault>, n: nat): seq<Fault> {
    if n == 0 then faults
    else if NextFault(faults).Breaks? then RestFaults(faults)
    else After(RestFaults(faults), n - 1)
  }

  /** `b` operations attempted if the `a` before them were performed. */
  lemma {:induction false} InTurn(faults: seq<Fault>, a: nat, b: nat)
    ensures Clean(faults, a + b) <==> Clean(faults, a) && Clean(After(faults, a), b)
    ensures After(faults, a + b) == if Clean(faults, a) then After(After(faults, a), b) else After(faults, a)
  {
    if a > 0 && NextFault(faults).Fine? {
      InTurn(RestFaults(faults), a - 1, b);
    }
  }

  /** `n` operations of `faults` were performed, and `left` is still to come. */
  predicate Spent(faults: seq<Fault>, left: seq<Fault>, n: nat) {
    Clean(faults, n) && left == After(faults, n)
  }

  /** After `k` performed operations, what the next one means for `n` in all. */
  lemma OneMore(faults: seq<Fault>, k: nat, n: nat)
    requires Clean(faults, k) && k < n
    ensures
      var left := After(faults, k);
      && (Clean(faults, k + 1) <==> NextFault(left).Fine?)
      && After(faults, k + 1) == RestFaults(left)
      && (NextFault(left).Breaks? ==> !Clean(faults, n) && After(faults, n) == RestFaults(left))
  {
    InTurn(faults, k, 1);
    InTurn(faults, k, n - k);
  }

  lemma {:induction false} FaultlessIsClean(faults: seq<Fault>, n: nat)
    requires Faultless(faults)
    ensures Clean(faults, n) && Faultless(After(faults, n))
  {
    if n > 0 {
      assert faults != [] ==> faults[0] in faults;
      FaultlessIsClean(RestFaults(faults), n - 1);
    }
  }

  class AsyncFile {
    var data: Bytes
    var pos: nat
    var present: bool
    var faults: seq<Fault>

    constructor (data: Bytes, present: bool, faults: seq<Fault>)
      ensures this.data == data && pos == 0 && this.present == present && this.faults == faults
    {
      this.data, pos, this.present, this.faults := data, 0, present, faults;
    }

    /** An operation without effect on the content: making the directory, flush, sync. */
    method Touch() returns (ok: bool)
      modifies this`faults
      ensures ok <==> NextFault(old(faults)).Fine?
      ensures faults == RestFaults(old(faults))
    {
      ok := NextFault(faults).Fine?;
      faults := RestFaults(faults);
    }

    /** Opens for writing, creating and truncating. */
    method Create() returns (ok: bool)
      modifies this
      ensures ok <==> NextFault(old(faults)).Fine?
      ensures faults == RestFaults(old(faults))
      ensures if ok then present && data == [] && pos == 0 else present == old(present) && data == old(data)
    {
      ok := Touch();
      if ok {
        data, pos, present := [], 0, true;
      }
    }

    /** Opens an existing file. */
    method Open() returns (ok: bool)
      modifies this`pos, this`faults
      ensures ok <==> NextFault(old(faults)).Fine? && present
      ensures faults == RestFaults(old(faults))
    {
      ok := Touch();
      ok, pos := ok && present, 0;
    }

    method Seek(offset: nat) returns (ok: bool)
      modifies this`pos, this`faults
      ensures ok <==> NextFault(old(faults)).Fine?
      ensures faults == RestFaults(old(faults))
      ensures ok ==> pos == offset
    {
      ok := Touch();
      pos := if ok then offset else pos;
    }

    method WriteAll(bytes: Bytes) returns (ok: bool)
      modifies this`data, this`pos, this`faults
      ensures ok <==> NextFault(old(faults)).Fine?
      ensures faults == RestFaults(old(faults))
      ensures data == WriteAt(old(data), old(pos), bytes[..Through(NextFault(old(faults)), |bytes|)])
      ensures ok ==> pos == old(pos) + |bytes|
    {
      var n := Through(NextFault(faults), |bytes|);
      ok := Touch();
      data := WriteAt(data, pos, bytes[..n]);
      pos := pos + n;
    }

    /** `read_exact`: all of the buffer, or `UnexpectedEof`, unless the system fails it. */
    method ReadExact(buf: array<byte>) returns (r: Result<(), SuiteError>)
      modifies this`pos, this`faults, buf
      ensures faults == RestFaults(old(faults))
      ensures NextFault(old(faults)).Breaks? ==> r == Err(Io)
      ensures NextFault(old(faults)).Fine? ==>
        r == if old(pos) + buf.Length <= |data| || buf.Length == 0 then Ok(()) else Err(UnexpectedEof)
      ensures r.Ok? ==> buf[..] == ReadAt(data, old(pos), buf.Length)
    {
      var fine := Touch();
      if !fine {
        return Err(Io);
      }
      var got := ReadAt(data, pos, buf.Length);
      forall i | 0 <= i < |got| {
        buf[i] := got[i];
      }
      pos := pos + |got|;
      r := if |got| < buf.Length then Err(UnexpectedEof) else Ok(());
    }

    method Remove() returns (ok: bool)
      modifies this`present, this`faults
      ensures ok <==> NextFault(old(faults)).Fine?
      ensures faults == RestFaults(old(faults))
      ensures present == (old(present) && !ok)
    {
      ok := Touch();
      present := present && !ok;
    }
  }

  /** How much of a write of `len` bytes gets through. */
  function Through(fault: Fault, len: nat): (n: nat)
    ensures n <= len
  {
    match fault
    case Fine => len
    case Breaks(after) => Min(after, len)
  }

  /** The chunk writes that `size` bytes take. */
  function Chunks(size: nat): nat {
    (size + PREP_CHUNK - 1) / PREP_CHUNK
  }

  /** Creating, every chunk, flush and sync. */
  function PrepareOps(size: nat): nat {
    Chunks(size) + 3
  }

  /**
   * Exactly `size` zero bytes, whatever was there before, one chunk at a time; broken off,
   * at most that many. Nothing here removes a file it has opened.
   */
  method PrepareFile(file: AsyncFile, size: nat) returns (ok: bool, ghost made: bool)
    modifies file
    ensures made <==> Clean(old(file.faults), 1)
    ensures ok <==> Clean(old(file.faults), PrepareOps(size))
    ensures file.faults == After(old(file.faults), PrepareOps(size))
    ensures ok ==> made && file.data == Zeros(size)
    ensures made ==> file.present && |file.data| <= size && file.data == Zeros(|file.data|)
    ensures made && Clean(old(file.faults), Chunks(size) + 1) ==> |file.data| == size
    ensures !made ==> file.present == old(file.present) && file.data == old(file.data)
  {
    ghost var faults, n := file.faults, Chunks(size);
    OneMore(faults, 0, n + 3);
    ok := file.Create();
    made := ok;
    if !ok {
      return;
    }
    InTurn(faults, 1, n);
    InTurn(faults, n + 1, 2);
    ok := WriteZeros(file, size);
    if !ok {
      return;
    }
    OneMore(faults, n + 1, n + 3);
    ok := file.Touch();
    if !ok {
      return;
    }
    OneMore(faults, n + 2, n + 3);
    ok := file.Touch();
  }

  method WriteZeros(file: AsyncFile, size: nat) returns (ok: bool)
    requires file.data == [] && file.pos == 0
    modifies file`data, file`pos, file`faults
    ensures ok <==> Clean(old(file.faults), Chunks(size))
    ensures file.faults == After(old(file.faults), Chunks(size))
    ensures |file.data| <= size && file.data == Zeros(|file.data|)
    ensures ok ==> |file.data| == size
  {
    ghost var faults, n, k := file.faults, Chunks(size), 0;
    var chunk := Zeros(PREP_CHUNK);
    var remaining := size;
    ok := true;
    while remaining > 0
      invariant 0 <= remaining <= size && k + Chunks(remaining) == n && ok
      invariant file.data == Zeros(size - remaining) && file.pos == size - remaining
      invariant Clean(faults, k) && file.faults == After(faults, k)
    {
      var len := Min(remaining, PREP_CHUNK);
      OneChunkLess(remaining);
      OneMore(faults, k, n);
      ZerosJoin(size - remaining, Through(NextFault(file.faults), len));
      ZerosJoin(size - remaining, len);
      ok := file.WriteAll(chunk[..len]);
      if !ok {
        return;
      }
      remaining := remaining - len;
      k := k + 1;
    }
  }

  lemma OneChunkLess(size: nat)
    requires size > 0
    ensures Chunks(size) > 0 && Chunks(size - Min(size, PREP_CHUNK)) == Chunks(size) - 1
  {
  }

  lemma ZerosJoin(a: nat, b: nat)
    ensures WriteAt(Zeros(a), a, Zeros(b)) == Zeros(a + b)
    ensures b <= PREP_CHUNK ==> Zeros(PREP_CHUNK)[..b] == Zeros(b)
  {
  }

  function BlockAt(data: Bytes, blockSize: nat, k: nat): Bytes {
    ReadAt(data, k * blockSize, blockSize)
  }

  /** Which blocks hold the pattern; every other block, and the tail, is still zero. */
  ghost predicate Layout(data: Bytes, blockSize: nat, fileSize: nat, written: set<nat>)
    requires blockSize > 0
  {
    && |data| == fileSize
    && (forall k :: 0 <= k < Blocks(blockSize, fileSize) ==>
          BlockAt(data, blockSize, k) == if k in written then FillBlock(blockSize) else Zeros(blockSize))
    && (forall p :: Blocks(blockSize, fileSize) * blockSize <= p < |data| ==> data[p] == 0)
  }

  lemma FreshLayout(blockSize: nat, fileSize: nat)
    requires 0 < blockSize <= fileSize
    ensures Layout(Zeros(fileSize), blockSize, fileSize, {})
  {
    BlocksCover(blockSize, fileSize);
    var data := Zeros(fileSize);
    forall k | 0 <= k < Blocks(blockSize, fileSize)
      ensures BlockAt(data, blockSize, k) == Zeros(blockSize)
    {
      assert Fits(k, blockSize, fileSize);
      var got := BlockAt(data, blockSize, k);
      assert |got| == blockSize;
      assert forall i :: 0 <= i < blockSize ==> got[i] == data[k * blockSize + i];
    }
  }

  lemma BlocksApart(j: nat, k: nat, blockSize: nat)
    requires j < k
    ensures j * blockSize + blockSize <= k * blockSize
  {
    MulLe(j, k, blockSize);
    MulLe(j + 1, k, blockSize);
  }

  /** Bytes outside block `k` survive a write to it. */
  lemma OutsideSurvives(data: Bytes, blockSize: nat, k: nat, p: nat)
    requires 0 < blockSize && k * blockSize + blockSize <= |data| && p < |data|
    requires !(k * blockSize <= p < k * blockSize + blockSize)
    ensures |WriteAt(data, k * blockSize, FillBlock(blockSize))| == |data|
    ensures WriteAt(data, k * blockSize, FillBlock(blockSize))[p] == data[p]
  {
    WriteAtBytes(data, k * blockSize, FillBlock(blockSize), p);
  }

  lemma OtherBlockSurvives(data: Bytes, blockSize: nat, fileSize: nat, k: nat, j: nat)
    requires 0 < blockSize && |data| == fileSize && j != k
    requires Fits(k, blockSize, fileSize) && Fits(j, blockSize, fileSize)
    ensures
      BlockAt(WriteAt(data, k * blockSize, FillBlock(blockSize)), blockSize, j) == BlockAt(data, blockSize, j)
  {
    var next := WriteAt(data, k * blockSize, FillBlock(blockSize));
    if j < k { BlocksApart(j, k, blockSize); } else { BlocksApart(k, j, blockSize); }
    OutsideSurvives(data, blockSize, k, j * blockSize);
    forall p | j * blockSize <= p < j * blockSize + blockSize ensures next[p] == data[p] {
      OutsideSurvives(data, blockSize, k, p);
    }
  }

  /** Writing block `k` in place keeps the length and touches no other block. */
  lemma WriteKeepsLayout(data: Bytes, blockSize: nat, fileSize: nat, written: set<nat>, k: nat)
    requires 0 < blockSize <= fileSize && k < Blocks(blockSize, fileSize)
    requires Layout(data, blockSize, fileSize, written)
    ensures Layout(WriteAt(data, k * blockSize, FillBlock(blockSize)), blockSize, fileSize, written + {k})
  {
    var block, blocks := FillBlock(blockSize), Blocks(blockSize, fileSize);
    var next := WriteAt(data, k * blockSize, block);
    BlocksCover(blockSize, fileSize);
    assert Fits(k, blockSize, fileSize);
    WriteAtBytes(data, k * blockSize, block, 0);
    ReadAfterWrite(data, k * blockSize, block);
    forall j | 0 <= j < blocks
      ensures BlockAt(next, blockSize, j) == if j in written + {k} then block else Zeros(blockSize)
    {
      if j != k {
        assert Fits(j, blockSize, fileSize);
        OtherBlockSurvives(data, blockSize, fileSize, k, j);
      }
    }
    BlocksApart(k, blocks, blockSize);
    forall p | blocks * blockSize <= p < fileSize ensures next[p] == 0 {
      OutsideSurvives(data, blockSize, k, p);
    }
  }

  /** `draws[i]` is the i-th answer of `random_range(0..blocks)`. */
  function BlockIndex(i: nat, random: bool, draws: seq<nat>): nat
    requires i < |draws|
  {
    if random then draws[i] else i
  }

  function BlockOffset(index: nat, blockSize: nat): nat {
    index * blockSize
  }

  predicate GoodDraws(draws: seq<nat>, blocks: nat) {
    |draws| == blocks && forall i :: 0 <= i < blocks ==> draws[i] < blocks
  }

  function Touched(pattern: IoPattern, draws: seq<nat>, n: nat): (t: set<nat>)
    requires n <= |draws|
  {
    set i | 0 <= i < n :: BlockIndex(i, pattern.Random(), draws)
  }

  lemma TouchedGrows(pattern: IoPattern, draws: seq<nat>, i: nat)
    requires i < |draws|
    ensures Touched(pattern, draws, i + 1) == Touched(pattern, draws, i) + {BlockIndex(i, pattern.Random(), draws)}
  {
  }

  lemma TouchesOneMore(
    data: Bytes, blockSize: nat, fileSize: nat, before: set<nat>, pattern: IoPattern, draws: seq<nat>, i: nat)
    requires 0 < blockSize <= fileSize && GoodDraws(draws, Blocks(blockSize, fileSize)) && i < |draws|
    requires Layout(data, blockSize, fileSize, before + Touched(pattern, draws, i))
    ensures
      var index := BlockIndex(i, pattern.Random(), draws);
      Layout(WriteAt(data, BlockOffset(index, blockSize), FillBlock(blockSize)), blockSize, fileSize,
        before + Touched(pattern, draws, i + 1))
  {
    var index, touched := BlockIndex(i, pattern.Random(), draws), Touched(pattern, draws, i);
    WriteKeepsLayout(data, blockSize, fileSize, before + touched, index);
    TouchedGrows(pattern, draws, i);
    assert before + touched + {index} == before + (touched + {index});
  }

  /** A broken block write still leaves the length alone. */
  lemma PartialKeepsLength(data: Bytes, blockSize: nat, fileSize: nat, k: nat, n: nat)
    requires 0 < blockSize <= fileSize && k < Blocks(blockSize, fileSize)
    requires |data| == fileSize && n <= blockSize
    ensures |WriteAt(data, BlockOffset(k, blockSize), FillBlock(blockSize)[..n])| == fileSize
  {
    BlocksCover(blockSize, fileSize);
    assert Fits(k, blockSize, fileSize);
  }

  function WritePattern(random: bool): IoPattern {
    if random then RandomWrite else SequentialWrite
  }

  /** The operations `n` blocks of a pattern take: seek and transfer, and a sync if asked for. */
  function BlocksOps(n: nat, writes: bool, fsync: bool): nat {
    if writes && fsync then 3 * n else 2 * n
  }

  /** Opening, the blocks, and a writer's flush. */
  function PatternOps(writes: bool, blocks: nat, fsync: bool): nat {
    1 + BlocksOps(blocks, writes, fsync) + (if writes then 1 else 0)
  }

  method WriteScenario(
    file: AsyncFile, blockSize: nat, fileSize: nat, fsync: bool, random: bool, draws: seq<nat>, ghost before: set<nat>)
    returns (r: Result<ScenarioResult, SuiteError>)
    requires 0 < blockSize <= fileSize && GoodDraws(draws, Blocks(blockSize, fileSize))
    requires file.present && Layout(file.data, blockSize, fileSize, before)
    modifies file
    ensures file.present && |file.data| == fileSize
    ensures r.Ok? <==> Clean(old(file.faults), PatternOps(true, Blocks(blockSize, fileSize), fsync))
    ensures file.faults == After(old(file.faults), PatternOps(true, Blocks(blockSize, fileSize), fsync))
    ensures r.Err? ==> r.error == Io
    ensures r.Ok? ==>
      var blocks := Blocks(blockSize, fileSize);
      && r.value == ScenarioResult(WritePattern(random), blockSize, blocks * blockSize, blocks)
      && Layout(file.data, blockSize, fileSize, before + Touched(WritePattern(random), draws, blocks))
    ensures r.Ok? && !random ==>
      forall k :: 0 <= k < Blocks(blockSize, fileSize) ==> BlockAt(file.data, blockSize, k) == FillBlock(blockSize)
    ensures r.Ok? && random ==>
      forall k :: 0 <= k < Blocks(blockSize, fileSize) ==>
        BlockAt(file.data, blockSize, k)
          == if k in draws then FillBlock(blockSize) else BlockAt(old(file.data), blockSize, k)
  {
    var blocks := Blocks(blockSize, fileSize);
    ghost var faults, ops := file.faults, PatternOps(true, blocks, fsync);
    OneMore(faults, 0, ops);
    var ok := file.Open();
    if !ok {
      return Err(Io);
    }
    InTurn(faults, 1, ops - 2);
    InTurn(faults, ops - 1, 1);
    var samples;
    ok, samples := WriteBlocks(file, blockSize, fileSize, fsync, random, draws, before);
    if !ok {
      return Err(Io);
    }
    OneMore(faults, ops - 1, ops);
    ok := file.Touch();
    if !ok {
      return Err(Io);
    }
    TouchedExactly(WritePattern(random), draws);
    r := Ok(ScenarioResult(WritePattern(random), blockSize, blocks * blockSize, samples));
  }

  /** A sequential pattern goes through all blocks, a random one through those drawn. */
  lemma TouchedExactly(pattern: IoPattern, draws: seq<nat>)
    ensures forall k: nat :: k in Touched(pattern, draws, |draws|) <==>
      if pattern == RandomRead || pattern == RandomWrite then k in draws else k < |draws|
  {
    var touched := Touched(pattern, draws, |draws|);
    var random := pattern == RandomRead || pattern == RandomWrite;
    assert random == pattern.Random();
    forall k: nat ensures k in touched <==> if random then k in draws else k < |draws| {
      if random && k in draws {
        var i: nat :| i < |draws| && draws[i] == k;
        assert BlockIndex(i, random, draws) in touched;
      } else if !random && k < |draws| {
        assert BlockIndex(k, random, draws) in touched;
      }
    }
  }

  /** The loop of a writing scenario. */
  method WriteBlocks(
    file: AsyncFile, blockSize: nat, fileSize: nat, fsync: bool, random: bool, draws: seq<nat>, ghost before: set<nat>)
    returns (ok: bool, samples: nat)
    requires 0 < blockSize <= fileSize && GoodDraws(draws, Blocks(blockSize, fileSize))
    requires Layout(file.data, blockSize, fileSize, before)
    modifies file`data, file`pos, file`faults
    ensures |file.data| == fileSize
    ensures ok <==> Clean(old(file.faults), BlocksOps(|draws|, true, fsync))
    ensures file.faults == After(old(file.faults), BlocksOps(|draws|, true, fsync))
    ensures ok ==> samples == |draws|
    ensures ok ==>
      Layout(file.data, blockSize, fileSize, before + Touched(WritePattern(random), draws, |draws|))
  {
    ghost var faults, pattern := file.faults, WritePattern(random);
    ok, samples := true, 0;
    assert before + Touched(pattern, draws, 0) == before;
    for i := 0 to |draws|
      invariant ok && samples == i
      invariant Layout(file.data, blockSize, fileSize, before + Touched(pattern, draws, i))
      invariant Spent(faults, file.faults, BlocksOps(i, true, fsync))
    {
      BlockInTurn(faults, i, |draws|, true, fsync);
      ok := WriteNext(file, blockSize, fileSize, fsync, random, draws, i, before);
      if !ok {
        return;
      }
      samples := samples + 1;
    }
  }

  /** One turn of that loop. */
  method WriteNext(
    file: AsyncFile, blockSize: nat, fileSize: nat, fsync: bool, random: bool, draws: seq<nat>, i: nat,
    ghost before: set<nat>)
    returns (ok: bool)
    requires 0 < blockSize <= fileSize && GoodDraws(draws, Blocks(blockSize, fileSize)) && i < |draws|
    requires Layout(file.data, blockSize, fileSize, before + Touched(WritePattern(random), draws, i))
    modifies file`data, file`pos, file`faults
    ensures |file.data| == fileSize
    ensures ok <==> Clean(old(file.faults), BlocksOps(1, true, fsync))
    ensures file.faults == After(old(file.faults), BlocksOps(1, true, fsync))
    ensures ok ==> Layout(file.data, blockSize, fileSize, before + Touched(WritePattern(random), draws, i + 1))
  {
    var index := BlockIndex(i, random, draws);
    TouchesOneMore(file.data, blockSize, fileSize, before, WritePattern(random), draws, i);
    ok := WriteOneBlock(file, blockSize, fileSize, fsync, index);
  }

  /** The next block's operations, among those of all blocks. */
  lemma BlockInTurn(faults: seq<Fault>, i: nat, blocks: nat, writes: bool, fsync: bool)
    requires i < blocks && Clean(faults, BlocksOps(i, writes, fsync))
    ensures
      var left, one := After(faults, BlocksOps(i, writes, fsync)), BlocksOps(1, writes, fsync);
      var next, all := BlocksOps(i + 1, writes, fsync), BlocksOps(blocks, writes, fsync);
      && (Clean(faults, next) <==> Clean(left, one)) && After(faults, next) == After(left, one)
      && (!Clean(left, one) ==> !Clean(faults, all) && After(faults, all) == After(left, one))
  {
    var k, one := BlocksOps(i, writes, fsync), BlocksOps(1, writes, fsync);
    InTurn(faults, k, one);
    InTurn(faults, k + one, BlocksOps(blocks, writes, fsync) - (k + one));
  }

  method WriteOneBlock(file: AsyncFile, blockSize: nat, fileSize: nat, fsync: bool, index: nat) returns (ok: bool)
    requires 0 < blockSize <= fileSize && index < Blocks(blockSize, fileSize)
    requires |file.data| == fileSize
    modifies file`data, file`pos, file`faults
    ensures |file.data| == fileSize
    ensures ok <==> Clean(old(file.faults), BlocksOps(1, true, fsync))
    ensures file.faults == After(old(file.faults), BlocksOps(1, true, fsync))
    ensures ok ==> file.data == WriteAt(old(file.data), BlockOffset(index, blockSize), FillBlock(blockSize))
  {
    ghost var faults, ops := file.faults, BlocksOps(1, true, fsync);
    OneMore(faults, 0, ops);
    ok := file.Seek(BlockOffset(index, blockSize));
    if !ok {
      return;
    }
    var block := FillBlock(blockSize);
    OneMore(faults, 1, ops);
    PartialKeepsLength(file.data, blockSize, fileSize, index, Through(NextFault(file.faults), blockSize));
    ok := file.WriteAll(block);
    assert block[..blockSize] == block;
    if ok && fsync {
      OneMore(faults, 2, ops);
      ok := file.Touch();
    }
  }

  /** No read meets the end of the file, and each returns its block's current content. */
  method ReadScenario(file: AsyncFile, blockSize: nat, fileSize: nat, random: bool, draws: seq<nat>)
    returns (r: Result<ScenarioResult, SuiteError>, ghost seen: seq<Bytes>)
    requires 0 < blockSize <= fileSize && GoodDraws(draws, Blocks(blockSize, fileSize))
    requires file.present && |file.data| == fileSize
    modifies file`pos, file`faults
    ensures r.Ok? <==> Clean(old(file.faults), PatternOps(false, Blocks(blockSize, fileSize), false))
    ensures file.faults == After(old(file.faults), PatternOps(false, Blocks(blockSize, fileSize), false))
    ensures r.Err? ==> r.error == Io
    ensures r.Ok? ==>
      var pattern := if random then RandomRead else SequentialRead;
      var blocks := Blocks(blockSize, fileSize);
      && r == Ok(ScenarioResult(pattern, blockSize, blocks * blockSize, blocks))
      && |seen| == blocks
      && forall i :: 0 <= i < blocks ==> seen[i] == BlockAt(file.data, blockSize, if random then draws[i] else i)
  {
    seen := [];
    var blocks := Blocks(blockSize, fileSize);
    ghost var faults, ops := file.faults, PatternOps(false, blocks, false);
    OneMore(faults, 0, ops);
    InTurn(faults, 1, ops - 1);
    var ok := file.Open();
    if !ok {
      return Err(Io), seen;
    }
    var samples;
    ok, samples, seen := ReadBlocks(file, blockSize, fileSize, random, draws);
    if !ok {
      return Err(Io), seen;
    }
    r := Ok(ScenarioResult(if random then RandomRead else SequentialRead, blockSize, blocks * blockSize, samples));
  }

  /** The loop of a reading scenario. */
  method ReadBlocks(file: AsyncFile, blockSize: nat, fileSize: nat, random: bool, draws: seq<nat>)
    returns (ok: bool, samples: nat, ghost seen: seq<Bytes>)
    requires 0 < blockSize <= fileSize && GoodDraws(draws, Blocks(blockSize, fileSize))
    requires |file.data| == fileSize
    modifies file`pos, file`faults
    ensures ok <==> Clean(old(file.faults), BlocksOps(|draws|, false, false))
    ensures file.faults == After(old(file.faults), BlocksOps(|draws|, false, false))
    ensures ok ==> samples == |seen| == |draws|
    ensures forall i :: 0 <= i < |seen| ==>
      i < |draws| && seen[i] == BlockAt(file.data, blockSize, BlockIndex(i, random, draws))
  {
    ghost var faults := file.faults;
    var buf := new byte[blockSize](_ => 0);
    ok, samples, seen := true, 0, [];
    for i := 0 to |draws|
      invariant ok && samples == i == |seen|
      invariant forall j :: 0 <= j < i ==> seen[j] == BlockAt(file.data, blockSize, BlockIndex(j, random, draws))
      invariant Spent(faults, file.faults, BlocksOps(i, false, false))
    {
      BlockInTurn(faults, i, |draws|, false, false);
      ok := ReadOneBlock(file, blockSize, fileSize, BlockIndex(i, random, draws), buf);
      if !ok {
        return;
      }
      seen := seen + [buf[..]];
      samples := samples + 1;
    }
  }

  method ReadOneBlock(file: AsyncFile, blockSize: nat, fileSize: nat, index: nat, buf: array<byte>) returns (ok: bool)
    requires 0 < blockSize <= fileSize && index < Blocks(blockSize, fileSize)
    requires |file.data| == fileSize && buf.Length == blockSize
    modifies file`pos, file`faults, buf
    ensures ok <==> Clean(old(file.faults), BlocksOps(1, false, false))
    ensures file.faults == After(old(file.faults), BlocksOps(1, false, false))
    ensures ok ==> buf[..] == BlockAt(file.data, blockSize, index)
  {
    ghost var faults := file.faults;
    OneMore(faults, 0, 2);
    BlocksCover(blockSize, fileSize);
    assert Fits(index, blockSize, fileSize);
    ok := file.Seek(BlockOffset(index, blockSize));
    if !ok {
      return;
    }
    OneMore(faults, 1, 2);
    var got := file.ReadExact(buf);
    ok := got.Ok?;
  }

  function WrittenOnce(pattern: IoPattern, draws: seq<nat>): set<nat> {
    if pattern.Writes() then Touched(pattern, draws, |draws|) else {}
  }

  /** The blocks some write scenario among the first `n` has touched. */
  function WrittenBy(patterns: seq<IoPattern>, draws: seq<seq<nat>>, n: nat): set<nat>
    requires n <= |patterns| == |draws|
  {
    if n == 0 then {}
    else
      WrittenBy(patterns, draws, n - 1) + WrittenOnce(patterns[n - 1], draws[n - 1])
  }

  /** One result per pattern so far, `blocks` samples each. */
  predicate Recorded(results: seq<ScenarioResult>, patterns: seq<IoPattern>, blockSize: nat, blocks: nat) {
    && |results| <= |patterns|
    && forall i :: 0 <= i < |results| ==>
         results[i] == ScenarioResult(patterns[i], blockSize, blocks * blockSize, blocks)
  }

  /** The operations of all patterns. */
  function SuiteOps(patterns: seq<IoPattern>, blocks: nat, fsync: bool): nat {
    if patterns == [] then 0
    else SuiteOps(Front(patterns), blocks, fsync) + PatternOps(Last(patterns).Writes(), blocks, fsync)
  }

  /** Some pattern of the list writes block `k`: a sequential one, or a random one that draws it. */
  predicate WrittenIn(patterns: seq<IoPattern>, draws: seq<seq<nat>>, k: nat)
    requires |draws| == |patterns|
  {
    exists j | 0 <= j < |patterns| ::
      patterns[j] == SequentialWrite || (patterns[j] == RandomWrite && k in draws[j])
  }

  lemma {:induction false} WrittenByExactly(
    patterns: seq<IoPattern>, draws: seq<seq<nat>>, n: nat, blocks: nat, k: nat)
    requires n <= |patterns| == |draws| && k < blocks
    requires forall j | 0 <= j < |draws| :: |draws[j]| == blocks
    ensures k in WrittenBy(patterns, draws, n) <==> WrittenIn(patterns[..n], draws[..n], k)
  {
    if n > 0 {
      WrittenByExactly(patterns, draws, n - 1, blocks, k);
      TouchedExactly(patterns[n - 1], draws[n - 1]);
      assert forall j | 0 <= j < n - 1 ::
        patterns[..n - 1][j] == patterns[..n][j] && draws[..n - 1][j] == draws[..n][j];
      assert patterns[..n][n - 1] == patterns[n - 1] && draws[..n][n - 1] == draws[n - 1];
    }
  }

  /** How far a run gets: arguments refused, no file made, one half made, or one ready to use. */
  datatype Stage = Refused | NoFile | Preparing | Prepared(succeeds: bool, removed: bool)

  /** How far a run gets, from its arguments and the system's faults alone. */
  function StageOf(
    blockSize: nat, fileSize: nat, fsync: bool, patterns: seq<IoPattern>, faults: seq<Fault>): Stage
  {
    if !(0 < blockSize <= fileSize) then Refused
    else if !Clean(faults, 2) then NoFile
    else if !Clean(faults, 1 + PrepareOps(fileSize)) then Preparing
    else
      var ops := 1 + PrepareOps(fileSize) + SuiteOps(patterns, Blocks(blockSize, fileSize), fsync);
      Prepared(Clean(faults, ops), NextFault(After(faults, ops)).Fine?)
  }

  /** The one way a run with these arguments can fail. */
  function Failure(blockSize: nat, fileSize: nat): SuiteError {
    if blockSize == 0 then BadBlockSize else if fileSize < blockSize then BadFileSize else Io
  }

  /** A file is there afterwards: an older one untouched, one half made, or one not removed. */
  predicate StaysBehind(stage: Stage, before: bool) {
    match stage
    case Preparing => true
    case Prepared(_, removed) => !removed
    case _ => before
  }

  /**
   * The whole suite, for any pattern list, any random draws and any faults. Making the
   * directory, preparing, running the patterns and removing the file take their faults in
   * turn, which decides how far the run gets: it succeeds exactly if every operation before
   * the removal is performed, and never meets an end of file. Success records `blocks`
   * samples per pattern, with the pattern in the touched blocks and zero elsewhere; a
   * prepared file keeps exactly `fileSize` bytes.
   */
  method Run(
    file: AsyncFile, blockSize: nat, fileSize: nat, fsync: bool, patterns: seq<IoPattern>, draws: seq<seq<nat>>)
    returns (r: Result<seq<ScenarioResult>, SuiteError>)
    requires |draws| == |patterns|
    requires 0 < blockSize <= fileSize ==>
      forall i :: 0 <= i < |draws| ==> GoodDraws(draws[i], Blocks(blockSize, fileSize))
    modifies file
    ensures
      var stage := StageOf(blockSize, fileSize, fsync, patterns, old(file.faults));
      && file.present == StaysBehind(stage, old(file.present))
      && (r.Ok? <==> stage.Prepared? && stage.succeeds)
      && (r.Err? ==> r.error == Failure(blockSize, fileSize))
      && (stage.Refused? || stage.NoFile? ==> file.data == old(file.data))
      && (stage.Preparing? ==> |file.data| <= fileSize && file.data == Zeros(|file.data|))
      && (stage.Prepared? ==> |file.data| == fileSize)
    ensures r.Ok? ==>
      && 0 < blockSize && |r.value| == |patterns|
      && Layout(file.data, blockSize, fileSize, WrittenBy(patterns, draws, |patterns|))
      && Recorded(r.value, patterns, blockSize, Blocks(blockSize, fileSize))
      && forall k :: 0 <= k < Blocks(blockSize, fileSize) ==>
           BlockAt(file.data, blockSize, k)
             == if WrittenIn(patterns, draws, k) then FillBlock(blockSize) else Zeros(blockSize)
  {
    if blockSize == 0 {
      return Err(BadBlockSize);
    }
    if fileSize < blockSize {
      return Err(BadFileSize);
    }
    ghost var faults, ready := file.faults, 1 + PrepareOps(fileSize);
    OneMore(faults, 0, ready);
    InTurn(faults, 1, 1);
    var ok := file.Touch();
    if !ok {
      return Err(Io);
    }
    InTurn(faults, 1, PrepareOps(fileSize));
    ghost var made;
    ok, made := PrepareFile(file, fileSize);
    if !ok {
      return Err(Io);
    }
    FreshLayout(blockSize, fileSize);
    ghost var ops := SuiteOps(patterns, Blocks(blockSize, fileSize), fsync);
    InTurn(faults, ready, ops);
    CleanPrefix(faults, 2, ready);
    r := RunPatterns(file, blockSize, fileSize, fsync, patterns, draws);
    var removed := file.Remove();
    if r.Ok? {
      forall k: nat | k < Blocks(blockSize, fileSize)
        ensures k in WrittenBy(patterns, draws, |patterns|) <==> WrittenIn(patterns, draws, k)
      {
        WrittenByExactly(patterns, draws, |patterns|, Blocks(blockSize, fileSize), k);
        assert patterns[..|patterns|] == patterns && draws[..|draws|] == draws;
      }
    }
  }

  lemma CleanPrefix(faults: seq<Fault>, a: nat, b: nat)
    requires a <= b && Clean(faults, b)
    ensures Clean(faults, a)
  {
    InTurn(faults, a, b - a);
  }

  /**
   * The documentation has the file removed even on the error path. It is not when preparing
   * it breaks off: with the directory and the file made and the first chunk failing, a run
   * with good arguments fails and leaves a file where there was none.
   */
  lemma BrokenPreparationStays(blockSize: nat, fileSize: nat, fsync: bool, patterns: seq<IoPattern>)
    requires 0 < blockSize <= fileSize
    ensures
      var stage := StageOf(blockSize, fileSize, fsync, patterns, [Fine, Fine, Breaks(0)]);
      stage.Preparing? && StaysBehind(stage, false)
  {
    var faults := [Fine, Fine, Breaks(0)];
    assert RestFaults(faults) == [Fine, Breaks(0)] && RestFaults([Fine, Breaks(0)]) == [Breaks(0)];
    assert Clean(faults, 2);
    assert After(faults, 2) == [Breaks(0)];
    OneMore(faults, 2, 1 + PrepareOps(fileSize));
  }

  /**
   * When a run leaves a file where there was none, exactly: the file was made, and either
   * preparing it broke off or its removal did.
   */
  lemma LeftBehindExactly(
    blockSize: nat, fileSize: nat, fsync: bool, patterns: seq<IoPattern>, faults: seq<Fault>)
    requires 0 < blockSize <= fileSize
    ensures
      var ready := 1 + PrepareOps(fileSize);
      var ops := ready + SuiteOps(patterns, Blocks(blockSize, fileSize), fsync);
      StaysBehind(StageOf(blockSize, fileSize, fsync, patterns, faults), false) <==>
        Clean(faults, 2) && (Clean(faults, ready) ==> NextFault(After(faults, ops)).Breaks?)
    ensures Faultless(faults) ==>
      StageOf(blockSize, fileSize, fsync, patterns, faults) == Prepared(true, true)
  {
    var ready := 1 + PrepareOps(fileSize);
    var ops := ready + SuiteOps(patterns, Blocks(blockSize, fileSize), fsync);
    if Clean(faults, ready) {
      CleanPrefix(faults, 2, ready);
    }
    if Faultless(faults) {
      FaultlessIsClean(faults, 2);
      FaultlessIsClean(faults, ready);
      FaultlessIsClean(faults, ops);
      assert After(faults, ops) != [] ==> After(faults, ops)[0] in After(faults, ops);
    }
  }

  /** Every pattern in turn, up to the first that fails. */
  method RunPatterns(
    file: AsyncFile, blockSize: nat, fileSize: nat, fsync: bool, patterns: seq<IoPattern>, draws: seq<seq<nat>>)
    returns (r: Result<seq<ScenarioResult>, SuiteError>)
    requires 0 < blockSize <= fileSize && |draws| == |patterns|
    requires forall i :: 0 <= i < |draws| ==> GoodDraws(draws[i], Blocks(blockSize, fileSize))
    requires file.present && Layout(file.data, blockSize, fileSize, {})
    modifies file
    ensures file.present && |file.data| == fileSize
    ensures r.Ok? <==> Clean(old(file.faults), SuiteOps(patterns, Blocks(blockSize, fileSize), fsync))
    ensures file.faults == After(old(file.faults), SuiteOps(patterns, Blocks(blockSize, fileSize), fsync))
    ensures r.Err? ==> r.error == Io
    ensures r.Ok? ==>
      && Layout(file.data, blockSize, fileSize, WrittenBy(patterns, draws, |patterns|))
      && |r.value| == |patterns| && Recorded(r.value, patterns, blockSize, Blocks(blockSize, fileSize))
  {
    var results: seq<ScenarioResult> := [];
    ghost var faults, blocks := file.faults, Blocks(blockSize, fileSize);
    for i := 0 to |patterns|
      invariant file.present && |results| == i
      invariant Layout(file.data, blockSize, fileSize, WrittenBy(patterns, draws, i))
      invariant Recorded(results, patterns, blockSize, blocks)
      invariant Spent(faults, file.faults, SuiteOps(patterns[..i], blocks, fsync))
    {
      PatternInTurn(faults, patterns, i, blocks, fsync);
      var one := RunPattern(
        file, blockSize, fileSize, fsync, patterns[i], draws[i], WrittenBy(patterns, draws, i));
      if one.Err? {
        return Err(one.error);
      }
      RecordedOneMore(results, patterns, blockSize, blocks, one.value);
      results := results + [one.value];
    }
    assert patterns[..|patterns|] == patterns;
    r := Ok(results);
  }

  /** The next pattern's operations, among those of the whole list. */
  lemma PatternInTurn(faults: seq<Fault>, patterns: seq<IoPattern>, i: nat, blocks: nat, fsync: bool)
    requires i < |patterns| && Clean(faults, SuiteOps(patterns[..i], blocks, fsync))
    ensures
      var left := After(faults, SuiteOps(patterns[..i], blocks, fsync));
      var one, next := PatternOps(patterns[i].Writes(), blocks, fsync), SuiteOps(patterns[..i + 1], blocks, fsync);
      && (Clean(faults, next) <==> Clean(left, one)) && After(faults, next) == After(left, one)
      && (!Clean(left, one) ==>
            && !Clean(faults, SuiteOps(patterns, blocks, fsync))
            && After(faults, SuiteOps(patterns, blocks, fsync)) == After(left, one))
  {
    var k, one := SuiteOps(patterns[..i], blocks, fsync), PatternOps(patterns[i].Writes(), blocks, fsync);
    assert Front(patterns[..i + 1]) == patterns[..i];
    InTurn(faults, k, one);
    SuiteOpsGrow(patterns, i + 1, blocks, fsync);
    InTurn(faults, k + one, SuiteOps(patterns, blocks, fsync) - (k + one));
  }

  lemma {:induction false} SuiteOpsGrow(patterns: seq<IoPattern>, i: nat, blocks: nat, fsync: bool)
    requires i <= |patterns|
    ensures SuiteOps(patterns[..i], blocks, fsync) <= SuiteOps(patterns, blocks, fsync)
  {
    if i < |patterns| {
      SuiteOpsGrow(Front(patterns), i, blocks, fsync);
      assert Front(patterns)[..i] == patterns[..i];
    } else {
      assert patterns[..i] == patterns;
    }
  }

  lemma RecordedOneMore(
    results: seq<ScenarioResult>, patterns: seq<IoPattern>, blockSize: nat, blocks: nat, one: ScenarioResult)
    requires Recorded(results, patterns, blockSize, blocks) && |results| < |patterns|
    requires one == ScenarioResult(patterns[|results|], blockSize, blocks * blockSize, blocks)
    ensures Recorded(results + [one], patterns, blockSize, blocks)
  {
  }

  /** One pattern; only the two writing ones touch blocks. */
  method RunPattern(
    file: AsyncFile, blockSize: nat, fileSize: nat, fsync: bool, pattern: IoPattern, draws: seq<nat>,
    ghost before: set<nat>)
    returns (r: Result<ScenarioResult, SuiteError>)
    requires 0 < blockSize <= fileSize && GoodDraws(draws, Blocks(blockSize, fileSize))
    requires file.present && Layout(file.data, blockSize, fileSize, before)
    modifies file
    ensures file.present && |file.data| == fileSize
    ensures r.Ok? <==> Clean(old(file.faults), PatternOps(pattern.Writes(), Blocks(blockSize, fileSize), fsync))
    ensures file.faults == After(old(file.faults), PatternOps(pattern.Writes(), Blocks(blockSize, fileSize), fsync))
    ensures r.Err? ==> r.error == Io
    ensures r.Ok? ==>
      var blocks := Blocks(blockSize, fileSize);
      && r.value == ScenarioResult(pattern, blockSize, blocks * blockSize, blocks)
      && Layout(file.data, blockSize, fileSize, before + WrittenOnce(pattern, draws))
  {
    ghost var seen: seq<Bytes>;
    match pattern {
      case SequentialWrite => r := WriteScenario(file, blockSize, fileSize, fsync, false, draws, before);
      case RandomWrite => r := WriteScenario(file, blockSize, fileSize, fsync, true, draws, before);
      case SequentialRead => r, seen := ReadScenario(file, blockSize, fileSize, false, draws);
      case RandomRead => r, seen := ReadScenario(file, blockSize, fileSize, true, draws);
    }
    assert !pattern.Writes() ==> before + WrittenOnce(pattern, draws) == before;
  }
}
