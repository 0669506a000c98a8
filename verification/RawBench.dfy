/**
 * `BlockFile` and the raw benchmark over it: sequential block writes, an fsync, then the
 * same blocks read back, on a file that may already hold anything.
 */
module RawBench {
  import opened Wrappers
  import opened BlockIo

  const U64: nat := 0x1_0000_0000_0000_0000

  datatype BenchError = ZeroBlockSize | FileTooSmall | Os(errno: int)

  datatype BenchResult = BenchResult(blockSize: nat, totalBytes: nat, samples: nat)

  /** The cast `offset as i64`. */
  function AsI64(offset: nat): (o: int)
    ensures offset < U64 ==> I64_MIN <= o <= I64_MAX && (o == offset || o == offset - 18_446_744_073_709_551_616)
  {
    if offset <= I64_MAX then offset else offset - U64
  }

  /** No system call fails, not even to be retried. */
  predicate Failless(schedule: seq<Fate>) {
    forall f | f in schedule :: f.Moves?
  }

  /** A call that meets a fatal fate found it in the schedule. */
  lemma FatalIsListed(met: seq<Fate>, rest: seq<Fate>, errno: int)
    ensures EndsFatally(met, errno) ==> !Harmless(met + rest)
    ensures Harmless(met + rest) ==> Harmless(rest)
    ensures Failless(met + rest) ==> Failless(rest) && Harmless(met + rest)
  {
    if EndsFatally(met, errno) {
      assert Last(met) in met + rest;
    }
    assert forall f | f in rest :: f in met + rest;
  }

  /** A failing call in the schedule, other than one to be retried, gives this errno. */
  predicate Met(schedule: seq<Fate>, errno: int) {
    errno != EINTR && exists f | f in schedule :: f.Fails? && f.errno == errno
  }

  lemma FatalIsMet(met: seq<Fate>, rest: seq<Fate>, errno: int)
    ensures EndsFatally(met, errno) ==> Met(met + rest, errno)
  {
    if EndsFatally(met, errno) {
      assert Last(met) in met + rest;
    }
  }

  class BlockFile {
    const file: File

    constructor (file: File)
      ensures this.file == file
    {
      this.file := file;
    }

    method ReadBlockAt(buf: array<byte>, offset: nat) returns (r: Result<nat, BenchError>, ghost done: nat)
      requires file.Valid() && offset < U64
      modifies file`schedule, buf
      ensures r.Ok? ==> r.value == done && (buf.Length > 0 ==> offset <= I64_MAX)
      ensures r.Ok? && offset <= I64_MAX ==> done == |ReadAt(file.data, offset, buf.Length)|
      ensures done > 0 ==> offset <= I64_MAX && done <= |ReadAt(file.data, offset, buf.Length)|
      ensures forall p :: 0 <= p < buf.Length ==>
        buf[p] == if p < done then ReadAt(file.data, offset, buf.Length)[p] else old(buf[p])
      ensures Harmless(old(file.schedule)) ==> Harmless(file.schedule) && (offset <= I64_MAX ==> r.Ok?)
      ensures r.Err? ==> r.error.Os?
      ensures r.Err? && offset > I64_MAX ==> r.error.errno == EINVAL
      ensures r.Err? && offset <= I64_MAX ==> Met(old(file.schedule), r.error.errno)
    {
      ghost var met: seq<Fate>;
      var ret: int;
      ret, done, met := file.ReadBlock(buf, buf.Length, AsI64(offset));
      FatalIsListed(met, file.schedule, -ret);
      FatalIsMet(met, file.schedule, -ret);
      r := if ret < 0 then Err(Os(-ret)) else Ok(ret);
    }

    method WriteBlockAt(bytes: Bytes, offset: nat) returns (r: Result<nat, BenchError>, ghost done: nat)
      requires file.Valid() && offset < U64
      modifies file`data, file`schedule
      ensures file.Valid()
      ensures r.Ok? ==> r.value == done == |bytes| && (bytes != [] ==> offset + |bytes| <= I64_MAX)
      ensures r.Err? ==> done < |bytes|
      ensures done > 0 ==> offset <= I64_MAX
      ensures offset <= I64_MAX ==> file.data == WriteAt(old(file.data), offset, bytes[..done])
      ensures offset > I64_MAX ==> file.data == old(file.data)
      ensures Harmless(old(file.schedule)) ==> Harmless(file.schedule) && (offset + |bytes| <= I64_MAX ==> r.Ok?)
      ensures Failless(old(file.schedule)) ==> Failless(file.schedule) && Harmless(file.schedule)
      ensures r.Err? ==> r.error.Os?
      ensures r.Err? && offset > I64_MAX ==> r.error.errno == EINVAL
      ensures r.Err? && offset <= I64_MAX ==>
        Met(old(file.schedule), r.error.errno) || (r.error.errno == EFBIG && offset + done == I64_MAX)
    {
      ghost var met: seq<Fate>;
      var ret: int;
      ret, done, met := file.WriteBlock(bytes, AsI64(offset));
      FatalIsListed(met, file.schedule, -ret);
      FatalIsMet(met, file.schedule, -ret);
      r := if ret < 0 then Err(Os(-ret)) else Ok(ret);
    }

    /** `fsync` is one system call and is not retried. */
    method Sync() returns (r: Result<(), BenchError>)
      modifies file`schedule, file`syncs
      ensures file.syncs == old(file.syncs) + [NextFate(old(file.schedule), 1)]
      ensures r == match NextFate(old(file.schedule), 1) case Fails(e) => Err(Os(e)) case Moves(_) => Ok(())
      ensures Failless(old(file.schedule)) ==> r.Ok? && Failless(file.schedule) && Harmless(file.schedule)
      ensures Harmless(old(file.schedule)) ==> Harmless(file.schedule)
    {
      assert file.schedule != [] ==> file.schedule[0] in file.schedule;
      var ret := file.SyncFs();
      r := if ret < 0 then Err(Os(-ret)) else Ok(());
    }
  }

  /** Of the `fsync` calls since `was`, at most the last failed, and then with `failed`. */
  predicate SyncsTold(was: seq<Fate>, now: seq<Fate>, failed: Option<int>) {
    && was <= now
    && (forall i | |was| <= i < |now| - 1 :: now[i].Moves?)
    && (|was| < |now| && Last(now).Fails? ==> failed == Some(Last(now).errno))
  }

  function Errno<T>(r: Result<T, BenchError>): Option<int> {
    if r.Err? && r.error.Os? then Some(r.error.errno) else None
  }

  function Blocks(blockSize: nat, fileSize: nat): nat
    requires blockSize > 0
  {
    Max(fileSize / blockSize, 1)
  }

  /** The non-zero fill pattern both benchmarks write. */
  function FillBlock(size: nat): (b: Bytes)
    ensures |b| == size
    ensures forall i :: 0 <= i < size ==> b[i] == i % 251
  {
    seq(size, i requires 0 <= i < size => i % 251)
  }

  function Repeat(block: Bytes, n: nat): (r: Bytes)
    ensures |r| == n * |block|
  {
    if n == 0 then [] else Repeat(block, n - 1) + block
  }

  /** Whole blocks only: the benchmark covers all of the file size but less than one block. */
  lemma BlocksCover(blockSize: nat, fileSize: nat)
    requires 0 < blockSize <= fileSize
    ensures fileSize - blockSize < Blocks(blockSize, fileSize) * blockSize <= fileSize
    ensures forall i :: 0 <= i < Blocks(blockSize, fileSize) ==> Fits(i, blockSize, fileSize)
  {
    var n := fileSize / blockSize;
    assert n >= 1;
    forall i | 0 <= i < n ensures Fits(i, blockSize, fileSize) {
      MulLe(i, n, blockSize);
      MulLe(i + 1, n, blockSize);
    }
  }

  lemma MulLe(a: nat, b: nat, c: nat)
    requires a <= b
    ensures a * c <= b * c
    ensures (a + 1) * c == a * c + c
  {
    assert b * c == a * c + (b - a) * c;
    assert (b - a) * c >= 0;
  }

  predicate Fits(i: nat, blockSize: nat, fileSize: nat) {
    i * blockSize + blockSize <= fileSize
  }

  lemma {:induction false} RepeatSlice(block: Bytes, n: nat, i: nat)
    requires i < n && block != []
    ensures i * |block| + |block| <= n * |block|
    ensures Repeat(block, n)[i * |block|..i * |block| + |block|] == block
  {
    if i < n - 1 {
      RepeatSlice(block, n - 1, i);
    }
  }

  /** Byte `p` of the repetition depends on `p` modulo the block size. */
  lemma {:induction false} RepeatByte(block: Bytes, n: nat, p: nat)
    requires block != [] && p < n * |block|
    ensures Repeat(block, n)[p] == block[p % |block|]
  {
    var last := (n - 1) * |block|;
    if p < last {
      RepeatByte(block, n - 1, p);
    } else {
      ModOffset(n - 1, |block|, p - last);
    }
  }

  lemma ModOffset(k: nat, m: nat, r: nat)
    requires r < m
    ensures (k * m + r) % m == r
  {
    var q, rest := (k * m + r) / m, (k * m + r) % m;
    assert q * m + rest == k * m + r;
    if q < k {
      MulLe(q + 1, k, m);
      MulLe(q, k, m);
    } else if q > k {
      MulLe(k + 1, q, m);
      MulLe(k, q, m);
    }
  }

  /** Part of one more block, after `i` whole ones. */
  lemma {:induction false} RepeatPrefix(block: Bytes, n: nat, i: nat, part: nat)
    requires i < n && part <= |block|
    ensures i * |block| + part <= n * |block|
    ensures Repeat(block, n)[..i * |block| + part] == Repeat(block, i) + block[..part]
  {
    MulLe(i, n - 1, |block|);
    MulLe(n - 1, n, |block|);
    if i < n - 1 {
      RepeatPrefix(block, n - 1, i, part);
      PrefixOfSum(Repeat(block, n - 1), block, i * |block| + part);
    } else {
      PrefixPast(Repeat(block, i), block, part);
    }
  }

  lemma PrefixOfSum(a: Bytes, b: Bytes, n: nat)
    requires n <= |a|
    ensures (a + b)[..n] == a[..n]
  {
  }

  lemma PrefixPast(a: Bytes, b: Bytes, n: nat)
    requires n <= |b|
    ensures (a + b)[..|a| + n] == a + b[..n]
  {
  }

  /** Block `i`, or part of it, written after the ones before it. */
  lemma OneMoreBlock(prior: Bytes, block: Bytes, blocks: nat, i: nat, stored: nat, done: nat)
    requires i < blocks && stored == i * |block| && done <= |block|
    ensures stored + |block| == (i + 1) * |block| <= blocks * |block|
    ensures
      var all := Repeat(block, blocks);
      WriteAt(WriteAt(prior, 0, all[..stored]), stored, block[..done]) == WriteAt(prior, 0, all[..stored + done])
  {
    MulLe(i, blocks, |block|);
    MulLe(i + 1, blocks, |block|);
    RepeatPrefix(block, blocks, i, 0);
    RepeatPrefix(block, blocks, i, done);
    WritesJoin(prior, 0, Repeat(block, i), block[..done]);
    assert Repeat(block, i) + block[..0] == Repeat(block, i);
  }

  /** Success or failure, what reached the file is a prefix of the pattern. */
  method WritePhase(f: BlockFile, block: Bytes, blocks: nat, fsync: bool)
    returns (r: Result<BenchResult, BenchError>, ghost stored: nat)
    requires f.file.Valid() && block != [] && blocks * |block| < U64
    modifies f.file
    ensures f.file.Valid()
    ensures stored <= blocks * |block|
    ensures f.file.data == WriteAt(old(f.file.data), 0, Repeat(block, blocks)[..stored])
    ensures r.Ok? ==> r.value == BenchResult(|block|, blocks * |block|, blocks) && stored == blocks * |block|
    ensures r.Ok? ==> blocks * |block| <= I64_MAX
    ensures blocks * |block| <= I64_MAX && Harmless(old(f.file.schedule)) && !fsync ==>
      r.Ok? && Harmless(f.file.schedule)
    ensures blocks * |block| <= I64_MAX && Failless(old(f.file.schedule)) ==> r.Ok? && Failless(f.file.schedule)
    ensures SyncsTold(old(f.file.syncs), f.file.syncs, Errno(r))
    ensures r.Ok? ==> |f.file.syncs| == |old(f.file.syncs)| + (if fsync then blocks else 0)
  {
    var samples := 0;
    stored := 0;
    for i := 0 to blocks
      invariant f.file.Valid() && samples == i && stored == i * |block| <= blocks * |block| && stored <= I64_MAX
      invariant f.file.data == WriteAt(old(f.file.data), 0, Repeat(block, blocks)[..stored])
      invariant blocks * |block| <= I64_MAX && Harmless(old(f.file.schedule)) && !fsync ==> Harmless(f.file.schedule)
      invariant blocks * |block| <= I64_MAX && Failless(old(f.file.schedule)) ==>
        Failless(f.file.schedule) && Harmless(f.file.schedule)
      invariant SyncsTold(old(f.file.syncs), f.file.syncs, None)
      invariant |f.file.syncs| == |old(f.file.syncs)| + (if fsync then i else 0)
    {
      var one: Result<(), BenchError>;
      one, stored := WriteStep(f, block, blocks, i, fsync, old(f.file.data), stored);
      if one.Err? {
        return Err(one.error), stored;
      }
      samples := samples + 1;
    }
    r := Ok(BenchResult(|block|, blocks * |block|, samples));
  }

  /** One turn of the write phase: block `i`, and an fsync if asked for. */
  method WriteStep(
    f: BlockFile, block: Bytes, blocks: nat, i: nat, fsync: bool, ghost prior: Bytes, ghost before: nat)
    returns (r: Result<(), BenchError>, ghost stored: nat)
    requires f.file.Valid() && block != [] && blocks * |block| < U64 && i < blocks && before == i * |block|
    requires before <= blocks * |block| && f.file.data == WriteAt(prior, 0, Repeat(block, blocks)[..before])
    modifies f.file
    ensures f.file.Valid() && stored <= blocks * |block|
    ensures f.file.data == WriteAt(prior, 0, Repeat(block, blocks)[..stored])
    ensures r.Ok? ==> stored == (i + 1) * |block| <= I64_MAX
    ensures blocks * |block| <= I64_MAX && Harmless(old(f.file.schedule)) && !fsync ==>
      r.Ok? && Harmless(f.file.schedule)
    ensures blocks * |block| <= I64_MAX && Failless(old(f.file.schedule)) ==>
      r.Ok? && Failless(f.file.schedule) && Harmless(f.file.schedule)
    ensures SyncsTold(old(f.file.syncs), f.file.syncs, Errno(r))
    ensures r.Ok? ==> SyncsTold(old(f.file.syncs), f.file.syncs, None)
    ensures r.Ok? ==> |f.file.syncs| == |old(f.file.syncs)| + (if fsync then 1 else 0)
  {
    OneMoreBlock(prior, block, blocks, i, before, 0);
    var w: Result<nat, BenchError>;
    ghost var done;
    w, done := f.WriteBlockAt(block, i * |block|);
    OneMoreBlock(prior, block, blocks, i, before, done);
    stored := before + done;
    if w.Err? {
      return Err(w.error), stored;
    }
    if fsync {
      r := f.Sync();
      return r, stored;
    }
    r := Ok(());
  }

  /** `seen` are the buffer's contents after each call, `counts` what each call returned. */
  method ReadPhase(f: BlockFile, blockSize: nat, blocks: nat)
    returns (r: Result<BenchResult, BenchError>, ghost seen: seq<Bytes>, ghost counts: seq<nat>)
    requires f.file.Valid() && blockSize > 0 && blocks * blockSize < U64
    modifies f.file`schedule
    ensures r.Ok? ==> r.value == BenchResult(blockSize, blocks * blockSize, blocks)
    ensures r.Ok? ==> |seen| == |counts| == blocks
    ensures forall block: Bytes, prior: Bytes ::
      |block| == blockSize && f.file.data == WriteAt(prior, 0, Repeat(block, blocks)) ==>
        (forall i :: 0 <= i < |seen| ==> seen[i] == block) && (forall i :: 0 <= i < |counts| ==> counts[i] == blockSize)
    ensures blocks * blockSize <= I64_MAX && Harmless(old(f.file.schedule)) ==> r.Ok?
  {
    seen, counts := [], [];
    var buf := new byte[blockSize](_ => 0);
    var samples := 0;
    for i := 0 to blocks
      invariant samples == |seen| == |counts| == i
      invariant fresh(buf) && buf.Length == blockSize
      invariant forall block: Bytes, prior: Bytes ::
        |block| == blockSize && f.file.data == WriteAt(prior, 0, Repeat(block, blocks)) ==>
          (forall j :: 0 <= j < i ==> seen[j] == block) && (forall j :: 0 <= j < i ==> counts[j] == blockSize)
      invariant Harmless(old(f.file.schedule)) ==> Harmless(f.file.schedule)
    {
      MulLe(i, blocks, blockSize);
      MulLe(i + 1, blocks, blockSize);
      var got: Result<nat, BenchError>;
      ghost var done;
      got, done := f.ReadBlockAt(buf, i * blockSize);
      if got.Err? {
        return Err(got.error), seen, counts;
      }
      forall block: Bytes, prior: Bytes
        | |block| == blockSize && f.file.data == WriteAt(prior, 0, Repeat(block, blocks))
        ensures buf[..] == block && got.value == blockSize
      {
        ReadsBack(prior, block, blocks, i);
      }
      seen, counts := seen + [buf[..]], counts + [got.value];
      samples := samples + 1;
    }
    r := Ok(BenchResult(blockSize, blocks * blockSize, samples));
  }

  lemma ReadsBack(prior: Bytes, block: Bytes, blocks: nat, i: nat)
    requires i < blocks && block != []
    ensures ReadAt(WriteAt(prior, 0, Repeat(block, blocks)), i * |block|, |block|) == block
  {
    var all := Repeat(block, blocks);
    RepeatSlice(block, blocks, i);
    WriteAtBytes(prior, 0, all, 0);
    forall p | 0 <= p < |all| ensures WriteAt(prior, 0, all)[p] == all[p] {
      WriteAtBytes(prior, 0, all, p);
    }
  }

  /**
   * The raw run. On success the front of the file is the `i % 251` block repeated over
   * every whole block, later bytes are what they were, and every read call filled the
   * whole buffer with that block. Past the two argument checks only a failing system call
   * makes it fail, and then the file holds a prefix of the pattern.
   */
  method Run(f: BlockFile, blockSize: nat, fileSize: nat, fsync: bool)
    returns (
      r: Result<(BenchResult, BenchResult), BenchError>, ghost stored: nat,
      ghost seen: seq<Bytes>, ghost counts: seq<nat>)
    requires f.file.Valid() && fileSize < U64
    modifies f.file
    ensures f.file.Valid()
    ensures r.Err? && !(0 < blockSize <= fileSize) ==> f.file.data == old(f.file.data)
    ensures Failless(old(f.file.schedule)) && 0 < blockSize <= fileSize ==>
      (r.Ok? <==> Blocks(blockSize, fileSize) * blockSize <= I64_MAX)
    ensures r.Ok? ==> blockSize > 0 && Blocks(blockSize, fileSize) * blockSize <= I64_MAX
    ensures 0 < blockSize <= fileSize ==>
      var all := Repeat(FillBlock(blockSize), Blocks(blockSize, fileSize));
      stored <= |all| && f.file.data == WriteAt(old(f.file.data), 0, all[..stored])
    ensures blockSize == 0 ==> r == Err(ZeroBlockSize)
    ensures fileSize < blockSize ==> r == Err(FileTooSmall)
    ensures r.Ok? ==> blockSize > 0 && RoundTrip(old(f.file.data), f.file.data, blockSize, Blocks(blockSize, fileSize))
    ensures r.Ok? ==> |seen| == |counts| == Blocks(blockSize, fileSize)
    ensures r.Ok? ==> forall i :: 0 <= i < |seen| ==> seen[i] == FillBlock(blockSize) && counts[i] == blockSize
    ensures SyncsTold(old(f.file.syncs), f.file.syncs, Errno(r))
    ensures r.Ok? ==>
      |f.file.syncs| == |old(f.file.syncs)| + (if fsync then Blocks(blockSize, fileSize) else 0) + 1
    ensures r.Ok? ==>
      var blocks := Blocks(blockSize, fileSize);
      r.value.0 == r.value.1 == BenchResult(blockSize, blocks * blockSize, blocks)
  {
    stored, seen, counts := 0, [], [];
    if blockSize == 0 {
      return Err(ZeroBlockSize), stored, seen, counts;
    }
    if fileSize < blockSize {
      return Err(FileTooSmall), stored, seen, counts;
    }
    var blocks := Blocks(blockSize, fileSize);
    BlocksCover(blockSize, fileSize);
    var block := FillBlock(blockSize);
    var write: Result<BenchResult, BenchError>;
    write, stored := WritePhase(f, block, blocks, fsync);
    if write.Err? {
      return Err(write.error), stored, seen, counts;
    }
    var s := f.Sync();
    if s.Err? {
      return Err(s.error), stored, seen, counts;
    }
    var read: Result<BenchResult, BenchError>;
    read, seen, counts := ReadPhase(f, blockSize, blocks);
    if read.Err? {
      return Err(read.error), stored, seen, counts;
    }
    assert Repeat(block, blocks)[..stored] == Repeat(block, blocks);
    WholeFile(old(f.file.data), blockSize, blocks);
    r := Ok((write.value, read.value));
  }

  ghost predicate RoundTrip(before: Bytes, after: Bytes, blockSize: nat, blocks: nat)
    requires blockSize > 0
  {
    && |after| == Max(|before|, blocks * blockSize)
    && (forall p :: 0 <= p < blocks * blockSize ==> after[p] == p % blockSize % 251)
    && (forall p :: blocks * blockSize <= p < |after| ==> after[p] == before[p])
  }

  lemma WholeFile(before: Bytes, blockSize: nat, blocks: nat)
    requires blockSize > 0 && blocks > 0
    ensures RoundTrip(before, WriteAt(before, 0, Repeat(FillBlock(blockSize), blocks)), blockSize, blocks)
  {
    var block := FillBlock(blockSize);
    var all := Repeat(block, blocks);
    var after := WriteAt(before, 0, all);
    MulLe(1, blocks, blockSize);
    WriteAtBytes(before, 0, all, 0);
    forall p | 0 <= p < |after|
      ensures after[p] == if p < blocks * blockSize then p % blockSize % 251 else before[p]
    {
      WriteAtBytes(before, 0, all, p);
      if p < blocks * blockSize {
        RepeatByte(block, blocks, p);
      }
    }
  }
}
