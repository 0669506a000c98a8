/**
 * The C block-I/O shim. One regular file is a byte sequence; the kernel's freedom
 * (short transfers, EINTR, errors) is a finite schedule that each `pread` or `pwrite`
 * takes its next entry from, transferring everything once the schedule is used up.
 */
module BlockIo {
  import opened Wrappers

  type byte = x: int | 0 <= x < 256
  type Bytes = seq<byte>
  type positive = x: int | 0 < x witness 1

  const EINTR: int := 4
  const EINVAL: int := 22
  const EFBIG: int := 27
  const I64_MIN: int := -0x8000_0000_0000_0000
  const I64_MAX: int := 0x7fff_ffff_ffff_ffff

  /** The fate of one system call: fail with an errno, or move at most `limit` bytes. */
  datatype Fate = Fails(errno: positive) | Moves(limit: positive) {
    predicate Fatal() {
      Fails? && errno != EINTR
    }
  }

  function NextFate(schedule: seq<Fate>, len: positive): Fate {
    if schedule == [] then Moves(len) else schedule[0]
  }

  function Rest(schedule: seq<Fate>): seq<Fate> {
    if schedule == [] then [] else schedule[1..]
  }

  predicate Harmless(fates: seq<Fate>) {
    forall f | f in fates :: !f.Fatal()
  }

  /** `fates` is what a call that returned `-errno` met: one fatal fate, at the end. */
  predicate EndsFatally(fates: seq<Fate>, errno: int) {
    && fates != []
    && Harmless(Front(fates))
    && Last(fates).Fatal() && Last(fates).errno == errno
  }

  function Taken(schedule: seq<Fate>): seq<Fate> {
    if schedule == [] then [] else [schedule[0]]
  }

  lemma OneCall(whole: seq<Fate>, met: seq<Fate>, schedule: seq<Fate>, len: positive)
    requires whole == met + schedule && Harmless(met)
    ensures whole == met + Taken(schedule) + Rest(schedule)
    ensures
      var fate := NextFate(schedule, len);
      if fate.Fatal() then EndsFatally(met + Taken(schedule), fate.errno) else Harmless(met + Taken(schedule))
  {
    if schedule != [] {
      assert schedule == [schedule[0]] + schedule[1..];
      assert Front(met + [schedule[0]]) == met;
    }
  }

  // ------------------------------------------------------------- the atomic operations

  /** What an ideal positioned read of `len` bytes returns. */
  function ReadAt(data: Bytes, offset: nat, len: nat): Bytes {
    data[Min(offset, |data|)..Min(offset + len, |data|)]
  }

  /** What an ideal positioned write leaves behind: a gap past the end reads as zeroes. */
  function WriteAt(data: Bytes, offset: nat, bytes: Bytes): Bytes {
    if bytes == [] then data
    else seq(Max(|data|, offset + |bytes|), p requires 0 <= p => ByteAfter(data, offset, bytes, p))
  }

  function ByteAfter(data: Bytes, offset: nat, bytes: Bytes, p: nat): byte {
    if offset <= p < offset + |bytes| then bytes[p - offset]
    else if p < |data| then data[p] else 0
  }

  lemma WriteAtBytes(data: Bytes, offset: nat, bytes: Bytes, p: nat)
    requires bytes != []
    ensures |WriteAt(data, offset, bytes)| == Max(|data|, offset + |bytes|)
    ensures p < |WriteAt(data, offset, bytes)| ==>
      WriteAt(data, offset, bytes)[p] == ByteAfter(data, offset, bytes, p)
  {
  }

  lemma JoinedByte(data: Bytes, offset: nat, a: Bytes, b: Bytes, p: nat)
    requires a != [] && b != []
    ensures
      var twice, once := WriteAt(WriteAt(data, offset, a), offset + |a|, b), WriteAt(data, offset, a + b);
      |twice| == |once| && (p < |once| ==> twice[p] == once[p])
  {
    WriteAtBytes(data, offset, a, p);
    WriteAtBytes(WriteAt(data, offset, a), offset + |a|, b, p);
    WriteAtBytes(data, offset, a + b, p);
  }

  /**
   * A positioned write, byte by byte: the bytes written, the old ones outside, and zeroes in
   * any gap between the old end and the first byte written.
   */
  lemma WriteAtExactly(data: Bytes, offset: nat, bytes: Bytes)
    requires bytes != []
    ensures
      var after := WriteAt(data, offset, bytes);
      && |after| == (if |data| < offset + |bytes| then offset + |bytes| else |data|)
      && (forall i | 0 <= i < |bytes| :: after[offset + i] == bytes[i])
      && (forall p | 0 <= p < |data| && (p < offset || p >= offset + |bytes|) :: after[p] == data[p])
      && (forall p | |data| <= p < offset :: after[p] == 0)
  {
    WriteAtBytes(data, offset, bytes, 0);
    var after := WriteAt(data, offset, bytes);
    forall p | 0 <= p < |after| ensures after[p] == ByteAfter(data, offset, bytes, p) {
      WriteAtBytes(data, offset, bytes, p);
    }
    forall i | 0 <= i < |bytes| ensures after[offset + i] == bytes[i] {
      assert after[offset + i] == ByteAfter(data, offset, bytes, offset + i);
    }
  }

  /** A positioned read, byte by byte: as much as there is between the offset and the end. */
  lemma ReadAtExactly(data: Bytes, offset: nat, len: nat)
    ensures
      var got := ReadAt(data, offset, len);
      && |got| == (if offset >= |data| then 0 else if offset + len <= |data| then len else |data| - offset)
      && forall i | 0 <= i < |got| :: got[i] == data[offset + i]
  {
  }

  /** Two adjoining writes are one. */
  lemma WritesJoin(data: Bytes, offset: nat, a: Bytes, b: Bytes)
    ensures WriteAt(WriteAt(data, offset, a), offset + |a|, b) == WriteAt(data, offset, a + b)
  {
    if a == [] {
      assert a + b == b;
    } else if b == [] {
      assert a + b == a;
    } else {
      JoinedBytes(data, offset, a, b);
      SameBytes(WriteAt(WriteAt(data, offset, a), offset + |a|, b), WriteAt(data, offset, a + b));
    }
  }

  lemma JoinedBytes(data: Bytes, offset: nat, a: Bytes, b: Bytes)
    requires a != [] && b != []
    ensures
      var twice, once := WriteAt(WriteAt(data, offset, a), offset + |a|, b), WriteAt(data, offset, a + b);
      |twice| == |once| && forall p :: 0 <= p < |once| ==> twice[p] == once[p]
  {
    var once := WriteAt(data, offset, a + b);
    JoinedByte(data, offset, a, b, 0);
    forall p | 0 <= p < |once|
      ensures WriteAt(WriteAt(data, offset, a), offset + |a|, b)[p] == once[p]
    {
      JoinedByte(data, offset, a, b, p);
    }
  }

  lemma SameBytes(x: Bytes, y: Bytes)
    requires |x| == |y| && forall p :: 0 <= p < |y| ==> x[p] == y[p]
    ensures x == y
  {
  }

  lemma WriteAdvances(data: Bytes, offset: nat, bytes: Bytes, i: nat, n: nat, mid: Bytes, next: Bytes)
    requires i + n <= |bytes|
    requires mid == WriteAt(data, offset, bytes[..i])
    requires next == WriteAt(mid, offset + i, bytes[i..i + n])
    ensures next == WriteAt(data, offset, bytes[..i + n])
  {
    WritesJoin(data, offset, bytes[..i], bytes[i..i + n]);
    assert bytes[..i + n] == bytes[..i] + bytes[i..i + n];
  }

  /** Reading back what was just written gives exactly those bytes. */
  lemma ReadAfterWrite(data: Bytes, offset: nat, bytes: Bytes)
    requires bytes != []
    ensures ReadAt(WriteAt(data, offset, bytes), offset, |bytes|) == bytes
  {
    var after := WriteAt(data, offset, bytes);
    var got := ReadAt(after, offset, |bytes|);
    WriteAtBytes(data, offset, bytes, 0);
    assert |got| == |bytes|;
    forall i | 0 <= i < |bytes| ensures got[i] == bytes[i] {
      assert got[i] == after[offset + i];
      WriteAtBytes(data, offset, bytes, offset + i);
    }
  }

  // ------------------------------------------------------------------- the retry loops

  class File {
    var data: Bytes
    var schedule: seq<Fate>
    /** What the `fsync` calls on it met. */
    var syncs: seq<Fate>

    /** No file holds more bytes than an offset can count. */
    ghost predicate Valid()
      reads this
    {
      |data| <= I64_MAX
    }

    constructor (data: Bytes, schedule: seq<Fate>)
      requires |data| <= I64_MAX
      ensures Valid() && this.data == data && this.schedule == schedule && syncs == []
    {
      this.data, this.schedule, syncs := data, schedule, [];
    }

    /** `hpc_sync_fs`: one call, not retried; zero or the negated errno. */
    method SyncFs() returns (r: int)
      modifies this`schedule, this`syncs
      ensures syncs == old(syncs) + [NextFate(old(schedule), 1)] && schedule == Rest(old(schedule))
      ensures match NextFate(old(schedule), 1) { case Fails(e) => r + e == 0 case Moves(_) => r == 0 }
    {
      var fate := NextFate(schedule, 1);
      schedule, syncs := Rest(schedule), syncs + [fate];
      r := if fate.Fails? then 0 - fate.errno else 0;
    }

    /** `pread`: at most `len` bytes into `buf[at..]`; -1 and an errno on failure. */
    method Pread(buf: array<byte>, at: nat, len: positive, offset: int) returns (n: int, errno: int)
      requires at + len <= buf.Length && I64_MIN <= offset <= I64_MAX
      modifies this`schedule, buf
      ensures schedule == if offset < 0 then old(schedule) else Rest(old(schedule))
      ensures offset < 0 ==> n == -1 && errno == EINVAL
      ensures offset >= 0 ==>
        match NextFate(old(schedule), len)
        case Fails(e) => n == -1 && errno == e
        case Moves(limit) => n == |ReadAt(data, offset, Min(len, limit))|
      ensures forall p :: 0 <= p < buf.Length ==>
        buf[p] == if at <= p < at + n then data[offset + p - at] else old(buf[p])
    {
      errno := EINVAL;
      if offset < 0 {
        return -1, EINVAL;
      }
      var fate := NextFate(schedule, len);
      schedule := Rest(schedule);
      if fate.Fails? {
        return -1, fate.errno;
      }
      var got := ReadAt(data, offset, Min(len, fate.limit));
      n := |got|;
      forall i | 0 <= i < |got| {
        buf[at + i] := got[i];
      }
    }

    /**
     * `pwrite`: some non-empty part of `bytes[at..]` lands at `offset`, as far as there is
     * room for it; where there is none the call fails.
     */
    method Pwrite(bytes: Bytes, at: nat, offset: int) returns (n: int, errno: int)
      requires Valid() && at < |bytes| && I64_MIN <= offset <= I64_MAX
      modifies this`data, this`schedule
      ensures Valid()
      ensures schedule == if 0 <= offset < I64_MAX then Rest(old(schedule)) else old(schedule)
      ensures offset < 0 ==> n == -1 && errno == EINVAL
      ensures offset == I64_MAX ==> n == -1 && errno == EFBIG
      ensures 0 <= offset < I64_MAX ==>
        match NextFate(old(schedule), |bytes| - at)
        case Fails(e) => n == -1 && errno == e
        case Moves(limit) => n == Min(Min(|bytes| - at, limit), I64_MAX - offset)
      ensures data == if n < 0 then old(data) else WriteAt(old(data), offset, bytes[at..at + n])
    {
      errno := EINVAL;
      if offset < 0 {
        return -1, EINVAL;
      }
      if offset == I64_MAX {
        return -1, EFBIG;
      }
      var fate := NextFate(schedule, |bytes| - at);
      schedule := Rest(schedule);
      if fate.Fails? {
        return -1, fate.errno;
      }
      n := Min(Min(|bytes| - at, fate.limit), I64_MAX - offset);
      WriteAtBytes(data, offset, bytes[at..at + n], 0);
      data := WriteAt(data, offset, bytes[at..at + n]);
    }

    /**
     * `hpc_read_block`: whatever the schedule, success stores exactly the atomic read in
     * the front of `buf`; failure means a fatal fate was met, with a prefix of that read
     * stored. Nothing else in `buf` changes.
     */
    method ReadBlock(buf: array<byte>, len: nat, offset: int)
      returns (r: int, ghost done: nat, ghost met: seq<Fate>)
      requires Valid() && len <= buf.Length && I64_MIN <= offset <= I64_MAX
      modifies this`schedule, buf
      ensures r >= 0 ==> r == done && (len == 0 || offset >= 0)
      ensures r >= 0 && offset >= 0 ==> r == |ReadAt(data, offset, len)|
      ensures r < 0 && offset < 0 ==> r == -EINVAL
      ensures r < 0 && offset >= 0 ==> EndsFatally(met, -r)
      ensures r >= 0 ==> Harmless(met)
      ensures done <= len && (done > 0 ==> offset >= 0 && done <= |ReadAt(data, offset, len)|)
      ensures forall p :: 0 <= p < buf.Length ==>
        buf[p] == if p < done then ReadAt(data, offset, len)[p] else old(buf[p])
      ensures old(schedule) == met + schedule
    {
      done, met := 0, [];
      var i := 0;
      while i < len
        invariant done == i <= len
        invariant i > 0 ==> offset >= 0 && offset + i <= |data|
        invariant forall p :: 0 <= p < buf.Length ==>
          buf[p] == if p < i then data[offset + p] else old(buf[p])
        invariant old(schedule) == met + schedule && Harmless(met)
        decreases len - i, |schedule|
      {
        ghost var queued := schedule;
        var n, errno := Pread(buf, i, len - i, offset + i);
        if offset >= 0 {
          OneCall(old(schedule), met, queued, len - i);
          met := met + Taken(queued);
        }
        if n < 0 {
          if errno == EINTR {
            continue;
          }
          return -errno, done, met;
        }
        if n == 0 {
          break;
        }
        i := i + n;
        done := i;
      }
      r := i;
    }

    /**
     * `hpc_write_block`: whatever the schedule, success leaves the file exactly as the
     * atomic write of all of `bytes`; failure leaves it as the write of a proper prefix, and
     * is due to a fatal fate or to the file having no more room.
     */
    method WriteBlock(bytes: Bytes, offset: int) returns (r: int, ghost done: nat, ghost met: seq<Fate>)
      requires Valid() && I64_MIN <= offset <= I64_MAX
      modifies this`data, this`schedule
      ensures Valid()
      ensures r >= 0 ==> r == done == |bytes| && Harmless(met)
      ensures r >= 0 && bytes != [] ==> 0 <= offset && offset + |bytes| <= I64_MAX
      ensures r < 0 ==> done < |bytes|
      ensures r < 0 && offset < 0 ==> r == -EINVAL
      ensures r < 0 && offset >= 0 ==> EndsFatally(met, -r) || (r == -EFBIG && offset + done == I64_MAX)
      ensures done > 0 ==> offset >= 0
      ensures data == WriteAt(old(data), Max(offset, 0), bytes[..done])
      ensures old(schedule) == met + schedule
    {
      done, met := 0, [];
      ghost var was, fates := data, schedule;
      var i := 0;
      while i < |bytes|
        invariant Valid() && done == i <= |bytes|
        invariant Wrote(was, Max(offset, 0), bytes, i)
        invariant i > 0 ==> 0 <= offset && offset + i <= I64_MAX
        invariant Met(fates, met) && Harmless(met)
        decreases |bytes| - i, |schedule|
      {
        var n, errno;
        n, errno, met := WriteOnce(bytes, i, offset, was, fates, met);
        if n < 0 {
          if errno == EINTR {
            continue;
          }
          return -errno, done, met;
        }
        i := i + n;
        done := i;
      }
      r := i;
    }

    ghost predicate Wrote(was: Bytes, base: nat, bytes: Bytes, i: nat)
      requires i <= |bytes|
      reads this
    {
      data == WriteAt(was, base, bytes[..i])
    }

    ghost predicate Met(fates: seq<Fate>, met: seq<Fate>)
      reads this
    {
      fates == met + schedule
    }

    /** One turn of the loop, and the fates met so far. */
    method WriteOnce(bytes: Bytes, i: nat, offset: int, ghost was: Bytes, ghost fates: seq<Fate>, ghost met: seq<Fate>)
      returns (n: int, errno: int, ghost now: seq<Fate>)
      requires Valid() && i < |bytes| && I64_MIN <= offset && offset + i <= I64_MAX && (i > 0 ==> offset >= 0)
      requires Wrote(was, Max(offset, 0), bytes, i) && Met(fates, met) && Harmless(met)
      modifies this`data, this`schedule
      ensures Valid() && Met(fates, now)
      ensures n < 0 ==> Wrote(was, Max(offset, 0), bytes, i) && errno > 0
      ensures n >= 0 ==> 0 < n <= |bytes| - i && 0 <= offset && offset + i + n <= I64_MAX
      ensures n >= 0 ==> Wrote(was, Max(offset, 0), bytes, i + n) && Harmless(now)
      ensures n < 0 && offset < 0 ==> errno == EINVAL && now == met
      ensures n < 0 && errno == EINTR ==> Harmless(now) && |schedule| < old(|schedule|)
      ensures n < 0 && errno != EINTR && offset >= 0 ==>
        EndsFatally(now, errno) || (errno == EFBIG && offset + i == I64_MAX)
    {
      ghost var queued, mid := schedule, data;
      now := met;
      n, errno := Pwrite(bytes, i, offset + i);
      if 0 <= offset && offset + i < I64_MAX {
        OneCall(fates, met, queued, |bytes| - i);
        now := met + Taken(queued);
      }
      if n >= 0 {
        WriteAdvances(was, offset, bytes, i, n, mid, data);
      }
    }
  }
}
