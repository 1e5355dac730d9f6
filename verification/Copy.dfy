/** Block-wise file copy under short reads, short writes and interruptions. */
module Copy {
  import opened Bytes

  /** What the kernel does with one call: interrupts it before any byte moved, moves about `n`
      bytes, or fails it. */
  datatype Choice = Interrupt | Move(n: nat) | Fail

  class File {
    var data: seq<byte>

    constructor (data: seq<byte>)
      ensures this.data == data
    {
      this.data := data;
    }
  }

  /** An open file; two descriptors may share one. */
  class Descriptor {
    const file: File
    var pos: nat

    constructor (file: File)
      ensures this.file == file && pos == 0
    {
      this.file := file;
      pos := 0;
    }

    /** `read(fd, buf + off, want)`: -1 stands for EINTR, -2 for any other error. */
    method Read(buf: array<byte>, off: nat, want: nat, c: Choice) returns (r: int)
      requires off + want <= buf.Length && pos <= |file.data|
      modifies this`pos, buf
      ensures c.Interrupt? ==> r == -1
      ensures c.Fail? ==> r == -2
      ensures c.Move? ==> r == Moved(c.n, Min(want, |file.data| - old(pos)))
      ensures pos == old(pos) + Max(r, 0) && pos <= |file.data|
      ensures buf[..off] == old(buf[..off])
      ensures r > 0 ==> buf[off..off + r] == file.data[old(pos)..pos]
    {
      if c.Interrupt? { return -1; }
      if c.Fail? { return -2; }
      r := Moved(c.n, Min(want, |file.data| - pos));
      var start := pos;
      forall i | off <= i < off + r { buf[i] := file.data[start + i - off]; }
      pos := pos + r;
    }

    /** `write(fd, buf + off, count)`, replacing or extending the contents at the offset. */
    method Write(buf: array<byte>, off: nat, count: nat, c: Choice) returns (r: int)
      requires off + count <= buf.Length && pos <= |file.data|
      modifies this`pos, file
      ensures c.Interrupt? ==> r == -1
      ensures c.Fail? ==> r == -2
      ensures c.Move? ==> r == Moved(c.n, count)
      ensures pos == old(pos) + Max(r, 0) && pos <= |file.data|
      ensures file.data == if r > 0 then Patched(old(file.data), old(pos), buf[off..off + r]) else old(file.data)
    {
      if c.Interrupt? { return -1; }
      if c.Fail? { return -2; }
      r := Moved(c.n, count);
      file.data := Patched(file.data, pos, buf[off..off + r]);
      pos := pos + r;
    }
  }

  /** The contents from position `n` on. */
  function Tail(s: seq<byte>, n: nat): seq<byte> { if n <= |s| then s[n..] else [] }

  /** `s` with `bytes` written over it from `p` on, byte by byte. */
  function Patched(s: seq<byte>, p: nat, bytes: seq<byte>): (r: seq<byte>)
    requires p <= |s|
    ensures |r| == Max(|s|, p + |bytes|)
  {
    if bytes == [] then s
    else
      var n := |bytes| - 1;
      var t := Patched(s, p, bytes[..n]);
      if p + n < |t| then t[p + n := bytes[n]] else t + [bytes[n]]
  }

  /** Writing in two pieces is writing at once. */
  lemma {:induction false} PatchedTwice(s: seq<byte>, p: nat, a: seq<byte>, b: seq<byte>)
    requires p <= |s|
    ensures Patched(Patched(s, p, a), p + |a|, b) == Patched(s, p, a + b)
    decreases |b|
  {
    if b == [] {
      assert a + b == a;
    } else {
      var n := |b| - 1;
      assert (a + b)[..|a| + n] == a + b[..n];
      PatchedTwice(s, p, a, b[..n]);
    }
  }

  /** What is left of `before` under `after` written from the start, without truncation. */
  function Overwrite(before: seq<byte>, after: seq<byte>): seq<byte> { after + Tail(before, |after|) }

  lemma {:induction false} PatchedFromStart(before: seq<byte>, bytes: seq<byte>)
    ensures Patched(before, 0, bytes) == Overwrite(before, bytes)
    decreases |bytes|
  {
    if bytes == [] {
      assert before[0..] == before;
    } else {
      var n := |bytes| - 1;
      var front, b := bytes[..n], bytes[n];
      PatchedFromStart(before, front);
      assert bytes == front + [b];
      LastByte(before, front, b);
    }
  }

  lemma LastByte(before: seq<byte>, front: seq<byte>, b: byte)
    ensures var n := |front|; var t := Overwrite(before, front);
      Overwrite(before, front + [b]) == if n < |t| then t[n := b] else t + [b]
  {
    var n := |front|;
    if n < |before| { assert Tail(before, n) == [before[n]] + Tail(before, n + 1); }
  }

  lemma CopiedMore(before: seq<byte>, src: seq<byte>, start: nat, n: nat, mid: seq<byte>, after: seq<byte>)
    requires start <= n <= |src| && Copied(before, src, start, mid) && start <= |mid|
    requires after == Patched(mid, start, src[start..n])
    ensures Copied(before, src, n, after)
  {
    PatchedTwice(before, 0, src[..start], src[start..n]);
    assert src[..start] + src[start..n] == src[..n];
  }

  /** Interruptions still to come. */
  function Until(quiet: nat, k: nat): nat { if k < quiet then quiet - k else 0 }

  /** The first `n` bytes of the source are in place over the old contents of the destination. */
  ghost predicate Copied(before: seq<byte>, src: seq<byte>, n: nat, dest: seq<byte>) {
    n <= |src| && dest == Patched(before, 0, src[..n])
  }

  lemma FrontOfSlice(s: seq<byte>, i: nat, m: nat, j: nat)
    requires i + m <= |s| && j <= m
    ensures s[i..i + m][..j] == s[i..i + j]
  {
  }

  /** Copying a file over its own beginning changes nothing. */
  lemma OntoItself(s: seq<byte>, n: nat)
    requires n <= |s|
    ensures Patched(s, 0, s[..n]) == s
  {
    PatchedFromStart(s, s[..n]);
    assert s[..n] + s[n..] == s;
  }

  /** The copy loop: `oracle(k)` is the outcome of the k-th call, `quiet` bounds the interruptions. The
      two descriptors may be of one file. */
  method PerformCopy(src: Descriptor, dest: Descriptor, blockSize: nat, oracle: nat -> Choice, ghost quiet: nat)
      returns (ok: bool)
    requires blockSize >= 1 && src != dest && src.pos == 0 && dest.pos == 0
    requires forall k: nat :: k >= quiet ==> oracle(k) != Interrupt
    modifies src`pos, dest`pos, dest.file
    ensures src.file.data == old(src.file.data)
    ensures ok ==> dest.file.data == Overwrite(old(dest.file.data), src.file.data)
    ensures !ok ==> exists n :: Copied(old(dest.file.data), src.file.data, n, dest.file.data)
    ensures !ok ==> exists k :: oracle(k) == Fail
  {
    var buf := new byte[blockSize];
    var k, r, readBytes := 0, 0, 1;
    while readBytes > 0
      invariant src.file.data == old(src.file.data) && src.pos == dest.pos
      invariant Copied(old(dest.file.data), src.file.data, dest.pos, dest.file.data)
      invariant readBytes == 0 ==> src.pos == |src.file.data|
      decreases |src.file.data| - src.pos, readBytes
    {
      readBytes, r, k := CopyBlock(src, dest, buf, old(src.file.data), old(dest.file.data), oracle, quiet, k);
      if r == -2 { return false; }
    }
    assert src.file.data[..dest.pos] == src.file.data;
    PatchedFromStart(old(dest.file.data), src.file.data);
    ok := true;
  }

  /** One round of the outer loop: fill the block, then drain it. */
  method CopyBlock(src: Descriptor, dest: Descriptor, buf: array<byte>, ghost from: seq<byte>, ghost before: seq<byte>,
                   oracle: nat -> Choice, ghost quiet: nat, k0: nat)
      returns (readBytes: nat, r: int, k: nat)
    requires src != dest && buf.Length >= 1 && src.pos == dest.pos
    requires src.file.data == from && (src.file == dest.file ==> before == from)
    requires Copied(before, from, dest.pos, dest.file.data)
    requires forall k: nat :: k >= quiet ==> oracle(k) != Interrupt
    modifies src`pos, dest`pos, dest.file, buf
    ensures src.file.data == from && Copied(before, from, dest.pos, dest.file.data)
    ensures r != -2 ==> src.pos == dest.pos == old(src.pos) + readBytes
    ensures r != -2 && readBytes == 0 ==> src.pos == |from|
    ensures r == -2 ==> exists k :: oracle(k) == Fail
  {
    readBytes, r, k := FillBlock(src, buf, oracle, quiet, k0);
    if r == -2 { return; }
    ghost var block := buf[..readBytes];
    r, k := DrainBlock(dest, buf, readBytes, oracle, quiet, k);
    ghost var start, n := old(dest.pos), dest.pos;
    assert buf[..n - start] == block[..n - start];
    FrontOfSlice(from, start, readBytes, n - start);
    CopiedMore(before, from, start, n, old(dest.file.data), dest.file.data);
    if src.file == dest.file { OntoItself(from, n); }
  }

  /** The inner read loop: fills the block unless the source ends first. */
  method FillBlock(src: Descriptor, buf: array<byte>, oracle: nat -> Choice, ghost quiet: nat, k0: nat)
      returns (readBytes: nat, r: int, k: nat)
    requires src.pos <= |src.file.data| && buf.Length >= 1
    requires forall k: nat :: k >= quiet ==> oracle(k) != Interrupt
    modifies src`pos, buf
    ensures src.pos == old(src.pos) + readBytes <= |src.file.data| && readBytes <= buf.Length
    ensures buf[..readBytes] == src.file.data[old(src.pos)..src.pos]
    ensures r != -2 ==> readBytes == Min(buf.Length, |src.file.data| - old(src.pos))
    ensures r == -2 ==> exists k :: oracle(k) == Fail
  {
    readBytes, r, k := 0, 0, k0;
    var bytesLeft := buf.Length;
    while bytesLeft > 0
      invariant 0 <= bytesLeft && readBytes + bytesLeft == buf.Length
      invariant src.pos == old(src.pos) + readBytes <= |src.file.data|
      invariant buf[..readBytes] == src.file.data[old(src.pos)..src.pos]
      decreases Until(quiet, k), bytesLeft
    {
      var off := readBytes;
      r := src.Read(buf, off, bytesLeft, oracle(k));
      k := k + 1;
      if r == 0 { break; }
      if r == -2 { assert oracle(k - 1) == Fail; return; }
      if r > 0 {
        assert buf[..off + r] == buf[..off] + buf[off..off + r];
        bytesLeft := bytesLeft - r;
        readBytes := readBytes + r;
      }
    }
    r := 0;
  }

  /** One `write` of the rest of the block, over `before` from position `start` on. */
  method DrainSome(dest: Descriptor, buf: array<byte>, w: nat, left: nat, c: Choice, ghost before: seq<byte>,
      ghost start: nat)
      returns (r: int)
    requires w + left <= buf.Length && start <= |before| && dest.pos == start + w <= |dest.file.data|
    requires dest.file.data == Patched(before, start, buf[..w])
    modifies dest`pos, dest.file
    ensures -2 <= r <= left && (r == -1 <==> c.Interrupt?) && (r == -2 <==> c.Fail?) && (r == 0 ==> left == 0)
    ensures dest.pos == start + w + Max(r, 0) <= |dest.file.data|
    ensures dest.file.data == Patched(before, start, buf[..w + Max(r, 0)])
  {
    ghost var head := buf[..w];
    r := dest.Write(buf, w, left, c);
    assert buf[..w] == head;
    if r > 0 {
      ghost var more := buf[w..w + r];
      PatchedTwice(before, start, head, more);
      assert buf[..w + r] == head + more;
    }
  }

  /** The inner write loop: writes the first `count` bytes of the block. */
  method DrainBlock(dest: Descriptor, buf: array<byte>, count: nat, oracle: nat -> Choice, ghost quiet: nat, k0: nat)
      returns (r: int, k: nat)
    requires dest.pos <= |dest.file.data| && count <= buf.Length
    requires forall k: nat :: k >= quiet ==> oracle(k) != Interrupt
    modifies dest`pos, dest.file
    ensures old(dest.pos) <= dest.pos <= old(dest.pos) + count && dest.pos <= |dest.file.data|
    ensures dest.file.data == Patched(old(dest.file.data), old(dest.pos), buf[..dest.pos - old(dest.pos)])
    ensures r != -2 ==> dest.pos == old(dest.pos) + count
    ensures r == -2 ==> exists k :: oracle(k) == Fail
  {
    var writtenBytes, bytesLeft := 0, count;
    r, k := 0, k0;
    while bytesLeft > 0
      invariant 0 <= writtenBytes && 0 <= bytesLeft && writtenBytes + bytesLeft == count
      invariant dest.pos == old(dest.pos) + writtenBytes <= |dest.file.data|
      invariant dest.file.data == Patched(old(dest.file.data), old(dest.pos), buf[..writtenBytes])
      decreases Until(quiet, k), bytesLeft
    {
      r := DrainSome(dest, buf, writtenBytes, bytesLeft, oracle(k), old(dest.file.data), old(dest.pos));
      k := k + 1;
      if r == -2 { assert oracle(k - 1) == Fail; return; }
      if r > 0 {
        bytesLeft := bytesLeft - r;
        writtenBytes := writtenBytes + r;
      }
    }
    r := 0;
  }

  /** `main` never truncates: opening an existing destination keeps its old contents, so the copy is
      faithful exactly when the old file was no longer than the source. */
  lemma FaithfulExactly(src: seq<byte>, before: seq<byte>)
    ensures Overwrite(before, src) == src <==> |before| <= |src|
  {
    assert Tail(before, |src|) == [] <==> |before| <= |src|;
    if |before| > |src| { assert |Overwrite(before, src)| == |before|; }
  }
}
