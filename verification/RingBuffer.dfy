/**
 The byte ring buffer with free-running 32-bit indices (`rb_t`).

 `inIdx` and `outIdx` are never reduced; they wrap around at 2^32. The stored bytes are the abstract
 FIFO `Contents()`.
 */
module RingBuffer {
  import opened Basics
  import opened Bits

  /** The byte at position `from + k`, going round. */
  function Nth(cells: seq<byte>, from: nat, k: nat): byte
    requires |cells| > 0
  {
    cells[Cell(from + k, |cells|)]
  }

  /** The `n` bytes from position `from` on. */
  function Window(cells: seq<byte>, from: nat, n: nat): (w: seq<byte>)
    requires |cells| > 0
    ensures |w| == n
    ensures forall k :: 0 <= k < n ==> w[k] == Nth(cells, from, k)
  {
    if n == 0 then [] else Window(cells, from, n - 1) + [Nth(cells, from, n - 1)]
  }

  class Ring {
    const buffer: array<byte>
    const size: nat
    var inIdx: nat
    var outIdx: nat

    ghost predicate Valid()
      reads this
    {
      && buffer.Length == size && IsPow2(size) && size < WRAP
      && inIdx < WRAP && outIdx < WRAP
      && Sub32(inIdx, outIdx) <= size
    }

    ghost function Contents(): (c: seq<byte>)
      requires Valid()
      reads this, buffer
    {
      Window(buffer[..], outIdx, Sub32(inIdx, outIdx))
    }

    constructor (n: nat)
      requires IsPow2(n) && n < WRAP
      ensures Valid() && size == n && Contents() == [] && fresh(buffer)
    {
      buffer := new byte[n](_ => 0);
      size := n;
      inIdx, outIdx := 0, 0;
    }

    // rb_get_valid_length
    method ValidLength() returns (n: nat)
      requires Valid()
      ensures n == |Contents()|
    {
      n := Sub32(inIdx, outIdx);
    }

    // rb_write
    method Write(buf: array<byte>, want: nat) returns (len: nat)
      requires Valid() && want <= buf.Length && want < WRAP && buf != buffer
      modifies this`inIdx, buffer
      ensures Valid() && outIdx == old(outIdx)
      ensures len == Min(want, size - |old(Contents())|)
      ensures Contents() == old(Contents()) + buf[..len]
    {
      ghost var used := Sub32(inIdx, outIdx);
      FreeSpace(inIdx, outIdx, size);
      len := Min(want, Add32(Sub32(size, inIdx), outIdx));
      ghost var before := buffer[..];
      CopyIn(buf, len);
      AppendedWindow(before, buffer[..], inIdx, outIdx, used, buf[..len]);
      AppendedCount(inIdx, outIdx, used, len);
      inIdx := Add32(inIdx, len);
    }

    // the two memcpy calls of rb_write
    method CopyIn(buf: array<byte>, len: nat)
      requires Valid() && len <= size && len <= buf.Length && buf != buffer
      modifies buffer
      ensures Copied(old(buffer[..]), buffer[..], inIdx, buf[..len])
    {
      var at := BitAnd(inIdx, size - 1);
      var l := Min(len, Sub32(size, at));
      assert at == Cell(inIdx, size) && Sub32(size, at) == size - at by {
        MaskIsCell(inIdx, size);
        Sub32Is(size, at);
      }
      ghost var before := buffer[..];
      Memcpy(buffer, at, buf, 0, l);
      Memcpy(buffer, 0, buf, l, len - l);
      TwoPartsAreOne(before, buffer[..], inIdx, buf[..len], l);
    }

    // rb_read
    method Read(buf: array<byte>, want: nat) returns (len: nat)
      requires Valid() && want <= buf.Length && want < WRAP && buf != buffer
      modifies this`outIdx, buf
      ensures Valid() && inIdx == old(inIdx) && buffer[..] == old(buffer[..])
      ensures len == Min(want, |old(Contents())|)
      ensures buf[..len] == old(Contents())[..len] && buf[len..] == old(buf[len..])
      ensures Contents() == old(Contents())[len..]
    {
      ghost var used := Sub32(inIdx, outIdx);
      len := Min(want, Sub32(inIdx, outIdx));
      CopyOut(buf, len);
      RemovedWindow(buffer[..], outIdx, used, len);
      RemovedCount(inIdx, outIdx, used, len);
      outIdx := Add32(outIdx, len);
    }

    // the two memcpy calls of rb_read
    method CopyOut(buf: array<byte>, len: nat)
      requires Valid() && len <= size && len <= buf.Length && buf != buffer
      modifies buf
      ensures buf[..len] == Window(buffer[..], outIdx, len) && buf[len..] == old(buf[len..])
    {
      var at := BitAnd(outIdx, size - 1);
      var l := Min(len, Sub32(size, at));
      assert at == Cell(outIdx, size) && Sub32(size, at) == size - at by {
        MaskIsCell(outIdx, size);
        Sub32Is(size, at);
      }
      Memcpy(buf, 0, buffer, at, l);
      Memcpy(buf, l, buffer, 0, len - l);
      FetchedIsWindow(buffer[..], buf[..], outIdx, len, l);
    }
  }

  lemma FreeSpace(inIdx: nat, outIdx: nat, size: nat)
    requires inIdx < WRAP && outIdx < WRAP && 0 < size < WRAP && Sub32(inIdx, outIdx) <= size
    ensures Add32(Sub32(size, inIdx), outIdx) == size - Sub32(inIdx, outIdx)
  {
    Sub32Is(inIdx, outIdx);
    Sub32Is(size, inIdx);
    Add32Is(Sub32(size, inIdx), outIdx);
  }

  /** How far cell `c` lies ahead of position `base`, going round. */
  function Ahead(base: nat, c: nat, n: nat): int
    requires n > 0
  {
    if c >= Cell(base, n) then c - Cell(base, n) else c - Cell(base, n) + n
  }

  /** `data` has been written from position `base` on, going round; every other cell is as before. */
  ghost predicate Copied(before: seq<byte>, after: seq<byte>, base: nat, data: seq<byte>)
    requires |before| > 0
  {
    && |after| == |before|
    && forall c :: 0 <= c < |before| ==>
         after[c] == if Ahead(base, c, |before|) < |data| then data[Ahead(base, c, |before|)] else before[c]
  }

  /** A copy up to the end of the buffer and the rest to its front is one copy going round. */
  lemma TwoPartsAreOne(before: seq<byte>, after: seq<byte>, base: nat, data: seq<byte>, l: nat)
    requires |before| == |after| && 0 < |before| && |data| <= |before|
    requires l == Min(|data|, |before| - Cell(base, |before|))
    requires forall c :: 0 <= c < |before| ==>
      after[c] == if c < |data| - l then data[l + c]
                  else if Cell(base, |before|) <= c < Cell(base, |before|) + l then data[c - Cell(base, |before|)]
                  else before[c]
    ensures Copied(before, after, base, data)
  {
  }

  /** Positions behind the FIFO are the near ones, seen from the write index. */
  lemma FreeIsNear(inIdx: nat, outIdx: nat, used: nat, k: nat, n: nat)
    requires IsPow2(n) && n < WRAP && used <= k < n && outIdx < WRAP && inIdx == Add32(outIdx, used)
    ensures Ahead(inIdx, Cell(outIdx + k, n), n) == k - used
  {
    WrappedCell(outIdx, used, k - used, n);
    assert Cell(outIdx + k, n) == Cell(inIdx + (k - used), n);
    CellAfter(inIdx, k - used, n);
  }

  /** Positions in the FIFO are the far ones. */
  lemma UsedIsFar(inIdx: nat, outIdx: nat, used: nat, k: nat, n: nat)
    requires IsPow2(n) && n < WRAP && k < used <= n && outIdx < WRAP && inIdx == Add32(outIdx, used)
    ensures Ahead(inIdx, Cell(outIdx + k, n), n) == k - used + n
  {
    WrappedCell(outIdx, used, 0, n);
    assert Cell(inIdx, n) == Cell(outIdx + k + (used - k), n);
    CellAfter(outIdx + k, used - k, n);
  }

  /** Writing at the write index appends to the FIFO. */
  lemma AppendedWindow(before: seq<byte>, after: seq<byte>, inIdx: nat, outIdx: nat, used: nat, data: seq<byte>)
    requires IsPow2(|before|) && |before| < WRAP && inIdx < WRAP && outIdx < WRAP
    requires used == Sub32(inIdx, outIdx) && used + |data| <= |before|
    requires Copied(before, after, inIdx, data)
    ensures Window(after, outIdx, used + |data|) == Window(before, outIdx, used) + data
  {
    WriterPosition(inIdx, outIdx, used);
    var was, now := Window(before, outIdx, used), Window(after, outIdx, used + |data|);
    forall k | 0 <= k < used + |data|
      ensures now[k] == (was + data)[k]
    {
      if k < used {
        UsedIsFar(inIdx, outIdx, used, k, |before|);
      } else {
        FreeIsNear(inIdx, outIdx, used, k, |before|);
      }
      assert now[k] == Nth(after, outIdx, k);
    }
  }

  lemma WriterPosition(inIdx: nat, outIdx: nat, used: nat)
    requires inIdx < WRAP && outIdx < WRAP && used == Sub32(inIdx, outIdx)
    ensures inIdx == Add32(outIdx, used)
  {
    Sub32Is(inIdx, outIdx);
    Add32Is(outIdx, used);
  }

  lemma AppendedCount(inIdx: nat, outIdx: nat, used: nat, len: nat)
    requires inIdx < WRAP && outIdx < WRAP && used == Sub32(inIdx, outIdx) && used + len < WRAP
    ensures Sub32(Add32(inIdx, len), outIdx) == used + len
  {
    Sub32Is(inIdx, outIdx);
    Add32Is(inIdx, len);
    Sub32Is(Add32(inIdx, len), outIdx);
  }

  /** Advancing the read index drops the front of the FIFO. */
  lemma RemovedWindow(cells: seq<byte>, outIdx: nat, used: nat, len: nat)
    requires IsPow2(|cells|) && |cells| < WRAP && outIdx < WRAP && len <= used <= |cells|
    ensures Window(cells, Add32(outIdx, len), used - len) == Window(cells, outIdx, used)[len..]
    ensures Window(cells, outIdx, used)[..len] == Window(cells, outIdx, len)
  {
    var all, rest := Window(cells, outIdx, used), Window(cells, Add32(outIdx, len), used - len);
    forall k | 0 <= k < used - len
      ensures rest[k] == all[len..][k]
    {
      MovedNth(cells, outIdx, len, k);
      assert rest[k] == Nth(cells, Add32(outIdx, len), k) && all[len + k] == Nth(cells, outIdx, len + k);
    }
  }

  lemma MovedNth(cells: seq<byte>, outIdx: nat, len: nat, k: nat)
    requires IsPow2(|cells|) && |cells| < WRAP && outIdx < WRAP && len < WRAP
    ensures Nth(cells, Add32(outIdx, len), k) == Nth(cells, outIdx, len + k)
  {
    WrappedCell(outIdx, len, k, |cells|);
  }

  lemma RemovedCount(inIdx: nat, outIdx: nat, used: nat, len: nat)
    requires inIdx < WRAP && outIdx < WRAP && used == Sub32(inIdx, outIdx) && len <= used
    ensures Sub32(inIdx, Add32(outIdx, len)) == used - len
  {
    Sub32Is(inIdx, outIdx);
    Add32Is(outIdx, len);
    Sub32Is(inIdx, Add32(outIdx, len));
  }

  lemma FetchedIsWindow(cells: seq<byte>, got: seq<byte>, outIdx: nat, len: nat, l: nat)
    requires len <= |got| && len <= |cells| && 0 < |cells| && l == Min(len, |cells| - Cell(outIdx, |cells|))
    requires forall k :: 0 <= k < len ==> got[k] == if k < l then cells[Cell(outIdx, |cells|) + k] else cells[k - l]
    ensures got[..len] == Window(cells, outIdx, len)
  {
    forall k | 0 <= k < len
      ensures got[k] == Nth(cells, outIdx, k)
    {
      FetchedCell(outIdx, k, l, len, |cells|);
    }
  }

  lemma FetchedCell(outIdx: nat, k: nat, l: nat, len: nat, n: nat)
    requires k < len <= n && l == Min(len, n - Cell(outIdx, n))
    ensures Cell(outIdx + k, n) == if k < l then Cell(outIdx, n) + k else k - l
  {
    CellAfter(outIdx, k, n);
  }
}
