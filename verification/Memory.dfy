/** Writes into byte buffers. */
module Memory {
  import opened Bytes

  /** Stores `bytes` from position `at` on. */
  method Store(buf: array<byte>, at: nat, bytes: seq<byte>)
    requires at + |bytes| <= buf.Length
    modifies buf
    ensures buf[at..at + |bytes|] == bytes
    ensures forall p | 0 <= p < buf.Length && (p < at || p >= at + |bytes|) :: buf[p] == old(buf[p])
  {
    forall i | 0 <= i < |bytes| {
      buf[at + i] := bytes[i];
    }
  }

  /** Stores `bytes` behind the first `at` bytes. */
  method StoreBehind(buf: array<byte>, at: nat, bytes: seq<byte>)
    requires at + |bytes| <= buf.Length
    modifies buf
    ensures buf[..at + |bytes|] == old(buf[..at]) + bytes
  {
    ghost var front := buf[..at];
    Store(buf, at, bytes);
    assert buf[..at] == front;
    assert buf[..at + |bytes|] == buf[..at] + buf[at..at + |bytes|];
  }

  method StoreTwo(buf: array<byte>, at: nat, first: seq<byte>, second: seq<byte>)
    requires at + |first| + |second| <= buf.Length
    modifies buf
    ensures buf[at..at + |first| + |second|] == first + second
    ensures forall p | 0 <= p < buf.Length && (p < at || p >= at + |first| + |second|) :: buf[p] == old(buf[p])
  {
    Store(buf, at, first);
    Store(buf, at + |first|, second);
  }

  /** Stores `bytes` at `at`, as seen in the window from `lo` to `hi`. */
  method Patch(buf: array<byte>, lo: nat, hi: nat, at: nat, bytes: seq<byte>)
    requires lo <= at && at + |bytes| <= hi <= buf.Length
    modifies buf
    ensures buf[lo..hi] == old(buf[lo..hi])[..at - lo] + bytes + old(buf[lo..hi])[at - lo + |bytes|..]
    ensures forall p | 0 <= p < buf.Length && (p < lo || p >= hi) :: buf[p] == old(buf[p])
  {
    ghost var was := buf[lo..hi];
    Store(buf, at, bytes);
    assert buf[lo..at] == was[..at - lo];
    assert buf[at + |bytes|..hi] == was[at - lo + |bytes|..];
    assert buf[lo..hi] == buf[lo..at] + buf[at..at + |bytes|] + buf[at + |bytes|..hi];
  }
}
