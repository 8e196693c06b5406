/**
 RTMPSockBuf and ReadN (librtmp/rtmp.c:1319-1416, 3603-3646): a fixed receive buffer between a
 socket that hands out arbitrary non-empty fragments and readers that want exact counts.
 */
module SocketBuffer {
  import opened Bytes

  const BUFFER_CACHE_SIZE := 16384

  class SockBuf {
    const buf: array<byte>
    var start: nat
    var size: nat
    // What the peer has sent and recv has not returned yet.
    var socket: seq<byte>

    constructor (socket: seq<byte>)
      ensures Valid() && fresh(buf) && buf.Length == 16384 && Pending() == socket
    {
      buf := new byte[BUFFER_CACHE_SIZE];
      start, size := 0, 0;
      this.socket := socket;
    }

    ghost predicate Valid()
      reads this
    {
      start + size <= buf.Length == BUFFER_CACHE_SIZE
    }

    /** All bytes not yet given to a reader. */
    ghost function Pending(): seq<byte>
      requires Valid()
      reads this, buf
    {
      buf[start..start + size] + socket
    }

    /**
     RTMPSockBuf_Fill: one recv into the free end of the buffer; an empty buffer starts over. 0 means
     that the peer has closed or that there is no free end.
     */
    method Fill() returns (n: nat)
      requires Valid()
      modifies this, buf
      ensures Valid() && Pending() == old(Pending()) && size == old(size) + n
      ensures n == 0 <==> old(socket) == [] || (old(size) > 0 && old(start) + old(size) == buf.Length)
    {
      ghost var held := buf[start..start + size];
      if size == 0 {
        start := 0;
      }
      var end := start + size;
      if end == buf.Length {
        return 0;
      }
      n := Recv(buf.Length - end);
      forall i | 0 <= i < n {
        buf[end + i] := socket[i];
      }
      assert buf[start..end] == held;
      assert buf[end..end + n] == socket[..n];
      assert buf[start..end + n] == buf[start..end] + buf[end..end + n];
      assert held + socket[..n] + socket[n..] == held + socket;
      size := size + n;
      socket := socket[n..];
    }

    /** recv returns any number of the bytes available, but at least one when there are any. */
    method Recv(max: nat) returns (n: nat)
      requires max > 0
      ensures n <= max && n <= |socket| && (n == 0 <==> socket == [])
    {
      if socket == [] {
        n := 0;
      } else {
        n :| 1 <= n <= max && n <= |socket|;
      }
    }

    /** Moves up to `n` buffered bytes to `dest`. */
    method Take(dest: array<byte>, at: nat, n: nat) returns (k: nat)
      requires Valid() && dest != buf && at + n <= dest.Length
      modifies this`start, this`size, dest
      ensures Valid() && k == (if n < old(size) then n else old(size))
      ensures k <= |old(Pending())| && dest[at..at + k] == old(Pending())[..k] && Pending() == old(Pending())[k..]
      ensures size == old(size) - k
      ensures forall p | 0 <= p < dest.Length && (p < at || p >= at + k) :: dest[p] == old(dest[p])
    {
      k := if n < size then n else size;
      forall i | 0 <= i < k {
        dest[at + i] := buf[start + i];
      }
      start, size := start + k, size - k;
    }

    /** One turn of ReadN: receives if nothing is buffered, then takes what is there. */
    method Refill(dest: array<byte>, at: nat, n: nat) returns (k: nat)
      requires Valid() && dest != buf && at + n <= dest.Length && n > 0
      modifies this, buf, dest
      ensures Valid() && k <= n && k <= |old(Pending())| && (k == 0 <==> old(Pending()) == [])
      ensures dest[at..at + k] == old(Pending())[..k] && Pending() == old(Pending())[k..]
      ensures forall p | 0 <= p < dest.Length && (p < at || p >= at + k) :: dest[p] == old(dest[p])
    {
      if size == 0 {
        var filled := Fill();
        if filled == 0 {
          return 0;
        }
      }
      k := Take(dest, at, n);
    }

    lemma Extend(dest: array<byte>, at: nat, got: nat, k: nat, head: seq<byte>, all: seq<byte>)
      requires at + got + k <= dest.Length && got + k <= |all| && |head| == got
      requires got > 0 ==> head == all[..got]
      requires forall j | 0 <= j < got :: dest[at + j] == head[j]
      requires dest[at + got..at + got + k] == all[got..][..k]
      ensures dest[at..at + (got + k)] == all[..got + k]
    {
      assert dest[at..at + got] == head;
      assert dest[at..at + (got + k)] == dest[at..at + got] + dest[at + got..at + got + k];
      assert all[..got + k] == all[..got] + all[got..][..k];
    }

    /**
     Reads exactly `n` bytes, however they were fragmented on the way; 0 when the stream ends
     before (the connection is then closed), and for n <= 0 nothing is read.
     */
    method ReadN(dest: array<byte>, at: nat, n: int) returns (got: nat)
      requires Valid() && dest != buf && (n > 0 ==> at + n <= dest.Length)
      modifies this, buf, dest
      ensures Valid()
      ensures n <= 0 ==> got == 0 && Pending() == old(Pending())
      ensures n > 0 && |old(Pending())| < n ==> got == 0
      ensures n > 0 && |old(Pending())| >= n ==>
        got == n && dest[at..at + n] == old(Pending())[..n] && Pending() == old(Pending())[n..]
      ensures forall p | 0 <= p < dest.Length && (p < at || p >= at + n) :: dest[p] == old(dest[p])
    {
      ghost var all := Pending();
      got := 0;
      while got < n
        invariant Valid() && (n > 0 ==> got <= n) && (n <= 0 ==> got == 0) && got <= |all|
        invariant at + got <= dest.Length || got == 0
        invariant got > 0 ==> dest[at..at + got] == all[..got]
        invariant Pending() == all[got..]
        invariant forall p | 0 <= p < dest.Length && (p < at || p >= at + n) :: dest[p] == old(dest[p])
        decreases n - got
      {
        ghost var head := dest[at..at + got];
        var k := Refill(dest, at + got, n - got);
        if k == 0 {
          return 0;
        }
        Extend(dest, at, got, k, head, all);
        got := got + k;
      }
    }
  }
}
