/**
 The output side of the encoder: bytes are put into an output buffer; full buffers are handed
 over to a queue of linked buffers, emptied ones go to a free list and are used again.
 */
module OutputQueue {
  import opened Bytes

  const OUTBUFSIZ := 8192

  class Buffer {
    var next: Buffer?
    var len: int
    var off: int
    const ptr: array<byte>

    constructor ()
      ensures fresh(ptr) && ptr.Length == OUTBUFSIZ && next == null && len == 0 && off == 0
    {
      next, len, off := null, 0, 0;
      ptr := new byte[OUTBUFSIZ](_ => 0);
    }
  }

  /** All chunks one after the other. */
  function Flat(chunks: seq<seq<byte>>): seq<byte> {
    if chunks == [] then [] else chunks[0] + Flat(chunks[1..])
  }

  lemma {:induction false} FlatAppend(chunks: seq<seq<byte>>, last: seq<byte>)
    ensures Flat(chunks + [last]) == Flat(chunks) + last
    decreases |chunks|
  {
    if chunks == [] {
      assert chunks + [last] == [last];
      assert [last][1..] == [];
    } else {
      assert (chunks + [last])[1..] == chunks[1..] + [last];
      FlatAppend(chunks[1..], last);
    }
  }

  /** The buffers of `list` follow each other by their links, from `head` on. */
  ghost predicate Linked(head: Buffer?, list: seq<Buffer>)
    reads list`next
  {
    && (list == [] ==> head == null)
    && (list != [] ==> head == list[0] && list[|list| - 1].next == null)
    && forall i :: 0 <= i < |list| - 1 ==> list[i].next == list[i + 1]
  }

  /** Different buffers, with memory of their own, belonging to `repr`. */
  ghost predicate Owned(list: seq<Buffer>, outbuf: array<byte>, repr: set<object>) {
    && (forall i :: 0 <= i < |list| ==>
          list[i] in repr && list[i].ptr in repr && list[i].ptr.Length == OUTBUFSIZ && list[i].ptr != outbuf)
    && (forall i, j :: 0 <= i < j < |list| ==> list[i] != list[j] && list[i].ptr != list[j].ptr)
  }

  /** p is none of the buffers of `list`. */
  ghost predicate Apart(p: Buffer, list: seq<Buffer>) {
    forall i :: 0 <= i < |list| ==> list[i] != p && list[i].ptr != p.ptr
  }

  /** What buffer b still has to give. */
  ghost predicate Holds(b: Buffer, chunk: seq<byte>)
    reads b`off, b`len, b.ptr
  {
    0 <= b.off && 0 <= b.len && b.off + b.len <= b.ptr.Length && chunk == b.ptr[b.off..b.off + b.len]
  }

  lemma EmptyHolds(b: Buffer)
    requires b.len == 0 && b.off == 0
    ensures Holds(b, [])
  {
  }

  class Output {
    const outbuf: array<byte>
    var outcnt: int
    var outoff: int
    var qhead: Buffer?
    var qtail: Buffer?
    var free: Buffer?

    ghost var queue: seq<Buffer>
    ghost var frees: seq<Buffer>
    ghost var chunks: seq<seq<byte>>  // what the queued buffers hold
    ghost var put: seq<byte>          // every byte put so far
    ghost var taken: seq<byte>        // every byte copied out so far
    ghost var repr: set<object>

    /** The queue and the free list are in order. */
    ghost predicate Chained()
      reads this`qhead, this`qtail, this`free, this`queue, this`frees, this`chunks, this`repr, repr - {this}
    {
      && this in repr && outbuf in repr
      && Owned(queue, outbuf, repr) && Owned(frees, outbuf, repr)
      && (forall i :: 0 <= i < |frees| ==> Apart(frees[i], queue))
      && Linked(qhead, queue) && Linked(free, frees)
      && (queue != [] ==> qtail == queue[|queue| - 1])
      && |chunks| == |queue| && (forall i :: 0 <= i < |queue| ==> Holds(queue[i], chunks[i]))
    }

    /** p belongs to neither list. */
    ghost predicate Spare(p: Buffer)
      reads this
    {
      Owned([p], outbuf, repr) && Apart(p, queue) && Apart(p, frees)
    }

    ghost predicate Valid()
      reads this, repr
    {
      && Chained()
      && outbuf.Length == OUTBUFSIZ && 0 <= outoff <= outcnt < OUTBUFSIZ && (outoff == outcnt ==> outcnt == 0)
      && put == taken + Pending()
    }

    /** The bytes put and not yet copied out, in order. */
    ghost function Pending(): seq<byte>
      reads this`chunks, this`outoff, this`outcnt, outbuf
      requires 0 <= outoff <= outcnt <= outbuf.Length
    {
      Flat(chunks) + outbuf[outoff..outcnt]
    }

    constructor ()
      ensures Valid() && put == [] && taken == [] && outoff == 0 && fresh(repr)
    {
      outcnt, outoff, qhead, qtail, free := 0, 0, null, null, null;
      queue, frees, chunks, put, taken := [], [], [], [], [];
      outbuf := new byte[OUTBUFSIZ](_ => 0);
      repr := {this, outbuf};
    }

    /** Takes the first buffer off the free list. */
    method TakeFree() returns (p: Buffer)
      requires Chained() && free != null
      modifies this`free, this`frees
      ensures Chained() && Spare(p) && p == old(frees[0]) && frees == old(frees[1..])
    {
      p := free;
      assert p == frees[0];
      free := free.next;
      frees := frees[1..];
    }

    /** Allocates one more buffer. */
    method Allocate() returns (p: Buffer)
      requires Chained()
      modifies this`repr
      ensures Chained() && Spare(p) && fresh(p) && fresh(p.ptr) && repr == old(repr) + {p, p.ptr}
    {
      p := new Buffer();
      repr := repr + {p, p.ptr};
    }

    /** Clears a buffer that belongs to neither list. */
    method Reset(p: Buffer)
      requires Chained() && Spare(p)
      modifies p
      ensures Chained() && Spare(p)
      ensures p.next == null && p.len == 0 && p.off == 0
    {
      p.next := null;
      p.len := 0;
      p.off := 0;
    }

    /** Takes a buffer from the free list, or a new one. */
    method NewQueue() returns (p: Buffer)
      requires Chained()
      modifies this`free, this`frees, this`repr, frees
      ensures Chained() && Spare(p) && fresh(repr - old(repr)) && (p in old(frees) || fresh(p))
      ensures p.next == null && p.len == 0 && p.off == 0 && p.ptr in repr && p.ptr != outbuf && p !in queue
    {
      if free != null {
        p := TakeFree();
      } else {
        p := Allocate();
      }
      Reset(p);
    }

    /** Puts a buffer on the free list. */
    method ReuseQueue(p: Buffer)
      requires Chained() && Spare(p)
      modifies p, this`free, this`frees
      ensures Chained() && frees == [p] + old(frees)
    {
      p.next := free;
      free := p;
      frees := [p] + frees;
    }

    lemma QueuedIsNotFree(b: Buffer)
      requires Chained() && b in queue
      ensures Apart(b, frees)
    {
      forall i | 0 <= i < |frees|
        ensures frees[i] != b && frees[i].ptr != b.ptr
      {
        assert Apart(frees[i], queue);
      }
    }

    /** Links an empty buffer as the only one of the queue. */
    method AppendFirst(q: Buffer)
      requires Chained() && Spare(q) && q.next == null && q.len == 0 && q.off == 0 && qhead == null
      modifies this`qhead, this`qtail, this`queue, this`chunks
      ensures Chained() && queue == old(queue) + [q] && chunks == old(chunks) + [[]]
    {
      qhead := q;
      qtail := q;
      queue := queue + [q];
      chunks := chunks + [[]];
    }

    /** Links an empty buffer behind the last one of the queue. */
    method AppendMore(q: Buffer)
      requires Chained() && Spare(q) && q.next == null && q.len == 0 && q.off == 0 && queue != []
      modifies this`qtail, this`queue, this`chunks, queue
      ensures Chained() && queue == old(queue) + [q] && chunks == old(chunks) + [[]]
    {
      hide Holds;
      ghost var last := queue[|queue| - 1];
      assert forall i :: 0 <= i < |queue| - 1 ==> queue[i] != last;
      QueuedIsNotFree(last);
      EmptyHolds(q);
      qtail.next := q;
      qtail := q;
      queue := queue + [q];
      chunks := chunks + [[]];
    }

    /** Links an empty buffer to the end of the queue. */
    method Append(q: Buffer)
      requires Chained() && Spare(q) && q.next == null && q.len == 0 && q.off == 0
      modifies this`qhead, this`qtail, this`queue, this`chunks, queue
      ensures Chained() && queue == old(queue) + [q] && chunks == old(chunks) + [[]]
    {
      if qhead == null {
        AppendFirst(q);
      } else {
        AppendMore(q);
      }
    }

    /** Copies the output buffer into the last buffer of the queue. */
    method FillLast(q: Buffer)
      requires Chained() && queue != [] && q == queue[|queue| - 1] && q.off == 0 && chunks[|queue| - 1] == []
      requires outbuf.Length == OUTBUFSIZ && 0 <= outoff <= outcnt <= OUTBUFSIZ
      modifies q`len, q.ptr, this`chunks
      ensures Chained() && chunks == old(chunks)[|queue| - 1 := outbuf[outoff..outcnt]]
    {
      hide Linked;
      q.len := outcnt - outoff;
      Copy(outbuf, outoff, q.ptr, 0, q.len);
      chunks := chunks[|queue| - 1 := outbuf[outoff..outcnt]];
    }

    /** Empties the output buffer. */
    method Clear()
      requires Chained()
      modifies this`outcnt, this`outoff
      ensures Chained() && outcnt == 0 && outoff == 0
    {
      hide Chained;
      outcnt := 0;
      outoff := 0;
    }

    lemma BuffersInRepr()
      requires Chained()
      ensures this in repr && outbuf in repr
      ensures forall b :: b in queue || b in frees ==> b in repr
    {
    }

    /** Hands the output buffer over to the queue. */
    method QOutBuf()
      requires Chained() && outbuf.Length == OUTBUFSIZ && 0 <= outoff <= outcnt <= OUTBUFSIZ && (outcnt == 0 ==> outoff == 0)
      modifies repr
      ensures Chained() && fresh(repr - old(repr)) && outcnt == 0 && outoff == 0
      ensures Pending() == old(Pending()) && put == old(put) && taken == old(taken)
    {
      hide Chained, Spare;
      if outcnt != 0 {
        ghost var all, last := chunks, outbuf[outoff..outcnt];
        BuffersInRepr();
        var q := NewQueue();
        Append(q);
        FillLast(q);
        assert chunks == all + [last];
        FlatAppend(all, last);
        Clear();
      }
    }

    /** Stores one byte in the output buffer. */
    method Store(c: byte)
      requires Valid() && outoff == 0
      modifies this`outcnt, this`put, outbuf
      ensures Chained() && outcnt == old(outcnt) + 1 && put == old(put) + [c] && put == taken + Pending()
    {
      hide Linked;
      outbuf[outoff + outcnt] := c;
      outcnt := outcnt + 1;
      put := put + [c];
      assert outbuf[outoff..outcnt] == old(outbuf[outoff..outcnt]) + [c];
    }

    /** Puts one byte. */
    method PutByte(c: byte)
      requires Valid() && outoff == 0
      modifies repr
      ensures Valid() && fresh(repr - old(repr)) && outoff == 0
      ensures put == old(put) + [c] && taken == old(taken)
    {
      Store(c);
      if outoff + outcnt == OUTBUFSIZ {
        QOutBuf();
      }
    }

    /** Puts the lowest 16 bits of a number, low byte first. */
    method PutShort(value: int)
      requires Valid() && outoff == 0 && value >= 0
      modifies repr
      ensures Valid() && fresh(repr - old(repr)) && outoff == 0
      ensures put == old(put) + [value % 256, (value / 256) % 256] && taken == old(taken)
    {
      hide Chained, Pending;
      BuffersInRepr();
      var w := value % 65536;
      assert w % 256 == value % 256 && w / 256 == (value / 256) % 256;
      if outoff + outcnt < OUTBUFSIZ - 2 {
        Store(w % 256);
        Store(w / 256);
      } else {
        PutByte(w % 256);
        PutByte(w / 256);
      }
    }

    /** Takes i bytes from the front buffer of the queue. */
    method Advance(i: int)
      requires Chained() && queue != [] && 0 <= i <= |chunks[0]|
      modifies queue[0], this`chunks
      ensures Chained() && chunks == old(chunks)[0 := old(chunks)[0][i..]]
    {
      hide Holds;
      ghost var first := queue[0];
      assert forall k :: 1 <= k < |queue| ==> queue[k] != first;
      QueuedIsNotFree(first);
      Shrink(qhead, chunks[0], i);
      chunks := chunks[0 := chunks[0][i..]];
    }

    /** Takes i bytes from a buffer. */
    method Shrink(b: Buffer, ghost chunk: seq<byte>, i: int)
      requires Holds(b, chunk) && 0 <= i <= |chunk|
      modifies b`off, b`len
      ensures Holds(b, chunk[i..])
    {
      b.off := b.off + i;
      b.len := b.len - i;
    }

    /** Moves the front buffer of the queue to the free list. */
    method Pop()
      requires Chained() && queue != [] && chunks[0] == []
      modifies queue[0], this`qhead, this`queue, this`chunks, this`free, this`frees
      ensures Chained() && queue == old(queue[1..]) && chunks == old(chunks[1..])
    {
      hide Holds;
      var p := qhead;
      qhead := qhead.next;
      queue := queue[1..];
      chunks := chunks[1..];
      ReuseQueue(p);
    }

    lemma FrontIsHead()
      requires Chained() && queue != []
      ensures qhead == queue[0] && Holds(qhead, chunks[0]) && |chunks[0]| == qhead.len
    {
    }

    /** Drops i bytes from the front of the queue. */
    method DropQueued(i: int)
      requires Chained() && queue != [] && 0 <= i <= |chunks[0]|
      modifies queue[0], this`qhead, this`queue, this`chunks, this`free, this`frees
      ensures Chained() && Flat(old(chunks)) == old(chunks)[0][..i] + Flat(chunks)
      ensures queue == if i == |old(chunks)[0]| then old(queue)[1..] else old(queue)
    {
      hide Linked, Owned, Apart, Holds;
      FrontIsHead();
      ghost var before, c := chunks, chunks[0];
      assert c == c[..i] + c[i..];
      assert Flat(before) == c[..i] + (c[i..] + Flat(before[1..]));
      Advance(i);
      FrontIsHead();
      if qhead.len == 0 {
        Pop();
      }
    }

    /** Copies from the front buffer of the queue, as much as there is room for. */
    method TakeQueued(buff: array<byte>, to: int, room: int) returns (i: int)
      requires Chained() && qhead != null && buff !in repr && 0 <= to && 0 < room && to + room <= buff.Length
      modifies queue[0], buff, this`qhead, this`queue, this`chunks, this`free, this`frees
      ensures Chained() && 0 <= i <= room && Appended(old(buff[..]), buff[..], to, i)
      ensures Flat(old(chunks)) == buff[..][to..to + i] + Flat(chunks)
      ensures |queue| <= |old(queue)| && (i < room ==> |queue| < |old(queue)|)
      ensures forall b :: b in queue ==> b in old(queue)
    {
      i := room;
      if i > qhead.len {
        i := qhead.len;
      }
      ghost var front := queue[0];
      assert Holds(front, chunks[0]);
      Copy(qhead.ptr, qhead.off, buff, to, i);
      assert buff[..][to..to + i] == chunks[0][..i];
      DropQueued(i);
    }

    /** Copies from the output buffer, as much as there is room for. */
    method TakeLast(buff: array<byte>, to: int, room: int) returns (i: int)
      requires Chained() && outbuf.Length == OUTBUFSIZ && 0 <= outoff <= outcnt < OUTBUFSIZ && (outoff == outcnt ==> outcnt == 0)
      requires buff !in repr && 0 <= to && 0 < room && to + room <= buff.Length
      modifies buff, this`outoff, this`outcnt
      ensures Chained() && 0 <= i <= room && Appended(old(buff[..]), buff[..], to, i)
      ensures 0 <= outoff <= outcnt < OUTBUFSIZ && old(outbuf[outoff..outcnt]) == buff[..][to..to + i] + outbuf[outoff..outcnt]
      ensures (outoff == outcnt ==> outcnt == 0) && (i < room ==> outoff == 0 && outcnt == 0)
    {
      hide Chained;
      OutbufIsApart(buff);
      i := 0;
      if outoff < outcnt {
        i := room;
        if i > outcnt - outoff {
          i := outcnt - outoff;
        }
        Copy(outbuf, outoff, buff, to, i);
        outoff := outoff + i;
        if outcnt == outoff {
          outcnt := 0;
          outoff := 0;
        }
      }
    }

    /** Copies from the queue until it is empty or the room is used up. */
    method TakeAllQueued(buff: array<byte>, off: int, size: int) returns (n: int)
      requires Chained() && buff !in repr && 0 <= off && 0 <= size && off + size <= buff.Length
      modifies queue, buff, this`qhead, this`queue, this`chunks, this`free, this`frees
      ensures Chained() && 0 <= n <= size && Appended(old(buff[..]), buff[..], off, n)
      ensures Flat(old(chunks)) == buff[..][off..off + n] + Flat(chunks) && (n < size ==> qhead == null)
    {
      hide Chained, Flat;
      n := 0;
      ghost var q, b0, all := queue, buff[..], chunks;
      assert Flat(all) == [] + Flat(all);
      while qhead != null && n < size
        invariant Chained() && 0 <= n <= size && Appended(b0, buff[..], off, n)
        invariant Flat(all) == buff[..][off..off + n] + Flat(chunks)
        invariant forall b :: b in queue ==> b in q
        decreases |queue|, size - n
      {
        ghost var b1, rest := buff[..], chunks;
        QueueHasHead();
        assert queue[0] in queue;
        var i := TakeQueued(buff, off + n, size - n);
        AppendedTwice(b0, b1, buff[..], off, n, i);
        assert Flat(all) == b1[off..off + n] + (buff[..][off + n..off + n + i] + Flat(chunks));
        n := n + i;
      }
    }

    lemma QueueHasHead()
      requires Chained() && qhead != null
      ensures queue != [] && qhead == queue[0]
    {
    }

    lemma NoHeadNoChunks()
      requires Chained() && qhead == null
      ensures chunks == []
    {
    }

    /** Copies from the queue. */
    method TakeQueueFirst(buff: array<byte>, off: int, size: int) returns (n: int)
      requires Chained() && buff !in repr && 0 <= off && 0 <= size && off + size <= buff.Length
      requires 0 <= outoff <= outcnt <= outbuf.Length
      modifies queue, buff, this`qhead, this`queue, this`chunks, this`free, this`frees
      ensures Chained() && 0 <= n <= size && Appended(old(buff[..]), buff[..], off, n) && (n < size ==> qhead == null)
      ensures old(Pending()) == buff[..][off..off + n] + Pending()
    {
      hide Chained, Flat;
      ghost var all, last := chunks, outbuf[outoff..outcnt];
      OutbufIsApart(buff);
      n := TakeAllQueued(buff, off, size);
      assert outbuf[outoff..outcnt] == last;
      assert Flat(all) + last == buff[..][off..off + n] + (Flat(chunks) + last);
    }

    lemma OutbufIsApart(buff: array<byte>)
      requires Chained() && buff !in repr
      ensures outbuf != buff
    {
    }

    /** Copies from the output buffer once the queue is empty. */
    method TakeOutbuf(buff: array<byte>, to: int, room: int) returns (i: int)
      requires Chained() && outbuf.Length == OUTBUFSIZ && 0 <= outoff <= outcnt < OUTBUFSIZ && (outoff == outcnt ==> outcnt == 0)
      requires buff !in repr && 0 <= to && 0 < room && to + room <= buff.Length && qhead == null
      modifies buff, this`outoff, this`outcnt
      ensures Chained() && 0 <= i <= room && Appended(old(buff[..]), buff[..], to, i)
      ensures 0 <= outoff <= outcnt < OUTBUFSIZ && (outoff == outcnt ==> outcnt == 0)
      ensures old(Pending()) == buff[..][to..to + i] + Pending()
      ensures i < room ==> outoff == 0 && Pending() == []
    {
      hide Chained;
      NoHeadNoChunks();
      i := TakeLast(buff, to, room);
    }

    /** Copies from the queue and then from the output buffer. */
    method CopyOut(buff: array<byte>, off: int, size: int) returns (n: int)
      requires Chained() && outbuf.Length == OUTBUFSIZ && 0 <= outoff <= outcnt < OUTBUFSIZ && (outoff == outcnt ==> outcnt == 0)
      requires buff !in repr && 0 <= off && 0 <= size && off + size <= buff.Length
      modifies queue, buff, this`qhead, this`queue, this`chunks, this`free, this`frees, this`outoff, this`outcnt
      ensures Chained() && 0 <= n <= size && Appended(old(buff[..]), buff[..], off, n)
      ensures 0 <= outoff <= outcnt < OUTBUFSIZ && (outoff == outcnt ==> outcnt == 0)
      ensures old(Pending()) == buff[..][off..off + n] + Pending()
      ensures n < size ==> outoff == 0 && Pending() == []
    {
      hide Chained, Pending, Appended;
      ghost var b0, p0 := buff[..], Pending();
      n := TakeQueueFirst(buff, off, size);
      ghost var b1, p1 := buff[..], Pending();
      if n < size {
        var i := TakeOutbuf(buff, off + n, size - n);
        AppendedTwice(b0, b1, buff[..], off, n, i);
        assert b1[off..off + n] + (buff[..][off + n..off + n + i] + Pending()) == buff[..][off..off + n + i] + Pending();
        n := n + i;
      }
    }

    /**
     Copies out as many bytes as there are and as there is room for. When room is left,
     nothing is pending and the output buffer starts again at its beginning.
     */
    method QCopy(buff: array<byte>, off: int, size: int) returns (n: int)
      requires Valid() && buff !in repr && 0 <= off && 0 <= size && off + size <= buff.Length
      modifies repr, buff
      ensures Valid() && repr == old(repr) && Appended(old(buff[..]), buff[..], off, n)
      ensures put == old(put) && taken == old(taken) + buff[..][off..off + n]
      ensures 0 <= n <= size && (n < size ==> taken == put && outoff == 0)
    {
      hide Chained, Pending;
      BuffersInRepr();
      ghost var p0 := Pending();
      n := CopyOut(buff, off, size);
      ghost var piece, p1 := buff[..][off..off + n], Pending();
      assert taken + p0 == (taken + piece) + p1;
      RecordTaken(piece);
    }

    /** Notes what has been copied out. */
    ghost method RecordTaken(bytes: seq<byte>)
      requires Chained()
      modifies this`taken
      ensures Chained() && taken == old(taken) + bytes
    {
      taken := taken + bytes;
    }

    /** What has been copied out is what was put first. */
    lemma TakenWasPut()
      requires Valid()
      ensures taken <= put
    {
    }

    /** The encoder puts some bytes. */
    method PutAll(bytes: seq<byte>)
      requires Valid() && outoff == 0
      modifies repr
      ensures Valid() && fresh(repr - old(repr)) && outoff == 0
      ensures put == old(put) + bytes && taken == old(taken)
    {
      hide Chained, Pending, Valid;
      var i := 0;
      while i < |bytes|
        invariant 0 <= i <= |bytes| && Valid() && fresh(repr - old(repr)) && outoff == 0
        invariant put == old(put) + bytes[..i] && taken == old(taken)
      {
        PutByte(bytes[i]);
        assert bytes[..i + 1] == bytes[..i] + [bytes[i]];
        i := i + 1;
      }
      assert bytes[..i] == bytes;
    }

    /**
     One call for output: first what is pending, then, if there is room and the encoder is not
     complete, the encoder puts `more` bytes and copying goes on.
     */
    method DeflateInternal(buff: array<byte>, off: int, size: int, more: seq<byte>, complete: bool)
      returns (n: int, worked: bool)
      requires Valid() && buff !in repr && 0 <= off && 0 < size && off + size <= buff.Length
      modifies repr, buff
      ensures Valid() && fresh(repr - old(repr)) && buff !in repr && 0 <= n <= size
      ensures taken == old(taken) + buff[..][off..off + n]
      ensures put == old(put) + if worked then more else []
      ensures worked ==> !complete
      ensures n == 0 ==> taken == put && (worked || complete)
    {
      hide Chained, Pending, Valid, Appended;
      ghost var b0 := buff[..];
      worked := false;
      n := QCopy(buff, off, size);
      if n == size || complete {
        return;
      }
      ghost var b1 := buff[..];
      worked := true;
      PutAll(more);
      var i := QCopy(buff, n + off, size - n);
      AppendedTwice(b0, b1, buff[..], off, n, i);
      n := n + i;
    }
  }

  /**
   The outer loop: asks for output in pieces of at most `size` bytes until none comes. The
   encoder puts the given pieces, one for each call that gets to it.
   */
  method Deflate(pieces: seq<seq<byte>>, size: int) returns (all: seq<byte>)
    requires size > 0 && forall i :: 0 <= i < |pieces| ==> pieces[i] != []
    ensures all == Flat(pieces)
  {
    hide Output.Chained, Output.Pending, Output.Valid, Flat;
    var out := new Output();
    var buff := new byte[size](_ => 0);
    all := [];
    var k := 0;
    FlatOfNone();
    while true
      invariant out.Valid() && buff !in out.repr && fresh(out.repr) && fresh(buff) && 0 <= k <= |pieces|
      invariant all == out.taken && out.put == Flat(pieces[..k])
      decreases |pieces| - k, |out.put| - |out.taken|
    {
      var more := if k < |pieces| then pieces[k] else [];
      out.TakenWasPut();
      var n, worked := out.DeflateInternal(buff, 0, size, more, k == |pieces|);
      out.TakenWasPut();
      all := all + buff[..n];
      if worked {
        assert pieces[..k + 1] == pieces[..k] + [pieces[k]];
        FlatAppend(pieces[..k], pieces[k]);
        k := k + 1;
      }
      if n == 0 {
        break;
      }
    }
    assert pieces[..k] == pieces;
  }

  lemma FlatOfNone()
    ensures Flat([]) == []
  {
  }

  /** b' is b with n bytes from position `to` on replaced. */
  ghost predicate Appended(b: seq<byte>, b': seq<byte>, to: int, n: int) {
    0 <= to && 0 <= n && to + n <= |b| == |b'| && b'[..to] == b[..to] && b'[to + n..] == b[to + n..]
  }

  lemma AppendedTwice(b0: seq<byte>, b1: seq<byte>, b2: seq<byte>, off: int, n: int, i: int)
    requires Appended(b0, b1, off, n) && Appended(b1, b2, off + n, i)
    ensures Appended(b0, b2, off, n + i)
    ensures b2[off..off + n + i] == b1[off..off + n] + b2[off + n..off + n + i]
  {
    assert b2[..off + n][..off] == b2[..off] && b1[..off + n][..off] == b1[..off];
    assert b2[off..off + n] == b2[..off + n][off..] && b1[off..off + n] == b1[..off + n][off..];
    assert b1[off + n..][i..] == b1[off + n + i..] && b0[off + n..][i..] == b0[off + n + i..];
  }

  /** Copies n bytes from one array into another. */
  method Copy(src: array<byte>, from: int, dst: array<byte>, to: int, n: int)
    requires src != dst && 0 <= n && 0 <= from && from + n <= src.Length && 0 <= to && to + n <= dst.Length
    modifies dst
    ensures dst[to..to + n] == src[from..from + n]
    ensures Appended(old(dst[..]), dst[..], to, n)
  {
    var j := 0;
    while j < n
      invariant 0 <= j <= n
      invariant forall k :: 0 <= k < dst.Length ==> dst[k] == if to <= k < to + j then src[from + k - to] else old(dst[k])
    {
      dst[to + j] := src[from + j];
      j := j + 1;
    }
  }
}
