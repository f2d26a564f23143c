/** `streamSegmentsWithPrefetch` of `src/app/api/download/route.ts`: the
    segments of a playlist are downloaded up to `concurrency` at a time, in any
    completion order, and written to the response stream strictly in playlist
    order.

    The closure state of the stream's `start` callback becomes the fields of
    `Prefetcher`; every asynchronous event the callback reacts to becomes a
    method: a download finishing (`Complete`) or throwing (`Fail`), the client
    request being aborted (`RequestAbort`), and the consumer cancelling the
    stream (`Cancel`). The bytes the network delivers for segment `i` are
    `payload[i]`, a list of chunks. */
module Prefetch {

  type Chunk = seq<bv8>

  /** The chunks of several segments, one segment after the other. */
  function Concat(segments: seq<seq<Chunk>>): (r: seq<Chunk>)
    ensures |segments| == 0 ==> r == []
    decreases |segments|
  {
    if |segments| == 0 then []
    else Concat(segments[..|segments| - 1]) + segments[|segments| - 1]
  }

  /** Streaming one more segment extends the output by exactly its chunks. */
  lemma ConcatNext(segments: seq<seq<Chunk>>, n: nat)
    requires n < |segments|
    ensures Concat(segments[..n + 1]) == Concat(segments[..n]) + segments[n]
  {
    assert segments[..n + 1][..n] == segments[..n];
  }

  /** The state of the `ReadableStream` as its consumer sees it. */
  datatype StreamState =
    | Readable
    | Closed      // `controller.close()`: every segment was delivered
    | Errored     // `controller.error(...)`
    | Cancelled   // the consumer called `cancel()`

  class Prefetcher {
    /** `segments.length`. */
    const count: nat
    /** `SEGMENT_CONCURRENCY`: how many downloads may run at once. */
    const concurrency: nat
    /** What the network delivers for each segment. */
    ghost const payload: seq<seq<Chunk>>

    var nextToFetch: nat
    var nextToStream: nat
    var active: nat
    var closed: bool
    var failed: bool
    /** Finished downloads waiting for their turn to be streamed. */
    var bufferMap: map<nat, seq<Chunk>>
    /** The downloads started and not finished yet. */
    var pending: set<nat>
    /** Whether the `abort` listener is still registered on the request. */
    var listening: bool
    /** Whether `upstreamAbort.abort()` has been called. */
    var aborted: bool
    /** Every chunk enqueued on the stream so far. */
    var output: seq<Chunk>
    var stream: StreamState

    /** What holds between events, and at the point where a finishing
        download has left `pending` but not yet decremented `active`
        (`finishing == 1`). */
    ghost predicate Inv(finishing: nat)
      reads this
    {
      && |payload| == count && concurrency >= 1
      && nextToStream <= nextToFetch <= count
      && active == |pending| + finishing && active <= concurrency
      && (forall i :: i in pending ==> nextToStream <= i < nextToFetch)
      && (forall i :: i in bufferMap ==> nextToStream <= i < nextToFetch && i !in pending)
      && (forall i :: i in bufferMap ==> bufferMap[i] == payload[i])
      && output == Concat(payload[..nextToStream])
      && (stream == Readable <==> !closed)
      && aborted == closed && listening == !closed
      && (failed ==> closed && stream != Closed)
      && (stream == Closed ==> nextToStream == count && pending == {})
      && (!closed ==> forall i :: nextToStream <= i < nextToFetch ==> i in pending || i in bufferMap)
    }

    /** The invariant between events: on top of `Inv(0)`, a buffered
        segment next in line is streamed at once unless something failed,
        and a readable stream always has a download running. */
    ghost predicate Valid()
      reads this
    {
      && Inv(0)
      && (!failed ==> nextToStream !in bufferMap)
      && (stream == Readable ==> active > 0)
    }

    /** While the stream is readable, the next segment to stream is one that
        is still downloading. */
    lemma HeadPending()
      requires Valid() && stream == Readable
      ensures nextToStream in pending
    {
      var p :| p in pending;
      assert nextToStream <= p < nextToFetch;
    }

    /** The `start` callback: set up the state, then `schedule()`. */
    constructor(count: nat, concurrency: nat, ghost payload: seq<seq<Chunk>>)
      requires concurrency >= 1 && |payload| == count
      ensures Valid()
      ensures this.count == count && this.concurrency == concurrency && this.payload == payload
      ensures count == 0 ==> stream == Closed && output == []
      ensures count > 0 ==> && stream == Readable && output == []
                            && active == nextToFetch && (forall i: nat :: i in pending <==> i < nextToFetch)
                            && (nextToFetch == count || nextToFetch == concurrency)
    {
      this.count := count;
      this.concurrency := concurrency;
      this.payload := payload;
      nextToFetch := 0;
      nextToStream := 0;
      active := 0;
      closed := false;
      failed := false;
      bufferMap := map[];
      pending := {};
      listening := true;
      aborted := false;
      output := [];
      stream := Readable;
      new;
      Schedule();
    }

    /** `cleanup`: runs once; removes the request listener, aborts the
        upstream downloads and drops the buffer. */
    method Cleanup()
      modifies this
      ensures old(closed) ==> unchanged(this)
      ensures !old(closed) ==> && closed && !listening && aborted && bufferMap == map[]
                               && nextToFetch == old(nextToFetch) && nextToStream == old(nextToStream)
                               && active == old(active) && failed == old(failed) && pending == old(pending)
                               && output == old(output) && stream == old(stream)
    {
      if closed {
        return;
      }
      closed := true;
      listening := false;
      aborted := true;
      bufferMap := map[];
    }

    /** `controller.error(...)`, which does nothing to a stream that is no
        longer readable. */
    method ErrorStream()
      modifies this
      ensures stream == if old(stream) == Readable then Errored else old(stream)
      ensures nextToFetch == old(nextToFetch) && nextToStream == old(nextToStream) && active == old(active)
      ensures closed == old(closed) && failed == old(failed) && bufferMap == old(bufferMap)
      ensures pending == old(pending) && listening == old(listening) && aborted == old(aborted)
      ensures output == old(output)
    {
      if stream == Readable {
        stream := Errored;
      }
    }

    /** One turn of `flush`'s loop: take the segment next in line out of the
        buffer and enqueue its chunks. `threw` is `controller.enqueue`
        throwing because the stream is no longer readable, which happens at
        the first chunk. */
    method StreamHead(ghost finishing: nat) returns (threw: bool)
      requires Inv(finishing) && nextToStream in bufferMap
      modifies this
      ensures Inv(finishing)
      ensures threw <==> old(stream) != Readable && |payload[old(nextToStream)]| > 0
      ensures threw ==> nextToStream == old(nextToStream) && output == old(output)
      ensures !threw ==> nextToStream == old(nextToStream) + 1 && output == old(output) + payload[old(nextToStream)]
      ensures old(stream) != Readable ==> output == old(output)
      ensures bufferMap == old(bufferMap) - {old(nextToStream)}
      ensures nextToFetch == old(nextToFetch) && active == old(active) && pending == old(pending)
      ensures failed == old(failed) && stream == old(stream) && closed == old(closed)
      ensures listening == old(listening) && aborted == old(aborted)
    {
      var chunks := bufferMap[nextToStream];
      bufferMap := bufferMap - {nextToStream};
      var enqueued := output;
      var j := 0;
      while j < |chunks|
        invariant 0 <= j <= |chunks|
        invariant enqueued == output + chunks[..j]
        invariant stream != Readable ==> j == 0
      {
        if stream != Readable {
          assert closed;
          return true;
        }
        enqueued := enqueued + [chunks[j]];
        j := j + 1;
      }
      assert chunks[..|chunks|] == chunks;
      ConcatNext(payload, nextToStream);
      output := enqueued;
      nextToStream := nextToStream + 1;
      return false;
    }

    /** The loop of `flush`: stream buffered segments while the one next in
        line is there. It throws only on a stream that is no longer readable,
        and then as soon as a buffered head segment has a chunk. */
    method Drain(ghost finishing: nat) returns (threw: bool)
      requires Inv(finishing)
      modifies this
      ensures Inv(finishing)
      ensures nextToFetch == old(nextToFetch) && active == old(active) && pending == old(pending)
      ensures failed == old(failed) && stream == old(stream) && closed == old(closed)
      ensures old(nextToStream) <= nextToStream && old(output) <= output
      ensures old(nextToStream) !in old(bufferMap) ==> !threw && unchanged(this)
      ensures threw ==> old(stream) != Readable
      ensures (old(nextToStream) in old(bufferMap) && old(stream) != Readable
               && |payload[old(nextToStream)]| > 0) ==> threw
      ensures !threw ==> nextToStream !in bufferMap
      ensures old(stream) != Readable ==> output == old(output)
    {
      threw := false;
      while nextToStream in bufferMap
        invariant Inv(finishing)
        invariant nextToFetch == old(nextToFetch) && active == old(active) && pending == old(pending)
        invariant failed == old(failed) && stream == old(stream) && closed == old(closed)
        invariant old(nextToStream) <= nextToStream && old(output) <= output
        invariant old(stream) != Readable ==> output == old(output)
        invariant old(nextToStream) !in old(bufferMap) ==> unchanged(this)
        invariant (old(nextToStream) in old(bufferMap) && old(stream) != Readable
                   && |payload[old(nextToStream)]| > 0) ==> unchanged(this)
        decreases |bufferMap.Keys|
      {
        ghost var keys := bufferMap.Keys;
        threw := StreamHead(finishing);
        assert bufferMap.Keys < keys;
        if threw {
          return;
        }
      }
    }

    /** `flush`: stream every buffered segment that is next in line, then
        close the stream once every segment is delivered and no download
        runs. Nothing happens once a download has failed. */
    method Flush(ghost finishing: nat) returns (threw: bool)
      requires Inv(finishing) && finishing <= 1
      modifies this
      ensures Inv(finishing)
      ensures old(failed) ==> !threw && unchanged(this)
      ensures nextToFetch == old(nextToFetch) && active == old(active) && pending == old(pending)
      ensures failed == old(failed) && old(nextToStream) <= nextToStream && old(output) <= output
      ensures old(nextToStream) !in old(bufferMap) ==> !threw && nextToStream == old(nextToStream) && output == old(output)
      ensures threw ==> old(stream) != Readable
      ensures (old(nextToStream) in old(bufferMap) && old(stream) != Readable && !old(failed)
               && |payload[old(nextToStream)]| > 0) ==> threw
      ensures !threw && !failed ==> nextToStream !in bufferMap
      ensures stream != old(stream) ==> old(stream) == Readable && stream == Closed && active == 0
      ensures old(stream) == Readable && !failed && active == 0 && nextToFetch == count ==> stream == Closed
      ensures old(stream) != Readable ==> output == old(output)
    {
      if failed {
        return false;
      }
      threw := Drain(finishing);
      if threw {
        return;
      }
      if nextToStream >= count && active == 0 && !closed && !failed {
        Cleanup();
        stream := Closed;
      }
    }

    /** The synchronous part of starting a download in `schedule`: take the
        next index, count it as active, and call `downloadSegment`, which
        runs on until its first `await`. */
    method StartDownload()
      requires Inv(0) && nextToFetch < count && active < concurrency
      modifies this
      ensures Inv(0)
      ensures nextToFetch == old(nextToFetch) + 1 && active == old(active) + 1
      ensures pending == old(pending) + {old(nextToFetch)}
      ensures nextToStream == old(nextToStream) && bufferMap == old(bufferMap) && output == old(output)
      ensures failed == old(failed) && stream == old(stream) && closed == old(closed)
      ensures listening == old(listening) && aborted == old(aborted)
    {
      var index := nextToFetch;
      assert index !in pending;
      nextToFetch := nextToFetch + 1;
      active := active + 1;
      pending := pending + {index};
    }

    /** `schedule`: start downloads while fewer than `concurrency` run and
        segments remain; when none runs and none remains, flush. */
    method Schedule()
      requires Inv(0) && (!failed ==> nextToStream !in bufferMap)
      modifies this
      ensures Valid()
      ensures old(failed) ==> unchanged(this)
      ensures nextToFetch - old(nextToFetch) == active - old(active)
      ensures forall i :: i in pending <==> i in old(pending) || old(nextToFetch) <= i < nextToFetch
      ensures !failed && nextToFetch < count ==> active == concurrency
      ensures failed == old(failed) && nextToStream == old(nextToStream) && output == old(output)
      ensures stream != old(stream) ==> old(stream) == Readable && stream == Closed
      ensures active > 0 ==> stream == old(stream)
    {
      if failed {
        return;
      }
      while active < concurrency && nextToFetch < count
        invariant Inv(0) && nextToStream !in bufferMap
        invariant nextToFetch - old(nextToFetch) == active - old(active)
        invariant forall i :: i in pending <==> i in old(pending) || old(nextToFetch) <= i < nextToFetch
        invariant failed == old(failed) && output == old(output) && stream == old(stream)
        invariant nextToStream == old(nextToStream)
        decreases count - nextToFetch
      {
        StartDownload();
      }
      if !failed && active == 0 && nextToFetch >= count {
        var threw := Flush(0);
      }
    }

    /** The `catch` block of `downloadSegment`: the first failure marks the
        download as failed, cleans up and errors the stream. */
    method OnError(ghost finishing: nat)
      requires Inv(finishing) && stream != Closed
      modifies this
      ensures Inv(finishing) && failed
      ensures old(failed) ==> unchanged(this)
      ensures nextToFetch == old(nextToFetch) && nextToStream == old(nextToStream) && active == old(active)
      ensures pending == old(pending) && output == old(output)
      ensures stream == if old(stream) == Readable then Errored else old(stream)
      ensures !old(failed) && !old(closed) ==> bufferMap == map[]
      ensures old(closed) ==> bufferMap == old(bufferMap)
    {
      if !failed {
        failed := true;
        Cleanup();
        ErrorStream();
      }
    }

    /** The `finally` block of `downloadSegment`: one download fewer is
        active, and unless something failed, `schedule()`. */
    method Finally()
      requires Inv(1) && (!failed ==> nextToStream !in bufferMap)
      modifies this
      ensures Valid()
      ensures (count - nextToFetch) + active == (count - old(nextToFetch)) + old(active) - 1
      ensures failed == old(failed) && nextToStream == old(nextToStream) && output == old(output)
      ensures old(failed) ==> nextToFetch == old(nextToFetch) && stream == old(stream)
      ensures old(failed) ==> pending == old(pending) && bufferMap == old(bufferMap)
      ensures !failed && nextToFetch < count ==> active == concurrency
      ensures stream != old(stream) ==> old(stream) == Readable && stream == Closed
    {
      active := active - 1;
      if !failed {
        Schedule();
      }
    }

    /** A download that read its whole body: `bufferMap.set(index, collected)`
        and `flush()`, where an `enqueue` that throws lands in `catch`; then
        `finally`. */
    method Complete(i: nat, chunks: seq<Chunk>)
      requires Valid() && i in pending && chunks == payload[i]
      modifies this
      ensures Valid()
      ensures (count - nextToFetch) + active == (count - old(nextToFetch)) + old(active) - 1
      ensures old(output) <= output
      ensures old(failed) ==> && failed && output == old(output) && nextToStream == old(nextToStream)
                              && nextToFetch == old(nextToFetch) && stream == old(stream)
      ensures stream != old(stream) ==> old(stream) == Readable && stream == Closed
      ensures old(stream) != Readable && !old(failed) && i == old(nextToStream) && |chunks| > 0 ==> failed
      ensures old(stream) != Readable ==> output == old(output)
    {
      pending := pending - {i};
      bufferMap := bufferMap[i := chunks];
      var threw := Flush(1);
      if threw {
        OnError(1);
      }
      Finally();
    }

    /** A download that threw (a bad status, a missing body, a network error,
        or the abort of `upstreamAbort`): `catch`, then `finally`, which
        schedules nothing more. */
    method Fail(i: nat)
      requires Valid() && i in pending
      modifies this
      ensures Valid()
      ensures (count - nextToFetch) + active == (count - old(nextToFetch)) + old(active) - 1
      ensures failed && output == old(output) && nextToStream == old(nextToStream) && nextToFetch == old(nextToFetch)
      ensures stream == if old(stream) == Readable then Errored else old(stream)
      ensures pending == old(pending) - {i}
      ensures !old(failed) && !old(closed) ==> bufferMap == map[]
      ensures old(failed) || old(closed) ==> bufferMap == old(bufferMap)
    {
      OnError(0);
      pending := pending - {i};
      Finally();
    }

    /** The request's `abort` event, heard only while the listener is
        registered: clean up and error the stream. */
    method RequestAbort()
      requires Valid()
      modifies this
      ensures Valid()
      ensures old(listening) ==> stream == Errored && closed && !failed && output == old(output)
      ensures old(listening) ==> && bufferMap == map[] && pending == old(pending) && active == old(active)
                                 && nextToFetch == old(nextToFetch) && nextToStream == old(nextToStream)
      ensures !old(listening) ==> unchanged(this)
    {
      if !listening || closed {
        return;
      }
      Cleanup();
      ErrorStream();
    }

    /** The consumer's `cancel()`: abort the upstream downloads and clean
        up. A stream that is no longer readable does not reach it. */
    method Cancel()
      requires Valid()
      modifies this
      ensures Valid()
      ensures old(stream) == Readable ==> stream == Cancelled && closed && aborted && !failed && output == old(output)
      ensures old(stream) == Readable ==> && bufferMap == map[] && pending == old(pending) && active == old(active)
                                          && nextToFetch == old(nextToFetch) && nextToStream == old(nextToStream)
      ensures old(stream) != Readable ==> unchanged(this)
    {
      if stream != Readable {
        return;
      }
      stream := Cancelled;
      aborted := true;
      Cleanup();
    }
  }

  /** `cleanup` runs only once, so a download that fails after a cancel or
      an abort leaves behind what a download completing in between put in
      the buffer. */
  method FailAfterCloseKeepsBuffer(s: Prefetcher, i: nat, j: nat)
    requires s.Valid() && s.closed && !s.failed && i in s.pending && j in s.bufferMap
    modifies s
    ensures s.failed && j in s.bufferMap
  {
    s.Fail(i);
  }

  /** Every download finishes, in whatever order: the stream ends closed,
      carrying every segment's chunks once, in playlist order. */
  method DeliverAll(s: Prefetcher, data: seq<seq<Chunk>>)
    requires s.Valid() && data == s.payload && s.stream == Readable
    modifies s
    ensures s.stream == Closed && s.output == Concat(data)
  {
    while s.pending != {}
      invariant s.Valid() && data == s.payload
      invariant s.stream == Readable || s.stream == Closed
      decreases (s.count - s.nextToFetch) + s.active
    {
      var i :| i in s.pending;
      s.Complete(i, data[i]);
    }
    assert data[..s.nextToStream] == data;
  }
}
