/**
 Chunk reassembly in `lnsocket_lib.js`: data events push chunks of any size onto a queue, and
 `read_all` shifts chunks off it until it has what was asked for, pushing an excess back.
 */
module ChunkQueue {
  import opened Bytes

  lemma FlattenCons(p: seq<byte>, parts: seq<seq<byte>>)
    ensures Flatten([p] + parts) == p + Flatten(parts)
  {
    FlattenAppend([p], parts);
    FlattenSnoc([], p);
    assert [] + [p] == [p];
    assert [] + p == p;
  }

  lemma FlattenShift(parts: seq<seq<byte>>)
    requires parts != []
    ensures Flatten(parts) == parts[0] + Flatten(parts[1..])
  {
    FlattenCons(parts[0], parts[1..]);
    assert parts == [parts[0]] + parts[1..];
  }

  /** The bytes of the queue and then of the events to come. */
  function Pending(queue: seq<seq<byte>>, coming: seq<seq<byte>>): seq<byte> {
    Flatten(queue) + Flatten(coming)
  }

  /** Moving a whole chunk to those taken moves its bytes. */
  lemma TakeChunk(taken: seq<seq<byte>>, chunk: seq<byte>, queue: seq<seq<byte>>, coming: seq<seq<byte>>)
    ensures Flatten(taken) + (chunk + Pending(queue, coming)) == Flatten(taken + [chunk]) + Pending(queue, coming)
    ensures |Flatten(taken + [chunk])| == |Flatten(taken)| + |chunk|
  {
    hide Flatten, Pending;
    FlattenSnoc(taken, chunk);
  }

  /** Taking part of a chunk and pushing the rest back moves just that part. */
  lemma SplitChunk(taken: seq<seq<byte>>, chunk: seq<byte>, k: nat, queue: seq<seq<byte>>, coming: seq<seq<byte>>)
    requires k <= |chunk|
    ensures Flatten(taken) + (chunk + Pending(queue, coming))
            == Flatten(taken + [chunk[..k]]) + Pending([chunk[k..]] + queue, coming)
    ensures |Flatten(taken + [chunk[..k]])| == |Flatten(taken)| + k
  {
    hide Flatten;
    FlattenSnoc(taken, chunk[..k]);
    FlattenCons(chunk[k..], queue);
    var a, b, c, q, r := Flatten(taken), chunk[..k], chunk[k..], Flatten(queue), Flatten(coming);
    assert chunk == b + c;
    assert a + ((b + c) + (q + r)) == (a + b) + ((c + q) + r);
  }

  lemma NothingPending(queue: seq<seq<byte>>, coming: seq<seq<byte>>)
    ensures |queue| + |coming| == 0 ==> Pending(queue, coming) == []
  {
  }

  /** `concat_u8_arrays`'s first loop: the length of the joined array. */
  method TotalLength(arrays: seq<seq<byte>>) returns (total: nat)
    ensures total == |Flatten(arrays)|
  {
    hide Flatten;
    total := 0;
    FlattenNone(arrays);
    for i := 0 to |arrays|
      invariant total == |Flatten(arrays[..i])|
    {
      FlattenPrefix(arrays, i);
      total := total + |arrays[i]|;
    }
    assert arrays[..|arrays|] == arrays;
  }

  /** `concat_u8_arrays`: nothing for no arrays, else one array with their bytes in order. */
  method Concat(arrays: seq<seq<byte>>) returns (result: Option<array<byte>>)
    ensures result.None? <==> arrays == []
    ensures result.Some? ==> fresh(result.value) && result.value[..] == Flatten(arrays)
  {
    hide Flatten;
    if arrays == [] {
      return None;
    }
    var total := TotalLength(arrays);
    var r := new byte[total];
    var length := 0;
    FlattenNone(arrays);
    for i := 0 to |arrays|
      invariant length == |Flatten(arrays[..i])| <= r.Length
      invariant r[..length] == Flatten(arrays[..i])
    {
      FlattenPrefix(arrays, i);
      CopyInto(r, length, arrays[i]);
      length := length + |arrays[i]|;
    }
    assert arrays[..|arrays|] == arrays;
    result := Some(r);
  }

  lemma FlattenNone(arrays: seq<seq<byte>>)
    ensures Flatten(arrays[..0]) == []
  {
  }

  /** An event moves a chunk to the queue and leaves the bytes where they are. */
  lemma Arrival(queue: seq<seq<byte>>, coming: seq<seq<byte>>, k: nat)
    requires k <= |coming|
    ensures Pending(queue + coming[..k], coming[k..]) == Pending(queue, coming)
  {
    hide Flatten;
    FlattenAppend(queue, coming[..k]);
    FlattenAppend(coming[..k], coming[k..]);
    assert coming == coming[..k] + coming[k..];
  }

  /**
   The queue, the data events still to come, and whether the connection is still open. Events happen
   while the reader waits: chunks move from `coming` to the end of `queue`, and once all have come the
   connection may close.
   */
  class LNSocket {
    var queue: seq<seq<byte>>
    var coming: seq<seq<byte>>
    var connected: bool

    ghost predicate Valid()
      reads this
    {
      !connected ==> coming == []
    }

    /** All bytes not yet read, in order of arrival. */
    ghost function Unread(): seq<byte>
      reads this
    {
      Pending(queue, coming)
    }

    constructor (coming: seq<seq<byte>>)
      ensures Valid() && connected && queue == [] && this.coming == coming && Unread() == Flatten(coming)
    {
      queue, this.coming, connected := [], coming, true;
    }

    /** `ln.queue.push(v)`, some number of times, or in the end the connection closes. */
    method Events()
      requires Valid()
      modifies this
      ensures Valid() && Unread() == old(Unread()) && |queue| + |coming| == old(|queue| + |coming|)
      ensures queue != [] || !connected
    {
      hide Flatten, Pending;
      if queue == [] && coming == [] {
        connected := false;
        return;
      }
      var least := if queue == [] then 1 else 0;
      var k :| least <= k <= |coming|;
      Arrival(queue, coming, k);
      queue, coming := queue + coming[..k], coming[k..];
      if coming == [] && connected {
        connected := *;
      }
    }

    /** `queue_recv`: wait for a chunk and shift it off the queue, or reject when none will come. */
    method QueueRecv() returns (chunk: Option<seq<byte>>)
      requires Valid()
      modifies this
      ensures Valid() && (chunk.Some? <==> old(|queue| + |coming|) > 0)
      ensures chunk.Some? ==>
                && old(Unread()) == chunk.value + Unread()
                && |queue| + |coming| == old(|queue| + |coming|) - 1
      ensures chunk.None? ==> !connected && queue == [] && coming == []
    {
      hide Flatten;
      Events();
      if queue == [] {
        return None;
      }
      chunk := Some(queue[0]);
      FlattenShift(queue);
      queue := queue[1..];
      assert chunk.value + Flatten(queue) + Flatten(coming) == chunk.value + Unread();
    }

    /**
     `read_all`. On an open connection it succeeds exactly when the chunks still hold `n` bytes (for
     `n` zero, when there is a chunk at all), and then with exactly the next `n`, however they were
     cut; otherwise what it took is gone. On a closed one it throws and takes nothing.
     */
    method ReadAll(n: nat) returns (res: Option<array<byte>>)
      requires Valid()
      modifies this
      ensures Valid()
      ensures res.Some? <==> old(connected) && n <= |old(Unread())| && old(|queue| + |coming|) > 0
      ensures res.Some? ==> fresh(res.value) && res.value.Length == n && old(Unread()) == res.value[..] + Unread()
      ensures res.None? ==> if old(connected) then !connected && Unread() == [] else Unread() == old(Unread())
    {
      hide Flatten, Pending;
      if !connected {
        return None;
      }
      var count: nat, chunks := 0, [];
      var looking := true;
      ghost var all, some := Unread(), |queue| + |coming| > 0;
      NothingTaken(all);
      while looking
        invariant Valid() && all == Flatten(chunks) + Unread()
        invariant looking ==> count == |Flatten(chunks)| && (count < n || (n == 0 && chunks == []))
        invariant chunks == [] ==> (some <==> |queue| + |coming| > 0)
        invariant chunks != [] ==> some
        invariant !looking ==> chunks != [] && |Flatten(chunks)| == n
        decreases looking, |queue| + |coming|
      {
        NothingPending(queue, coming);
        var next := QueueRecv();
        if next.None? {
          NothingPending(queue, coming);
          return None;
        }
        var chunk, remaining := next.value, n - count;
        if |chunk| > remaining {
          SplitChunk(chunks, chunk, remaining, queue, coming);
          chunks := chunks + [chunk[..remaining]];
          queue := [chunk[remaining..]] + queue;
          looking := false;
        } else {
          TakeChunk(chunks, chunk, queue, coming);
          chunks := chunks + [chunk];
          if |chunk| == remaining {
            looking := false;
          } else {
            count := count + |chunk|;
          }
        }
      }
      var joined := Concat(chunks);
      res := joined;
    }

    /**
     Any reads, one after another, until one fails: the results have the sizes asked for, and joined
     they are the beginning of the stream; while none fails the rest of it is still unread.
     */
    method ReadMany(ns: seq<nat>) returns (ok: bool, results: seq<seq<byte>>)
      requires Valid()
      modifies this
      ensures Valid() && |results| <= |ns| && (ok <==> |results| == |ns|)
      ensures forall i :: 0 <= i < |results| ==> |results[i]| == ns[i]
      ensures Flatten(results) <= old(Unread())
      ensures ok ==> old(Unread()) == Flatten(results) + Unread()
    {
      hide Flatten, Pending;
      results := [];
      ghost var all := Unread();
      NothingTaken(all);
      while |results| < |ns|
        invariant Valid() && |results| <= |ns| && all == Flatten(results) + Unread()
        invariant forall i :: 0 <= i < |results| ==> |results[i]| == ns[i]
      {
        ghost var before := Unread();
        var res := ReadAll(ns[|results|]);
        if res.None? {
          return false, results;
        }
        FlattenSnoc(results, res.value[..]);
        results := results + [res.value[..]];
      }
      ok := true;
    }
  }

  lemma NothingTaken(all: seq<byte>)
    ensures Flatten([]) == [] && all == [] + all
  {
  }
}
