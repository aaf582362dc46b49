/** The chunker between the archive writer and the upload workers: partial
    writes go into a bounded buffer, and every time it is found full it is
    handed to the upload queue as the next numbered chunk. */
module ChunkIo {
  import opened Wrappers
  import opened Text

  /** A numbered piece of the archive stream, read once by an upload worker. */
  class Chunk {
    const idx: nat
    /** The bytes the chunk was made with. */
    ghost const payload: seq<byte>
    var read: bool
    var buffer: seq<byte>

    ghost predicate Valid()
      reads this
    {
      buffer == if read then [] else payload
    }

    constructor (index: nat, data: seq<byte>)
      ensures idx == index && payload == data
      ensures !read && buffer == data
      ensures Valid()
    {
      idx := index;
      payload := data;
      read := false;
      buffer := data;
    }

    function Index(): nat {
      idx
    }

    /** The bytes still held: the whole payload until it is polled, then none. */
    function Len(): (n: nat)
      reads this
      requires Valid()
      ensures n == if read then 0 else |payload|
    {
      |buffer|
    }

    /** `poll` as a stream: the whole payload the first time, then the end of the stream. */
    method Poll() returns (item: Option<seq<byte>>)
      requires Valid()
      modifies this
      ensures Valid() && read
      ensures item == if old(read) then None else Some(payload)
    {
      if !read {
        var data := buffer;
        buffer := [];
        read := true;
        return Some(data);
      } else {
        return None;
      }
    }
  }

  /** The bytes of the chunks, in order. */
  ghost function Payloads(chunks: seq<Chunk>): seq<byte> {
    if chunks == [] then [] else Payloads(chunks[..|chunks| - 1]) + chunks[|chunks| - 1].payload
  }

  /** Chunks `0 .. n - 1` all hold exactly `limit` bytes. */
  ghost predicate Full(chunks: seq<Chunk>, n: nat, limit: nat)
    requires n <= |chunks|
  {
    forall k :: 0 <= k < n ==> |chunks[k].payload| == limit
  }

  /** When every chunk but possibly the last is full, byte `r` of chunk `q`
      is byte `q * limit + r` of the stream. */
  lemma {:induction false} ChunkLayout(chunks: seq<Chunk>, limit: nat, q: nat, r: nat)
    requires chunks != [] && Full(chunks, |chunks| - 1, limit)
    requires q < |chunks| && r < |chunks[q].payload|
    ensures q * limit + r < |Payloads(chunks)|
    ensures Payloads(chunks)[q * limit + r] == chunks[q].payload[r]
  {
    var n := |chunks|;
    var init := chunks[..n - 1];
    if q < n - 1 {
      assert init[..|init| - 1] == chunks[..n - 2];
      ChunkLayout(init, limit, q, r);
    } else {
      FullLength(init, limit);
    }
  }

  /** Full chunks hold `limit` bytes each. */
  lemma {:induction false} FullLength(chunks: seq<Chunk>, limit: nat)
    requires Full(chunks, |chunks|, limit)
    ensures |Payloads(chunks)| == |chunks| * limit
  {
    if chunks != [] {
      var init := chunks[..|chunks| - 1];
      FullLength(init, limit);
    }
  }

  /** The chunks queued by a chunker carry the indices 0, 1, 2, ... in
      queue order, as `index` reports them. */
  lemma ChunksNumbered(w: WriteChunker)
    requires w.Valid()
    ensures forall k :: 0 <= k < |w.sent| ==> w.sent[k].Index() == k
  {
  }

  /** `WriteChunker`: the buffer, the running byte count and the next chunk
      index. The upload queue is `sent`; `accepted` is every byte any `write`
      took, and `finished` records that `finish` has consumed the chunker. */
  class WriteChunker {
    const limit: nat
    var wrote: nat
    var buffer: seq<byte>
    var idx: nat
    var sent: seq<Chunk>
    ghost var accepted: seq<byte>
    ghost var finished: bool

    /** The buffer never exceeds the limit; chunk indices are 0, 1, 2, ... in
        queue order; every chunk but the one `finish` sends is full; and the
        chunks followed by the buffer are exactly the bytes accepted. */
    ghost predicate Valid()
      reads this
    {
      && |buffer| <= limit
      && idx == |sent|
      && (forall k :: 0 <= k < |sent| ==> sent[k].idx == k)
      && Full(sent, if finished && |sent| > 0 then |sent| - 1 else |sent|, limit)
      && (finished ==> |sent| > 0 && buffer == [])
      && Payloads(sent) + buffer == accepted
      && wrote == |accepted|
    }

    constructor (limit: nat)
      ensures this.limit == limit
      ensures Valid() && !finished
      ensures wrote == 0 && buffer == [] && idx == 0 && sent == [] && accepted == []
    {
      this.limit := limit;
      wrote := 0;
      buffer := [];
      idx := 0;
      sent := [];
      accepted := [];
      finished := false;
    }

    /** `send_chunk`: the buffer becomes chunk number `idx` on the queue, and a
        new empty buffer takes its place. */
    method SendChunk()
      modifies this`buffer, this`idx, this`sent
      ensures |sent| == |old(sent)| + 1 && sent[..|old(sent)|] == old(sent)
      ensures fresh(sent[|sent| - 1])
      ensures sent[|sent| - 1].idx == old(idx) && sent[|sent| - 1].payload == old(buffer)
      ensures !sent[|sent| - 1].read && sent[|sent| - 1].buffer == old(buffer)
      ensures buffer == [] && idx == old(idx) + 1
    {
      var chunk := new Chunk(idx, buffer);
      buffer := [];
      idx := idx + 1;
      sent := sent + [chunk];
    }

    /** `write`: first sends the buffer if it is full, then takes as many
        bytes of `buf` as fit and reports how many. */
    method Write(buf: seq<byte>) returns (n: nat)
      requires Valid() && !finished
      modifies this`buffer, this`idx, this`sent, this`wrote, this`accepted
      ensures Valid() && !finished
      ensures n <= |buf|
      ensures limit > 0 && buf != [] ==> n >= 1
      ensures accepted == old(accepted) + buf[..n]
      ensures wrote == old(wrote) + n
      ensures old(|buffer|) == limit ==>
        && |sent| == |old(sent)| + 1 && sent[..|old(sent)|] == old(sent)
        && sent[|sent| - 1].payload == old(buffer)
        && buffer == buf[..n]
      ensures old(|buffer|) < limit ==> sent == old(sent) && buffer == old(buffer) + buf[..n]
      ensures n == |buf| || |buffer| == limit
    {
      if |buffer| == limit {
        PayloadsAppend(sent, buffer);
        SendChunk();
        FullAfterSend(old(sent), sent, limit);
      }
      var toWrite := if |buf| < limit - |buffer| then |buf| else limit - |buffer|;
      buffer := buffer + buf[..toWrite];
      wrote := wrote + toWrite;
      accepted := accepted + buf[..toWrite];
      n := toWrite;
    }

    /** `flush` has nothing to do: a chunk is only sent once it is full or at `finish`. */
    method Flush() returns (r: Outcome<string>)
      requires Valid()
      ensures Valid() && r == Pass
    {
      return Pass;
    }

    /** `finish`: the buffer, full or short or empty, goes out as the last
        chunk, and then the queue's sender is dropped. */
    method Finish()
      requires Valid() && !finished
      modifies this`buffer, this`idx, this`sent, this`finished
      ensures Valid() && finished
      ensures |sent| == |old(sent)| + 1 && sent[..|old(sent)|] == old(sent)
      ensures sent[|sent| - 1].idx == old(idx) && sent[|sent| - 1].payload == old(buffer)
      ensures Payloads(sent) == accepted
    {
      PayloadsAppend(sent, buffer);
      SendChunk();
      finished := true;
      assert sent[..|sent| - 1] == old(sent);
    }
  }

  /** Queueing a chunk appends its payload to the stream. */
  lemma PayloadsAppend(chunks: seq<Chunk>, data: seq<byte>)
    ensures forall c: Chunk :: c.payload == data ==> Payloads(chunks + [c]) == Payloads(chunks) + data
  {
    forall c: Chunk | c.payload == data
      ensures Payloads(chunks + [c]) == Payloads(chunks) + data
    {
      assert (chunks + [c])[..|chunks|] == chunks;
    }
  }

  lemma FullAfterSend(before: seq<Chunk>, after: seq<Chunk>, limit: nat)
    requires |after| == |before| + 1 && after[..|before|] == before
    requires Full(before, |before|, limit) && |after[|before|].payload| == limit
    ensures Full(after, |after|, limit)
  {
    forall k | 0 <= k < |after|
      ensures |after[k].payload| == limit
    {
      if k < |before| {
        assert after[k] == before[k];
      }
    }
  }
}
