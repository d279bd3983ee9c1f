/**
 * The producer of src/slsProducer.ts: records wait in a FIFO buffer and a
 * single worker drains it, taking at most 512 records at a time and posting
 * each chunk with putLogs.
 *
 * The worker is an async function. JavaScript runs it without interruption up
 * to its first `await`, so the model runs the loop until a chunk has been
 * posted (the request goes to `outbox` and `awaiting` is set) or the buffer is
 * empty. `Resume` is the continuation that runs when that request settles; it
 * continues the same way whether the request fulfilled or rejected, since the
 * loop catches the rejection and drops the chunk.
 */
module Producer {
  import opened Common
  import opened Dict
  import opened SlsTypes
  import opened SlsRequest
  import opened Lz4Format
  import opened Lz4Decode
  import Lz4
  import Lz4Buffer

  /** DEFAULT_BULK_SIZE: the most records one request carries. */
  const BulkSize: nat := 512

  /** The records the loop takes next: the first BulkSize of the buffer, or all of it. */
  function Chunk(buffer: seq<Log>): (r: seq<Log>)
    ensures |r| == Min(BulkSize, |buffer|) && r == buffer[..|r|]
  {
    if |buffer| > BulkSize then buffer[..BulkSize] else buffer
  }

  /** What stays in the buffer after the loop takes a chunk. */
  function Rest(buffer: seq<Log>): (r: seq<Log>)
    ensures Chunk(buffer) + r == buffer
  {
    if |buffer| > BulkSize then buffer[BulkSize..] else []
  }

  /** The chunks a buffer is drained in when nothing is appended meanwhile. */
  function ChunksOf(buffer: seq<Log>): seq<seq<Log>>
    decreases |buffer|
  {
    if buffer == [] then [] else [Chunk(buffer)] + ChunksOf(Rest(buffer))
  }

  /** The chunks, concatenated, are the buffer in order. */
  lemma {:induction false} ChunksFlatten(buffer: seq<Log>)
    ensures Flatten(ChunksOf(buffer)) == buffer
    decreases |buffer|
  {
    if buffer != [] {
      ChunksFlatten(Rest(buffer));
      var cs := ChunksOf(buffer);
      assert cs[0] == Chunk(buffer) && cs[1..] == ChunksOf(Rest(buffer));
    }
  }

  /** Every chunk has between 1 and BulkSize records, and all but the last have exactly BulkSize. */
  lemma {:induction false} ChunkSizes(buffer: seq<Log>)
    ensures forall i :: 0 <= i < |ChunksOf(buffer)| ==> 1 <= |ChunksOf(buffer)[i]| <= BulkSize
    ensures forall i :: 0 <= i < |ChunksOf(buffer)| - 1 ==> |ChunksOf(buffer)[i]| == BulkSize
    ensures |ChunksOf(buffer)| == (|buffer| + BulkSize - 1) / BulkSize
    decreases |buffer|
  {
    if buffer != [] {
      ChunkSizes(Rest(buffer));
      var cs := ChunksOf(buffer);
      assert cs[1..] == ChunksOf(Rest(buffer));
      forall i | 0 < i < |cs| ensures cs[i] == ChunksOf(Rest(buffer))[i - 1] { }
    }
  }

  /** 513 records go out as one chunk of 512 and then one of 1. */
  lemma FiveHundredThirteen(buffer: seq<Log>)
    requires |buffer| == 513
    ensures ChunksOf(buffer) == [buffer[..512], buffer[512..]]
  {
    var rest := Rest(buffer);
    assert rest == buffer[512..] && |rest| == 1;
    assert ChunksOf(rest) == [rest] + ChunksOf([]);
  }

  /**
   * The POST for a chunk at `date`: the shard resource, the headers putLogs
   * sets in its order, the date, the raw size of the chunk's encoding and the
   * length of the body, which is the encoding itself unless compression is on,
   * and then compression was not refused.
   */
  ghost predicate PostFor(opts: SlsOptions, crypto: Crypto, encode: LogGroup -> seq<byte>, req: Request,
                          logs: seq<Log>, date: string)
  {
    var raw := encode(LogGroup(logs, None, opts.topic, opts.source, None, None));
    && req.verb == "POST" && req.path == ShardResource(opts.logstore)
    && req.headers.keys == PutLogsKeys(TruthyBool(opts.compress), opts.hashkey) + [Authorization]
    && Get(req.headers, Date) == Some(Text(date))
    && Get(req.headers, BodyRawSizeHeader) == Some(Number(|raw|))
    && Get(req.headers, ContentLength) == Some(Number(|req.body|))
    && (TruthyBool(opts.compress) ==> |raw| < Lz4.MaxInputSize)
    && (!TruthyBool(opts.compress) ==> req.body == raw)
  }

  /**
   * What putLogs posts for a chunk, as written: with compression on, the body
   * is empty exactly when the compressor's scan meets no match, and otherwise
   * an LZ4 block that decodes to the encoding. It is empty whenever the
   * encoding is 12 bytes or shorter or has no 4 bytes repeated within the
   * window.
   */
  ghost predicate RequestFor(opts: SlsOptions, crypto: Crypto, encode: LogGroup -> seq<byte>, req: Request,
                             logs: seq<Log>, date: string)
  {
    var raw := encode(LogGroup(logs, None, opts.topic, opts.source, None, None));
    && PostFor(opts, crypto, encode, req, logs, date)
    && (TruthyBool(opts.compress) ==>
          && (req.body == [] <==> !Lz4.FindsMatch(raw, Lz4.ZeroTable, 0, Lz4.FindMatchAttemptsStart))
          && (req.body == [] || Decode(req.body) == Some(raw))
          && (|raw| <= Lz4.MfLimit ==> req.body == [])
          && (!Lz4.HasRepeat(raw) ==> req.body == []))
  }

  /** putLogs throws before posting: compression is on and the encoding is too large to compress. */
  predicate Refused(opts: SlsOptions, encode: LogGroup -> seq<byte>, logs: seq<Log>)
  {
    TruthyBool(opts.compress) && |encode(LogGroup(logs, None, opts.topic, opts.source, None, None))| >= Lz4.MaxInputSize
  }

  /**
   * The chunks a run of the loop took: putLogs refused every one of them,
   * except the last when the worker awaits its request.
   */
  ghost predicate OnlyLastPosted(opts: SlsOptions, encode: LogGroup -> seq<byte>, taken: seq<seq<Log>>, awaiting: bool)
  {
    && (awaiting ==> taken != [])
    && forall i :: 0 <= i < |taken| ==> (Refused(opts, encode, taken[i]) <==> !(awaiting && i == |taken| - 1))
  }

  /** The date and the two size headers of putLogs, read off its header table. */
  lemma SizeHeaders(headers: Headers, bodyMd5: string, bodyLength: nat, rawLength: nat, date: string,
                    compress: bool, hashkey: Option<string>)
    requires forall n :: n != Authorization ==>
               Get(headers, n) == PutLogsHeader(n, bodyMd5, bodyLength, rawLength, date, compress, hashkey)
    ensures Get(headers, Date) == Some(Text(date))
    ensures Get(headers, BodyRawSizeHeader) == Some(Number(rawLength))
    ensures Get(headers, ContentLength) == Some(Number(bodyLength))
  {
    assert Get(headers, Date) == PutLogsHeader(Date, bodyMd5, bodyLength, rawLength, date, compress, hashkey);
    assert Get(headers, BodyRawSizeHeader) == PutLogsHeader(BodyRawSizeHeader, bodyMd5, bodyLength, rawLength, date, compress, hashkey);
    assert Get(headers, ContentLength) == PutLogsHeader(ContentLength, bodyMd5, bodyLength, rawLength, date, compress, hashkey);
  }

  class SlsProducer {
    const options: SlsOptions
    const crypto: Crypto
    /** `PbLogGroup.encode(..).finish()`: the protobuf encoding of a log group. */
    const encode: LogGroup -> seq<byte>

    var buffer: seq<Log>
    /** `this.worker` is set. */
    var worker: bool
    /** The worker is suspended in `await this.putLogs(..)`. */
    var awaiting: bool
    /** The requests issued, in order. */
    var outbox: seq<Request>
    /** The `date` the awaited request was signed with. */
    ghost var postedAt: string

    /** Every record ever sent, and the chunks taken from the buffer, in order. */
    ghost var sent: seq<Log>
    ghost var chunks: seq<seq<Log>>

    ghost predicate Valid()
      reads this`awaiting, this`outbox, this`chunks, this`sent, this`buffer
    {
      && (awaiting ==> |outbox| > 0 && |chunks| > 0)
      && sent == Flatten(chunks) + buffer
      && (forall i :: 0 <= i < |chunks| ==> 1 <= |chunks[i]| <= BulkSize)
    }

    /** While the worker awaits, the last request issued is the POST putLogs built for the last chunk taken, at `postedAt`. */
    ghost predicate Posted()
      reads this`awaiting, this`outbox, this`chunks, this`postedAt
    {
      awaiting ==> |outbox| > 0 && |chunks| > 0
                   && RequestFor(options, crypto, encode, outbox[|outbox| - 1], chunks[|chunks| - 1], postedAt)
    }

    constructor(opts: SlsOptions, crypto: Crypto, encode: LogGroup -> seq<byte>)
      ensures Valid() && !worker && !awaiting && buffer == []
      ensures options == opts && this.crypto == crypto && this.encode == encode
      ensures outbox == [] && sent == [] && chunks == []
    {
      options := opts;
      this.crypto := crypto;
      this.encode := encode;
      buffer := [];
      worker := false;
      awaiting := false;
      outbox := [];
      postedAt := "";
      sent := [];
      chunks := [];
    }

    /** The log group putLogs encodes for a chunk. */
    function Group(logs: seq<Log>): (g: LogGroup)
      ensures g.logs == logs && g.topic == options.topic && g.source == options.source
      ensures g.category.None? && g.machineUuid.None? && g.logTags.None?
    {
      LogGroup(logs, None, options.topic, options.source, None, None)
    }

    /**
     * putLogs up to the request being sent: encode, compress when asked, sign.
     * A failure is the exception compress throws, which the caller catches.
     */
    method PutLogs(logs: seq<Log>, date: string) returns (r: Result<Request, Lz4.Lz4Error>)
      ensures r.Failure? <==> Refused(options, encode, logs)
      ensures r.Success? ==> RequestFor(options, crypto, encode, r.value, logs, date)
      ensures r.Success? ==> SignedPost(options, crypto, r.value, |encode(Group(logs))|, date)
    {
      var raw := encode(Group(logs));
      var body := raw;
      if TruthyBool(options.compress) {
        var compressed := Lz4Buffer.CompressAsWritten(raw);
        if compressed.Failure? {
          return Failure(compressed.error);
        }
        body := compressed.value;
      }
      var req := PutLogsRequest(options, crypto, body, |raw|, date);
      SizeHeaders(req.headers, BodyMd5(crypto, body), |body|, |raw|, date, TruthyBool(options.compress), options.hashkey);
      return Success(req);
    }

    /** putLogs on the corrected wrapper: with compression on, the body always decodes to the encoding. */
    method PutLogsCorrected(logs: seq<Log>, date: string) returns (r: Result<Request, Lz4.Lz4Error>)
      ensures r.Failure? <==> Refused(options, encode, logs)
      ensures r.Success? ==> PostFor(options, crypto, encode, r.value, logs, date)
      ensures r.Success? ==> SignedPost(options, crypto, r.value, |encode(Group(logs))|, date)
      ensures r.Success? && TruthyBool(options.compress) ==> Decode(r.value.body) == Some(encode(Group(logs)))
    {
      var raw := encode(Group(logs));
      var body := raw;
      if TruthyBool(options.compress) {
        var compressed := Lz4Buffer.CompressBuffer(raw);
        if compressed.Failure? {
          return Failure(compressed.error);
        }
        body := compressed.value;
      }
      var req := PutLogsRequest(options, crypto, body, |raw|, date);
      SizeHeaders(req.headers, BodyMd5(crypto, body), |body|, |raw|, date, TruthyBool(options.compress), options.hashkey);
      return Success(req);
    }

    /**
     * One turn of the loop: take the next chunk off the buffer and post it.
     * On success the worker awaits the request; on a synchronous failure the
     * chunk is dropped and the loop goes on.
     */
    method Step(date: string)
      requires Valid() && !awaiting && buffer != []
      modifies this
      ensures Valid() && Posted() && sent == old(sent) && worker == old(worker)
      ensures chunks == old(chunks) + [Chunk(old(buffer))] && buffer == Rest(old(buffer))
      ensures ChunksOf(old(buffer)) == [Chunk(old(buffer))] + ChunksOf(buffer)
      ensures awaiting <==> !Refused(options, encode, Chunk(old(buffer)))
      ensures awaiting ==> |outbox| == |old(outbox)| + 1
      ensures !awaiting ==> outbox == old(outbox)
    {
      var logs := Take();
      Post(logs, date);
    }

    /** The slicing at the top of the loop: the next chunk comes off the buffer. */
    method Take() returns (logs: seq<Log>)
      requires Valid() && !awaiting && buffer != []
      modifies this`buffer, this`chunks
      ensures Valid() && logs == Chunk(old(buffer)) && chunks == old(chunks) + [logs] && buffer == Rest(old(buffer))
      ensures ChunksOf(old(buffer)) == [logs] + ChunksOf(buffer)
    {
      logs := Chunk(buffer);
      buffer := Rest(buffer);
      chunks := chunks + [logs];
      FlattenSnoc(old(chunks), logs);
      AppendAssoc(Flatten(old(chunks)), logs, buffer);
    }

    /** `await this.putLogs(logs)` for the chunk just taken: the worker awaits the request unless putLogs threw. */
    method Post(logs: seq<Log>, date: string)
      requires Valid() && !awaiting && chunks != [] && chunks[|chunks| - 1] == logs
      modifies this`outbox, this`awaiting, this`postedAt
      ensures Valid() && Posted()
      ensures awaiting <==> !Refused(options, encode, logs)
      ensures awaiting ==> |outbox| == |old(outbox)| + 1
      ensures awaiting ==> CanonicalPost(options, crypto, outbox[|outbox| - 1], |encode(Group(logs))|, date)
      ensures !awaiting ==> outbox == old(outbox)
    {
      var r := PutLogs(logs, date);
      if r.Success? {
        Await(r.value, date);
      }
    }

    /** The worker awaits `req`, the POST putLogs built at `date` for the last chunk taken. */
    method Await(req: Request, date: string)
      requires Valid() && !awaiting && chunks != []
      requires RequestFor(options, crypto, encode, req, chunks[|chunks| - 1], date)
      modifies this`outbox, this`awaiting, this`postedAt
      ensures Valid() && Posted() && awaiting
      ensures outbox == old(outbox) + [req] && postedAt == date
    {
      outbox := outbox + [req];
      awaiting := true;
      postedAt := date;
    }

    /**
     * The loop of the worker, run until it awaits a request or finds the buffer
     * empty; in the second case the worker ends and clears `worker`.
     */
    method Drain(date: string) returns (ghost taken: seq<seq<Log>>)
      requires Valid() && !awaiting
      modifies this
      ensures Valid() && Posted() && sent == old(sent)
      ensures chunks == old(chunks) + taken && ChunksOf(old(buffer)) == taken + ChunksOf(buffer)
      ensures OnlyLastPosted(options, encode, taken, awaiting)
      ensures awaiting ==> worker == old(worker) && |outbox| == |old(outbox)| + 1
      ensures !awaiting ==> buffer == [] && !worker && outbox == old(outbox)
    {
      taken := [];
      while buffer != [] && !awaiting
        invariant Valid() && Posted() && sent == old(sent) && worker == old(worker)
        invariant chunks == old(chunks) + taken && ChunksOf(old(buffer)) == taken + ChunksOf(buffer)
        invariant OnlyLastPosted(options, encode, taken, awaiting)
        invariant awaiting ==> |outbox| == |old(outbox)| + 1
        invariant !awaiting ==> outbox == old(outbox)
        decreases |buffer|, !awaiting
      {
        ghost var chunk := Chunk(buffer);
        Step(date);
        AppendAssoc(taken, [chunk], ChunksOf(buffer));
        AppendAssoc(old(chunks), taken, [chunk]);
        taken := taken + [chunk];
      }
      if !awaiting {
        worker := false;
      }
    }

    /**
     * The corrected producer keeps `worker` set exactly while the worker
     * awaits a request, and then nothing is left in the buffer unattended.
     */
    ghost predicate Settled()
      reads this
    {
      (worker <==> awaiting) && (!worker ==> buffer == [])
    }

    /**
     * `start`, corrected: a worker is started only when none is set, and it
     * stays set only while it awaits a request.
     */
    method Start(date: string) returns (ghost taken: seq<seq<Log>>)
      requires Valid() && (awaiting ==> worker)
      modifies this
      ensures Valid() && sent == old(sent) && chunks == old(chunks) + taken
      ensures old(worker) ==> buffer == old(buffer) && taken == [] && outbox == old(outbox)
      ensures old(worker) ==> worker && awaiting == old(awaiting)
      ensures !old(worker) ==> Settled() && Posted() && ChunksOf(old(buffer)) == taken + ChunksOf(buffer)
      ensures !old(worker) ==> OnlyLastPosted(options, encode, taken, awaiting)
    {
      if worker {
        return [];
      }
      taken := Drain(date);
      worker := awaiting;
    }

    /** `send`: append the record, then start a worker unless one is set. */
    method Send(log: Log, date: string) returns (ghost taken: seq<seq<Log>>)
      requires Valid() && Settled()
      modifies this
      ensures Valid() && Settled()
      ensures sent == old(sent) + [log] && chunks == old(chunks) + taken
      ensures old(worker) ==> buffer == old(buffer) + [log] && taken == [] && outbox == old(outbox) && awaiting
      ensures !old(worker) ==> Posted()
      ensures !old(worker) ==> ChunksOf([log]) == taken + ChunksOf(buffer)
      ensures !old(worker) ==> buffer == [] && taken == [[log]] && (awaiting <==> !Refused(options, encode, [log]))
    {
      buffer := buffer + [log];
      sent := sent + [log];
      AppendAssoc(Flatten(chunks), old(buffer), [log]);
      assert !worker ==> buffer == [log];
      taken := Start(date);
      if !old(worker) {
        assert ChunksOf([log]) == [[log]] by {
          assert Chunk([log]) == [log] && Rest([log]) == [];
        }
        assert ChunksOf(buffer) == [] ==> buffer == [];
        assert |taken| + |ChunksOf(buffer)| == 1;
        assert taken == [[log]] && buffer == [];
        assert Refused(options, encode, taken[0]) <==> !awaiting;
      }
    }

    /** The awaited request settled, fulfilled or rejected: the loop goes on. */
    method Resume(date: string) returns (ghost taken: seq<seq<Log>>)
      requires Valid() && Settled() && awaiting
      modifies this
      ensures Valid() && Settled() && Posted() && sent == old(sent)
      ensures chunks == old(chunks) + taken && ChunksOf(old(buffer)) == taken + ChunksOf(buffer)
      ensures OnlyLastPosted(options, encode, taken, awaiting)
    {
      awaiting := false;
      taken := Drain(date);
    }

    /**
     * `start` as written: `this.worker` is assigned the promise of the async
     * function after its synchronous part has run. When every chunk fails
     * before the first `await`, the loop ends and clears `worker` first, and
     * the assignment then sets it again although no worker runs.
     */
    method StartAsWritten(date: string) returns (ghost taken: seq<seq<Log>>)
      requires Valid() && (awaiting ==> worker)
      modifies this
      ensures Valid() && sent == old(sent) && chunks == old(chunks) + taken
      ensures old(worker) ==> buffer == old(buffer) && taken == [] && outbox == old(outbox)
      ensures old(worker) ==> awaiting == old(awaiting)
      ensures worker
      ensures !old(worker) ==> Posted() && ChunksOf(old(buffer)) == taken + ChunksOf(buffer)
      ensures !old(worker) ==> OnlyLastPosted(options, encode, taken, awaiting)
      ensures !old(worker) && !awaiting ==> buffer == []
    {
      if worker {
        return [];
      }
      taken := Drain(date);
      worker := true;
    }

    /** `send` as written, on top of StartAsWritten. */
    method SendAsWritten(log: Log, date: string) returns (ghost taken: seq<seq<Log>>)
      requires Valid() && (awaiting ==> worker)
      modifies this
      ensures Valid() && sent == old(sent) + [log] && worker && chunks == old(chunks) + taken
      ensures old(worker) ==> buffer == old(buffer) + [log] && taken == [] && awaiting == old(awaiting)
      ensures old(worker) ==> outbox == old(outbox)
      ensures !old(worker) ==> Posted() && ChunksOf(old(buffer) + [log]) == taken + ChunksOf(buffer)
      ensures !old(worker) ==> OnlyLastPosted(options, encode, taken, awaiting)
      ensures !old(worker) && !awaiting ==> buffer == []
    {
      buffer := buffer + [log];
      sent := sent + [log];
      AppendAssoc(Flatten(chunks), old(buffer), [log]);
      taken := StartAsWritten(date);
    }
  }

  /** An encoding too large to compress: with compression on, every putLogs throws. */
  function Oversized(g: LogGroup): (r: seq<byte>)
    ensures |r| == Lz4.MaxInputSize
  {
    seq(Lz4.MaxInputSize, _ => 0)
  }

  /**
   * As written, two records sent to a producer whose every putLogs throws
   * leave the second one in the buffer with `worker` set and no request
   * awaited, so no later call ever drains it.
   */
  method StrandedRecord(crypto: Crypto, log: Log, date: string) returns (p: SlsProducer)
    ensures p.Valid() && p.worker && !p.awaiting && p.buffer == [log]
  {
    var opts := SlsOptions("key", "secret", "endpoint", "store", None, None, None, Some(true));
    p := new SlsProducer(opts, crypto, Oversized);
    ghost var taken := p.SendAsWritten(log, date);
    taken := p.SendAsWritten(log, date);
  }
}
