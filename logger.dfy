/**
 * The SlsLogger class of src/index.ts. Until the logstore metadata request
 * settles, the producer is PENDING and records are queued; the request's
 * outcome makes it READY (records go to the producer) or UNAVAILABLE
 * (records go to the console, which is not modelled), and the queue is then
 * flushed through `raw` in order.
 */
module Logger {
  import opened Common
  import opened Dict
  import D = Dict
  import opened SlsTypes
  import opened SlsRequest
  import opened SlsResponse
  import opened Levels
  import opened Records
  import opened Producer

  datatype ProducerState = Pending | Ready | Unavailable

  /** SlsLoggerOptions: the producer's options and the `level` option. */
  datatype LoggerOptions = LoggerOptions(sls: SlsOptions, level: LevelOption)

  /**
   * The state the metadata handshake leaves: READY when the response's
   * `logstoreName` is the configured logstore, UNAVAILABLE on any other value
   * or a rejection. None: the fulfilment handler reads a property of
   * undefined or null and throws, so neither the state is set nor the flush
   * runs.
   */
  function HandshakeState(outcome: Outcome, logstore: string): Option<ProducerState>
  {
    match outcome
    case Rejected(_) => Some(Unavailable)
    case Fulfilled(None) => None
    case Fulfilled(Some(rs)) =>
      match Property(rs, "logstoreName")
      case Throws => None
      case Read(name) => Some(if name == Some(JString(logstore)) then Ready else Unavailable)
  }

  /** READY exactly when the fulfilled value is an object whose `logstoreName` is the logstore. */
  lemma HandshakeReady(outcome: Outcome, logstore: string)
    ensures HandshakeState(outcome, logstore) == Some(Ready)
            <==> outcome.Fulfilled? && outcome.value.Some? && outcome.value.value.JObject?
                 && "logstoreName" in outcome.value.value.fields
                 && outcome.value.value.fields["logstoreName"] == JString(logstore)
  {
    if outcome.Fulfilled? && outcome.value.Some? {
      var rs := outcome.value.value;
      if rs.JObject? && "logstoreName" in rs.fields {
        assert Property(rs, "logstoreName") == Read(Some(rs.fields["logstoreName"]));
      }
    }
  }

  /** The outcome of getLogstore's classification always settles the handshake. */
  lemma GetLogstoreSettles(body: string, parse: string -> Option<Json>, logstore: string)
    ensures HandshakeState(ClassifyGet(body, parse), logstore).Some?
  {
    GetRejects(body, parse);
    var outcome := ClassifyGet(body, parse);
    if outcome.Fulfilled? {
      SettleCases(parse(body).value);
    }
  }

  /** The logs `raw` sends for queued records, in order, all stamped with the same second. */
  function QueuedLogs(queue: seq<Data>, nowMs: int): seq<Log>
    decreases |queue|
  {
    if queue == [] then [] else QueuedLogs(queue[..|queue| - 1], nowMs) + [Log(nowMs / 1000, Contents(queue[|queue| - 1]))]
  }

  /** One log per queued record, in queue order. */
  lemma {:induction false} QueuedLogsSpec(queue: seq<Data>, nowMs: int)
    ensures |QueuedLogs(queue, nowMs)| == |queue|
    ensures forall i :: 0 <= i < |queue| ==> QueuedLogs(queue, nowMs)[i] == Log(nowMs / 1000, Contents(queue[i]))
    decreases |queue|
  {
    if queue != [] {
      QueuedLogsSpec(queue[..|queue| - 1], nowMs);
    }
  }

  /** The getLogstore request, seen from the logger: the signed GET of the logstore's resource. */
  method MetadataRequest(opts: SlsOptions, crypto: Crypto, date: string) returns (req: Request)
    ensures req.verb == "GET" && req.path == LogstoreResource(opts.logstore)
    ensures SignedGet(opts, crypto, req, date)
  {
    req := GetLogstoreRequest(opts, crypto, date);
  }

  class SlsLogger {
    /** `this.level`: records below it are dropped. */
    const threshold: int
    const logstore: string
    const producer: SlsProducer
    /** The getLogstore request the constructor sends. */
    const metadataRequest: Request

    var queue: seq<Data>
    var state: ProducerState

    /** The producer keeps its own invariant. */
    ghost predicate Sound()
      reads producer
    {
      producer.Valid() && producer.Settled()
    }

    /** Once the handshake has settled nothing is queued any more. */
    ghost predicate Valid()
      reads this`queue, this`state, producer
    {
      Sound() && (state != Pending ==> queue == [])
    }

    constructor(opts: LoggerOptions, crypto: Crypto, encode: LogGroup -> seq<byte>, date: string)
      ensures Valid() && state == Pending && queue == []
      ensures threshold == ResolveThreshold(opts.level) && logstore == opts.sls.logstore
      ensures fresh(producer) && producer.options == opts.sls && producer.sent == [] && producer.outbox == []
      ensures metadataRequest.verb == "GET" && metadataRequest.path == LogstoreResource(opts.sls.logstore)
      ensures SignedGet(opts.sls, crypto, metadataRequest, date)
    {
      threshold := ResolveThreshold(opts.level);
      logstore := opts.sls.logstore;
      var request := MetadataRequest(opts.sls, crypto, date);
      metadataRequest := request;
      producer := new SlsProducer(opts.sls, crypto, encode);
      queue := [];
      state := Pending;
    }

    /** `raw`: queue while PENDING, send one log when READY, nothing else when UNAVAILABLE. */
    method Raw(data: Data, nowMs: int, date: string)
      requires Sound()
      modifies this`queue, producer
      ensures Sound()
      ensures queue == old(queue) + if state == Pending then [data] else []
      ensures producer.sent == old(producer.sent) + if state == Ready then [SlsTypes.Log(nowMs / 1000, Contents(data))] else []
      ensures state != Ready ==> unchanged(producer)
    {
      match state
      case Ready =>
        var _ := producer.Send(SlsTypes.Log(nowMs / 1000, Contents(data)), date);
      case Pending =>
        queue := queue + [data];
      case Unavailable =>
    }

    /**
     * `log`: resolve the level, drop the record below the threshold, else
     * build the dictionary and pass it to `raw`.
     */
    method Log<T>(level: CallLevel, message: Message, extra: seq<Extra<T>>, obj2str: T -> string,
                  nowMs: int, date: string)
      requires Valid()
      modifies this`queue, producer
      ensures Valid()
      ensures !Passes(Normalize(level), threshold) ==> queue == old(queue) && unchanged(producer)
      ensures Passes(Normalize(level), threshold) && state == Pending
              ==> queue == old(queue) + [Record(Normalize(level), MessageText(message), extra, obj2str)]
                  && unchanged(producer)
      ensures Passes(Normalize(level), threshold) && state == Ready
              ==> queue == old(queue)
                  && D.Valid(Record(Normalize(level), MessageText(message), extra, obj2str))
                  && producer.sent
                     == old(producer.sent) + [SlsTypes.Log(nowMs / 1000, Contents(Record(Normalize(level), MessageText(message), extra, obj2str)))]
      ensures state == Unavailable ==> queue == old(queue) && unchanged(producer)
    {
      var l := Normalize(level);
      if l.level < threshold {
        return;
      }
      var data := BuildRecord(l, MessageText(message), extra, obj2str);
      RecordValues(l, MessageText(message), extra, obj2str);
      Raw(data, nowMs, date);
    }

    /** The first continuation of the getLogstore promise: settle the state from the outcome. */
    method Handshake(outcome: Outcome, nowMs: int, date: string)
      requires Valid() && state == Pending
      modifies this`queue, this`state, producer
      ensures Valid()
      ensures HandshakeState(outcome, logstore).None? ==> state == Pending && queue == old(queue) && unchanged(producer)
      ensures HandshakeState(outcome, logstore).Some? ==> state == HandshakeState(outcome, logstore).value && queue == []
      ensures producer.sent == old(producer.sent) + if state == Ready then QueuedLogs(old(queue), nowMs) else []
      ensures state != Ready ==> unchanged(producer)
    {
      var next := HandshakeState(outcome, logstore);
      if next.None? {
        return;
      }
      state := next.value;
      Flush(nowMs, date);
    }

    /** The second continuation: pass every queued record to `raw`, in order, then empty the queue. */
    method Flush(nowMs: int, date: string)
      requires Sound() && state != Pending
      modifies this`queue, producer
      ensures Valid() && queue == []
      ensures producer.sent == old(producer.sent) + if state == Ready then QueuedLogs(old(queue), nowMs) else []
      ensures state != Ready ==> unchanged(producer)
    {
      var items := queue;
      for i := 0 to |items|
        invariant Sound() && queue == items
        invariant producer.sent == old(producer.sent) + if state == Ready then QueuedLogs(items[..i], nowMs) else []
        invariant state != Ready ==> unchanged(producer)
      {
        assert items[..i + 1][..i] == items[..i];
        if state == Ready {
          AppendAssoc(old(producer.sent), QueuedLogs(items[..i], nowMs), [SlsTypes.Log(nowMs / 1000, Contents(items[i]))]);
        }
        Raw(items[i], nowMs, date);
      }
      assert items[..|items|] == items;
      queue := [];
    }
  }
}
