/**
 * The two requests of src/slsProducer.ts, as the values they are built from:
 * the header dictionary and the string that is signed with HMAC-SHA1.
 *
 * The signed string follows the service's canonical form: the verb, the
 * Content-MD5, Content-Type and Date values, then one `name:value` line per
 * `x-log-` header in order of name, then the resource. CanonicalSignString
 * computes that form from a request's headers; both builders are proved to
 * sign exactly it.
 */
module SlsRequest {
  import opened Common
  import opened Dict
  import opened SlsTypes

  const ApiVersion: string := "0.6.0"
  const SignatureMethod: string := "hmac-sha1"
  const ProtobufType: string := "application/x-protobuf"

  /** The headers this client sets. */
  datatype HeaderName =
    | ContentType | ContentLength | ContentMd5 | Date | Authorization
    | ApiVersionHeader | SignatureMethodHeader | BodyRawSizeHeader | CompressTypeHeader | HashKeyHeader

  const LogPrefix: string := "x-log-"

  /** The name of a header on the wire. */
  function WireName(h: HeaderName): string
  {
    match h
    case ContentType => "Content-Type"
    case ContentLength => "Content-Length"
    case ContentMd5 => "Content-MD5"
    case Date => "Date"
    case Authorization => "Authorization"
    case ApiVersionHeader => LogPrefix + "apiversion"
    case SignatureMethodHeader => LogPrefix + "signaturemethod"
    case BodyRawSizeHeader => LogPrefix + "bodyrawsize"
    case CompressTypeHeader => LogPrefix + "compresstype"
    case HashKeyHeader => LogPrefix + "hashkey"
  }

  datatype HeaderValue = Text(text: string) | Number(number: nat)

  type Headers = Dict<HeaderName, HeaderValue>

  /** The foreign primitives: MD5, HMAC-SHA1 keyed by the secret, and base64. */
  datatype Crypto = Crypto(
    md5: seq<byte> -> seq<byte>,
    hmacSha1: (string, string) -> seq<byte>,
    base64: seq<byte> -> string)

  datatype Request = Request(verb: string, path: string, headers: Headers, signString: string, body: seq<byte>)

  /** How a header value is rendered: a number in decimal. */
  function Render(v: HeaderValue): string
  {
    match v
    case Text(s) => s
    case Number(n) => NatToString(n)
  }

  // ---------------------------------------------------------------- the canonical form

  /** A line of a string to sign: a bare value, or a header as `name:value`. */
  datatype Line = Plain(text: string) | HeaderEntry(name: HeaderName, value: HeaderValue)

  function RenderLine(l: Line): string
  {
    match l
    case Plain(t) => t
    case HeaderEntry(n, v) => WireName(n) + ":" + Render(v)
  }

  /** The lines, each followed by a newline. */
  function Lines(ls: seq<Line>): string
    decreases |ls|
  {
    if ls == [] then "" else RenderLine(ls[0]) + "\n" + Lines(ls[1..])
  }

  /** The `x-log-` headers this client sets, in increasing order of name. */
  const LogHeaderNames: seq<HeaderName> :=
    [ApiVersionHeader, BodyRawSizeHeader, CompressTypeHeader, HashKeyHeader, SignatureMethodHeader]

  predicate IsLogHeader(name: string)
  {
    |name| >= |LogPrefix| && name[..|LogPrefix|] == LogPrefix
  }

  /** Strict lexicographic order on strings, by character code. */
  predicate Before(a: string, b: string)
    decreases |a|
  {
    (a == [] && b != []) || (a != [] && b != [] && (a[0] < b[0] || (a[0] == b[0] && Before(a[1..], b[1..]))))
  }

  lemma {:induction false} BeforeAfterCommonPrefix(p: string, a: string, b: string)
    requires Before(a, b)
    ensures Before(p + a, p + b)
    decreases |p|
  {
    if p == [] {
      assert p + a == a && p + b == b;
    } else {
      BeforeAfterCommonPrefix(p[1..], a, b);
      assert (p + a)[1..] == p[1..] + a && (p + b)[1..] == p[1..] + b;
    }
  }

  /**
   * The list holds exactly the headers whose wire names start with `x-log-`,
   * and in increasing order of wire name.
   */
  lemma LogHeaderNamesSorted()
    ensures forall h :: h in LogHeaderNames <==> IsLogHeader(WireName(h))
    ensures forall i :: 0 < i < |LogHeaderNames| ==> Before(WireName(LogHeaderNames[i - 1]), WireName(LogHeaderNames[i]))
  {
    var suffixes := ["apiversion", "bodyrawsize", "compresstype", "hashkey", "signaturemethod"];
    forall i | 0 <= i < |LogHeaderNames| ensures IsLogHeader(WireName(LogHeaderNames[i])) {
      assert WireName(LogHeaderNames[i]) == LogPrefix + suffixes[i];
      assert (LogPrefix + suffixes[i])[..|LogPrefix|] == LogPrefix;
    }
    forall h | h !in LogHeaderNames ensures !IsLogHeader(WireName(h)) {
      var w := WireName(h);
      if |w| >= |LogPrefix| {
        assert w[0] != LogPrefix[0];
        assert w[..|LogPrefix|][0] == w[0];
      }
    }
    forall i | 0 < i < |LogHeaderNames| ensures Before(WireName(LogHeaderNames[i - 1]), WireName(LogHeaderNames[i])) {
      assert suffixes[i - 1][0] < suffixes[i][0];
      BeforeAfterCommonPrefix(LogPrefix, suffixes[i - 1], suffixes[i]);
    }
  }

  /** `name:value` when the headers hold `name`, else nothing. */
  function HeaderLine(headers: Headers, name: HeaderName): seq<Line>
  {
    match Get(headers, name)
    case Some(v) => [HeaderEntry(name, v)]
    case None => []
  }

  /** One `name:value` line for each of `names` that the headers hold. */
  function LogHeaderLines(headers: Headers, names: seq<HeaderName>): (r: seq<Line>)
    ensures |r| <= |names|
    decreases |names|
  {
    if names == [] then [] else HeaderLine(headers, names[0]) + LogHeaderLines(headers, names[1..])
  }

  lemma LogHeaderLinesUnrolled(headers: Headers)
    ensures LogHeaderLines(headers, LogHeaderNames)
            == HeaderLine(headers, ApiVersionHeader) + (HeaderLine(headers, BodyRawSizeHeader)
               + (HeaderLine(headers, CompressTypeHeader) + (HeaderLine(headers, HashKeyHeader)
               + HeaderLine(headers, SignatureMethodHeader))))
  {
    var ns := LogHeaderNames;
    assert ns[1..][1..][1..][1..][1..] == [];
    assert LogHeaderLines(headers, ns[1..][1..][1..][1..]) == HeaderLine(headers, SignatureMethodHeader) + [];
  }

  function TextOf(v: Option<HeaderValue>): string
  {
    match v
    case Some(h) => Render(h)
    case None => ""
  }

  /** The lines of the canonical string to sign, before the resource. */
  function CanonicalLines(verb: string, headers: Headers): seq<Line>
  {
    [Plain(verb), Plain(TextOf(Get(headers, ContentMd5))), Plain(TextOf(Get(headers, ContentType))),
     Plain(TextOf(Get(headers, Date)))]
    + LogHeaderLines(headers, LogHeaderNames)
  }

  /** The canonical string to sign for a request with these headers. */
  function CanonicalSignString(verb: string, headers: Headers, resource: string): string
  {
    Lines(CanonicalLines(verb, headers)) + resource
  }

  function AuthorizationValue(accessKey: string, signature: string): string
  {
    "LOG " + accessKey + ":" + signature
  }

  /** The MD5 of the body as upper-case hexadecimal. */
  function BodyMd5(crypto: Crypto, body: seq<byte>): (r: string)
    ensures |r| == 2 * |crypto.md5(body)|
    ensures forall i :: 0 <= i < |r| ==> !('a' <= r[i] <= 'z')
    ensures forall i :: 0 <= i < |crypto.md5(body)| ==> 16 * HexValue(r[2 * i]) + HexValue(r[2 * i + 1]) == crypto.md5(body)[i]
  {
    var h := Hex(crypto.md5(body));
    assert forall k :: 0 <= k < |h| ==> HexValue(UpperChar(h[k])) == HexValue(h[k]);
    ToUpperAscii(h)
  }

  // ---------------------------------------------------------------- getLogstore

  function LogstoreResource(logstore: string): string
  {
    "/logstores/" + logstore
  }

  /** The lines getLogstore signs before the resource: the verb, two empty lines, the date, two options. */
  function GetLogstoreLines(date: string): seq<Line>
  {
    [Plain("GET"), Plain(""), Plain(""), Plain(date),
     HeaderEntry(ApiVersionHeader, Text(ApiVersion)), HeaderEntry(SignatureMethodHeader, Text(SignatureMethod))]
  }

  function GetLogstoreSignString(date: string, resource: string): string
  {
    Lines(GetLogstoreLines(date)) + resource
  }

  /** The canonical form of headers holding exactly the GET headers is GetLogstoreSignString. */
  lemma GetLogstoreCanonical(date: string, resource: string, headers: Headers)
    requires Get(headers, ContentMd5) == None && Get(headers, ContentType) == None
    requires Get(headers, Date) == Some(Text(date))
    requires Get(headers, ApiVersionHeader) == Some(Text(ApiVersion))
    requires Get(headers, BodyRawSizeHeader) == None && Get(headers, CompressTypeHeader) == None
    requires Get(headers, HashKeyHeader) == None
    requires Get(headers, SignatureMethodHeader) == Some(Text(SignatureMethod))
    ensures CanonicalLines("GET", headers) == GetLogstoreLines(date)
    ensures CanonicalSignString("GET", headers, resource) == GetLogstoreSignString(date, resource)
  {
    LogHeaderLinesUnrolled(headers);
    var apiLine := HeaderEntry(ApiVersionHeader, Text(ApiVersion));
    var signatureLine := HeaderEntry(SignatureMethodHeader, Text(SignatureMethod));
    assert LogHeaderLines(headers, LogHeaderNames) == [apiLine, signatureLine];
    var top := [Plain("GET"), Plain(""), Plain(""), Plain(date)];
    assert top + [apiLine, signatureLine] == GetLogstoreLines(date);
  }

  /** The value getLogstore gives each header before it signs, or None for a header it leaves unset. */
  function GetLogstoreHeader(n: HeaderName, date: string): Option<HeaderValue>
  {
    match n
    case Date => Some(Text(date))
    case ApiVersionHeader => Some(Text(ApiVersion))
    case SignatureMethodHeader => Some(Text(SignatureMethod))
    case _ => None
  }

  /** The headers getLogstore sets, one by one. */
  lemma GetLogstoreHeaderValues(date: string, headers: Headers)
    requires forall n :: n != Authorization ==> Get(headers, n) == GetLogstoreHeader(n, date)
    ensures Get(headers, ContentMd5) == None && Get(headers, ContentType) == None
    ensures Get(headers, Date) == Some(Text(date))
    ensures Get(headers, ApiVersionHeader) == Some(Text(ApiVersion))
    ensures Get(headers, BodyRawSizeHeader) == None && Get(headers, CompressTypeHeader) == None
    ensures Get(headers, HashKeyHeader) == None
    ensures Get(headers, SignatureMethodHeader) == Some(Text(SignatureMethod))
  {
    assert Get(headers, ContentMd5) == GetLogstoreHeader(ContentMd5, date);
    assert Get(headers, ContentType) == GetLogstoreHeader(ContentType, date);
    assert Get(headers, Date) == GetLogstoreHeader(Date, date);
    assert Get(headers, ApiVersionHeader) == GetLogstoreHeader(ApiVersionHeader, date);
    assert Get(headers, BodyRawSizeHeader) == GetLogstoreHeader(BodyRawSizeHeader, date);
    assert Get(headers, CompressTypeHeader) == GetLogstoreHeader(CompressTypeHeader, date);
    assert Get(headers, HashKeyHeader) == GetLogstoreHeader(HashKeyHeader, date);
    assert Get(headers, SignatureMethodHeader) == GetLogstoreHeader(SignatureMethodHeader, date);
  }

  /** The order in which getLogstore first assigns its headers before it signs. */
  const GetLogstoreKeys: seq<HeaderName> := [Date, ApiVersionHeader, SignatureMethodHeader]

  /** The header dictionary of getLogstore before it is signed. */
  method GetLogstoreHeaders(date: string) returns (headers: Headers)
    ensures headers.keys == GetLogstoreKeys
    ensures forall n :: Get(headers, n) == GetLogstoreHeader(n, date)
  {
    headers := Dict(
      [Date, ApiVersionHeader, SignatureMethodHeader],
      map[Date := Text(date), ApiVersionHeader := Text(ApiVersion), SignatureMethodHeader := Text(SignatureMethod)]);
    forall n ensures Get(headers, n) == GetLogstoreHeader(n, date) {
      match n
      case Date =>
      case ApiVersionHeader =>
      case SignatureMethodHeader =>
      case _ =>
    }
  }

  /** The headers and signature of `GET /logstores/<name>`. */
  method GetLogstoreRequest(opts: SlsOptions, crypto: Crypto, date: string) returns (req: Request)
    ensures SignedGet(opts, crypto, req, date)
  {
    var resource := LogstoreResource(opts.logstore);
    var headers := GetLogstoreHeaders(date);
    var signString := GetLogstoreSignString(date, resource);
    var sign := crypto.base64(crypto.hmacSha1(opts.accessSecret, signString));
    assert Get(headers, Authorization) == None;
    headers := Set(headers, Authorization, Text(AuthorizationValue(opts.accessKey, sign)));
    GetLogstoreHeaderValues(date, headers);
    GetLogstoreCanonical(date, resource, headers);
    req := Request("GET", resource, headers, signString, []);
  }

  /**
   * The signed `GET /logstores/<name>` at `date`: the headers getLogstore sets,
   * in its order, then Authorization; `LOG <key>:<sign>` over the string that
   * is the canonical form of those headers.
   */
  ghost predicate SignedGet(opts: SlsOptions, crypto: Crypto, req: Request, date: string)
  {
    && req.verb == "GET" && req.path == LogstoreResource(opts.logstore) && req.body == []
    && req.headers.keys == GetLogstoreKeys + [Authorization]
    && (forall n {:trigger GetLogstoreHeader(n, date)} :: n != Authorization ==> Get(req.headers, n) == GetLogstoreHeader(n, date))
    && Get(req.headers, Authorization)
       == Some(Text(AuthorizationValue(opts.accessKey, crypto.base64(crypto.hmacSha1(opts.accessSecret, req.signString)))))
    && req.signString == GetLogstoreSignString(date, req.path)
    && req.signString == CanonicalSignString("GET", req.headers, req.path)
  }

  // ---------------------------------------------------------------- putLogs

  const CompressTypeLz4: string := "lz4"

  /** `/logstores/<name>/shards/lb`, where records are posted. */
  function ShardResource(logstore: string): string
  {
    "/logstores/" + logstore + "/shards/lb"
  }

  /**
   * The string putLogs signs: the verb, the body's MD5, the content type, the
   * date, the API version and raw size, the compression type when compressing,
   * the hash key when one is set, the signature method, then the resource.
   */
  function PutLogsLines(bodyMd5: string, date: string, rawLength: nat, compress: bool,
                        hashkey: Option<string>): seq<Line>
  {
    [Plain("POST"), Plain(bodyMd5), Plain(ProtobufType), Plain(date),
     HeaderEntry(ApiVersionHeader, Text(ApiVersion)), HeaderEntry(BodyRawSizeHeader, Number(rawLength))]
    + Optional(compress, HeaderEntry(CompressTypeHeader, Text(CompressTypeLz4)))
    + HashKeyLine(hashkey)
    + [HeaderEntry(SignatureMethodHeader, Text(SignatureMethod))]
  }

  /** The hash-key line, present when the option is a non-empty string. */
  function HashKeyLine(hashkey: Option<string>): (r: seq<Line>)
    ensures TruthyString(hashkey) ==> r == [HeaderEntry(HashKeyHeader, Text(hashkey.value))]
    ensures !TruthyString(hashkey) ==> r == []
  {
    if TruthyString(hashkey) then [HeaderEntry(HashKeyHeader, Text(hashkey.value))] else []
  }

  function PutLogsSignString(bodyMd5: string, date: string, rawLength: nat, compress: bool,
                             hashkey: Option<string>, resource: string): string
  {
    Lines(PutLogsLines(bodyMd5, date, rawLength, compress, hashkey)) + resource
  }

  /** The `x-log-` lines of headers holding the POST headers. */
  lemma PutLogsHeaderLines(rawLength: nat, compress: bool, hashkey: Option<string>, headers: Headers)
    requires Get(headers, ApiVersionHeader) == Some(Text(ApiVersion))
    requires Get(headers, BodyRawSizeHeader) == Some(Number(rawLength))
    requires Get(headers, CompressTypeHeader) == if compress then Some(Text(CompressTypeLz4)) else None
    requires Get(headers, HashKeyHeader) == if TruthyString(hashkey) then Some(Text(hashkey.value)) else None
    requires Get(headers, SignatureMethodHeader) == Some(Text(SignatureMethod))
    ensures LogHeaderLines(headers, LogHeaderNames)
            == [HeaderEntry(ApiVersionHeader, Text(ApiVersion)), HeaderEntry(BodyRawSizeHeader, Number(rawLength))]
               + Optional(compress, HeaderEntry(CompressTypeHeader, Text(CompressTypeLz4)))
               + HashKeyLine(hashkey)
               + [HeaderEntry(SignatureMethodHeader, Text(SignatureMethod))]
  {
    LogHeaderLinesUnrolled(headers);
    var api := HeaderLine(headers, ApiVersionHeader);
    var raw := HeaderLine(headers, BodyRawSizeHeader);
    var ct := HeaderLine(headers, CompressTypeHeader);
    var hk := HeaderLine(headers, HashKeyHeader);
    var sig := HeaderLine(headers, SignatureMethodHeader);
    assert ct == Optional(compress, HeaderEntry(CompressTypeHeader, Text(CompressTypeLz4)));
    assert hk == HashKeyLine(hashkey);
    assert api + raw == [HeaderEntry(ApiVersionHeader, Text(ApiVersion)), HeaderEntry(BodyRawSizeHeader, Number(rawLength))];
    AppendAssoc(hk, sig, []);
    AppendAssoc(ct, hk, sig);
    AppendAssoc(api + raw, ct, hk + sig);
    AppendAssoc(api + raw + ct, hk, sig);
    AppendAssoc(api, raw, ct + (hk + sig));
  }

  /** The value putLogs gives each header before it signs, or None for a header it leaves unset. */
  function PutLogsHeader(n: HeaderName, bodyMd5: string, bodyLength: nat, rawLength: nat, date: string,
                         compress: bool, hashkey: Option<string>): Option<HeaderValue>
  {
    match n
    case ContentType => Some(Text(ProtobufType))
    case ContentLength => Some(Number(bodyLength))
    case ContentMd5 => Some(Text(bodyMd5))
    case Date => Some(Text(date))
    case ApiVersionHeader => Some(Text(ApiVersion))
    case SignatureMethodHeader => Some(Text(SignatureMethod))
    case BodyRawSizeHeader => Some(Number(rawLength))
    case CompressTypeHeader => if compress then Some(Text(CompressTypeLz4)) else None
    case HashKeyHeader => if TruthyString(hashkey) then Some(Text(hashkey.value)) else None
    case Authorization => None
  }

  /** The order in which putLogs first assigns its headers before it signs. */
  function PutLogsKeys(compress: bool, hashkey: Option<string>): seq<HeaderName>
  {
    [ContentType, ContentLength, ContentMd5, Date, ApiVersionHeader, SignatureMethodHeader, BodyRawSizeHeader]
    + Optional(compress, CompressTypeHeader) + Optional(TruthyString(hashkey), HashKeyHeader)
  }

  /** The header dictionary of putLogs before it is signed. */
  method PutLogsHeaders(bodyMd5: string, bodyLength: nat, rawLength: nat, date: string, compress: bool,
                        hashkey: Option<string>) returns (headers: Headers)
    ensures headers.keys == PutLogsKeys(compress, hashkey)
    ensures forall n :: Get(headers, n) == PutLogsHeader(n, bodyMd5, bodyLength, rawLength, date, compress, hashkey)
  {
    headers := Dict(
      [ContentType, ContentLength, ContentMd5, Date, ApiVersionHeader, SignatureMethodHeader, BodyRawSizeHeader],
      map[ContentType := Text(ProtobufType), ContentLength := Number(bodyLength), ContentMd5 := Text(bodyMd5),
          Date := Text(date), ApiVersionHeader := Text(ApiVersion), SignatureMethodHeader := Text(SignatureMethod),
          BodyRawSizeHeader := Number(rawLength)]);
    assert HashKeyHeader !in headers.values && CompressTypeHeader !in headers.values;
    if compress {
      headers := Set(headers, BodyRawSizeHeader, Number(rawLength));
      headers := Set(headers, CompressTypeHeader, Text(CompressTypeLz4));
    }
    if TruthyString(hashkey) {
      headers := Set(headers, HashKeyHeader, Text(hashkey.value));
    }
    forall n ensures Get(headers, n) == PutLogsHeader(n, bodyMd5, bodyLength, rawLength, date, compress, hashkey) {
      match n
      case CompressTypeHeader =>
      case HashKeyHeader =>
      case _ =>
    }
  }

  /** The headers putLogs sets, one by one. */
  lemma PutLogsHeaderValues(bodyMd5: string, bodyLength: nat, date: string, rawLength: nat, compress: bool,
                            hashkey: Option<string>, headers: Headers)
    requires forall n :: n != Authorization ==>
               Get(headers, n) == PutLogsHeader(n, bodyMd5, bodyLength, rawLength, date, compress, hashkey)
    ensures Get(headers, ContentMd5) == Some(Text(bodyMd5))
    ensures Get(headers, ContentType) == Some(Text(ProtobufType))
    ensures Get(headers, Date) == Some(Text(date))
    ensures Get(headers, ApiVersionHeader) == Some(Text(ApiVersion))
    ensures Get(headers, BodyRawSizeHeader) == Some(Number(rawLength))
    ensures Get(headers, CompressTypeHeader) == if compress then Some(Text(CompressTypeLz4)) else None
    ensures Get(headers, HashKeyHeader) == if TruthyString(hashkey) then Some(Text(hashkey.value)) else None
    ensures Get(headers, SignatureMethodHeader) == Some(Text(SignatureMethod))
  {
    assert Get(headers, ContentMd5) == PutLogsHeader(ContentMd5, bodyMd5, bodyLength, rawLength, date, compress, hashkey);
    assert Get(headers, ContentType) == PutLogsHeader(ContentType, bodyMd5, bodyLength, rawLength, date, compress, hashkey);
    assert Get(headers, Date) == PutLogsHeader(Date, bodyMd5, bodyLength, rawLength, date, compress, hashkey);
    assert Get(headers, ApiVersionHeader) == PutLogsHeader(ApiVersionHeader, bodyMd5, bodyLength, rawLength, date, compress, hashkey);
    assert Get(headers, BodyRawSizeHeader) == PutLogsHeader(BodyRawSizeHeader, bodyMd5, bodyLength, rawLength, date, compress, hashkey);
    assert Get(headers, CompressTypeHeader) == PutLogsHeader(CompressTypeHeader, bodyMd5, bodyLength, rawLength, date, compress, hashkey);
    assert Get(headers, HashKeyHeader) == PutLogsHeader(HashKeyHeader, bodyMd5, bodyLength, rawLength, date, compress, hashkey);
    assert Get(headers, SignatureMethodHeader) == PutLogsHeader(SignatureMethodHeader, bodyMd5, bodyLength, rawLength, date, compress, hashkey);
  }

  /** The canonical form of headers holding exactly the POST headers is PutLogsSignString. */
  lemma PutLogsCanonical(bodyMd5: string, date: string, rawLength: nat, compress: bool,
                         hashkey: Option<string>, resource: string, headers: Headers)
    requires Get(headers, ContentMd5) == Some(Text(bodyMd5))
    requires Get(headers, ContentType) == Some(Text(ProtobufType))
    requires Get(headers, Date) == Some(Text(date))
    requires Get(headers, ApiVersionHeader) == Some(Text(ApiVersion))
    requires Get(headers, BodyRawSizeHeader) == Some(Number(rawLength))
    requires Get(headers, CompressTypeHeader) == if compress then Some(Text(CompressTypeLz4)) else None
    requires Get(headers, HashKeyHeader) == if TruthyString(hashkey) then Some(Text(hashkey.value)) else None
    requires Get(headers, SignatureMethodHeader) == Some(Text(SignatureMethod))
    ensures CanonicalLines("POST", headers) == PutLogsLines(bodyMd5, date, rawLength, compress, hashkey)
    ensures CanonicalSignString("POST", headers, resource)
            == PutLogsSignString(bodyMd5, date, rawLength, compress, hashkey, resource)
  {
    PutLogsHeaderLines(rawLength, compress, hashkey, headers);
    var top := [Plain("POST"), Plain(bodyMd5), Plain(ProtobufType), Plain(date)];
    var opts := [HeaderEntry(ApiVersionHeader, Text(ApiVersion)), HeaderEntry(BodyRawSizeHeader, Number(rawLength))];
    var ct := Optional(compress, HeaderEntry(CompressTypeHeader, Text(CompressTypeLz4)));
    var hk := HashKeyLine(hashkey);
    var sig := [HeaderEntry(SignatureMethodHeader, Text(SignatureMethod))];
    AppendAssoc(opts + ct, hk, sig);
    AppendAssoc(top, opts + ct + hk, sig);
    AppendAssoc(top, opts + ct, hk);
    AppendAssoc(top, opts, ct);
    assert CanonicalLines("POST", headers) == top + LogHeaderLines(headers, LogHeaderNames);
  }

  /**
   * `req` is the POST putLogs sends for its body, whose encoding before
   * compression is `rawLength` bytes, at `date`: the shard resource, every
   * header putLogs sets in its order, and `LOG key:sign` over the canonical
   * string of those headers.
   */
  ghost predicate CanonicalPost(opts: SlsOptions, crypto: Crypto, req: Request, rawLength: nat, date: string)
  {
    && req.verb == "POST" && req.path == ShardResource(opts.logstore)
    && req.headers.keys == PutLogsKeys(TruthyBool(opts.compress), opts.hashkey) + [Authorization]
    && (forall n {:trigger PutLogsHeader(n, BodyMd5(crypto, req.body), |req.body|, rawLength, date, TruthyBool(opts.compress), opts.hashkey)}
          :: n != Authorization ==>
          Get(req.headers, n)
          == PutLogsHeader(n, BodyMd5(crypto, req.body), |req.body|, rawLength, date, TruthyBool(opts.compress), opts.hashkey))
    && Get(req.headers, Authorization)
       == Some(Text(AuthorizationValue(opts.accessKey, crypto.base64(crypto.hmacSha1(opts.accessSecret, req.signString)))))
    && req.signString == CanonicalSignString("POST", req.headers, req.path)
  }

  /** A canonical POST whose signed string is also the one putLogs builds line by line. */
  ghost predicate SignedPost(opts: SlsOptions, crypto: Crypto, req: Request, rawLength: nat, date: string)
  {
    && CanonicalPost(opts, crypto, req, rawLength, date)
    && req.signString
       == PutLogsSignString(BodyMd5(crypto, req.body), date, rawLength, TruthyBool(opts.compress), opts.hashkey, req.path)
  }

  /** putLogs' line-by-line string is the canonical one: every canonical POST is the signed POST. */
  lemma CanonicalPostIsSigned(opts: SlsOptions, crypto: Crypto, req: Request, rawLength: nat, date: string)
    requires CanonicalPost(opts, crypto, req, rawLength, date)
    ensures SignedPost(opts, crypto, req, rawLength, date)
  {
    var bodyMd5, compress := BodyMd5(crypto, req.body), TruthyBool(opts.compress);
    PutLogsHeaderValues(bodyMd5, |req.body|, date, rawLength, compress, opts.hashkey, req.headers);
    PutLogsCanonical(bodyMd5, date, rawLength, compress, opts.hashkey, req.path, req.headers);
  }

  /** The headers and signature of `POST /logstores/<name>/shards/lb` for a body already encoded. */
  method PutLogsRequest(opts: SlsOptions, crypto: Crypto, body: seq<byte>, rawLength: nat, date: string)
    returns (req: Request)
    ensures req.body == body && SignedPost(opts, crypto, req, rawLength, date)
  {
    var resource := ShardResource(opts.logstore);
    var bodyMd5 := BodyMd5(crypto, body);
    var compress := TruthyBool(opts.compress);
    var unsigned := PutLogsHeaders(bodyMd5, |body|, rawLength, date, compress, opts.hashkey);
    var signString := PutLogsSignString(bodyMd5, date, rawLength, compress, opts.hashkey, resource);
    var sign := crypto.base64(crypto.hmacSha1(opts.accessSecret, signString));
    var headers := Set(unsigned, Authorization, Text(AuthorizationValue(opts.accessKey, sign)));
    req := Request("POST", resource, headers, signString, body);
    SignUnsigned(opts, crypto, unsigned, req, rawLength, date);
  }

  /** Adding `Authorization` to the unsigned POST headers gives the signed POST. */
  lemma SignUnsigned(opts: SlsOptions, crypto: Crypto, unsigned: Headers, req: Request, rawLength: nat, date: string)
    requires unsigned.keys == PutLogsKeys(TruthyBool(opts.compress), opts.hashkey)
    requires forall n :: Get(unsigned, n)
               == PutLogsHeader(n, BodyMd5(crypto, req.body), |req.body|, rawLength, date, TruthyBool(opts.compress), opts.hashkey)
    requires req.verb == "POST" && req.path == ShardResource(opts.logstore)
    requires req.signString
             == PutLogsSignString(BodyMd5(crypto, req.body), date, rawLength, TruthyBool(opts.compress), opts.hashkey, req.path)
    requires req.headers == Set(unsigned, Authorization, Text(AuthorizationValue(opts.accessKey,
                                crypto.base64(crypto.hmacSha1(opts.accessSecret, req.signString)))))
    ensures SignedPost(opts, crypto, req, rawLength, date)
  {
    var bodyMd5, compress := BodyMd5(crypto, req.body), TruthyBool(opts.compress);
    assert Get(unsigned, Authorization) == PutLogsHeader(Authorization, bodyMd5, |req.body|, rawLength, date, compress, opts.hashkey);
    forall n | n != Authorization
      ensures Get(req.headers, n) == PutLogsHeader(n, bodyMd5, |req.body|, rawLength, date, compress, opts.hashkey)
    {
      assert Get(req.headers, n) == Get(unsigned, n);
    }
    PutLogsHeaderValues(bodyMd5, |req.body|, date, rawLength, compress, opts.hashkey, req.headers);
    PutLogsCanonical(bodyMd5, date, rawLength, compress, opts.hashkey, req.path, req.headers);
  }
}
