/** The records of src/types.d.ts: the options and the log, log-group and content records. */
module SlsTypes {
  import opened Common

  /** Connection options; `None` is an option left out. */
  datatype SlsOptions = SlsOptions(
    accessKey: string,
    accessSecret: string,
    endpoint: string,
    logstore: string,
    source: Option<string>,
    topic: Option<string>,
    hashkey: Option<string>,
    compress: Option<bool>)

  datatype LogContent = LogContent(key: string, value: string)

  datatype LogTag = LogTag(key: string, value: string)

  /** One record: a UNIX time in seconds and its key/value contents in order. */
  datatype Log = Log(time: int, contents: seq<LogContent>)

  datatype LogGroup = LogGroup(
    logs: seq<Log>,
    category: Option<string>,
    topic: Option<string>,
    source: Option<string>,
    machineUuid: Option<string>,
    logTags: Option<seq<LogTag>>)

  /** JavaScript truthiness of an optional string: present and not empty. */
  predicate TruthyString(s: Option<string>)
  {
    s.Some? && |s.value| > 0
  }

  /** JavaScript truthiness of an optional boolean. */
  predicate TruthyBool(b: Option<bool>)
  {
    b == Some(true)
  }
}
