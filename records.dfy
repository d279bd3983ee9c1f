/**
 * How `log` in src/index.ts assembles the dictionary it hands to `raw`: every
 * SlsField among the extra arguments is assigned as a key, every other extra
 * is rendered and appended to the message after one space, and `level` and
 * `message` are assigned last. `raw` then lists the dictionary's keys in
 * order as the contents of one log.
 */
module Records {
  import opened Common
  import opened Dict
  import opened SlsTypes
  import opened Levels

  /** An extra argument of `log`: an SlsField, or any other value `T`. */
  datatype Extra<T> = Field(key: string, value: string) | Other(item: T)

  /** The message argument: a string, or a function producing it. */
  datatype Message = Literal(text: string) | Deferred(produce: () -> string)

  /** `String(typeof message === "function" ? message() : message)` */
  function MessageText(m: Message): string
  {
    match m
    case Literal(text) => text
    case Deferred(produce) => produce()
  }

  type Data = Dict<string, string>

  /** The dictionary after the SlsField extras have been assigned, in order. */
  function Fields<T>(extra: seq<Extra<T>>): Data
    decreases |extra|
  {
    if extra == [] then Empty()
    else
      var d := Fields(extra[..|extra| - 1]);
      match extra[|extra| - 1]
      case Field(k, v) => Set(d, k, v)
      case Other(_) => d
  }

  /** What the other extras append to the message: `" " + obj2str(item)` each. */
  function Appended<T>(extra: seq<Extra<T>>, obj2str: T -> string): string
    decreases |extra|
  {
    if extra == [] then ""
    else
      Appended(extra[..|extra| - 1], obj2str)
      + match extra[|extra| - 1]
        case Field(_, _) => ""
        case Other(item) => " " + obj2str(item)
  }

  const LevelKey: string := "level"
  const MessageKey: string := "message"

  /** The dictionary `log` builds. */
  function Record<T>(level: LevelRecord, message: string, extra: seq<Extra<T>>, obj2str: T -> string): Data
  {
    Set(Set(Fields(extra), LevelKey, level.name), MessageKey, message + Appended(extra, obj2str))
  }

  /** The keys of the SlsField extras, in argument order, repeats included. */
  function FieldKeys<T>(extra: seq<Extra<T>>): (r: seq<string>)
    ensures forall k :: k in r <==> exists i :: 0 <= i < |extra| && extra[i].Field? && extra[i].key == k
    decreases |extra|
  {
    if extra == [] then []
    else
      var init := extra[..|extra| - 1];
      assert forall i :: 0 <= i < |init| ==> init[i] == extra[i];
      FieldKeys(init) + match extra[|extra| - 1] case Field(k, _) => [k] case Other(_) => []
  }

  /** The value of the last SlsField with key `k`, if any. */
  function LastValue<T>(extra: seq<Extra<T>>, k: string): (r: Option<string>)
    ensures r.Some? ==> Field(k, r.value) in extra
    ensures r.None? ==> forall i :: 0 <= i < |extra| ==> !(extra[i].Field? && extra[i].key == k)
    decreases |extra|
  {
    if extra == [] then None
    else
      var init := extra[..|extra| - 1];
      assert forall i :: 0 <= i < |init| ==> init[i] == extra[i];
      match extra[|extra| - 1]
      case Field(key, v) => if key == k then Some(v) else LastValue(init, k)
      case Other(_) => LastValue(init, k)
  }

  /**
   * The field dictionary lists each field key once, holds the value of the
   * last field with that key, and has no other key.
   */
  lemma {:induction false} FieldsSpec<T>(extra: seq<Extra<T>>)
    ensures Valid(Fields(extra))
    ensures forall k :: k in Fields(extra).keys <==> k in FieldKeys(extra)
    ensures forall k :: Get(Fields(extra), k) == LastValue(extra, k)
    decreases |extra|
  {
    if extra != [] {
      var init := extra[..|extra| - 1];
      FieldsSpec(init);
      match extra[|extra| - 1]
      case Field(k, v) =>
        SetKeepsValid(Fields(init), k, v);
      case Other(_) =>
    }
  }

  /** Assigning more fields only ever adds keys at the end: a key keeps the place of its first assignment. */
  lemma {:induction false} FieldsKeysGrow<T>(extra: seq<Extra<T>>, n: nat)
    requires n <= |extra|
    ensures Fields(extra[..n]).keys <= Fields(extra).keys
    decreases |extra|
  {
    if n < |extra| {
      var init := extra[..|extra| - 1];
      assert init[..n] == extra[..n];
      FieldsKeysGrow(init, n);
    } else {
      assert extra[..n] == extra;
    }
  }

  /** `level` and `message` override any fields with those keys; every other key holds its last field value. */
  lemma RecordValues<T>(level: LevelRecord, message: string, extra: seq<Extra<T>>, obj2str: T -> string)
    ensures Valid(Record(level, message, extra, obj2str))
    ensures Get(Record(level, message, extra, obj2str), LevelKey) == Some(level.name)
    ensures Get(Record(level, message, extra, obj2str), MessageKey) == Some(message + Appended(extra, obj2str))
    ensures forall k :: k != LevelKey && k != MessageKey ==> Get(Record(level, message, extra, obj2str), k) == LastValue(extra, k)
  {
    var f := Fields(extra);
    FieldsSpec(extra);
    SetKeepsValid(f, LevelKey, level.name);
    SetKeepsValid(Set(f, LevelKey, level.name), MessageKey, message + Appended(extra, obj2str));
    assert LevelKey[0] != MessageKey[0];
  }

  /** The record's keys are the field keys, then `level` and `message` unless a field already placed them. */
  lemma RecordKeys<T>(level: LevelRecord, message: string, extra: seq<Extra<T>>, obj2str: T -> string)
    ensures Record(level, message, extra, obj2str).keys
            == Fields(extra).keys + Optional(LevelKey !in FieldKeys(extra), LevelKey)
               + Optional(MessageKey !in FieldKeys(extra), MessageKey)
  {
    FieldsSpec(extra);
    assert LevelKey[0] != MessageKey[0];
  }

  /** Without extras that are not fields, the message is the message argument. */
  lemma {:induction false} OnlyFieldsKeepMessage<T>(extra: seq<Extra<T>>, obj2str: T -> string)
    requires forall i :: 0 <= i < |extra| ==> extra[i].Field?
    ensures Appended(extra, obj2str) == ""
    decreases |extra|
  {
    if extra != [] {
      OnlyFieldsKeepMessage(extra[..|extra| - 1], obj2str);
    }
  }

  /** The loop of `log`: fills `data` and extends the message, then assigns `level` and `message`. */
  method BuildRecord<T>(level: LevelRecord, message: string, extra: seq<Extra<T>>, obj2str: T -> string)
    returns (data: Data)
    ensures data == Record(level, message, extra, obj2str)
  {
    data := Empty();
    var text := message;
    for i := 0 to |extra|
      invariant data == Fields(extra[..i])
      invariant text == message + Appended(extra[..i], obj2str)
    {
      assert extra[..i + 1][..i] == extra[..i];
      match extra[i]
      case Field(k, v) =>
        data := Set(data, k, v);
      case Other(item) =>
        AppendAssoc(message, Appended(extra[..i], obj2str), " " + obj2str(item));
        text := text + " " + obj2str(item);
    }
    assert extra[..|extra|] == extra;
    data := Set(data, LevelKey, level.name);
    data := Set(data, MessageKey, text);
  }

  /**
   * `Object.keys(data).map((k) => ({ Key: k, Value: data[k] }))`. In a valid
   * dictionary every listed key has a value; the empty string stands in for
   * `undefined` otherwise.
   */
  function Contents(data: Data): (r: seq<LogContent>)
    ensures |r| == |data.keys|
    ensures forall i :: 0 <= i < |r| ==> r[i].key == data.keys[i]
    ensures Valid(data) ==> forall i :: 0 <= i < |r| ==> Get(data, r[i].key) == Some(r[i].value)
  {
    seq(|data.keys|, i requires 0 <= i < |data.keys| =>
      LogContent(data.keys[i], if data.keys[i] in data.values then data.values[data.keys[i]] else ""))
  }

  /** The contents of a record end with `level` and `message` when no field used those keys. */
  lemma RecordContentsEnd<T>(level: LevelRecord, message: string, extra: seq<Extra<T>>, obj2str: T -> string)
    requires LevelKey !in FieldKeys(extra) && MessageKey !in FieldKeys(extra)
    ensures Valid(Record(level, message, extra, obj2str))
    ensures var c := Contents(Record(level, message, extra, obj2str));
            |c| >= 2
            && c[|c| - 2] == LogContent(LevelKey, level.name)
            && c[|c| - 1] == LogContent(MessageKey, message + Appended(extra, obj2str))
  {
    RecordValues(level, message, extra, obj2str);
    RecordKeys(level, message, extra, obj2str);
  }
}
