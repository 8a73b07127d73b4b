/** `Message`: an inbound message as stored on disk, one tab-separated record
    (id, sender, sent and received stamps, send attempt, type name, payload kind,
    payload — base 64 for binary), and its reader. */
module Messages {
  import opened Base
  import opened Text
  import Guids
  import Addresses
  import DateTimes
  import Base64

  datatype Message = Message(
    filename: Option<string>,
    id: Guids.Guid,
    from: Option<Addresses.Address>,
    sent: DateTimes.DateTime,
    received: DateTimes.DateTime,
    sendAttempt: Int32,
    typeName: Option<string>,
    bytes: Option<seq<Byte>>,
    text: Option<string>)

  /** The eight printed fields, in record order. */
  function Fields(m: Message): (f: seq<string>)
    ensures |f| == 8
  {
    [ Guids.Format(m.id),
      Addresses.Print(m.from),
      DateTimes.Format17(m.sent, false),
      DateTimes.Format17(m.received, false),
      IntToString(m.sendAttempt),
      OrEmpty(m.typeName),
      if m.bytes.None? then "str" else "bin",
      if m.bytes.None? then OrEmpty(m.text) else Base64.Encode(m.bytes.value) ]
  }

  /** `message.ToString()`: the record line. */
  function ToString(m: Message): string
  {
    Join(Fields(m), '\t')
  }

  /** The object initializer of `ReadFromFile` on the eight fields, in the order it
      evaluates them: the first field that fails to parse decides the exception. */
  function FromFields(fileName: string, parts: seq<string>, resolve: Addresses.Resolver): (r: Result<Message>)
    requires |parts| == 8
    ensures r.Ok? ==> r.value.filename == Some(fileName) && r.value.from.Some? && r.value.typeName == Some(parts[5])
    ensures r.Ok? ==> (r.value.bytes.Some? <==> parts[6] == "bin")
    ensures r.Ok? ==> (r.value.text.Some? <==> parts[6] != "bin")
    ensures r.Ok? ==> r.value.sent.subTicks == 0 && r.value.received.subTicks == 0
  {
    var id :- Guids.Parse(parts[0]);
    var from :- Addresses.FromString(parts[1], resolve);
    var sent :- DateTimes.Parse17(parts[2], false);
    var received :- DateTimes.Parse17(parts[3], false);
    var attempt :- ParseInt32(parts[4]);
    var bytes :- if parts[6] != "bin" then Ok(None) else
      var b :- Base64.Decode(parts[7]);
      Ok(Some(b));
    Ok(Message(Some(fileName), id, Some(from), sent, received, attempt, Some(parts[5]),
               bytes, if parts[6] == "bin" then None else Some(parts[7])))
  }

  /** `Message.ReadFromFile(fileName)` given the file's text: no message (null) unless the text
      has exactly eight tab-separated fields, an exception if a field does not parse. */
  function Parse(fileName: string, text: string, resolve: Addresses.Resolver): (r: Result<Option<Message>>)
    ensures Occurrences(text, '\t') != 7 ==> r == Ok(None)
    ensures r.Ok? && r.value.Some? ==> r.value.value.filename == Some(fileName)
  {
    var parts := Split(text, '\t');
    SplitLength(text, '\t');
    if |parts| != 8 then Ok(None)
    else
      var m :- FromFields(fileName, parts, resolve);
      Ok(Some(m))
  }

  /** `message.To<T>()`: the type's default for a null or blank string payload, otherwise
      whatever the deserializer makes of it (the deserializer is outside the model). */
  function To<T>(m: Message, deserialize: string -> T, default: T): (r: T)
    ensures IsNullOrWhiteSpace(m.text) ==> r == default
    ensures !IsNullOrWhiteSpace(m.text) ==> r == deserialize(m.text.value)
  {
    if IsNullOrWhiteSpace(m.text) then default else deserialize(m.text.value)
  }

  /** A binary message read from disk never deserializes: it carries no string payload. */
  lemma BinaryReadsAsDefault<T>(fileName: string, text: string, resolve: Addresses.Resolver,
                                deserialize: string -> T, default: T)
    requires Parse(fileName, text, resolve).Ok? && Parse(fileName, text, resolve).value.Some?
    requires Parse(fileName, text, resolve).value.value.bytes.Some?
    ensures To(Parse(fileName, text, resolve).value.value, deserialize, default) == default
  {
  }

  /** What may be printed without breaking the record: a tab-free sender whose fields hold
      no comma and whose name resolves, a tab-free type name and string payload. */
  predicate Printable(m: Message, resolve: Addresses.Resolver)
  {
    && m.from.Some?
    && Addresses.CommaFree(m.from.value)
    && Addresses.TabFree(m.from.value)
    && resolve(m.from.value.serverName).Ok? && resolve(m.from.value.serverName).value.Some?
    && '\t' !in OrEmpty(m.typeName)
    && (m.bytes.None? ==> '\t' !in OrEmpty(m.text))
  }

  /** The message `ReadFromFile` returns for a printed one: named after its file, stamps cut
      to the millisecond, nulls read back as empty strings, and a binary message without text. */
  function Reread(m: Message, fileName: string): Message
    requires m.from.Some?
  {
    m.(filename := Some(fileName),
       from := Some(Addresses.Reloaded(m.from.value)),
       sent := DateTimes.Truncate(m.sent),
       received := DateTimes.Truncate(m.received),
       typeName := Some(OrEmpty(m.typeName)),
       text := if m.bytes.Some? then None else Some(OrEmpty(m.text)))
  }

  lemma FieldsTabFree(m: Message, resolve: Addresses.Resolver)
    requires Printable(m, resolve)
    ensures forall k :: 0 <= k < 8 ==> '\t' !in Fields(m)[k]
  {
    var f := Fields(m);
    Guids.FormatChars(m.id, '\t');
    Addresses.PrintedTabFree(m.from.value);
    IntToStringChars(m.sendAttempt, '\t');
    forall k | 0 <= k < 8 ensures '\t' !in f[k] {
      if k == 2 || k == 3 {
        assert forall i :: 0 <= i < |f[k]| ==> IsDigit(f[k][i]);
      }
      if k == 7 && m.bytes.Some? {
        assert forall i :: 0 <= i < |f[k]| ==> Base64.IsEncodingChar(f[k][i]);
      }
    }
  }

  /** Each printed field parses back to the value it was printed from. */
  lemma IdField(m: Message)
    ensures Guids.Parse(Fields(m)[0]) == Ok(m.id)
  {
    Guids.RoundTrip(m.id);
  }

  lemma FromField(m: Message, resolve: Addresses.Resolver)
    requires Printable(m, resolve)
    ensures Addresses.FromString(Fields(m)[1], resolve) == Ok(Addresses.Reloaded(m.from.value))
  {
    assert Fields(m)[1] == Addresses.Print(m.from);
    Addresses.RoundTrip(m.from.value, resolve);
  }

  lemma SentField(m: Message)
    ensures DateTimes.Parse17(Fields(m)[2], false) == Ok(DateTimes.Truncate(m.sent))
  {
    assert Fields(m)[2] == DateTimes.Format17(m.sent, false);
    DateTimes.RoundTrip24(m.sent);
  }

  lemma ReceivedField(m: Message)
    ensures DateTimes.Parse17(Fields(m)[3], false) == Ok(DateTimes.Truncate(m.received))
  {
    assert Fields(m)[3] == DateTimes.Format17(m.received, false);
    DateTimes.RoundTrip24(m.received);
  }

  lemma AttemptField(m: Message)
    ensures ParseInt32(Fields(m)[4]) == Ok(m.sendAttempt)
  {
    IntRoundTrip(m.sendAttempt);
  }

  lemma PayloadFields(m: Message)
    ensures Fields(m)[6] == "bin" <==> m.bytes.Some?
    ensures m.bytes.Some? ==> Base64.Decode(Fields(m)[7]) == Ok(m.bytes.value)
    ensures m.bytes.None? ==> Fields(m)[7] == OrEmpty(m.text)
  {
    if m.bytes.Some? {
      Base64.RoundTrip(m.bytes.value);
    }
  }

  /** Reading the printed fields back yields the reread message. */
  lemma FieldsRoundTrip(m: Message, fileName: string, resolve: Addresses.Resolver)
    requires Printable(m, resolve)
    ensures FromFields(fileName, Fields(m), resolve) == Ok(Reread(m, fileName))
  {
    IdField(m);
    FromField(m, resolve);
    SentField(m);
    ReceivedField(m);
    AttemptField(m);
    PayloadFields(m);
  }

  /** A printed message reads back as itself, up to the millisecond and the nulls that print empty. */
  lemma RoundTrip(m: Message, fileName: string, resolve: Addresses.Resolver)
    requires Printable(m, resolve)
    ensures Parse(fileName, ToString(m), resolve) == Ok(Some(Reread(m, fileName)))
  {
    FieldsTabFree(m, resolve);
    SplitJoin(Fields(m), '\t');
    FieldsRoundTrip(m, fileName, resolve);
  }
}
