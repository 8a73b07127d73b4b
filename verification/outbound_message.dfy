/** `OutboundMessage`: a message waiting to be sent, stored on disk as one
    tab-separated record (id, sender, destination, sent stamp, type name,
    payload kind, payload). Attempt count and last attempt time live only in memory. */
module OutboundMessages {
  import opened Base
  import opened Text
  import Guids
  import Addresses
  import DateTimes
  import Base64

  datatype OutboundMessage = OutboundMessage(
    filename: Option<string>,
    id: Guids.Guid,
    from: Option<Addresses.Address>,
    to: Option<Addresses.Address>,
    sent: DateTimes.DateTime,
    typeName: Option<string>,
    bytes: Option<seq<Byte>>,
    text: Option<string>,
    sendAttempts: Int32,
    lastSendAttempt: DateTimes.DateTime)

  /** The record stamps `Sent` with "yyyyMMddhhmmssfff": a 12-hour clock and no AM/PM designator. */
  const TwelveHourStamp: bool := true

  /** The seven printed fields, with the stamp in the 12-hour (`twelveHour`) or the 24-hour format. */
  function FieldsIn(m: OutboundMessage, twelveHour: bool): (f: seq<string>)
    ensures |f| == 7
  {
    [ Guids.Format(m.id),
      Addresses.Print(m.from),
      Addresses.Print(m.to),
      DateTimes.Format17(m.sent, twelveHour),
      OrEmpty(m.typeName),
      if m.bytes.None? then "str" else "bin",
      if m.bytes.None? then OrEmpty(m.text) else Base64.Encode(m.bytes.value) ]
  }

  function LineIn(m: OutboundMessage, twelveHour: bool): string
  {
    Join(FieldsIn(m, twelveHour), '\t')
  }

  /** `message.ToLine()`. */
  function ToLine(m: OutboundMessage): string
  {
    LineIn(m, TwelveHourStamp)
  }

  /** The object initializer of `ReadFromFile` on the seven fields, in evaluation order.
      Attempt count and last attempt keep their defaults. */
  function FromFields(fileName: string, parts: seq<string>, resolve: Addresses.Resolver, twelveHour: bool)
    : (r: Result<OutboundMessage>)
    requires |parts| == 7
    ensures r.Ok? ==> r.value.filename == Some(fileName) && r.value.from.Some? && r.value.to.Some?
    ensures r.Ok? ==> r.value.to.value.ipAddress.Some?
    ensures r.Ok? ==> r.value.typeName == Some(parts[4])
    ensures r.Ok? ==> (r.value.bytes.Some? <==> parts[5] == "bin") && (r.value.text.Some? <==> parts[5] != "bin")
    ensures r.Ok? ==> r.value.sendAttempts == 0 && r.value.lastSendAttempt == DateTimes.MinValue
  {
    var id :- Guids.Parse(parts[0]);
    var from :- Addresses.FromString(parts[1], resolve);
    var to :- Addresses.FromString(parts[2], resolve);
    var sent :- DateTimes.Parse17(parts[3], twelveHour);
    var bytes :- if parts[5] != "bin" then Ok(None) else
      var b :- Base64.Decode(parts[6]);
      Ok(Some(b));
    Ok(OutboundMessage(Some(fileName), id, Some(from), Some(to), sent, Some(parts[4]), bytes,
                       if parts[5] == "bin" then None else Some(parts[6]), 0, DateTimes.MinValue))
  }

  function ParseIn(fileName: string, text: string, resolve: Addresses.Resolver, twelveHour: bool)
    : (r: Result<Option<OutboundMessage>>)
    ensures Occurrences(text, '\t') != 6 ==> r == Ok(None)
    ensures r.Ok? && r.value.Some? ==>
              (r.value.value.filename == Some(fileName) && r.value.value.to.Some?
               && r.value.value.to.value.ipAddress.Some?)
  {
    var parts := Split(text, '\t');
    SplitLength(text, '\t');
    if |parts| != 7 then Ok(None)
    else
      var m :- FromFields(fileName, parts, resolve, twelveHour);
      Ok(Some(m))
  }

  /** `OutboundMessage.ReadFromFile(fileName)` given the file's text: null unless there are
      exactly seven tab-separated fields; an exception when a field does not parse. */
  function Parse(fileName: string, text: string, resolve: Addresses.Resolver): (r: Result<Option<OutboundMessage>>)
    ensures Occurrences(text, '\t') != 6 ==> r == Ok(None)
    ensures r.Ok? && r.value.Some? ==>
              (r.value.value.sendAttempts == 0 && r.value.value.lastSendAttempt == DateTimes.MinValue
               && r.value.value.sent.hour < 12)
    ensures r.Ok? && r.value.Some? ==>
              (r.value.value.filename == Some(fileName) && r.value.value.to.Some?
               && r.value.value.to.value.ipAddress.Some?)
  {
    ParseIn(fileName, text, resolve, TwelveHourStamp)
  }

  predicate Printable(m: OutboundMessage, resolve: Addresses.Resolver)
  {
    && m.from.Some? && m.to.Some?
    && Addresses.CommaFree(m.from.value) && Addresses.TabFree(m.from.value)
    && Addresses.CommaFree(m.to.value) && Addresses.TabFree(m.to.value)
    && resolve(m.from.value.serverName).Ok? && resolve(m.from.value.serverName).value.Some?
    && resolve(m.to.value.serverName).Ok? && resolve(m.to.value.serverName).value.Some?
    && '\t' !in OrEmpty(m.typeName)
    && (m.bytes.None? ==> '\t' !in OrEmpty(m.text))
  }

  /** The stamp a record keeps: cut to the millisecond, and folded onto the morning by the 12-hour format. */
  function KeptStamp(t: DateTimes.DateTime, twelveHour: bool): (r: DateTimes.DateTime)
  {
    var cut := DateTimes.Truncate(t);
    if twelveHour then (var folded: DateTimes.DateTime := cut.(hour := t.hour % 12); folded) else cut
  }

  /** What `ReadFromFile` returns for a printed record. */
  function Reread(m: OutboundMessage, fileName: string, twelveHour: bool): OutboundMessage
    requires m.from.Some? && m.to.Some?
  {
    m.(filename := Some(fileName),
       from := Some(Addresses.Reloaded(m.from.value)),
       to := Some(Addresses.Reloaded(m.to.value)),
       sent := KeptStamp(m.sent, twelveHour),
       typeName := Some(OrEmpty(m.typeName)),
       text := if m.bytes.Some? then None else Some(OrEmpty(m.text)),
       sendAttempts := 0,
       lastSendAttempt := DateTimes.MinValue)
  }

  lemma FieldsTabFree(m: OutboundMessage, resolve: Addresses.Resolver, twelveHour: bool)
    requires Printable(m, resolve)
    ensures forall k :: 0 <= k < 7 ==> '\t' !in FieldsIn(m, twelveHour)[k]
  {
    var f := FieldsIn(m, twelveHour);
    Guids.FormatChars(m.id, '\t');
    Addresses.PrintedTabFree(m.from.value);
    Addresses.PrintedTabFree(m.to.value);
    forall k | 0 <= k < 7 ensures '\t' !in f[k] {
      if k == 3 {
        assert forall i :: 0 <= i < |f[k]| ==> IsDigit(f[k][i]);
      }
      if k == 6 && m.bytes.Some? {
        assert forall i :: 0 <= i < |f[k]| ==> Base64.IsEncodingChar(f[k][i]);
      }
    }
  }

  lemma IdField(m: OutboundMessage, twelveHour: bool)
    ensures Guids.Parse(FieldsIn(m, twelveHour)[0]) == Ok(m.id)
  {
    Guids.RoundTrip(m.id);
  }

  lemma AddressFields(m: OutboundMessage, resolve: Addresses.Resolver, twelveHour: bool)
    requires Printable(m, resolve)
    ensures Addresses.FromString(FieldsIn(m, twelveHour)[1], resolve) == Ok(Addresses.Reloaded(m.from.value))
    ensures Addresses.FromString(FieldsIn(m, twelveHour)[2], resolve) == Ok(Addresses.Reloaded(m.to.value))
  {
    var f := FieldsIn(m, twelveHour);
    assert f[1] == Addresses.Print(m.from) && f[2] == Addresses.Print(m.to);
    Addresses.RoundTrip(m.from.value, resolve);
    Addresses.RoundTrip(m.to.value, resolve);
  }

  lemma SentField(m: OutboundMessage, twelveHour: bool)
    ensures DateTimes.Parse17(FieldsIn(m, twelveHour)[3], twelveHour) == Ok(KeptStamp(m.sent, twelveHour))
  {
    if twelveHour {
      DateTimes.RoundTrip12(m.sent);
    } else {
      DateTimes.RoundTrip24(m.sent);
    }
  }

  lemma PayloadFields(m: OutboundMessage, twelveHour: bool)
    ensures FieldsIn(m, twelveHour)[5] == "bin" <==> m.bytes.Some?
    ensures m.bytes.Some? ==> Base64.Decode(FieldsIn(m, twelveHour)[6]) == Ok(m.bytes.value)
    ensures m.bytes.None? ==> FieldsIn(m, twelveHour)[6] == OrEmpty(m.text)
  {
    if m.bytes.Some? {
      Base64.RoundTrip(m.bytes.value);
    }
  }

  lemma FieldsRoundTrip(m: OutboundMessage, fileName: string, resolve: Addresses.Resolver, twelveHour: bool)
    requires Printable(m, resolve)
    ensures FromFields(fileName, FieldsIn(m, twelveHour), resolve, twelveHour) == Ok(Reread(m, fileName, twelveHour))
  {
    IdField(m, twelveHour);
    AddressFields(m, resolve, twelveHour);
    SentField(m, twelveHour);
    PayloadFields(m, twelveHour);
  }

  lemma LineRoundTrip(m: OutboundMessage, fileName: string, resolve: Addresses.Resolver, twelveHour: bool)
    requires Printable(m, resolve)
    ensures ParseIn(fileName, LineIn(m, twelveHour), resolve, twelveHour) == Ok(Some(Reread(m, fileName, twelveHour)))
  {
    FieldsTabFree(m, resolve, twelveHour);
    SplitJoin(FieldsIn(m, twelveHour), '\t');
    FieldsRoundTrip(m, fileName, resolve, twelveHour);
  }

  /** A printed record reads back with its id, addresses, type and payload, the attempt
      count and last attempt reset, and a `Sent` whose hour has lost its afternoon half. */
  lemma RoundTrip(m: OutboundMessage, fileName: string, resolve: Addresses.Resolver)
    requires Printable(m, resolve)
    ensures Parse(fileName, ToLine(m), resolve) == Ok(Some(Reread(m, fileName, true)))
    ensures m.sent.hour >= 12 ==> Parse(fileName, ToLine(m), resolve).value.value.sent != DateTimes.Truncate(m.sent)
  {
    LineRoundTrip(m, fileName, resolve, true);
  }

  /** With the 24-hour format the stamp of a printed record would survive to the millisecond. */
  lemma RoundTripWith24HourStamp(m: OutboundMessage, fileName: string, resolve: Addresses.Resolver)
    requires Printable(m, resolve)
    ensures ParseIn(fileName, LineIn(m, false), resolve, false) == Ok(Some(Reread(m, fileName, false)))
    ensures Reread(m, fileName, false).sent == DateTimes.Truncate(m.sent)
  {
    LineRoundTrip(m, fileName, resolve, false);
  }
}
