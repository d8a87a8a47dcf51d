/** `processTag`: what one discovered tag does to the scanned text, and in which
    order the tag connection is opened and released.

    Every Android call is an oracle outcome fixed in advance: `Ndef.get` gives a
    handle or null, and the handle says whether `connect`, the live
    `ndefMessage` read and `close` return or throw, and what the cached message
    is. Decoding bytes to text (`String(bytes)`, applied to each record's type
    and then its payload) is a parameter that either yields a string or
    throws. The result is the new display state and the trace of the tag calls
    (`connect`, the live message read, `close`) and record decodings, in the
    order they happen. */
module TagProcessing {
  import opened KotlinTypes
  import opened Display

  const NotNdefText: string := "このタグはNDEF形式ではありません"
  const NoMessageText: string := "NDEFメッセージが見つかりません"
  const ErrorPrefix: string := "エラー: "

  /** `"エラー: ${e.message}"` */
  function ErrorText(message: Option<string>): string {
    ErrorPrefix + Interpolate(message)
  }

  datatype NdefRecord = NdefRecord(tnf: int, recordType: seq<JByte>, payload: seq<JByte>)

  datatype NdefMessage = NdefMessage(records: seq<NdefRecord>)

  /** How a non-null `Ndef` handle answers each call made on it. */
  datatype NdefHandle = NdefHandle(
    connect: Outcome<()>,
    ndefMessage: Outcome<Option<NdefMessage>>,
    cachedNdefMessage: Option<NdefMessage>,
    close: Outcome<()>)

  /** A discovered tag; `ndef` is what `Ndef.get(tag)` returns. */
  datatype Tag = Tag(ndef: Option<NdefHandle>)

  /** `String(bytes)`: Kotlin's UTF-8 text decoding. It is kept as a parameter
      that may throw, so every failure the loop can meet is covered, including
      ones the real decoding does not produce. */
  type PayloadDecoder = seq<JByte> -> Outcome<string>

  /** What `processTag` does, in order: the calls on the tag (opening the
      connection, reading the live `ndefMessage`, releasing the connection) and
      the local decoding of record `index`. Each event is an attempt, whatever
      its outcome. Reading `cachedNdefMessage` returns a value the handle
      already holds and is not an event. */
  datatype Event = Connect | ReadMessage | DecodeRecord(index: nat) | Close

  /** How control leaves the `try` block: by falling off its end, by the
      `return` for a missing message, or by an exception. */
  datatype Exit = Completed | Returned | Threw(message: Option<string>)

  /** The `try` block's exit, the `scannedText` writes it posted, and its events. */
  datatype Block = Block(exit: Exit, writes: seq<string>, trace: seq<Event>)

  datatype Run = Run(display: DisplayState, trace: seq<Event>)

  /** The `DecodeRecord` events for the records `from .. from + count - 1`. */
  function DecodeEvents(from: nat, count: nat): (t: seq<Event>)
    ensures |t| == count
    ensures forall j :: 0 <= j < count ==> t[j] == DecodeRecord(from + j)
  {
    seq(count, j requires 0 <= j => DecodeRecord(from + j))
  }

  /** One loop iteration's calls: the record type is decoded for the log line,
      then the payload is decoded to the text that is posted. */
  function ReadRecord(r: NdefRecord, decode: PayloadDecoder): (o: Outcome<string>)
    ensures o.Value? <==> decode(r.recordType).Value? && decode(r.payload).Value?
    ensures decode(r.recordType).Value? ==> o == decode(r.payload)
    ensures decode(r.recordType).Raised? ==> o == decode(r.recordType)
  {
    match decode(r.recordType)
    case Raised(m) => Raised(m)
    case Value(_) => decode(r.payload)
  }

  /** All records in `from .. k - 1` are read without an exception. */
  predicate DecodesUpTo(records: seq<NdefRecord>, decode: PayloadDecoder, from: nat, k: nat)
    requires from <= k <= |records|
  {
    forall j :: from <= j < k ==> ReadRecord(records[j], decode).Value?
  }

  /** The `for ((index, record) in records.withIndex())` loop from record
      `from` on: each record read posts its payload text, and the first record
      whose type or payload decoding throws ends the loop with that exception. */
  function DecodeRecords(records: seq<NdefRecord>, decode: PayloadDecoder, from: nat): (b: Block)
    requires from <= |records|
    ensures !b.exit.Returned?
    ensures b.exit.Completed? <==> DecodesUpTo(records, decode, from, |records|)
    ensures b.exit.Completed? ==> |b.writes| == |records| - from
    ensures b.exit.Threw? ==> from + |b.writes| < |records|
    ensures forall j :: 0 <= j < |b.writes| ==> ReadRecord(records[from + j], decode) == Value(b.writes[j])
    ensures b.exit.Threw? ==> ReadRecord(records[from + |b.writes|], decode) == Raised(b.exit.message)
    ensures b.trace == DecodeEvents(from, |b.writes| + (if b.exit.Threw? then 1 else 0))
    decreases |records| - from
  {
    if from == |records| then Block(Completed, [], [])
    else
      match ReadRecord(records[from], decode)
      case Raised(m) => Block(Threw(m), [], [DecodeRecord(from)])
      case Value(text) =>
        var rest := DecodeRecords(records, decode, from + 1);
        Block(rest.exit, [text] + rest.writes, [DecodeRecord(from)] + rest.trace)
  }

  /** `ndef.ndefMessage ?: ndef.cachedNdefMessage` */
  function SelectMessage(live: Option<NdefMessage>, cached: Option<NdefMessage>): Option<NdefMessage> {
    if live.Some? then live else cached
  }

  /** The `try` block, entered once the handle is non-null. */
  function TryBlock(h: NdefHandle, decode: PayloadDecoder): (b: Block)
    ensures h.connect.Raised? ==> b == Block(Threw(h.connect.message), [], [Connect])
    ensures h.connect.Value? ==> |b.trace| >= 2 && b.trace[..2] == [Connect, ReadMessage]
    ensures forall j :: 2 <= j < |b.trace| ==> b.trace[j].DecodeRecord?
  {
    match h.connect
    case Raised(m) => Block(Threw(m), [], [Connect])
    case Value(_) =>
      match h.ndefMessage
      case Raised(m) => Block(Threw(m), [], [Connect, ReadMessage])
      case Value(live) =>
        match SelectMessage(live, h.cachedNdefMessage)
        case None => Block(Returned, [NoMessageText], [Connect, ReadMessage])
        case Some(msg) =>
          var loop := DecodeRecords(msg.records, decode, 0);
          Block(loop.exit, loop.writes, [Connect, ReadMessage] + loop.trace)
  }

  /** `processTag(tag)`, applied to the display state the screen shows before
      the tag is discovered. */
  function ProcessTag(state: DisplayState, tag: Tag, decode: PayloadDecoder): (r: Run)
    ensures r.display.nfcStatus == state.nfcStatus && r.display.statusColor == state.statusColor
    ensures tag.ndef.None? ==> r.trace == [] && r.display.scannedText == NotNdefText
    ensures tag.ndef.Some? ==>
      && |r.trace| >= 2 && r.trace[0] == Connect && r.trace[|r.trace| - 1] == Close
      && multiset(r.trace)[Connect] == 1 && multiset(r.trace)[Close] == 1
      && multiset(r.trace)[ReadMessage] == (if tag.ndef.value.connect.Value? then 1 else 0)
  {
    match tag.ndef
    case None => Run(PostScannedText(state, [NotNdefText]), [])
    case Some(h) =>
      var b := TryBlock(h, decode);
      // catch: the error text is posted after whatever the block posted
      var writes := if b.exit.Threw? then b.writes + [ErrorText(b.exit.message)] else b.writes;
      // finally: close is called whatever h.close does; its exception is caught and only logged
      var trace := b.trace + [Close];
      assert Close !in b.trace && Connect !in b.trace[1..];
      assert b.trace == [Connect] + b.trace[1..];
      assert h.connect.Value? ==> b.trace == [Connect, ReadMessage] + b.trace[2..] && ReadMessage !in b.trace[2..];
      Run(PostScannedText(state, writes), trace)
  }

  /** The handle `h` with its cached message replaced. */
  function WithCached(h: NdefHandle, cached: Option<NdefMessage>): NdefHandle {
    h.(cachedNdefMessage := cached)
  }

  /** When the live read yields a message the cached one is never consulted. */
  lemma LiveMessagePreferred(state: DisplayState, h: NdefHandle, decode: PayloadDecoder, other: Option<NdefMessage>)
    requires h.ndefMessage.Value? && h.ndefMessage.value.Some?
    ensures ProcessTag(state, Tag(Some(h)), decode) == ProcessTag(state, Tag(Some(WithCached(h, other))), decode)
  {
  }

  /** When the live read yields null, the tag behaves exactly as if the live
      read had returned the cached message. */
  lemma CachedMessageFallback(state: DisplayState, h: NdefHandle, decode: PayloadDecoder)
    requires h.ndefMessage == Value(None)
    ensures ProcessTag(state, Tag(Some(h)), decode)
         == ProcessTag(state, Tag(Some(h.(ndefMessage := Value(h.cachedNdefMessage)))), decode)
  {
  }

  /** No message at all: the "not found" text, no record decoded, and the
      `return` inside `try` still runs the `finally` that closes the tag. */
  lemma NoMessageFound(state: DisplayState, h: NdefHandle, decode: PayloadDecoder)
    requires h.connect.Value? && h.ndefMessage == Value(None) && h.cachedNdefMessage.None?
    ensures ProcessTag(state, Tag(Some(h)), decode).display.scannedText == NoMessageText
    ensures ProcessTag(state, Tag(Some(h)), decode).trace == [Connect, ReadMessage, Close]
  {
  }

  /** The message the handle delivers once connected, if any. */
  function DeliveredMessage(h: NdefHandle): Option<NdefMessage>
    requires h.ndefMessage.Value?
  {
    SelectMessage(h.ndefMessage.value, h.cachedNdefMessage)
  }

  /** Every record decodes: records are visited in index order, each overwrites
      the scanned text, so the last record's text is what stays; with no records
      the scanned text is what it was before the tag. */
  lemma LastRecordWins(state: DisplayState, h: NdefHandle, decode: PayloadDecoder)
    requires h.connect.Value? && h.ndefMessage.Value? && DeliveredMessage(h).Some?
    requires DecodesUpTo(DeliveredMessage(h).value.records, decode, 0, |DeliveredMessage(h).value.records|)
    ensures var records := DeliveredMessage(h).value.records;
      var r := ProcessTag(state, Tag(Some(h)), decode);
      && (|records| == 0 ==> r.display.scannedText == state.scannedText)
      && (|records| > 0 ==> Value(r.display.scannedText) == decode(records[|records| - 1].payload))
      && r.trace == [Connect, ReadMessage] + DecodeEvents(0, |records|) + [Close]
  {
  }

  /** `connect` throws: the error text with its message, and `close` is still
      called although the connection never opened. */
  lemma ConnectFailure(state: DisplayState, h: NdefHandle, decode: PayloadDecoder)
    requires h.connect.Raised?
    ensures ProcessTag(state, Tag(Some(h)), decode).display.scannedText == ErrorText(h.connect.message)
    ensures ProcessTag(state, Tag(Some(h)), decode).trace == [Connect, Close]
  {
  }

  /** Reading the live message throws: the error text, and the tag is closed. */
  lemma ReadFailure(state: DisplayState, h: NdefHandle, decode: PayloadDecoder)
    requires h.connect.Value? && h.ndefMessage.Raised?
    ensures ProcessTag(state, Tag(Some(h)), decode).display.scannedText == ErrorText(h.ndefMessage.message)
    ensures ProcessTag(state, Tag(Some(h)), decode).trace == [Connect, ReadMessage, Close]
  {
  }

  /** The loop stops at the first record whose decoding throws, having posted
      the texts of the records before it. */
  lemma {:induction false} DecodeRecordsStopsAt(records: seq<NdefRecord>, decode: PayloadDecoder, from: nat, k: nat)
    requires from <= k < |records|
    requires DecodesUpTo(records, decode, from, k) && ReadRecord(records[k], decode).Raised?
    ensures DecodeRecords(records, decode, from).exit == Threw(ReadRecord(records[k], decode).message)
    ensures |DecodeRecords(records, decode, from).writes| == k - from
    decreases k - from
  {
    if from < k {
      assert ReadRecord(records[from], decode).Value?;
      DecodeRecordsStopsAt(records, decode, from + 1, k);
    }
  }

  /** Reading record `k` (its type or its payload) throws after records
      `0 .. k - 1` were read: the error
      text replaces the texts those records posted, records after `k` are never
      decoded, and the tag is closed. */
  lemma DecodeFailure(state: DisplayState, h: NdefHandle, decode: PayloadDecoder, msg: NdefMessage, k: nat)
    requires h.connect.Value? && h.ndefMessage.Value? && DeliveredMessage(h) == Some(msg)
    requires k < |msg.records| && DecodesUpTo(msg.records, decode, 0, k)
    requires ReadRecord(msg.records[k], decode).Raised?
    ensures var r := ProcessTag(state, Tag(Some(h)), decode);
      && r.display.scannedText == ErrorText(ReadRecord(msg.records[k], decode).message)
      && r.trace == [Connect, ReadMessage] + DecodeEvents(0, k + 1) + [Close]
  {
    DecodeRecordsStopsAt(msg.records, decode, 0, k);
  }

  /** A failing `close` is swallowed: the outcome of `close` changes neither the
      scanned text nor the calls made. */
  lemma CloseFailureSwallowed(state: DisplayState, h: NdefHandle, decode: PayloadDecoder, other: Outcome<()>)
    ensures ProcessTag(state, Tag(Some(h)), decode) == ProcessTag(state, Tag(Some(h.(close := other))), decode)
  {
  }
}
