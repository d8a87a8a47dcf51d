# NfcCardDemo core, modelled in Dafny

NfcCardDemo is a one-activity Android app. It reads the NDEF message of a tag
held against the phone and shows the decoded payload text. This project models
the three pieces of `MainActivity` that contain logic:

- **`processTag`** (`tag_processing.dfy`). Every platform call is an outcome fixed in advance:
  - `Ndef.get` gives a handle or null.
  - On the handle, `connect`, the live `ndefMessage` read and `close` each return or throw. An exception message may be null.
  - `cachedNdefMessage` is present or absent.
  - `String(bytes)` is a decoder parameter that gives text or throws. Each loop iteration applies it to the record type (for the log line at MainActivity.kt:192) and then to the payload.

  `ProcessTag` yields two things: the display state after the posted `scannedText` writes, and a trace of events in the order they happen. The events are the calls on the tag (`Connect`, `ReadMessage` for the live `ndefMessage` read, `Close`) and the local decoding of record `i` (`DecodeRecord(i)`). The `try`/`catch`/`finally` is modelled as it is written. A `Block` records how control left the `try` block: by falling through, by the `return` for a missing message, or by an exception. The `catch` appends the error text. The `finally` always appends `Close`.
- **`bytesToHexString`** (`hex_string.dfy`). This is the tag-id formatter. Kotlin bytes are signed, so `JByte` is `-128..127`. `"%02X"` prints a negative byte plus 256, as `java.util.Formatter` does, and `Unsigned` models that. A parser `ParseHexString` is the formatter's inverse. Both directions of the round trip are proved.
- **NFC status selection** in `onCreate` and `onResume` (`nfc_status.dfy`). It maps the adapter state to the status text and colour.

Supporting modules:
- `kotlin_types.dfy` holds nullable values, the signed byte, throwing calls, and `${…}` interpolation of a null string.
- `display.dfy` holds the three observable fields and `PostScannedText`. `PostScannedText` models the `runOnUiThread` blocks as writes applied in the order they were posted.

Facts about the code that the model keeps:
- For a tag that is not NDEF, `processTag` overwrites `scannedText` with the "not NDEF" text (MainActivity.kt:172).
- `processTag` never writes `nfcStatus` or its colour.
- `close` is called even when `connect` threw, because the `finally` runs once the handle is non-null.
- The status colours are Gray, Red and Green.

## Model

| member | source | states |
|---|---|---|
| `Display.PostScannedText` | app/src/main/java/com/junichi/nfccarddemo/MainActivity.kt:196-199 | posted writes are applied in order: the last write is the visible scanned text, no writes leave it as it was, and the status text and colour are never touched |
| `Display.PostScannedTextAppend` | app/src/main/java/com/junichi/nfccarddemo/MainActivity.kt:196-206 | applying two batches of posts one after the other equals applying their concatenation, so the catch's error post simply follows the loop's posts |
| `TagProcessing.ReadRecord` | app/src/main/java/com/junichi/nfccarddemo/MainActivity.kt:192-194 | one iteration succeeds iff both the type and the payload decode; once the type decodes, the iteration's outcome is the payload's decoding, its text or its exception; a failing type decoding ends it with that exception before the payload is decoded |
| `TagProcessing.DecodeRecords` | app/src/main/java/com/junichi/nfccarddemo/MainActivity.kt:191-200 | the loop finishes normally iff every remaining record is read; it posts each payload text in index order; it stops at the first record whose type or payload decoding throws, with that exception; it decodes exactly the records it visited, in order |
| `TagProcessing.DecodeRecordsStopsAt` | app/src/main/java/com/junichi/nfccarddemo/MainActivity.kt:191-200 | if record `k` is the first whose reading throws, the loop ends with its exception after posting exactly the `k` earlier texts |
| `TagProcessing.TryBlock` | app/src/main/java/com/junichi/nfccarddemo/MainActivity.kt:178-200 | once the handle exists, the `try` block first calls `connect`; a throwing `connect` ends it with that exception and nothing else; otherwise the live message read follows, and every later event is a record decoding |
| `TagProcessing.ProcessTag` | app/src/main/java/com/junichi/nfccarddemo/MainActivity.kt:164-215 | status text and colour are never changed; a non-NDEF tag shows the "not NDEF" text with no connect and no close; with a handle, `connect` comes first and `close` last, each called exactly once, on every path, and the live message is read exactly once iff `connect` returned |
| `TagProcessing.LiveMessagePreferred` | app/src/main/java/com/junichi/nfccarddemo/MainActivity.kt:182 | when the live read returns a message, the cached message has no influence on the outcome |
| `TagProcessing.CachedMessageFallback` | app/src/main/java/com/junichi/nfccarddemo/MainActivity.kt:182 | when the live read returns null, the outcome is that of a live read returning the cached message |
| `TagProcessing.NoMessageFound` | app/src/main/java/com/junichi/nfccarddemo/MainActivity.kt:183-189 | with neither message present, the scanned text becomes the "no NDEF message" text, the live message is read, no record is decoded, and the `finally` still closes the tag |
| `TagProcessing.LastRecordWins` | app/src/main/java/com/junichi/nfccarddemo/MainActivity.kt:191-200 | when every record's type and payload decode, the visible text is the decoding of the last payload, or the previous text if there are no records; records are decoded in index order between the message read and close |
| `TagProcessing.ConnectFailure` | app/src/main/java/com/junichi/nfccarddemo/MainActivity.kt:178-213 | a throwing `connect` leaves "エラー: " followed by its message (or `null`) as the text, and `close` is still called |
| `TagProcessing.ReadFailure` | app/src/main/java/com/junichi/nfccarddemo/MainActivity.kt:178-213 | a throwing live-message read leaves the error text with its message, decodes no record, and closes the tag |
| `TagProcessing.DecodeFailure` | app/src/main/java/com/junichi/nfccarddemo/MainActivity.kt:191-213 | a type or payload decoding failure at record `k` replaces any text written by earlier records with the error text, no later record is decoded, and the tag is closed |
| `TagProcessing.CloseFailureSwallowed` | app/src/main/java/com/junichi/nfccarddemo/MainActivity.kt:207-213 | whether `close` returns or throws changes neither the scanned text nor the calls made |
| `HexString.FormatByte` | app/src/main/java/com/junichi/nfccarddemo/MainActivity.kt:219 | a byte prints as two upper-case hex digits whose value is the byte read as unsigned |
| `HexString.JoinHex` | app/src/main/java/com/junichi/nfccarddemo/MainActivity.kt:219 | an empty array prints as the empty string, `n > 0` bytes print as `3n - 1` characters, and only hex digits and `:` occur |
| `HexString.JoinHexShape` | app/src/main/java/com/junichi/nfccarddemo/MainActivity.kt:219 | byte `i` is spelled at offsets `3i` and `3i + 1`, and a `:` separates consecutive bytes |
| `HexString.BytesToHexString` | app/src/main/java/com/junichi/nfccarddemo/MainActivity.kt:217-220 | a null array prints as `null`, and no array prints as `null` |
| `HexString.ParseJoinHex` | app/src/main/java/com/junichi/nfccarddemo/MainActivity.kt:219 | parsing the `:`-joined digits of a non-empty array gives back that array |
| `HexString.JoinHexParse` | app/src/main/java/com/junichi/nfccarddemo/MainActivity.kt:219 | every string that parses is the printed form of the array it parses to |
| `HexString.ParseBytesToHexString` | app/src/main/java/com/junichi/nfccarddemo/MainActivity.kt:217-220 | parsing the printed form of any array, or of null, gives back exactly that array or null |
| `HexString.BytesToHexStringParse` | app/src/main/java/com/junichi/nfccarddemo/MainActivity.kt:217-220 | only printed forms parse, so the formatter and the parser are inverse bijections |
| `NfcStatus.OnCreateStatus` | app/src/main/java/com/junichi/nfccarddemo/MainActivity.kt:43-61 | no adapter gives the "not supported" text, a disabled adapter the "disabled" text, and otherwise the "enabled" text; the colour is Green iff the adapter exists and is enabled, else Red; the scanned text is untouched |
| `NfcStatus.OnResumeStatus` | app/src/main/java/com/junichi/nfccarddemo/MainActivity.kt:109-125 | without an adapter nothing changes; with one, the status is the one `onCreate` would choose |
| `NfcStatus.ResumeKeepsCreateStatus` | app/src/main/java/com/junichi/nfccarddemo/MainActivity.kt:109-125 | resuming with the adapter the activity was created with keeps the status `onCreate` chose |
| `NfcStatus.CreateReplacesInitialStatus` | app/src/main/java/com/junichi/nfccarddemo/MainActivity.kt:27-61 | starting from the field initialisers, `onCreate` always replaces the "Checking..." status, never leaves the colour Gray, and leaves the scanned text empty |
| `NfcStatus.ResumeForgetsEarlierStatus` | app/src/main/java/com/junichi/nfccarddemo/MainActivity.kt:109-125 | with an adapter present, the status after resuming depends only on the adapter and not on the status before |

## Left out

- Activity lifecycle wiring is platform plumbing. This covers `onNewIntent`, `PendingIntent` flags, `IntentFilter` and MIME setup, the `Build.VERSION` branches, `onPause`, and the `enableForegroundDispatch` call in `onResume`. `onNewIntent` (lines 144-160) calls `processTag` only for the three discovery actions and only with a non-null tag, which is why `ProcessTag` always receives a tag.
- The click handler on the status card (lines 96-100) opens the NFC settings only when the adapter is disabled. On a device without an adapter, `nfcAdapter!!` throws a NullPointerException. It is UI wiring and is not modelled.
- The Compose screen `NFCReaderScreen` is presentation only. That includes the "未取得" placeholder shown for an empty scanned text.
- `Toast` and `Log` output are side channels, not part of the result. This includes the tag-id log line that calls `bytesToHexString` and the log of each record's TNF and type.
- The NFC I/O in `Ndef.get`, `connect`, `ndefMessage`, `cachedNdefMessage` and `close` is in a platform library. It appears only as given outcomes.
- Kotlin's `String(bytes)` decodes UTF-8, replaces malformed input and never throws. The model keeps it as an uninterpreted decoder that may throw, on purpose, so `TagProcessing.DecodeFailure` covers more failures than the real call can produce.
- `runOnUiThread` is modelled as in-order writes. Interleaving with other UI-thread work is concurrency and is not modelled.
- The record TNF is carried in `NdefRecord` but has no effect, because the code only logs it. The record type matters only through its decoding, which may end the loop.
- A thrown `Error` (as opposed to an `Exception`) would escape both `catch` clauses after the `finally` runs. `Outcome.Raised` stands only for an `Exception`, so that case is not modelled.
