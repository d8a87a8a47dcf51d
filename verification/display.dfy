/** The activity's observable state: the three `mutableStateOf` fields the
    screen renders, and the way background work updates them. */
module Display {

  /** The colours the status line is drawn in. */
  datatype StatusColor = Gray | Red | Green

  datatype DisplayState = DisplayState(scannedText: string, nfcStatus: string, statusColor: StatusColor)

  /** The field initialisers of the activity. */
  const Initial: DisplayState := DisplayState("", "NFC Status: Checking...", Gray)

  /** Applies, in the order they were posted, the `runOnUiThread` blocks that
      each assign `scannedText`. The UI thread runs posted blocks one after
      another, so the last write is the one that stays visible and no other
      field is touched. */
  function PostScannedText(state: DisplayState, writes: seq<string>): (s: DisplayState)
    ensures s.nfcStatus == state.nfcStatus && s.statusColor == state.statusColor
    ensures |writes| == 0 ==> s.scannedText == state.scannedText
    ensures |writes| > 0 ==> s.scannedText == writes[|writes| - 1]
    decreases |writes|
  {
    if |writes| == 0 then state
    else PostScannedText(state.(scannedText := writes[0]), writes[1..])
  }

  /** Posting two batches one after the other is posting their concatenation. */
  lemma PostScannedTextAppend(state: DisplayState, first: seq<string>, second: seq<string>)
    ensures PostScannedText(PostScannedText(state, first), second) == PostScannedText(state, first + second)
  {
    if |second| > 0 {
      assert (first + second)[|first + second| - 1] == second[|second| - 1];
    }
  }
}
