/** The status line chosen from the device's NFC adapter: once when the
    activity is created and again each time it resumes. */
module NfcStatus {
  import opened KotlinTypes
  import opened Display

  /** The default NFC adapter, as far as the status choice looks at it. */
  datatype NfcAdapter = NfcAdapter(isEnabled: bool)

  const NotSupportedText: string := "このデバイスはNFCをサポートしていません"
  const DisabledText: string := "NFCが無効です - タップしてNFC設定を開く"
  const EnabledText: string := "NFCは有効です - カードをかざしてください"

  /** The adapter can scan: it exists and is switched on. */
  predicate Ready(adapter: Option<NfcAdapter>) {
    adapter.Some? && adapter.value.isEnabled
  }

  /** The three-way `when` in `onCreate`: no adapter, a disabled adapter, or
      an enabled one. */
  function OnCreateStatus(state: DisplayState, adapter: Option<NfcAdapter>): (s: DisplayState)
    ensures s.scannedText == state.scannedText
    ensures s.statusColor == Green <==> Ready(adapter)
    ensures s.statusColor == Red <==> !Ready(adapter)
    ensures s.nfcStatus == NotSupportedText <==> adapter.None?
    ensures s.nfcStatus == DisabledText <==> adapter.Some? && !adapter.value.isEnabled
    ensures s.nfcStatus == EnabledText <==> Ready(adapter)
  {
    match adapter
    case None => state.(nfcStatus := NotSupportedText, statusColor := Red)
    case Some(a) =>
      if !a.isEnabled then state.(nfcStatus := DisabledText, statusColor := Red)
      else state.(nfcStatus := EnabledText, statusColor := Green)
  }

  /** `onResume`: `nfcAdapter?.let { … }` does nothing without an adapter and
      otherwise repeats the disabled/enabled choice of `onCreate`. */
  function OnResumeStatus(state: DisplayState, adapter: Option<NfcAdapter>): (s: DisplayState)
    ensures adapter.None? ==> s == state
    ensures adapter.Some? ==> s == OnCreateStatus(state, adapter)
  {
    match adapter
    case None => state
    case Some(a) =>
      if !a.isEnabled then state.(nfcStatus := DisabledText, statusColor := Red)
      else state.(nfcStatus := EnabledText, statusColor := Green)
  }

  /** Resuming with the adapter the activity was created with keeps the status
      line `onCreate` chose, whether or not the device has NFC. */
  lemma ResumeKeepsCreateStatus(state: DisplayState, adapter: Option<NfcAdapter>)
    ensures OnResumeStatus(OnCreateStatus(state, adapter), adapter) == OnCreateStatus(state, adapter)
  {
  }

  /** With an adapter present, the status left by resuming depends only on the
      adapter, not on the status shown before. */
  lemma ResumeForgetsEarlierStatus(s1: DisplayState, s2: DisplayState, a: NfcAdapter)
    requires s1.scannedText == s2.scannedText
    ensures OnResumeStatus(s1, Some(a)) == OnResumeStatus(s2, Some(a))
  {
  }

  /** The placeholder status the activity starts with never survives `onCreate`:
      the status line always names the adapter's state and is never drawn Gray,
      and the scanned text is still empty. */
  lemma CreateReplacesInitialStatus(adapter: Option<NfcAdapter>)
    ensures OnCreateStatus(Initial, adapter).statusColor != Gray
    ensures OnCreateStatus(Initial, adapter).nfcStatus != Initial.nfcStatus
    ensures OnCreateStatus(Initial, adapter).scannedText == ""
  {
  }
}
