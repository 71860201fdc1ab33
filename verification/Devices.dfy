// Which alerts the correlator puts together: what its keys say about devices.
module Devices {
  import opened Basics
  import opened Text
  import opened Events
  import opened Composite

  /** The alert names a device. */
  predicate HasDevice(a: Alert) {
    a.clientMAC != "" || a.clientIP != ""
  }

  /** The same MAC up to case; or no MAC on either side, and the same address. */
  predicate SameDevice(a: Alert, b: Alert) {
    if a.clientMAC != "" || b.clientMAC != "" then
      a.clientMAC != "" && b.clientMAC != "" && SameText(a.clientMAC, b.clientMAC)
    else a.clientIP == b.clientIP
  }

  /** Two alerts share a key exactly when they name the same device, and have none when they name none. */
  lemma KeyIff(a: Alert, b: Alert)
    ensures CorrelationKey(a) == CorrelationKey(b) <==> SameDevice(a, b)
    ensures CorrelationKey(a) == "" <==> !HasDevice(a)
  {
    ToLowerIff(a.clientMAC, b.clientMAC);
    ToLowerAt(a.clientMAC);
    ToLowerAt(b.clientMAC);
    if CorrelationKey(a) == CorrelationKey(b) {
      if a.clientMAC != "" {
        assert CorrelationKey(a)[0] == 'm';
        assert CorrelationKey(a)[4..] == ToLower(a.clientMAC);
        assert b.clientMAC != "";
        assert CorrelationKey(b)[4..] == ToLower(b.clientMAC);
      } else if a.clientIP != "" {
        assert CorrelationKey(a)[0] == 'i' && CorrelationKey(a)[3..] == a.clientIP;
        assert b.clientMAC == "" && b.clientIP != "";
        assert CorrelationKey(b)[3..] == b.clientIP;
      }
    }
  }
}
