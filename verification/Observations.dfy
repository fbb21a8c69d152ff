/** Every observation the model is shown fits the bound: internal/agent/loop.go. */
module Observations {
  import opened Text

  /** What is left of the bound for the text itself. */
  function Room(maxBytes: int, overhead: nat): nat {
    if maxBytes >= overhead then maxBytes - overhead else 0
  }

  /**
   * `r` shows as much of the text as the halving finds room for: a first part of `budget` bytes if
   * its encoding fits, else one of half as many, and so on; if not even none at all fits, `r` is
   * what `last` makes of it, cut off.
   */
  ghost predicate FirstFit(encode: Bytes -> Bytes, last: Bytes -> Bytes, raw: Bytes, maxBytes: int, budget: nat, r: Bytes) {
    exists prefix ::
      && IsCut(raw, budget, prefix)
      && if |encode(prefix)| <= maxBytes then r == encode(prefix)
         else if budget == 0 then IsCut(last(prefix), maxBytes, r)
         else FirstFit(encode, last, raw, maxBytes, budget / 2, r)
  }

  /** The bound holds whatever the encoder makes of the text; text that fits is shown whole. */
  method BoundedObservationEnvelope(encode: Bytes -> Bytes, raw: Bytes, maxBytes: int) returns (r: Bytes, ghost shown: Bytes)
    ensures maxBytes >= 0 ==> |r| <= maxBytes
    ensures shown <= raw && r <= encode(shown) && (shown != [] ==> r == encode(shown))
    ensures |raw| <= maxBytes - 160 && |encode(raw)| <= maxBytes ==> r == encode(raw)
    ensures |encode([])| <= maxBytes ==> r == encode(shown)
    ensures FirstFit(encode, encode, raw, maxBytes, if maxBytes >= 160 then maxBytes - 160 else 0, r)
  {
    var prefixBudget := Room(maxBytes, 160);
    while true
      invariant 0 <= prefixBudget <= Room(maxBytes, 160)
      invariant forall q | FirstFit(encode, encode, raw, maxBytes, prefixBudget, q) ::
                  FirstFit(encode, encode, raw, maxBytes, Room(maxBytes, 160), q)
      invariant prefixBudget < Room(maxBytes, 160) ==> |raw| > Room(maxBytes, 160) || |encode(raw)| > maxBytes
      decreases prefixBudget
    {
      var prefix := TruncateUTF8(raw, prefixBudget);
      var payload := encode(prefix);
      if |payload| <= maxBytes { return payload, prefix; }
      if prefixBudget == 0 {
        r := TruncateUTF8(payload, maxBytes);
        return r, [];
      }
      prefixBudget := prefixBudget / 2;
    }
  }

  /** `encode` writes the artifact with a preview, `compact` without. */
  method BoundedArtifactObservation(encode: Bytes -> Bytes, compact: Bytes, raw: Bytes, maxBytes: int) returns (r: Bytes)
    ensures maxBytes >= 0 ==> |r| <= maxBytes
    ensures if |encode([])| > maxBytes then r <= compact || exists preview :: preview <= raw && r == encode(preview)
            else exists preview :: preview <= raw && r == encode(preview)
    ensures |raw| <= maxBytes - 360 && |encode(raw)| <= maxBytes ==> r == encode(raw)
    ensures FirstFit(encode, _ => compact, raw, maxBytes, if maxBytes >= 360 then maxBytes - 360 else 0, r)
  {
    ghost var last: Bytes -> Bytes := _ => compact;
    var previewBudget := Room(maxBytes, 360);
    while true
      invariant 0 <= previewBudget <= Room(maxBytes, 360)
      invariant forall q | FirstFit(encode, last, raw, maxBytes, previewBudget, q) ::
                  FirstFit(encode, last, raw, maxBytes, Room(maxBytes, 360), q)
      invariant previewBudget < Room(maxBytes, 360) ==> |raw| > Room(maxBytes, 360) || |encode(raw)| > maxBytes
      decreases previewBudget
    {
      var preview := TruncateUTF8(raw, previewBudget);
      var payload := encode(preview);
      if |payload| <= maxBytes { return payload; }
      if previewBudget == 0 { break; }
      previewBudget := previewBudget / 2;
    }
    r := TruncateUTF8(compact, maxBytes);
  }

  method BoundObservation(blank: Bytes -> bool, encodeEmpty: Bytes -> Bytes, encodeLong: Bytes -> Bytes, raw: Bytes, maxBytes: int)
    returns (r: Bytes)
    ensures maxBytes >= 0 ==> |r| <= maxBytes
    ensures !blank(raw) && |raw| <= maxBytes ==> r == raw
    ensures blank(raw) ==> r <= encodeEmpty([])
    ensures !blank(raw) && |raw| > maxBytes ==> exists shown :: shown <= raw && r <= encodeLong(shown)
  {
    ghost var shown;
    if blank(raw) {
      r, shown := BoundedObservationEnvelope(encodeEmpty, [], maxBytes);
    } else if |raw| <= maxBytes {
      r := raw;
    } else {
      r, shown := BoundedObservationEnvelope(encodeLong, raw, maxBytes);
    }
  }
}
