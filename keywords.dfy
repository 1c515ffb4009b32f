/**
 * The protocol literals shared by the session and the interpreter. They are
 * process-wide constants: `static readonly` in SikuliSharp's `KeyWords`, never reassigned.
 */
module KeyWords {
  import opened Text

  /** Prefix of asynchronous observer events printed by the interpreter. */
  const ObserverPrefix: string := "SIKULI#OBSERVER#:"
  /** Prefix of errors reported by the interpreter. */
  const ErrorMarker: string := "[Error]"
  /** Marker that precedes every value the generated scripts print. */
  const ReturnIdentifier: string := "SIKULI#:"
  /** Sentinel printed when a lookup found nothing. */
  const None: string := "None"

  /** What a presence script prints on success, and what a presence reply is searched for. */
  const YesToken: string := ReturnIdentifier + " YES"
  /** What a presence script prints on failure. */
  const NoToken: string := ReturnIdentifier + " NO"
  /** What a value script prints when the lookup found nothing. */
  const NoneToken: string := ReturnIdentifier + " " + None

  /** The success token is the return marker followed by " YES". */
  lemma YesTokenSpelling()
    ensures YesToken == "SIKULI#: YES" && NoToken == "SIKULI#: NO" && NoneToken == "SIKULI#: None"
  {
  }

  /** Every reply token the scripts print starts with the return marker; the failure token is not the success token. */
  lemma TokensCarryReturnIdentifier()
    ensures OccursAt(YesToken, ReturnIdentifier, 0) && OccursAt(NoToken, ReturnIdentifier, 0)
    ensures OccursAt(NoneToken, ReturnIdentifier, 0) && OccursAt(NoneToken, None, |ReturnIdentifier| + 1)
    ensures !Contains(NoToken, YesToken)
  {
  }

  /** No other literal contains the return marker, so none of them alone passes a marker check. */
  lemma LiteralsLackReturnIdentifier()
    ensures !Contains(None, ReturnIdentifier)
    ensures !Contains(ErrorMarker, ReturnIdentifier)
    ensures !Contains(ObserverPrefix, ReturnIdentifier)
  {
    forall i | 0 <= i && i + |ReturnIdentifier| <= |ObserverPrefix|
      ensures !OccursAt(ObserverPrefix, ReturnIdentifier, i)
    {
      ObserverWindowDiffers(i);
    }
  }

  /** Every window of the observer prefix differs from the return marker in some character. */
  lemma ObserverWindowDiffers(i: int)
    requires 0 <= i && i + |ReturnIdentifier| <= |ObserverPrefix|
    ensures ObserverPrefix[i..i + |ReturnIdentifier|] != ReturnIdentifier
  {
    if i < 9 {
      assert ObserverPrefix[i..i + |ReturnIdentifier|][7] != ReturnIdentifier[7];
    } else {
      assert ObserverPrefix[i..i + |ReturnIdentifier|][1] != ReturnIdentifier[1];
    }
  }

  /** The last characters of the error and observer prefixes never occur inside the return marker. */
  lemma PrefixEndsOutsideMarker()
    ensures forall k :: 0 <= k < |ReturnIdentifier| - 1 ==> ReturnIdentifier[k] != ErrorMarker[|ErrorMarker| - 1]
    ensures forall k :: 0 <= k < |ReturnIdentifier| - 1 ==> ReturnIdentifier[k] != ObserverPrefix[|ObserverPrefix| - 1]
  {
  }

  /**
   * Error or observer output followed by any text that lacks the return marker
   * still lacks it: the prefix cannot complete a marker across the seam.
   */
  lemma {:induction false} PrefixedOutputLacksReturnIdentifier(rest: string)
    requires !Contains(rest, ReturnIdentifier)
    ensures !Contains(ErrorMarker + rest, ReturnIdentifier)
    ensures !Contains(ObserverPrefix + rest, ReturnIdentifier)
  {
    LiteralsLackReturnIdentifier();
    PrefixEndsOutsideMarker();
    NoOccurrenceAcrossSeam(ErrorMarker, rest, ReturnIdentifier);
    NoOccurrenceAcrossSeam(ObserverPrefix, rest, ReturnIdentifier);
  }
}
