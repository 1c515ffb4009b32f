/**
 * Interpretation of the interpreter's reply text. Presence replies are read by
 * substring containment of the success token; value replies must carry the return
 * marker, map the `None` sentinel to "no match", and otherwise yield the match
 * tokens found by the match-token grammar.
 */
module Responses {
  import opened Wrappers
  import opened Text
  import KeyWords
  import MatchText

  /** A located occurrence, wrapping one match token verbatim. */
  datatype Match = Match(text: string)

  /** The exceptions the session raises. */
  datatype SessionError =
    | ValidationError(reason: string)  // a descriptor's `Validate()` threw; nothing was submitted
    | CommandFailed                    // `new Exception("Command failed")`: the reply lacked the return marker

  /** Presence reply: true iff the reply contains `SIKULI#: YES` anywhere. */
  function PresenceResult(reply: string): bool
  {
    Contains(reply, KeyWords.YesToken)
  }

  /** Value reply check: the reply is returned unchanged when it carries the return marker, else the command failed. */
  function CheckReturn(reply: string): Result<string, SessionError>
  {
    if Contains(reply, KeyWords.ReturnIdentifier) then Success(reply) else Failure(CommandFailed)
  }

  /** `new Match(MatchTextRegex.Match(reply).ToString())`: the first token, or an empty match. */
  function FirstMatch(reply: string): Match
  {
    Match(MatchText.FirstToken(reply))
  }

  /** The single-match result of `Exists`, `FindBest`, `WaitBest`, `FindAny`, `WaitAny`: null whenever `None` occurs. */
  function OptionalMatch(reply: string): Option<Match>
  {
    if Contains(reply, KeyWords.None) then None else Some(FirstMatch(reply))
  }

  /** Each match text wrapped as a `Match`, in order. */
  function AsMatches(texts: seq<string>): seq<Match>
  {
    seq(|texts|, i requires 0 <= i < |texts| => Match(texts[i]))
  }

  /**
   * The loop of `FindAll`: one `Match` per token of the reply, in the order the
   * scan meets them.
   */
  method CollectMatches(reply: string) returns (results: seq<Match>)
    ensures results == AsMatches(MatchText.Tokens(reply))
  {
    results := [];
    ghost var seen: seq<string> := [];
    var position: nat := 0;
    var next := MatchText.NextToken(reply, position);
    while next.Some?
      invariant next == MatchText.NextToken(reply, position)
      invariant MatchText.Tokens(reply) == seen + MatchText.TokensFrom(reply, position)
      invariant results == AsMatches(seen)
      decreases |reply| - position
    {
      var span := next.value;
      var token := reply[span.0..span.1];
      assert MatchText.TokensFrom(reply, position) == [token] + MatchText.TokensFrom(reply, span.1);
      results := results + [Match(token)];
      seen := seen + [token];
      position := span.1;
      next := MatchText.NextToken(reply, position);
    }
    assert MatchText.TokensFrom(reply, position) == [];
    assert seen + [] == seen;
  }

  /** A reply without the return marker is never a presence success: errors read as plain `false`. */
  lemma PresenceNeedsReturnIdentifier(reply: string)
    ensures PresenceResult(reply) ==> Contains(reply, KeyWords.ReturnIdentifier)
  {
    if PresenceResult(reply) {
      KeyWords.TokensCarryReturnIdentifier();
      assert Contains(KeyWords.YesToken, KeyWords.ReturnIdentifier);
      ContainsTransitive(reply, KeyWords.YesToken, KeyWords.ReturnIdentifier);
    }
  }

  /**
   * Interpreter error output (or observer output) followed by marker-free text
   * reads as `false` for a presence command and as a failed command for a value
   * command: the two kinds of command treat the same crash differently.
   */
  lemma PrefixedOutputWithoutMarker(rest: string)
    requires !Contains(rest, KeyWords.ReturnIdentifier)
    ensures !PresenceResult(KeyWords.ErrorMarker + rest)
    ensures CheckReturn(KeyWords.ErrorMarker + rest) == Failure(CommandFailed)
    ensures !PresenceResult(KeyWords.ObserverPrefix + rest)
    ensures CheckReturn(KeyWords.ObserverPrefix + rest) == Failure(CommandFailed)
  {
    KeyWords.PrefixedOutputLacksReturnIdentifier(rest);
    PresenceNeedsReturnIdentifier(KeyWords.ErrorMarker + rest);
    PresenceNeedsReturnIdentifier(KeyWords.ObserverPrefix + rest);
  }

  /** The failure branch of a presence script reads as `false`, without raising. */
  lemma NoReplyIsFalse()
    ensures !PresenceResult(KeyWords.NoToken)
  {
    KeyWords.TokensCarryReturnIdentifier();
  }

  /** Text with no letter `M` holds no match token. */
  lemma PlainTextHasNoTokens(text: string)
    requires forall k :: 0 <= k < |text| ==> text[k] != 'M'
    ensures MatchText.Tokens(text) == [] && FirstMatch(text) == Match("")
  {
    MatchText.TokensSkipPlainPrefix(text, "", 0);
    assert text + "" == text;
    MatchText.FirstTokenIsHead(text);
  }

  /**
   * A reply carrying `SIKULI#: None` passes the marker check, maps to null for the
   * single-match lookups, and, when it is the whole reply, to no matches at all.
   */
  lemma NoneReplyMeansNoMatch(reply: string)
    requires Contains(reply, KeyWords.NoneToken)
    ensures CheckReturn(reply) == Success(reply)
    ensures OptionalMatch(reply) == None
    ensures MatchText.Tokens(KeyWords.NoneToken) == []
  {
    KeyWords.TokensCarryReturnIdentifier();
    assert Contains(KeyWords.NoneToken, KeyWords.ReturnIdentifier);
    assert Contains(KeyWords.NoneToken, KeyWords.None);
    ContainsTransitive(reply, KeyWords.NoneToken, KeyWords.ReturnIdentifier);
    ContainsTransitive(reply, KeyWords.NoneToken, KeyWords.None);
    NoneTokenHasNoMatch();
  }

  /** The `None` sentinel line holds no match token. */
  lemma NoneTokenHasNoMatch()
    ensures MatchText.Tokens(KeyWords.NoneToken) == []
  {
    KeyWords.YesTokenSpelling();
    var t := KeyWords.NoneToken;
    assert forall k :: 0 <= k < |t| ==> t[k] != 'M' by {
      assert t == "SIKULI#: None";
    }
    PlainTextHasNoTokens(t);
  }

  /**
   * What a successful multi-match script prints — the marker, a space, the match
   * texts joined with nothing between them, then any trailing output — passes the
   * marker check and yields exactly those matches, in order, before the trailing ones.
   */
  lemma AllMatchesRoundTrip(tokens: seq<string>, tail: string)
    requires forall t :: t in tokens ==> MatchText.IsToken(t)
    ensures var reply := KeyWords.ReturnIdentifier + " " + MatchText.Concat(tokens) + tail;
      && CheckReturn(reply) == Success(reply)
      && AsMatches(MatchText.Tokens(reply)) == AsMatches(tokens) + AsMatches(MatchText.Tokens(tail))
  {
    MarkerLacksTokenStart();
    MatchText.TokensOfReply(KeyWords.ReturnIdentifier + " ", tokens, tail);
    AsMatchesAppend(tokens, MatchText.Tokens(tail));
    MarkedReplyPasses(MatchText.Concat(tokens), tail);
  }

  /** A reply that starts with the return marker and a space passes the marker check. */
  lemma MarkedReplyPasses(body: string, tail: string)
    ensures var reply := KeyWords.ReturnIdentifier + " " + body + tail;
      CheckReturn(reply) == Success(reply)
  {
    var rest := " " + body + tail;
    ContainsPiece("", KeyWords.ReturnIdentifier, rest);
    assert "" + KeyWords.ReturnIdentifier + rest == KeyWords.ReturnIdentifier + " " + body + tail;
  }

  /** The marker and the space after it contain no `M`, so no token starts inside them. */
  lemma MarkerLacksTokenStart()
    ensures forall k :: 0 <= k < |KeyWords.ReturnIdentifier + " "| ==> (KeyWords.ReturnIdentifier + " ")[k] != 'M'
  {
  }

  /** Wrapping the texts of two lists is wrapping each list. */
  lemma AsMatchesAppend(a: seq<string>, b: seq<string>)
    ensures AsMatches(a + b) == AsMatches(a) + AsMatches(b)
  {
  }

  /** `M[d msec]`: a one-character timing token. */
  function SmallToken(d: char): string
  {
    MatchText.Open + [d, ' '] + MatchText.Close
  }

  /** Three concatenated tokens `M[a msec]M[b msec]M[c msec]` give three matches, left to right. */
  lemma ThreeTokensExample(a: char, b: char, c: char)
    requires '0' <= a <= '9' && '0' <= b <= '9' && '0' <= c <= '9'
    ensures var t1, t2, t3 := SmallToken(a), SmallToken(b), SmallToken(c);
      var reply := KeyWords.ReturnIdentifier + " " + t1 + t2 + t3;
      && CheckReturn(reply).Success?
      && AsMatches(MatchText.Tokens(reply)) == [Match(t1), Match(t2), Match(t3)]
  {
    var t1, t2, t3 := SmallToken(a), SmallToken(b), SmallToken(c);
    SmallTokenIsToken(a);
    SmallTokenIsToken(b);
    SmallTokenIsToken(c);
    var ts := [t1, t2, t3];
    assert MatchText.Concat(ts[2..]) == t3 by {
      assert MatchText.Concat(ts[2..][1..]) == "";
    }
    assert MatchText.Concat(ts[1..]) == t2 + t3 by {
      assert ts[1..][1..] == ts[2..];
    }
    assert MatchText.Concat(ts) == t1 + t2 + t3;
    AllMatchesRoundTrip(ts, "");
    PlainTextHasNoTokens("");
    assert KeyWords.ReturnIdentifier + " " + MatchText.Concat(ts) + "" == KeyWords.ReturnIdentifier + " " + t1 + t2 + t3;
    assert AsMatches(ts) == [Match(t1), Match(t2), Match(t3)];
  }

  /** `M[d msec]` with a digit `d` is a token. */
  lemma SmallTokenIsToken(d: char)
    requires '0' <= d <= '9'
    ensures MatchText.IsToken(SmallToken(d))
  {
    var t := SmallToken(d);
    assert |t| == 9;
    assert t[0] == 'M' && t[1] == '[' && t[2] == d && t[3] == ' ';
    assert t[4] == 'm' && t[5] == 'e' && t[6] == 's' && t[7] == 'c' && t[8] == ']';
    forall k | 0 <= k < |t| - |MatchText.Close|
      ensures !MatchText.ClosesAt(t, k)
    {
      assert t[k] != 'm';
    }
  }
}
