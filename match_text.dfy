/**
 * The match-token grammar `M\[.*?msec\]`: a token opens with `M[`, runs without a
 * line break, and closes at the FIRST `msec]` after the opening (the quantifier is
 * lazy). Scanning for all tokens is leftmost-first and resumes after each token,
 * so tokens never overlap and come out in text order.
 */
module MatchText {
  import opened Wrappers
  import opened Text

  const Open: string := ['M', '[']
  const Close: string := ['m', 'e', 's', 'c', ']']

  /** The opening `M[` starts at `i`. */
  predicate OpensAt(text: string, i: int)
  {
    0 <= i && i + 2 <= |text| && text[i] == 'M' && text[i + 1] == '['
  }

  /** The closing `msec]` starts at `i`. */
  predicate ClosesAt(text: string, i: int)
  {
    && 0 <= i && i + 5 <= |text|
    && text[i] == 'm' && text[i + 1] == 'e' && text[i + 2] == 's' && text[i + 3] == 'c' && text[i + 4] == ']'
  }

  /** The two delimiter tests are exactly the substring tests for the literals `M[` and `msec]`. */
  lemma DelimitersAreLiterals(text: string, i: int)
    ensures OpensAt(text, i) <==> OccursAt(text, Open, i)
    ensures ClosesAt(text, i) <==> OccursAt(text, Close, i)
  {
    if 0 <= i && i + |Open| <= |text| {
      var w := text[i..i + |Open|];
      assert w[0] == text[i] && w[1] == text[i + 1];
      assert Open[0] == 'M' && Open[1] == '[';
      if OpensAt(text, i) {
        assert forall n :: 0 <= n < |Open| ==> w[n] == Open[n];
      }
    }
    if 0 <= i && i + |Close| <= |text| {
      var w := text[i..i + |Close|];
      assert w[0] == text[i] && w[1] == text[i + 1] && w[2] == text[i + 2] && w[3] == text[i + 3] && w[4] == text[i + 4];
      assert Close[0] == 'm' && Close[1] == 'e' && Close[2] == 's' && Close[3] == 'c' && Close[4] == ']';
      if ClosesAt(text, i) {
        assert forall n :: 0 <= n < |Close| ==> w[n] == Close[n];
      }
    }
  }

  /** A complete match token, described without reference to the scanner. */
  ghost predicate IsToken(t: string)
  {
    && |t| >= |Open| + |Close|
    && OpensAt(t, 0)
    && ClosesAt(t, |t| - |Close|)
    && (forall k :: 0 <= k < |t| ==> t[k] != '\n')
    && (forall k :: 0 <= k < |t| - |Close| ==> !ClosesAt(t, k))
  }

  /**
   * Where the lazy `.*?msec\]` that starts at `j` stops: just past the first `msec]`
   * at or after `j`, provided no line break comes before it.
   */
  function CloseFrom(text: string, j: nat): (r: Option<nat>)
    ensures r.Some? ==> j + |Close| <= r.value <= |text|
    decreases |text| - j
  {
    if j + |Close| > |text| then None
    else if ClosesAt(text, j) then Some(j + |Close|)
    else if text[j] == '\n' then None
    else CloseFrom(text, j + 1)
  }

  /** The end of the token that the pattern matches at position `i`, if it matches there. */
  function TokenAt(text: string, i: nat): Option<nat>
  {
    if OpensAt(text, i) then CloseFrom(text, i + |Open|) else None
  }

  /** The leftmost token starting at or after `from`, as a (start, end) span. */
  function NextToken(text: string, from: nat): (r: Option<(nat, nat)>)
    ensures r.Some? ==> from <= r.value.0 < r.value.1 <= |text|
    decreases |text| - from
  {
    if from >= |text| then None
    else match TokenAt(text, from)
      case Some(e) => Some((from, e))
      case None => NextToken(text, from + 1)
  }

  /** The spans of all tokens found scanning from `from`: left to right and non-overlapping. */
  function SpansFrom(text: string, from: nat): seq<(nat, nat)>
    decreases |text| - from
  {
    match NextToken(text, from)
    case None => []
    case Some(span) => [span] + SpansFrom(text, span.1)
  }

  /** The texts of all tokens found scanning from `from` (`Regex.Matches` from that position). */
  function TokensFrom(text: string, from: nat): seq<string>
    decreases |text| - from
  {
    match NextToken(text, from)
    case None => []
    case Some((b, e)) => [text[b..e]] + TokensFrom(text, e)
  }

  /** The texts of all tokens in `text`, in order. */
  function Tokens(text: string): seq<string>
  {
    TokensFrom(text, 0)
  }

  /** The first token of `text`, or the empty text when there is none (`Regex.Match(...).ToString()`). */
  function FirstToken(text: string): string
  {
    match NextToken(text, 0)
    case None => ""
    case Some((b, e)) => text[b..e]
  }

  /**
   * The lazy close search stops just past the first `msec]` at or after `j` and
   * crosses no line break on the way; it fails only when every later `msec]` has
   * a line break before it.
   */
  lemma CloseFromSpec(text: string, j: nat)
    ensures CloseFrom(text, j).Some? ==>
      var v := CloseFrom(text, j).value;
      && j + |Close| <= v <= |text| && ClosesAt(text, v - |Close|)
      && forall k :: j <= k < v - |Close| ==> text[k] != '\n' && !ClosesAt(text, k)
    ensures CloseFrom(text, j).None? ==>
      forall k :: j <= k && ClosesAt(text, k) ==> exists n :: j <= n < k && text[n] == '\n'
  {
    if CloseFrom(text, j).Some? {
      CloseFromFound(text, j);
    } else {
      CloseFromMissing(text, j);
    }
  }

  lemma {:induction false} CloseFromFound(text: string, j: nat)
    requires CloseFrom(text, j).Some?
    ensures var v := CloseFrom(text, j).value;
      && ClosesAt(text, v - |Close|)
      && forall k :: j <= k < v - |Close| ==> text[k] != '\n' && !ClosesAt(text, k)
    decreases |text| - j
  {
    if !ClosesAt(text, j) {
      CloseFromFound(text, j + 1);
    }
  }

  lemma {:induction false} CloseFromMissing(text: string, j: nat)
    requires CloseFrom(text, j).None?
    ensures forall k :: j <= k && ClosesAt(text, k) ==> exists n :: j <= n < k && text[n] == '\n'
    decreases |text| - j
  {
    if j + |Close| <= |text| {
      forall k | j <= k && ClosesAt(text, k)
        ensures exists n :: j <= n < k && text[n] == '\n'
      {
        assert k != j;
        if text[j] == '\n' {
          assert j <= j < k && text[j] == '\n';
        } else {
          CloseFromMissing(text, j + 1);
          var n :| j + 1 <= n < k && text[n] == '\n';
          assert j <= n < k && text[n] == '\n';
        }
      }
    }
  }

  /** The next token is the leftmost match at or after `from`; none is reported only when nothing matches. */
  lemma {:induction false} NextTokenSpec(text: string, from: nat)
    ensures NextToken(text, from).Some? ==>
      var span := NextToken(text, from).value;
      && from <= span.0 < span.1 <= |text| && TokenAt(text, span.0) == Some(span.1)
      && forall i :: from <= i < span.0 ==> TokenAt(text, i).None?
    ensures NextToken(text, from).None? ==> forall i :: from <= i ==> TokenAt(text, i).None?
    decreases |text| - from
  {
    if from < |text| && TokenAt(text, from).None? {
      NextTokenSpec(text, from + 1);
    } else if from >= |text| {
      forall i | from <= i
        ensures TokenAt(text, i).None?
      {
        assert !OpensAt(text, i);
      }
    }
  }

  /** The scan's spans are matches, left to right and non-overlapping. */
  lemma {:induction false} SpansInOrder(text: string, from: nat)
    ensures var r := SpansFrom(text, from);
      && (forall k :: 0 <= k < |r| ==> from <= r[k].0 < r[k].1 <= |text| && TokenAt(text, r[k].0) == Some(r[k].1))
      && (forall k :: 0 < k < |r| ==> r[k - 1].1 <= r[k].0)
    decreases |text| - from
  {
    NextTokenSpec(text, from);
    match NextToken(text, from)
    case None =>
    case Some(span) =>
      assert SpansFrom(text, from) == [span] + SpansFrom(text, span.1);
      SpansInOrder(text, span.1);
  }

  /** A match at `i` ending at `e` is exactly a token occupying `text[i..e]`. */
  lemma TokenAtIffToken(text: string, i: nat, e: nat)
    requires i <= e <= |text|
    ensures TokenAt(text, i) == Some(e) <==> IsToken(text[i..e])
  {
    if TokenAt(text, i) == Some(e) {
      MatchIsToken(text, i, e);
    }
    if IsToken(text[i..e]) {
      ClosesAtTokenEnd(text, i, e, i + |Open|);
    }
  }

  /** What the pattern matches is a token. */
  lemma MatchIsToken(text: string, i: nat, e: nat)
    requires TokenAt(text, i) == Some(e)
    ensures IsToken(text[i..e])
  {
    CloseFromFound(text, i + |Open|);
    MatchHasNoEarlyClose(text, i, e);
    MatchHasNoLineBreak(text, i, e);
  }

  /** The `msec]` closing a match is the first one inside it. */
  lemma MatchHasNoEarlyClose(text: string, i: nat, e: nat)
    requires TokenAt(text, i) == Some(e)
    ensures forall k :: 0 <= k < e - i - |Close| ==> !ClosesAt(text[i..e], k)
  {
    CloseFromFound(text, i + |Open|);
    var t := text[i..e];
    forall k | 0 <= k < |t| - |Close|
      ensures !ClosesAt(t, k)
    {
      if k >= |Open| {
        assert !ClosesAt(text, i + k);
      }
    }
  }

  /** A match spans no line break. */
  lemma MatchHasNoLineBreak(text: string, i: nat, e: nat)
    requires TokenAt(text, i) == Some(e)
    ensures forall k :: 0 <= k < e - i ==> text[i..e][k] != '\n'
  {
    CloseFromFound(text, i + |Open|);
    var t := text[i..e];
    forall k | 0 <= k < |t|
      ensures t[k] != '\n'
    {
      assert t[k] == text[i + k];
    }
  }

  /** Inside a token, the lazy close search from any point before its `msec]` stops at the token's end. */
  lemma {:induction false} ClosesAtTokenEnd(text: string, i: nat, e: nat, j: nat)
    requires i <= e <= |text| && IsToken(text[i..e])
    requires i + |Open| <= j <= e - |Close|
    ensures CloseFrom(text, j) == Some(e)
    decreases e - j
  {
    var t := text[i..e];
    if j < e - |Close| {
      assert !ClosesAt(t, j - i);
      assert text[j] == t[j - i];
      ClosesAtTokenEnd(text, i, e, j + 1);
    } else {
      assert ClosesAt(t, |t| - |Close|);
    }
  }

  /** Every token the scanner reports satisfies the grammar. */
  lemma {:induction false} ScannedTokensAreTokens(text: string, from: nat)
    ensures forall t :: t in TokensFrom(text, from) ==> IsToken(t)
    decreases |text| - from
  {
    match NextToken(text, from)
    case None =>
    case Some((b, e)) =>
      NextTokenSpec(text, from);
      MatchIsToken(text, b, e);
      ScannedTokensAreTokens(text, e);
  }

  /** The reported texts are exactly the texts under the reported spans. */
  lemma {:induction false} TokensMatchSpans(text: string, from: nat)
    ensures |TokensFrom(text, from)| == |SpansFrom(text, from)|
    ensures forall k :: 0 <= k < |SpansFrom(text, from)| ==>
      && SpansFrom(text, from)[k].0 <= SpansFrom(text, from)[k].1 <= |text|
      && TokensFrom(text, from)[k] == text[SpansFrom(text, from)[k].0..SpansFrom(text, from)[k].1]
    decreases |text| - from
  {
    SpansInOrder(text, from);
    match NextToken(text, from)
    case None =>
    case Some(span) =>
      assert SpansFrom(text, from) == [span] + SpansFrom(text, span.1);
      TokensMatchSpans(text, span.1);
  }

  /** No tokens are reported iff no part of the text is a token. */
  lemma NoTokensIffNoTokenText(text: string)
    ensures Tokens(text) == [] <==> forall i, e :: 0 <= i <= e <= |text| ==> !IsToken(text[i..e])
  {
    NextTokenSpec(text, 0);
    if Tokens(text) == [] {
      forall i, e | 0 <= i <= e <= |text|
        ensures !IsToken(text[i..e])
      {
        TokenAtIffToken(text, i, e);
      }
    } else {
      var sp := NextToken(text, 0).value;
      TokenAtIffToken(text, sp.0, sp.1);
    }
  }

  /** The first token is the head of the full scan, or empty when the scan finds nothing. */
  lemma FirstTokenIsHead(text: string)
    ensures FirstToken(text) == if Tokens(text) == [] then "" else Tokens(text)[0]
  {
  }

  /** The interpreter's `''.join(...)` of match texts. */
  function Concat(ts: seq<string>): string
  {
    if ts == [] then "" else ts[0] + Concat(ts[1..])
  }

  /** The lazy close search ignores everything before its starting point. */
  lemma {:induction false} CloseFromAfterPrefix(p: string, s: string, j: nat)
    ensures CloseFrom(p + s, |p| + j) == (match CloseFrom(s, j) case None => None case Some(n) => Some(|p| + n))
    decreases |s| - j
  {
    if j + |Close| <= |s| {
      assert ClosesAt(p + s, |p| + j) <==> ClosesAt(s, j);
      assert (p + s)[|p| + j] == s[j];
      if !ClosesAt(s, j) && s[j] != '\n' {
        CloseFromAfterPrefix(p, s, j + 1);
      }
    }
  }

  /** Matching at a position ignores everything before it. */
  lemma TokenAtAfterPrefix(p: string, s: string, i: nat)
    ensures TokenAt(p + s, |p| + i) == (match TokenAt(s, i) case None => None case Some(n) => Some(|p| + n))
  {
    assert OpensAt(p + s, |p| + i) <==> OpensAt(s, i);
    CloseFromAfterPrefix(p, s, i + |Open|);
  }

  /** The search for the next token ignores everything before its starting point. */
  lemma {:induction false} NextTokenAfterPrefix(p: string, s: string, i: nat)
    ensures NextToken(s, i).None? ==> NextToken(p + s, |p| + i).None?
    ensures NextToken(s, i).Some? ==>
      NextToken(p + s, |p| + i) == Some((|p| + NextToken(s, i).value.0, |p| + NextToken(s, i).value.1))
    decreases |s| - i
  {
    TokenAtAfterPrefix(p, s, i);
    if i < |s| && TokenAt(s, i).None? {
      NextTokenAfterPrefix(p, s, i + 1);
    }
  }

  /** Scanning from a position ignores everything before it. */
  lemma {:induction false} TokensAfterPrefix(p: string, s: string, i: nat)
    ensures TokensFrom(p + s, |p| + i) == TokensFrom(s, i)
    decreases |s| - i
  {
    NextTokenAfterPrefix(p, s, i);
    match NextToken(s, i)
    case None =>
    case Some((b, e)) =>
      TokensAfterPrefix(p, s, e);
      ShiftedStep(p, s, i, b, e);
  }

  /** One step of `TokensAfterPrefix`: equal scans after the token give equal scans from before it. */
  lemma ShiftedStep(p: string, s: string, i: nat, b: nat, e: nat)
    requires NextToken(s, i) == Some((b, e))
    requires NextToken(p + s, |p| + i) == Some((|p| + b, |p| + e))
    requires TokensFrom(p + s, |p| + e) == TokensFrom(s, e)
    ensures TokensFrom(p + s, |p| + i) == TokensFrom(s, i)
  {
    SliceAfterPrefix(p, s, b, e);
    TokensFromStep(p + s, |p| + i, |p| + b, |p| + e);
    TokensFromStep(s, i, b, e);
  }

  /** One step of the scan: the token found next, then the scan after it. */
  lemma TokensFromStep(text: string, from: nat, b: nat, e: nat)
    requires NextToken(text, from) == Some((b, e))
    ensures b <= e <= |text| && TokensFrom(text, from) == [text[b..e]] + TokensFrom(text, e)
  {
  }

  /** A slice of the second part of a concatenation, taken at shifted positions. */
  lemma SliceAfterPrefix(p: string, s: string, b: nat, e: nat)
    requires b <= e <= |s|
    ensures (p + s)[|p| + b..|p| + e] == s[b..e]
  {
    var w := (p + s)[|p| + b..|p| + e];
    assert forall n :: 0 <= n < e - b ==> w[n] == s[b + n];
  }

  /** A prefix without the letter `M` holds no token start, so scanning skips it. */
  lemma {:induction false} TokensSkipPlainPrefix(p: string, s: string, i: nat)
    requires forall k :: 0 <= k < |p| ==> p[k] != 'M'
    requires i <= |p|
    ensures TokensFrom(p + s, i) == TokensFrom(p + s, |p|)
    decreases |p| - i
  {
    if i < |p| {
      assert (p + s)[i] == p[i];
      assert TokenAt(p + s, i).None?;
      TokensSkipPlainPrefix(p, s, i + 1);
    }
  }

  /** A token at the head of a text is matched whole. */
  lemma TokenLeads(t: string, rest: string)
    requires IsToken(t)
    ensures NextToken(t + rest, 0) == Some((0, |t|))
  {
    assert (t + rest)[0..|t|] == t;
    TokenAtIffToken(t + rest, 0, |t|);
  }

  /** A token at the head of a text is reported first, and the scan then goes on in the rest. */
  lemma TokensOfLeadingToken(t: string, rest: string)
    requires IsToken(t)
    ensures Tokens(t + rest) == [t] + Tokens(rest)
  {
    TokenLeads(t, rest);
    assert (t + rest)[0..|t|] == t;
    TokensAfterPrefix(t, rest, 0);
  }

  /** Scanning concatenated tokens gives the tokens back, then whatever follows them. */
  lemma {:induction false} TokensOfConcat(ts: seq<string>, q: string)
    requires forall t :: t in ts ==> IsToken(t)
    ensures Tokens(Concat(ts) + q) == ts + Tokens(q)
  {
    if ts == [] {
      assert Concat(ts) + q == q;
    } else {
      var rest := Concat(ts[1..]) + q;
      assert Concat(ts) + q == ts[0] + rest;
      TokensOfLeadingToken(ts[0], rest);
      TokensOfConcat(ts[1..], q);
      HeadThenRest(ts, Tokens(q));
    }
  }

  /** A non-empty list followed by another is its head followed by the rest of both. */
  lemma HeadThenRest<T>(xs: seq<T>, ys: seq<T>)
    requires xs != []
    ensures xs + ys == [xs[0]] + (xs[1..] + ys)
  {
  }

  /** A reply made of a marker-like prefix (no `M`), joined tokens and a tail scans to the tokens and the tail's tokens. */
  lemma TokensOfReply(p: string, ts: seq<string>, q: string)
    requires forall k :: 0 <= k < |p| ==> p[k] != 'M'
    requires forall t :: t in ts ==> IsToken(t)
    ensures Tokens(p + Concat(ts) + q) == ts + Tokens(q)
  {
    var x := Concat(ts) + q;
    assert p + Concat(ts) + q == p + x;
    TokensSkipPlainPrefix(p, x, 0);
    TokensAfterPrefix(p, x, 0);
    TokensOfConcat(ts, q);
    assert Tokens(p + x) == TokensFrom(p + x, |p| + 0) == Tokens(x);
  }
}
