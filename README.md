# SikuliSharp session protocol, modelled in Dafny

SikuliSharp drives the Sikuli image-recognition engine from .NET. A
`SikuliSessionV2` holds an `ISikuliRuntime` (a running Jython interpreter) and
turns every high-level action into exactly one line of interpreter script:

- It validates each descriptor (pattern or region) first, so an invalid
  descriptor means nothing is submitted.
- It builds a conditional `print` script.
- It submits the script once with `Run`, passing the return marker `SIKULI#:`
  and a failsafe deadline.
- It reads the captured output back:
  - Presence commands (`click`, `has`, `waitVanish`, `dragDrop`, `highlight`, ...)
    succeed iff the output contains `SIKULI#: YES`.
  - Value commands (`find`, `findAll`, `wait`, `exists`, `findBest`, `waitBest`,
    `findAny`, `waitAny`) fail with "Command failed" unless the output contains
    `SIKULI#:`. Their match texts are the tokens of the form `M[...msec]`.
  - `exists` and the best/any lookups answer null whenever the output contains
    `None`.

The model has these modules:

- `Wrappers`: `Option` and `Result`.
- `Text`: ordinal `string.Contains` and `string.Join`.
- `KeyWords`: the protocol literals and the facts about how they relate.
- `MatchText`: a scanner for `M\[.*?msec\]`.
  - It takes the leftmost `M[` from which a token closes.
  - It then finds the nearest `msec]` after it, with no line break in between.
  - It resumes after that token, so tokens are non-overlapping and in order.
- `Decimal`: timeout and highlight values as fixed point, an integer count of
  ten-thousandths of a second.
  - Their `"0.####"` text and a reader for it.
- `Descriptors`: patterns, offset patterns and regions as values. Each carries
  its rendered expression and the verdict its `Validate` gives.
- `Scripts`: `ToSukuliFloat`, the failsafe, the call and script shapes, and the
  highlight parameter strings.
- `Responses`: how a reply is interpreted, including the `FindAll` loop.
- `Session`:
  - the `Runtime` class: an event log plus the interpreter's reply function, which
    is arbitrary;
  - the `SikuliSession` class: every runner and every public operation, each
    specified by the exact submission it appends to the log and the result it
    derives from the reply.

## Model

| member | source | states |
|---|---|---|
| KeyWords.YesTokenSpelling | SikuliSharp/KeyWords.cs:5-6 | the presence tokens are `SIKULI#: YES` / `SIKULI#: NO` and the no-match reply is `SIKULI#: None` |
| KeyWords.TokensCarryReturnIdentifier | SikuliSharp/KeyWords.cs:5-6 | every reply token starts with the return marker, `None` follows it after one space, and the NO token does not contain the YES token |
| KeyWords.LiteralsLackReturnIdentifier | SikuliSharp/KeyWords.cs:3-6 | neither `None`, `[Error]` nor `SIKULI#OBSERVER#:` contains `SIKULI#:` |
| KeyWords.PrefixEndsOutsideMarker | SikuliSharp/KeyWords.cs:3-5 | the last character of the error and observer prefixes occurs nowhere in the marker but at its end |
| KeyWords.PrefixedOutputLacksReturnIdentifier | SikuliSharp/KeyWords.cs:3-5 | an `[Error]` or observer line whose text has no marker has no marker as a whole, so no occurrence straddles the prefix |
| Text.Contains | SikuliSharp/SikuliSessionV2.cs:212 | ordinal substring test: true iff the needle occurs at some index |
| Text.JoinContainsParts | SikuliSharp/SikuliSessionV2.cs:255 | every pattern expression occurs unchanged in the comma-joined argument list |
| MatchText.DelimitersAreLiterals | SikuliSharp/KeyWords.cs:7 | the scanner's character tests for the opening and the closing are exactly the occurrence tests for the literals `M[` and `msec]` |
| MatchText.CloseFromSpec | SikuliSharp/KeyWords.cs:7 | the lazy `.*?msec]`: the end is the first `msec]` after the start, with no line break before it; when there is none, a line break precedes every later `msec]` |
| MatchText.NextTokenSpec | SikuliSharp/KeyWords.cs:7 | the next token is the leftmost start from which a token closes, and nothing before it is a token start |
| MatchText.TokenAtIffToken | SikuliSharp/KeyWords.cs:7 | the scanner matches `text[i..e]` at `i` iff that slice is a token by the grammar |
| MatchText.MatchIsToken | SikuliSharp/KeyWords.cs:7 | a matched token starts with `M[`, ends with `msec]`, has no earlier `msec]` and no line break |
| MatchText.MatchHasNoEarlyClose | SikuliSharp/KeyWords.cs:7 | the lazy quantifier: no `msec]` ends inside a token before its own end |
| MatchText.MatchHasNoLineBreak | SikuliSharp/KeyWords.cs:7 | `.` does not match a line break, so a token spans one line |
| MatchText.SpansInOrder | SikuliSharp/KeyWords.cs:7 | successive matches are left to right and do not overlap |
| MatchText.ScannedTokensAreTokens | SikuliSharp/KeyWords.cs:7 | every extracted token satisfies the grammar |
| MatchText.TokensMatchSpans | SikuliSharp/KeyWords.cs:7 | the extracted texts are exactly the text slices of the match spans, in order |
| MatchText.NoTokensIffNoTokenText | SikuliSharp/KeyWords.cs:7 | there are no tokens iff no position of the text starts a token |
| MatchText.FirstTokenIsHead | SikuliSharp/SikuliSessionV2.cs:55 | `Regex.Match` is the first of `Regex.Matches`, or empty text when there is none |
| MatchText.TokensOfConcat | SikuliSharp/KeyWords.cs:7 | scanning tokens written back to back gives back exactly those tokens, followed by the tokens of what comes after |
| MatchText.TokensOfReply | SikuliSharp/SikuliSessionV2.cs:240 | a reply made of an `M`-free prefix and then concatenated tokens scans to those tokens |
| MatchText.TokensSkipPlainPrefix | SikuliSharp/KeyWords.cs:7 | a prefix without `M` contributes no token and does not change the tokens after it |
| Decimal.NatTextValue | SikuliSharp/SikuliSessionV2.cs:313 | the integer part is a non-empty digit string that reads back to its value |
| Decimal.NatTextMinimal | SikuliSharp/SikuliSessionV2.cs:313 | the integer digits are minimal: they start with `0` only for zero, so no leading zero can turn the literal into an octal one for the interpreter |
| Decimal.FractionText | SikuliSharp/SikuliSessionV2.cs:313 | the `.####` fraction has one to four digits, no trailing zero, and denotes the fraction exactly |
| Decimal.FormatMagnitudeShape | SikuliSharp/SikuliSessionV2.cs:313 | the text is digits with one `.` present iff the value has a fraction |
| Decimal.FormatMagnitudeRoundTrip | SikuliSharp/SikuliSessionV2.cs:313 | `"0.####"` of a non-negative value reads back to the value |
| Decimal.FormatRoundTrip | SikuliSharp/SikuliSessionV2.cs:194 | `"0.####"` of any value, sign included, reads back to the value |
| Decimal.FormatShape | SikuliSharp/SikuliSessionV2.cs:199 | the number text is non-empty, contains no comma, and has a point iff the value has a fraction |
| Decimal.FormatExamples | SikuliSharp/SikuliSessionV2.cs:313 | 1 s is `1`, 0.25 s is `0.25`, 2.5 s is `2.5`, 1.2346 s is `1.2346` |
| Descriptors.Expressions | SikuliSharp/SikuliSessionV2.cs:255 | one rendered expression per pattern, in argument order |
| Descriptors.ValidateAll | SikuliSharp/SikuliSessionV2.cs:251-253 | no fault iff every pattern validates; otherwise the fault of the first invalid pattern, with all patterns before it valid |
| Descriptors.OffsetDelegates | SikuliSharp/SikuliSessionV2.cs:128-129 | an offset pattern validates as its inner pattern and renders as an extension of it |
| Scripts.TimeoutArgumentRoundTrip | SikuliSharp/SikuliSessionV2.cs:312-314 | the timeout argument is empty iff the parameter is not positive; otherwise `", "` plus text that reads back to the parameter |
| Scripts.FailsafeScaling | SikuliSharp/SikuliSessionV2.cs:211 | the failsafe is 1.5 times the parameter in seconds: zero for zero and longer than the wait for a positive one |
| Scripts.PresenceScriptInjective | SikuliSharp/SikuliSessionV2.cs:209 | distinct calls give distinct presence scripts: the call is recoverable |
| Scripts.ValueScriptInjective | SikuliSharp/SikuliSessionV2.cs:228 | distinct calls give distinct value scripts for the same payload |
| Scripts.ScriptsEmbedArguments | SikuliSharp/SikuliSessionV2.cs:270 | every descriptor expression appears verbatim in the call and in both script forms |
| Scripts.DotScriptEmbedsTarget | SikuliSharp/SikuliSessionV2.cs:285 | the region expression appears verbatim in a dot-command script |
| Scripts.HighlightParametersRecoverable | SikuliSharp/SikuliSessionV2.cs:184-201 | the four parameter strings: none, `'color'`, seconds in `"0.####"` that read back, and seconds then `, 'color'` split at the first comma |
| Scripts.HighlightExample | SikuliSharp/SikuliSessionV2.cs:198-200 | 2.5 s in red is `2.5, 'red'` |
| Scripts.PointCultureAgrees | SikuliSharp/SikuliSessionV2.cs:313 | the as-written, culture-dependent timeout text equals the invariant one when the culture's separator is a point |
| Scripts.CommaCultureSplitsTimeout | SikuliSharp/SikuliSessionV2.cs:313 | under a comma culture, a timeout with a fraction carries an extra comma and no longer reads back |
| Scripts.CommaCultureExample | SikuliSharp/SikuliSessionV2.cs:313 | 2.5 s becomes `wait(e, 2,5)` under a comma culture and `, 2.5` in the invariant form |
| Responses.CollectMatches | SikuliSharp/SikuliSessionV2.cs:58-66 | the `FindAll` loop returns exactly the matches of all tokens of the reply, in scan order |
| Responses.PresenceNeedsReturnIdentifier | SikuliSharp/SikuliSessionV2.cs:212 | a presence result of true implies the reply carries the return marker |
| Responses.PrefixedOutputWithoutMarker | SikuliSharp/SikuliSessionV2.cs:232-233 | an error line reads as presence false and as "Command failed", and so does an observer line |
| Responses.NoReplyIsFalse | SikuliSharp/SikuliSessionV2.cs:212 | the NO reply reads as false |
| Responses.PlainTextHasNoTokens | SikuliSharp/SikuliSessionV2.cs:55 | text without `M` has no tokens, and `Find` then wraps empty text |
| Responses.NoneReplyMeansNoMatch | SikuliSharp/SikuliSessionV2.cs:79-81 | a reply with `SIKULI#: None` passes the marker check and maps to null |
| Responses.AllMatchesRoundTrip | SikuliSharp/SikuliSessionV2.cs:240-247 | a marker reply of concatenated tokens passes the check and yields exactly those matches before any later ones |
| Responses.ThreeTokensExample | SikuliSharp/SikuliSessionV2.cs:58-65 | three back-to-back tokens give three matches, in order |
| Responses.SmallTokenIsToken | SikuliSharp/KeyWords.cs:7 | `M[d msec]` is a token |
| Session.Runtime.constructor | SikuliSharp/SikuliSessionV2.cs:44 | a runtime starts with an empty log and the given reply function |
| Session.Runtime.Start | SikuliSharp/SikuliSessionV2.cs:48 | appends a start event |
| Session.Runtime.Run | SikuliSharp/SikuliSessionV2.cs:211 | appends one submission of script, marker and failsafe, and returns the interpreter's reply to it |
| Session.Runtime.Stop | SikuliSharp/SikuliSessionV2.cs:317 | appends a stop event |
| Session.SikuliSession.constructor | SikuliSharp/SikuliSessionV2.cs:46-49 | the session holds the runtime and has started it once |
| Session.SikuliSession.Dispose | SikuliSharp/SikuliSessionV2.cs:316-318 | disposal stops the runtime once |
| Session.SikuliSession.RunCommand | SikuliSharp/SikuliSessionV2.cs:206-213 | invalid: the validation error and no submission; valid: one submission of `print "SIKULI#: YES" if cmd(expr[, t]) else "SIKULI#: NO"` with failsafe 1.5 × t, and true iff the reply contains `SIKULI#: YES` |
| Session.SikuliSession.RunCommandPair | SikuliSharp/SikuliSessionV2.cs:215-223 | `from` is validated before `to`; both valid: one presence submission of `cmd(from,to[, t])` |
| Session.SikuliSession.RunCommandWithReturn | SikuliSharp/SikuliSessionV2.cs:225-235 | one value submission with the single-match payload; the reply unchanged if it carries `SIKULI#:`, else "Command failed" |
| Session.SikuliSession.RunCommandWithMultiReturn | SikuliSharp/SikuliSessionV2.cs:237-248 | the same with the all-matches payload |
| Session.SikuliSession.RunCommandWithMultiReturnPatterns | SikuliSharp/SikuliSessionV2.cs:250-263 | all patterns validated first (first fault raised, no submission); then one submission of the comma-joined expressions with failsafe 0 |
| Session.SikuliSession.RunCommandWithMultiReturnTimed | SikuliSharp/SikuliSessionV2.cs:265-278 | as above with the timeout argument appended; the failsafe is still 0 |
| Session.SikuliSession.RunDotCommand | SikuliSharp/SikuliSessionV2.cs:282-289 | one presence submission of `expr.cmd(params)`, params verbatim and empty when absent |
| Session.SikuliSession.RunRegionCommand | SikuliSharp/SikuliSessionV2.cs:291-298 | one presence submission of `cmd(expr)`, never with a timeout argument, failsafe 1.5 × t |
| Session.SikuliSession.RunRegionPairCommand | SikuliSharp/SikuliSessionV2.cs:300-308 | `from` then `to` validated; one presence submission of `cmd(from,to)` without a timeout argument |
| Session.SikuliSession.Find | SikuliSharp/SikuliSessionV2.cs:53-56 | `find(expr)` with failsafe 0; the first token of the reply, or an empty match, never null; "Command failed" without the marker |
| Session.SikuliSession.FindAll | SikuliSharp/SikuliSessionV2.cs:58-66 | `findAll(expr)`; one match per token of the reply in scan order, empty when there are none |
| Session.SikuliSession.Wait | SikuliSharp/SikuliSessionV2.cs:68-71 | `wait(expr[, t])` with failsafe 1.5 × t; the first token, never null |
| Session.SikuliSession.WaitVanish | SikuliSharp/SikuliSessionV2.cs:73-75 | presence submission of `waitVanish(expr[, t])` |
| Session.SikuliSession.Exists | SikuliSharp/SikuliSessionV2.cs:77-83 | `exists(expr[, t])`; null whenever the reply contains `None`, else the first token |
| Session.SikuliSession.Has | SikuliSharp/SikuliSessionV2.cs:85-87 | presence submission of `has(expr[, t])` |
| Session.SikuliSession.FindBest | SikuliSharp/SikuliSessionV2.cs:89-95 | `findBest(e1,...,en)` with failsafe 0; null on `None`, else the first token |
| Session.SikuliSession.Among | SikuliSharp/SikuliSessionV2.cs:97-103 | the timed multi-pattern lookup with failsafe 0; null on `None`, else the first token |
| Session.SikuliSession.WaitBest | SikuliSharp/SikuliSessionV2.cs:97-103 | `waitBest(e1,...,en[, t])` with failsafe 0; null on `None`, else the first token |
| Session.SikuliSession.FindAny | SikuliSharp/SikuliSessionV2.cs:105-111 | `findAny(e1,...,en)` with failsafe 0; null on `None`, else the first token |
| Session.SikuliSession.WaitAny | SikuliSharp/SikuliSessionV2.cs:113-119 | `waitAny(e1,...,en[, t])` with failsafe 0; null on `None`, else the first token |
| Session.SikuliSession.PointAt | SikuliSharp/SikuliSessionV2.cs:124-154 | `click`/`doubleClick`/`hover`/`rightClick(expr)`: a presence submission without a timeout argument, failsafe 0 |
| Session.SikuliSession.PointAtOffset | SikuliSharp/SikuliSessionV2.cs:128-153 | the same on the pattern wrapped with its offset, validated as the inner pattern |
| Session.SikuliSession.PointAtRegion | SikuliSharp/SikuliSessionV2.cs:162-176 | the same actions on a region |
| Session.SikuliSession.DragDrop | SikuliSharp/SikuliSessionV2.cs:156-158 | presence submission of `dragDrop(from,to)`, failsafe 0 |
| Session.SikuliSession.DragDropRegions | SikuliSharp/SikuliSessionV2.cs:178-180 | presence submission of `dragDrop(from,to)` for regions |
| Session.SikuliSession.Highlight | SikuliSharp/SikuliSessionV2.cs:184-201 | presence submission of `expr.highlight(params)`, params as the four overloads build them, failsafe 0 |

## Left out

- The interpreter process behind `ISikuliRuntime` is not modelled. Its replies are an arbitrary function of the history and the submission, so every contract holds for any output.
- `Console.WriteLine` diagnostics are left out. They do not affect any result.
- `IPattern`, `IRegion`, `Point` and `Match`: only what the session uses is modelled.
  - A descriptor carries its expression and the verdict of its `Validate`.
  - `Validate` throwing is modelled as a `ValidationError` result that carries its message.
  - "Command failed" becomes `CommandFailed`.
  - A `null` match becomes `None`.
- `WithOffsetPattern`: its implementation is not in the source files modelled here. The model represents it as the `WithOffset(inner, offset)` descriptor, a wrapper that validates through its inner pattern and renders the inner expression followed by `.targetOffset(x, y)`. Descriptors.OffsetDelegates and Session.SikuliSession.PointAtOffset rely only on that delegation and that rendering.
- Binary floating point: parameters are exact multiples of 0.0001 s. The rounding of `float`/`double` values with more digits is not modelled.
- Scripts.TimeoutArgumentRoundTrip: the timeouts are C# `float`s, and C# rounds a `float` to 7 significant digits before applying a custom format such as `"0.####"`. A timeout of 1000 s or more with four decimals (1234.5678, say) therefore prints fewer digits in the source (`1234.568`) than Decimal.Format produces. For such values the source's argument does not read back to the exact parameter, so the round trip holds only for the model's exact fixed-point values.
- Scripts.HighlightParametersRecoverable: the seconds of `Highlight` are C# `double`s, which a custom format prints to 15 significant digits. Below 10^11 s every four-decimal value keeps all its digits. Above that the source rounds: 123456789012.3456 s prints as `123456789012.346`, and the read-back this lemma states does not hold in the source for such values.
- Scripts.ToSukuliFloat uses the invariant `"0.####"` form. The source formats it with the current culture; that form is kept in Scripts.CultureToSukuliFloat (see Findings).
- `PatternTextRegex` (`SikuliSharp/KeyWords.cs:8`) is unused by the session and is not modelled.
- The `static readonly` literals are Dafny constants, which cannot be reassigned.
- Concurrent use of one session, and disposing of it twice, are not modelled. `Dispose` simply appends a stop event each time.

## Findings

| source | as written | input that shows it | evidently intended | confidence | as-written member | corrected member |
|---|---|---|---|---|---|---|
| SikuliSharp/SikuliSessionV2.cs:313 | `ToSukuliFloat` formats the timeout with the current culture | timeout 2.5 s under a culture whose decimal separator is `,`: the script reads `wait(e, 2,5)`, so the interpreter receives 2 and 5 as separate arguments | the invariant `"0.####"` form, as `Highlight` uses on lines 194 and 199 | medium, not executed | Scripts.CommaCultureSplitsTimeout | Scripts.TimeoutArgumentRoundTrip |
