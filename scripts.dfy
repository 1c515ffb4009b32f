/**
 * Construction of the one-line interpreter scripts the session submits. Every
 * script is a conditional `print`: its true branch prints the return marker with a
 * success payload, its false branch the marker with a failure payload.
 */
module Scripts {
  import opened Wrappers
  import opened Text
  import KeyWords
  import Decimal

  /** Success payload of a single-match lookup: the engine's last match as text. */
  const SingleMatchPayload: string := "getLastMatch().toString()"
  /** Success payload of a multi-match lookup: the texts of the last matches, joined with nothing between them. */
  const AllMatchesPayload: string := "''.join(map(str, getLastMatchs()))"

  /** `ToSukuliFloat`: the optional trailing timeout argument, present only for a strictly positive parameter. */
  function ToSukuliFloat(parameter: int): string
  {
    if parameter > 0 then ", " + Decimal.Format(parameter) else ""
  }

  /**
   * `ToSukuliFloat` as written: the `"0.####"` text is produced in the current
   * culture, whose decimal separator is `separator`, instead of the invariant one.
   */
  function CultureToSukuliFloat(parameter: int, separator: char): string
  {
    if parameter > 0 then ", " + WithSeparator(Decimal.Format(parameter), separator) else ""
  }

  /** The text with its decimal point written as `separator`. */
  function WithSeparator(s: string, separator: char): string
  {
    seq(|s|, i requires 0 <= i < |s| => if s[i] == '.' then separator else s[i])
  }

  /** The runtime deadline derived from a parameter: one and a half times its value in seconds. */
  function Failsafe(parameter: int): real
  {
    Decimal.Seconds(parameter) * 1.5
  }

  /** `command(arg1,arg2,...<timeout>)`: the arguments joined by a bare comma. */
  function Call(command: string, arguments: seq<string>, timeout: string): string
  {
    command + "(" + Join(",", arguments) + timeout + ")"
  }

  /** `target.command(parameters)`: a method call on a region, its parameter text passed verbatim. */
  function DotCall(command: string, target: string, parameters: string): string
  {
    target + "." + command + "(" + parameters + ")"
  }

  /** `print "SIKULI#: YES" if <call> else "SIKULI#: NO"`. */
  function PresenceScript(call: string): string
  {
    "print \"" + KeyWords.YesToken + "\" if " + call + " else \"" + KeyWords.NoToken + "\""
  }

  /** `print "SIKULI#: " + <payload> if <call> else "SIKULI#: None"`. */
  function ValueScript(payload: string, call: string): string
  {
    "print \"" + KeyWords.ReturnIdentifier + " \" + " + payload + " if " + call + " else \"" + KeyWords.NoneToken + "\""
  }

  /** The parameter text of the four `Highlight` overloads; `None` stands for the `null` of the bare overload. */
  function HighlightParameters(seconds: Option<int>, color: Option<string>): Option<string>
  {
    match (seconds, color)
    case (None, None) => None
    case (None, Some(c)) => Some("'" + c + "'")
    case (Some(s), None) => Some(Decimal.Format(s))
    case (Some(s), Some(c)) => Some(Decimal.Format(s) + ", '" + c + "'")
  }

  /** A null parameter text renders as nothing inside the parentheses. */
  function RenderParameters(parameters: Option<string>): string
  {
    match parameters
    case None => ""
    case Some(text) => text
  }

  /**
   * The timeout argument appears iff the parameter is strictly positive, and then
   * it is `", "` followed by text that reads back to exactly that parameter.
   */
  lemma TimeoutArgumentRoundTrip(parameter: int)
    ensures ToSukuliFloat(parameter) == "" <==> parameter <= 0
    ensures parameter > 0 ==>
      var arg := ToSukuliFloat(parameter);
      |arg| > 2 && arg[..2] == ", " && Decimal.Parse(arg[2..]) == Some(parameter)
  {
    if parameter > 0 {
      Decimal.FormatShape(parameter);
      Decimal.FormatRoundTrip(parameter);
      assert ToSukuliFloat(parameter)[2..] == Decimal.Format(parameter);
    }
  }

  /** Under a culture whose separator is `.`, the as-written argument is the invariant one. */
  lemma PointCultureAgrees(parameter: int)
    ensures CultureToSukuliFloat(parameter, '.') == ToSukuliFloat(parameter)
  {
    if parameter > 0 {
      var f := Decimal.Format(parameter);
      assert WithSeparator(f, '.') == f;
    }
  }

  /**
   * Under a culture whose separator is `,`, every timeout with a fraction puts a
   * second comma into the argument list, so the interpreter receives the fraction as
   * an extra argument, and the text no longer reads back to the parameter.
   */
  lemma CommaCultureSplitsTimeout(parameter: int)
    requires parameter > 0 && parameter % Decimal.Scale != 0
    ensures var arg := CultureToSukuliFloat(parameter, ',');
      && |arg| > 2 && arg[..2] == ", "
      && ',' in arg[2..]
      && Decimal.Parse(arg[2..]) == None
  {
    var f := Decimal.Format(parameter);
    var t := WithSeparator(f, ',');
    Decimal.FormatShape(parameter);
    Decimal.FormatMagnitudeShape(parameter);
    var k := Decimal.IndexOf(f, '.').value;
    assert t[k] == ',';
    assert CultureToSukuliFloat(parameter, ',')[2..] == t;
    assert t[0] != '-';
    assert Decimal.IndexOf(t, '.') == None;
    assert !Decimal.IsDigit(t[k]);
  }

  /** A timeout of 2.5 seconds: `, 2.5` in the invariant form, `, 2,5` under a comma culture. */
  lemma CommaCultureExample(expression: string)
    ensures ToSukuliFloat(25000) == ", 2.5"
    ensures CultureToSukuliFloat(25000, ',') == ", 2,5"
    ensures Call("wait", [expression], CultureToSukuliFloat(25000, ',')) == "wait(" + expression + ", 2,5)"
  {
    Decimal.FormatExamples();
    var arg := WithSeparator("2.5", ',');
    assert arg == "2,5";
    assert Join(",", [expression]) == expression;
    WaitCallShape(expression, ", " + arg);
  }

  /** A one-argument `wait` call, spelled out. */
  lemma WaitCallShape(expression: string, timeout: string)
    ensures Call("wait", [expression], timeout) == "wait(" + expression + timeout + ")"
  {
    assert Join(",", [expression]) == expression;
  }

  /** The failsafe is zero for a zero parameter and otherwise exceeds the requested wait by half of it. */
  lemma FailsafeScaling(parameter: int)
    ensures Failsafe(parameter) == Decimal.Seconds(parameter) + Decimal.Seconds(parameter) / 2.0
    ensures parameter == 0 ==> Failsafe(parameter) == 0.0
    ensures parameter > 0 ==> Failsafe(parameter) > Decimal.Seconds(parameter) > 0.0
  {
  }

  /** Different calls never produce the same presence script: the call can be read back from the script. */
  lemma {:induction false} PresenceScriptInjective(call1: string, call2: string)
    requires PresenceScript(call1) == PresenceScript(call2)
    ensures call1 == call2
  {
    var prefix := "print \"" + KeyWords.YesToken + "\" if ";
    var s1, s2 := PresenceScript(call1), PresenceScript(call2);
    assert s1 == prefix + call1 + (" else \"" + KeyWords.NoToken + "\"");
    assert s2 == prefix + call2 + (" else \"" + KeyWords.NoToken + "\"");
    assert call1 == s1[|prefix|..|prefix| + |call1|];
    assert call2 == s2[|prefix|..|prefix| + |call2|];
  }

  /** Different calls or payloads never produce the same value script. */
  lemma {:induction false} ValueScriptInjective(payload: string, call1: string, call2: string)
    requires ValueScript(payload, call1) == ValueScript(payload, call2)
    ensures call1 == call2
  {
    var prefix := "print \"" + KeyWords.ReturnIdentifier + " \" + " + payload + " if ";
    var suffix := " else \"" + KeyWords.NoneToken + "\"";
    var s1, s2 := ValueScript(payload, call1), ValueScript(payload, call2);
    assert s1 == prefix + call1 + suffix;
    assert s2 == prefix + call2 + suffix;
    assert call1 == s1[|prefix|..|prefix| + |call1|];
    assert call2 == s2[|prefix|..|prefix| + |call2|];
  }

  /** Every descriptor expression is embedded, unmodified, in the call and in both kinds of script around it. */
  lemma {:induction false} ScriptsEmbedArguments(command: string, arguments: seq<string>, timeout: string, payload: string, k: nat)
    requires k < |arguments|
    ensures Contains(Call(command, arguments, timeout), arguments[k])
    ensures Contains(PresenceScript(Call(command, arguments, timeout)), arguments[k])
    ensures Contains(ValueScript(payload, Call(command, arguments, timeout)), arguments[k])
  {
    var call := Call(command, arguments, timeout);
    JoinContainsParts(",", arguments, k);
    ContainsPiece(command + "(", Join(",", arguments), timeout + ")");
    assert command + "(" + Join(",", arguments) + (timeout + ")") == call;
    ContainsTransitive(call, Join(",", arguments), arguments[k]);
    PresenceScriptEmbedsCall(call);
    ContainsTransitive(PresenceScript(call), call, arguments[k]);
    ValueScriptEmbedsCall(payload, call);
    ContainsTransitive(ValueScript(payload, call), call, arguments[k]);
  }

  /** The region expression is embedded, unmodified, in a dotted presence script. */
  lemma DotScriptEmbedsTarget(command: string, target: string, parameters: string)
    ensures Contains(PresenceScript(DotCall(command, target, parameters)), target)
  {
    var call := DotCall(command, target, parameters);
    DotCallEmbedsTarget(command, target, parameters);
    PresenceScriptEmbedsCall(call);
    ContainsTransitive(PresenceScript(call), call, target);
  }

  /** A dotted call starts with its target. */
  lemma DotCallEmbedsTarget(command: string, target: string, parameters: string)
    ensures Contains(DotCall(command, target, parameters), target)
  {
    assert DotCall(command, target, parameters)[..|target|] == target;
    assert OccursAt(DotCall(command, target, parameters), target, 0);
  }

  /** A presence script holds its call verbatim. */
  lemma PresenceScriptEmbedsCall(call: string)
    ensures Contains(PresenceScript(call), call)
  {
    var p1 := "print \"" + KeyWords.YesToken + "\" if ";
    var s1 := " else \"" + KeyWords.NoToken + "\"";
    ContainsPiece(p1, call, s1);
    assert p1 + call + s1 == PresenceScript(call);
  }

  /** A value script holds its call verbatim. */
  lemma ValueScriptEmbedsCall(payload: string, call: string)
    ensures Contains(ValueScript(payload, call), call)
  {
    var p2 := "print \"" + KeyWords.ReturnIdentifier + " \" + " + payload + " if ";
    var s2 := " else \"" + KeyWords.NoneToken + "\"";
    ContainsPiece(p2, call, s2);
    assert p2 + call + s2 == ValueScript(payload, call);
  }

  /**
   * The highlight parameter text determines its inputs: a duration reads back from
   * the text before the first comma, and the colour follows it quoted.
   */
  lemma HighlightParametersRecoverable(seconds: int, color: string)
    ensures var text := HighlightParameters(Some(seconds), None).value;
      Decimal.Parse(text) == Some(seconds)
    ensures var text := HighlightParameters(Some(seconds), Some(color)).value;
      var k := |Decimal.Format(seconds)|;
      && Decimal.IndexOf(text, ',') == Some(k)
      && Decimal.Parse(text[..k]) == Some(seconds)
      && text[k..] == ", '" + color + "'"
    ensures HighlightParameters(None, Some(color)) == Some("'" + color + "'")
    ensures HighlightParameters(None, None) == None
  {
    Decimal.FormatRoundTrip(seconds);
    Decimal.FormatShape(seconds);
    var f := Decimal.Format(seconds);
    var text := f + ", '" + color + "'";
    assert text == f + (", '" + color + "'");
    IndexOfAfterText(f, ", '" + color + "'", ',');
  }

  /** In `s + t`, with no `c` in `s` and `t` starting with `c`, the first `c` is at `|s|`; the two parts split back out there. */
  lemma IndexOfAfterText(s: string, t: string, c: char)
    requires Decimal.IndexOf(s, c).None? && |t| > 0 && t[0] == c
    ensures Decimal.IndexOf(s + t, c) == Some(|s|)
    ensures (s + t)[..|s|] == s && (s + t)[|s|..] == t
  {
    assert (s + t)[|s|] == c;
    assert forall k :: 0 <= k < |s| ==> (s + t)[k] == s[k];
    Decimal.IndexOfFirst(s + t, c, |s|);
  }

  /** `Highlight(region, 2.5, "red")` passes `2.5, 'red'`. */
  lemma HighlightExample()
    ensures HighlightParameters(Some(25000), Some("red")) == Some("2.5, 'red'")
  {
    Decimal.FormatExamples();
    assert HighlightParameters(Some(25000), Some("red")) == Some(Decimal.Format(25000) + ", '" + "red" + "'");
    assert Decimal.Format(25000) + ", '" + "red" + "'" == "2.5, 'red'";
  }
}
