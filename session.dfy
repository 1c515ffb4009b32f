/**
 * The session: it owns a runtime, starts it on construction and stops it on
 * disposal, and runs every operation as validate -> build script -> one `Run`
 * -> interpret the reply.
 */
module Session {
  import opened Wrappers
  import opened Text
  import KeyWords
  import MatchText
  import opened Descriptors
  import opened Scripts
  import opened Responses

  /** One call of `Run`: the script, the marker the runtime waits for, and the failsafe deadline in seconds. */
  datatype Submission = Submission(script: string, marker: string, failsafe: real)

  /** What happened to the runtime, in order. */
  datatype Event = Started | Ran(submission: Submission, reply: string) | Stopped

  /**
   * The external interpreter (`ISikuliRuntime`). Its replies are outside this model:
   * `respond` gives, for any history and submission, the text the interpreter prints,
   * so `Run` may return any string at all.
   */
  class Runtime {
    const respond: (seq<Event>, Submission) -> string
    var events: seq<Event>

    constructor (respond: (seq<Event>, Submission) -> string)
      ensures this.respond == respond && events == []
    {
      this.respond := respond;
      events := [];
    }

    method Start()
      modifies this
      ensures events == old(events) + [Started]
    {
      events := events + [Started];
    }

    /** Submits one script and returns the captured output. */
    method Run(script: string, marker: string, failsafe: real) returns (reply: string)
      modifies this
      ensures reply == respond(old(events), Submission(script, marker, failsafe))
      ensures events == old(events) + [Ran(Submission(script, marker, failsafe), reply)]
    {
      reply := respond(events, Submission(script, marker, failsafe));
      events := events + [Ran(Submission(script, marker, failsafe), reply)];
    }

    method Stop()
      modifies this
      ensures events == old(events) + [Stopped]
    {
      events := events + [Stopped];
    }
  }

  /** The pointer actions, each an interpreter function of the same name. */
  datatype PointerAction = Click | DoubleClick | Hover | RightClick
  {
    function Name(): string
    {
      match this
      case Click => "click"
      case DoubleClick => "doubleClick"
      case Hover => "hover"
      case RightClick => "rightClick"
    }
  }

  /** `SikuliSessionV2`. */
  class SikuliSession {
    const runtime: Runtime

    /** The reply the runtime gives to `script`, submitted with the return marker after history `before`. */
    function ReplyTo(before: seq<Event>, script: string, failsafe: real): string
    {
      runtime.respond(before, Submission(script, KeyWords.ReturnIdentifier, failsafe))
    }

    /** Exactly one submission of `script`, with the return marker and deadline `failsafe`, followed `before`. */
    ghost predicate Sent(before: seq<Event>, script: string, failsafe: real)
      reads runtime
    {
      runtime.events == before + [Ran(Submission(script, KeyWords.ReturnIdentifier, failsafe), ReplyTo(before, script, failsafe))]
    }

    /** Nothing was submitted and the validation message of the failing descriptor was raised. */
    ghost predicate Refused<T>(before: seq<Event>, reason: string, r: Result<T, SessionError>)
      reads runtime
    {
      runtime.events == before && r == Failure(ValidationError(reason))
    }

    /** A presence exchange: `script` was sent once, and the result says whether the reply holds `SIKULI#: YES`. */
    ghost predicate PresenceExchange(before: seq<Event>, script: string, failsafe: real, r: Result<bool, SessionError>)
      reads runtime
    {
      Sent(before, script, failsafe) && r == Success(PresenceResult(ReplyTo(before, script, failsafe)))
    }

    /** A value exchange: `script` was sent once; the reply is returned if it carries the marker, else the command failed. */
    ghost predicate ValueExchange(before: seq<Event>, script: string, failsafe: real, r: Result<string, SessionError>)
      reads runtime
    {
      Sent(before, script, failsafe) && r == CheckReturn(ReplyTo(before, script, failsafe))
    }

    /** Creating a session starts its runtime at once. */
    constructor (runtime: Runtime)
      modifies runtime
      ensures this.runtime == runtime
      ensures runtime.events == old(runtime.events) + [Started]
    {
      this.runtime := runtime;
      new;
      runtime.Start();
    }

    /** Disposing of the session stops its runtime. */
    method Dispose()
      modifies runtime
      ensures runtime.events == old(runtime.events) + [Stopped]
    {
      runtime.Stop();
    }

    // ---------------------------------------------------------------- runners

    /** `RunCommand(command, IPattern, parameter)`. */
    method RunCommand(command: string, pattern: Pattern, parameter: int) returns (r: Result<bool, SessionError>)
      modifies runtime
      ensures pattern.Validate().Some? ==> Refused(old(runtime.events), pattern.Validate().value, r)
      ensures pattern.Validate().None? ==>
        PresenceExchange(old(runtime.events),
          PresenceScript(Call(command, [pattern.ToSikuliScript()], ToSukuliFloat(parameter))), Failsafe(parameter), r)
    {
      var fault := pattern.Validate();
      if fault.Some? {
        return Failure(ValidationError(fault.value));
      }
      var script := PresenceScript(Call(command, [pattern.ToSikuliScript()], ToSukuliFloat(parameter)));
      var reply := runtime.Run(script, KeyWords.ReturnIdentifier, Failsafe(parameter));
      return Success(PresenceResult(reply));
    }

    /** `RunCommand(command, IPattern from, IPattern to, parameter)`. */
    method RunCommandPair(command: string, from: Pattern, to: Pattern, parameter: int) returns (r: Result<bool, SessionError>)
      modifies runtime
      ensures from.Validate().Some? ==> Refused(old(runtime.events), from.Validate().value, r)
      ensures from.Validate().None? && to.Validate().Some? ==> Refused(old(runtime.events), to.Validate().value, r)
      ensures from.Validate().None? && to.Validate().None? ==>
        PresenceExchange(old(runtime.events),
          PresenceScript(Call(command, [from.ToSikuliScript(), to.ToSikuliScript()], ToSukuliFloat(parameter))),
          Failsafe(parameter), r)
    {
      var fault := from.Validate();
      if fault.Some? {
        return Failure(ValidationError(fault.value));
      }
      fault := to.Validate();
      if fault.Some? {
        return Failure(ValidationError(fault.value));
      }
      var script := PresenceScript(Call(command, [from.ToSikuliScript(), to.ToSikuliScript()], ToSukuliFloat(parameter)));
      var reply := runtime.Run(script, KeyWords.ReturnIdentifier, Failsafe(parameter));
      return Success(PresenceResult(reply));
    }

    /** `RunCommandWithReturn(command, IPattern, parameter)`: a single-match value script. */
    method RunCommandWithReturn(command: string, pattern: Pattern, parameter: int) returns (r: Result<string, SessionError>)
      modifies runtime
      ensures pattern.Validate().Some? ==> Refused(old(runtime.events), pattern.Validate().value, r)
      ensures pattern.Validate().None? ==>
        ValueExchange(old(runtime.events),
          ValueScript(SingleMatchPayload, Call(command, [pattern.ToSikuliScript()], ToSukuliFloat(parameter))),
          Failsafe(parameter), r)
    {
      var fault := pattern.Validate();
      if fault.Some? {
        return Failure(ValidationError(fault.value));
      }
      var script := ValueScript(SingleMatchPayload, Call(command, [pattern.ToSikuliScript()], ToSukuliFloat(parameter)));
      var reply := runtime.Run(script, KeyWords.ReturnIdentifier, Failsafe(parameter));
      if !Contains(reply, KeyWords.ReturnIdentifier) {
        return Failure(CommandFailed);
      }
      return Success(reply);
    }

    /** `RunCommandWithMultiReturn(command, IPattern, parameter)`: a multi-match value script. */
    method RunCommandWithMultiReturn(command: string, pattern: Pattern, parameter: int) returns (r: Result<string, SessionError>)
      modifies runtime
      ensures pattern.Validate().Some? ==> Refused(old(runtime.events), pattern.Validate().value, r)
      ensures pattern.Validate().None? ==>
        ValueExchange(old(runtime.events),
          ValueScript(AllMatchesPayload, Call(command, [pattern.ToSikuliScript()], ToSukuliFloat(parameter))),
          Failsafe(parameter), r)
    {
      var fault := pattern.Validate();
      if fault.Some? {
        return Failure(ValidationError(fault.value));
      }
      var script := ValueScript(AllMatchesPayload, Call(command, [pattern.ToSikuliScript()], ToSukuliFloat(parameter)));
      var reply := runtime.Run(script, KeyWords.ReturnIdentifier, Failsafe(parameter));
      if !Contains(reply, KeyWords.ReturnIdentifier) {
        return Failure(CommandFailed);
      }
      return Success(reply);
    }

    /**
     * `RunCommandWithMultiReturn(command, params IPattern[])`: every pattern is
     * validated before the single submission; the failsafe is always zero.
     */
    method RunCommandWithMultiReturnPatterns(command: string, patterns: seq<Pattern>) returns (r: Result<string, SessionError>)
      modifies runtime
      ensures !AllValid(patterns) ==>
        && runtime.events == old(runtime.events)
        && r.Failure? && r.error.ValidationError? && IsFirstFault(patterns, r.error.reason)
      ensures AllValid(patterns) ==>
        ValueExchange(old(runtime.events),
          ValueScript(AllMatchesPayload, Call(command, Expressions(patterns), "")), 0.0, r)
    {
      var fault := ValidateAll(patterns);
      if fault.Some? {
        return Failure(ValidationError(fault.value));
      }
      var script := ValueScript(AllMatchesPayload, Call(command, Expressions(patterns), ""));
      var reply := runtime.Run(script, KeyWords.ReturnIdentifier, 0.0);
      if !Contains(reply, KeyWords.ReturnIdentifier) {
        return Failure(CommandFailed);
      }
      return Success(reply);
    }

    /**
     * `RunCommandWithMultiReturn(command, parameter, params IPattern[])`: as above,
     * with the timeout argument; the failsafe is still zero.
     */
    method RunCommandWithMultiReturnTimed(command: string, parameter: int, patterns: seq<Pattern>)
      returns (r: Result<string, SessionError>)
      modifies runtime
      ensures !AllValid(patterns) ==>
        && runtime.events == old(runtime.events)
        && r.Failure? && r.error.ValidationError? && IsFirstFault(patterns, r.error.reason)
      ensures AllValid(patterns) ==>
        ValueExchange(old(runtime.events),
          ValueScript(AllMatchesPayload, Call(command, Expressions(patterns), ToSukuliFloat(parameter))), 0.0, r)
    {
      var fault := ValidateAll(patterns);
      if fault.Some? {
        return Failure(ValidationError(fault.value));
      }
      var script := ValueScript(AllMatchesPayload, Call(command, Expressions(patterns), ToSukuliFloat(parameter)));
      var reply := runtime.Run(script, KeyWords.ReturnIdentifier, 0.0);
      if !Contains(reply, KeyWords.ReturnIdentifier) {
        return Failure(CommandFailed);
      }
      return Success(reply);
    }

    /** `RunDotCommand(command, IRegion, paramString, parameter)`: `region.command(paramString)`. */
    method RunDotCommand(command: string, region: Region, parameters: Option<string>, parameter: int)
      returns (r: Result<bool, SessionError>)
      modifies runtime
      ensures region.Validate().Some? ==> Refused(old(runtime.events), region.Validate().value, r)
      ensures region.Validate().None? ==>
        PresenceExchange(old(runtime.events),
          PresenceScript(DotCall(command, region.ToSikuliScript(), RenderParameters(parameters))), Failsafe(parameter), r)
    {
      var fault := region.Validate();
      if fault.Some? {
        return Failure(ValidationError(fault.value));
      }
      var script := PresenceScript(DotCall(command, region.ToSikuliScript(), RenderParameters(parameters)));
      var reply := runtime.Run(script, KeyWords.ReturnIdentifier, Failsafe(parameter));
      return Success(PresenceResult(reply));
    }

    /** `RunCommand(command, IRegion, parameter)`: the region form never appends a timeout argument. */
    method RunRegionCommand(command: string, region: Region, parameter: int) returns (r: Result<bool, SessionError>)
      modifies runtime
      ensures region.Validate().Some? ==> Refused(old(runtime.events), region.Validate().value, r)
      ensures region.Validate().None? ==>
        PresenceExchange(old(runtime.events),
          PresenceScript(Call(command, [region.ToSikuliScript()], "")), Failsafe(parameter), r)
    {
      var fault := region.Validate();
      if fault.Some? {
        return Failure(ValidationError(fault.value));
      }
      var script := PresenceScript(Call(command, [region.ToSikuliScript()], ""));
      var reply := runtime.Run(script, KeyWords.ReturnIdentifier, Failsafe(parameter));
      return Success(PresenceResult(reply));
    }

    /** `RunCommand(command, IRegion from, IRegion to, parameter)`. */
    method RunRegionPairCommand(command: string, from: Region, to: Region, parameter: int)
      returns (r: Result<bool, SessionError>)
      modifies runtime
      ensures from.Validate().Some? ==> Refused(old(runtime.events), from.Validate().value, r)
      ensures from.Validate().None? && to.Validate().Some? ==> Refused(old(runtime.events), to.Validate().value, r)
      ensures from.Validate().None? && to.Validate().None? ==>
        PresenceExchange(old(runtime.events),
          PresenceScript(Call(command, [from.ToSikuliScript(), to.ToSikuliScript()], "")), Failsafe(parameter), r)
    {
      var fault := from.Validate();
      if fault.Some? {
        return Failure(ValidationError(fault.value));
      }
      fault := to.Validate();
      if fault.Some? {
        return Failure(ValidationError(fault.value));
      }
      var script := PresenceScript(Call(command, [from.ToSikuliScript(), to.ToSikuliScript()], ""));
      var reply := runtime.Run(script, KeyWords.ReturnIdentifier, Failsafe(parameter));
      return Success(PresenceResult(reply));
    }

    // ---------------------------------------------------------------- lookups

    /** `Find`: no timeout argument, zero failsafe; the first token of the reply, or an empty match. */
    method Find(pattern: Pattern) returns (r: Result<Match, SessionError>)
      modifies runtime
      ensures pattern.Validate().Some? ==> Refused(old(runtime.events), pattern.Validate().value, r)
      ensures pattern.Validate().None? ==>
        var script := ValueScript(SingleMatchPayload, Call("find", [pattern.ToSikuliScript()], ""));
        var reply := ReplyTo(old(runtime.events), script, 0.0);
        && Sent(old(runtime.events), script, 0.0)
        && r == if Contains(reply, KeyWords.ReturnIdentifier) then Success(FirstMatch(reply)) else Failure(CommandFailed)
    {
      var result := RunCommandWithReturn("find", pattern, 0);
      if result.Failure? {
        return Failure(result.error);
      }
      return Success(FirstMatch(result.value));
    }

    /** `FindAll`: one match per token of the reply, in order; none when there are no tokens. */
    method FindAll(pattern: Pattern) returns (r: Result<seq<Match>, SessionError>)
      modifies runtime
      ensures pattern.Validate().Some? ==> Refused(old(runtime.events), pattern.Validate().value, r)
      ensures pattern.Validate().None? ==>
        var script := ValueScript(AllMatchesPayload, Call("findAll", [pattern.ToSikuliScript()], ""));
        var reply := ReplyTo(old(runtime.events), script, 0.0);
        && Sent(old(runtime.events), script, 0.0)
        && r == if Contains(reply, KeyWords.ReturnIdentifier)
                then Success(AsMatches(MatchText.Tokens(reply))) else Failure(CommandFailed)
    {
      var result := RunCommandWithMultiReturn("findAll", pattern, 0);
      if result.Failure? {
        return Failure(result.error);
      }
      var matches := CollectMatches(result.value);
      return Success(matches);
    }

    /** `Wait`: like `Find`, with the timeout argument and a failsafe of 1.5 times the timeout. */
    method Wait(pattern: Pattern, timeout: int) returns (r: Result<Match, SessionError>)
      modifies runtime
      ensures pattern.Validate().Some? ==> Refused(old(runtime.events), pattern.Validate().value, r)
      ensures pattern.Validate().None? ==>
        var script := ValueScript(SingleMatchPayload, Call("wait", [pattern.ToSikuliScript()], ToSukuliFloat(timeout)));
        var reply := ReplyTo(old(runtime.events), script, Failsafe(timeout));
        && Sent(old(runtime.events), script, Failsafe(timeout))
        && r == if Contains(reply, KeyWords.ReturnIdentifier) then Success(FirstMatch(reply)) else Failure(CommandFailed)
    {
      var result := RunCommandWithReturn("wait", pattern, timeout);
      if result.Failure? {
        return Failure(result.error);
      }
      return Success(FirstMatch(result.value));
    }

    /** `WaitVanish`: a presence command. */
    method WaitVanish(pattern: Pattern, timeout: int) returns (r: Result<bool, SessionError>)
      modifies runtime
      ensures pattern.Validate().Some? ==> Refused(old(runtime.events), pattern.Validate().value, r)
      ensures pattern.Validate().None? ==>
        PresenceExchange(old(runtime.events),
          PresenceScript(Call("waitVanish", [pattern.ToSikuliScript()], ToSukuliFloat(timeout))), Failsafe(timeout), r)
    {
      r := RunCommand("waitVanish", pattern, timeout);
    }

    /** `Exists`: null whenever the reply contains `None`, else the first token. */
    method Exists(pattern: Pattern, timeout: int) returns (r: Result<Option<Match>, SessionError>)
      modifies runtime
      ensures pattern.Validate().Some? ==> Refused(old(runtime.events), pattern.Validate().value, r)
      ensures pattern.Validate().None? ==>
        var script := ValueScript(SingleMatchPayload, Call("exists", [pattern.ToSikuliScript()], ToSukuliFloat(timeout)));
        var reply := ReplyTo(old(runtime.events), script, Failsafe(timeout));
        && Sent(old(runtime.events), script, Failsafe(timeout))
        && r == if !Contains(reply, KeyWords.ReturnIdentifier) then Failure(CommandFailed)
                else if Contains(reply, KeyWords.None) then Success(None)
                else Success(Some(FirstMatch(reply)))
    {
      var result := RunCommandWithReturn("exists", pattern, timeout);
      if result.Failure? {
        return Failure(result.error);
      }
      return Success(OptionalMatch(result.value));
    }

    /** `Has`: a presence command. */
    method Has(pattern: Pattern, timeout: int) returns (r: Result<bool, SessionError>)
      modifies runtime
      ensures pattern.Validate().Some? ==> Refused(old(runtime.events), pattern.Validate().value, r)
      ensures pattern.Validate().None? ==>
        PresenceExchange(old(runtime.events),
          PresenceScript(Call("has", [pattern.ToSikuliScript()], ToSukuliFloat(timeout))), Failsafe(timeout), r)
    {
      r := RunCommand("has", pattern, timeout);
    }

    /** The reading shared by `FindBest`, `WaitBest`, `FindAny` and `WaitAny`. */
    method Among(command: string, timeout: int, patterns: seq<Pattern>) returns (r: Result<Option<Match>, SessionError>)
      modifies runtime
      ensures !AllValid(patterns) ==>
        && runtime.events == old(runtime.events)
        && r.Failure? && r.error.ValidationError? && IsFirstFault(patterns, r.error.reason)
      ensures AllValid(patterns) ==>
        var script := ValueScript(AllMatchesPayload, Call(command, Expressions(patterns), ToSukuliFloat(timeout)));
        var reply := ReplyTo(old(runtime.events), script, 0.0);
        && Sent(old(runtime.events), script, 0.0)
        && r == if !Contains(reply, KeyWords.ReturnIdentifier) then Failure(CommandFailed)
                else if Contains(reply, KeyWords.None) then Success(None)
                else Success(Some(FirstMatch(reply)))
    {
      var result := RunCommandWithMultiReturnTimed(command, timeout, patterns);
      if result.Failure? {
        return Failure(result.error);
      }
      return Success(OptionalMatch(result.value));
    }

    /** `FindBest`: the untimed multi-pattern runner; null on `None`. */
    method FindBest(patterns: seq<Pattern>) returns (r: Result<Option<Match>, SessionError>)
      modifies runtime
      ensures !AllValid(patterns) ==>
        && runtime.events == old(runtime.events)
        && r.Failure? && r.error.ValidationError? && IsFirstFault(patterns, r.error.reason)
      ensures AllValid(patterns) ==>
        var script := ValueScript(AllMatchesPayload, Call("findBest", Expressions(patterns), ""));
        var reply := ReplyTo(old(runtime.events), script, 0.0);
        && Sent(old(runtime.events), script, 0.0)
        && r == if !Contains(reply, KeyWords.ReturnIdentifier) then Failure(CommandFailed)
                else if Contains(reply, KeyWords.None) then Success(None)
                else Success(Some(FirstMatch(reply)))
    {
      var result := RunCommandWithMultiReturnPatterns("findBest", patterns);
      if result.Failure? {
        return Failure(result.error);
      }
      return Success(OptionalMatch(result.value));
    }

    /** `FindAny`: the untimed multi-pattern runner; null on `None`. */
    method FindAny(patterns: seq<Pattern>) returns (r: Result<Option<Match>, SessionError>)
      modifies runtime
      ensures !AllValid(patterns) ==>
        && runtime.events == old(runtime.events)
        && r.Failure? && r.error.ValidationError? && IsFirstFault(patterns, r.error.reason)
      ensures AllValid(patterns) ==>
        var script := ValueScript(AllMatchesPayload, Call("findAny", Expressions(patterns), ""));
        var reply := ReplyTo(old(runtime.events), script, 0.0);
        && Sent(old(runtime.events), script, 0.0)
        && r == if !Contains(reply, KeyWords.ReturnIdentifier) then Failure(CommandFailed)
                else if Contains(reply, KeyWords.None) then Success(None)
                else Success(Some(FirstMatch(reply)))
    {
      var result := RunCommandWithMultiReturnPatterns("findAny", patterns);
      if result.Failure? {
        return Failure(result.error);
      }
      return Success(OptionalMatch(result.value));
    }

    /** `WaitBest`: the timed multi-pattern runner (failsafe zero); null on `None`. */
    method WaitBest(timeout: int, patterns: seq<Pattern>) returns (r: Result<Option<Match>, SessionError>)
      modifies runtime
      ensures !AllValid(patterns) ==>
        && runtime.events == old(runtime.events)
        && r.Failure? && r.error.ValidationError? && IsFirstFault(patterns, r.error.reason)
      ensures AllValid(patterns) ==>
        var script := ValueScript(AllMatchesPayload, Call("waitBest", Expressions(patterns), ToSukuliFloat(timeout)));
        var reply := ReplyTo(old(runtime.events), script, 0.0);
        && Sent(old(runtime.events), script, 0.0)
        && r == if !Contains(reply, KeyWords.ReturnIdentifier) then Failure(CommandFailed)
                else if Contains(reply, KeyWords.None) then Success(None)
                else Success(Some(FirstMatch(reply)))
    {
      r := Among("waitBest", timeout, patterns);
    }

    /** `WaitAny`: the timed multi-pattern runner (failsafe zero); null on `None`. */
    method WaitAny(timeout: int, patterns: seq<Pattern>) returns (r: Result<Option<Match>, SessionError>)
      modifies runtime
      ensures !AllValid(patterns) ==>
        && runtime.events == old(runtime.events)
        && r.Failure? && r.error.ValidationError? && IsFirstFault(patterns, r.error.reason)
      ensures AllValid(patterns) ==>
        var script := ValueScript(AllMatchesPayload, Call("waitAny", Expressions(patterns), ToSukuliFloat(timeout)));
        var reply := ReplyTo(old(runtime.events), script, 0.0);
        && Sent(old(runtime.events), script, 0.0)
        && r == if !Contains(reply, KeyWords.ReturnIdentifier) then Failure(CommandFailed)
                else if Contains(reply, KeyWords.None) then Success(None)
                else Success(Some(FirstMatch(reply)))
    {
      r := Among("waitAny", timeout, patterns);
    }

    // ---------------------------------------------------------------- pointer actions and highlight

    /** `Click`/`DoubleClick`/`Hover`/`RightClick` on a pattern: no timeout argument, zero failsafe. */
    method PointAt(action: PointerAction, pattern: Pattern) returns (r: Result<bool, SessionError>)
      modifies runtime
      ensures pattern.Validate().Some? ==> Refused(old(runtime.events), pattern.Validate().value, r)
      ensures pattern.Validate().None? ==>
        PresenceExchange(old(runtime.events),
          PresenceScript(Call(action.Name(), [pattern.ToSikuliScript()], "")), 0.0, r)
    {
      r := RunCommand(action.Name(), pattern, 0);
    }

    /** The same actions on a pattern decorated with a click offset. */
    method PointAtOffset(action: PointerAction, pattern: Pattern, offset: Point) returns (r: Result<bool, SessionError>)
      modifies runtime
      ensures pattern.Validate().Some? ==> Refused(old(runtime.events), pattern.Validate().value, r)
      ensures pattern.Validate().None? ==>
        PresenceExchange(old(runtime.events),
          PresenceScript(Call(action.Name(), [WithOffset(pattern, offset).ToSikuliScript()], "")), 0.0, r)
    {
      r := RunCommand(action.Name(), WithOffset(pattern, offset), 0);
    }

    /** The same actions on a region. */
    method PointAtRegion(action: PointerAction, region: Region) returns (r: Result<bool, SessionError>)
      modifies runtime
      ensures region.Validate().Some? ==> Refused(old(runtime.events), region.Validate().value, r)
      ensures region.Validate().None? ==>
        PresenceExchange(old(runtime.events),
          PresenceScript(Call(action.Name(), [region.ToSikuliScript()], "")), 0.0, r)
    {
      r := RunRegionCommand(action.Name(), region, 0);
    }

    /** `DragDrop(IPattern, IPattern)`: `dragDrop(from,to)`. */
    method DragDrop(from: Pattern, to: Pattern) returns (r: Result<bool, SessionError>)
      modifies runtime
      ensures from.Validate().Some? ==> Refused(old(runtime.events), from.Validate().value, r)
      ensures from.Validate().None? && to.Validate().Some? ==> Refused(old(runtime.events), to.Validate().value, r)
      ensures from.Validate().None? && to.Validate().None? ==>
        PresenceExchange(old(runtime.events),
          PresenceScript("dragDrop(" + from.ToSikuliScript() + "," + to.ToSikuliScript() + ")"), 0.0, r)
    {
      var a, b := from.ToSikuliScript(), to.ToSikuliScript();
      assert Join(",", [a, b]) == a + "," + b;
      assert Call("dragDrop", [a, b], "") == "dragDrop(" + a + "," + b + ")";
      assert Failsafe(0) == 0.0;
      r := RunCommandPair("dragDrop", from, to, 0);
    }

    /** `DragDrop(IRegion, IRegion)`: `dragDrop(from,to)`. */
    method DragDropRegions(from: Region, to: Region) returns (r: Result<bool, SessionError>)
      modifies runtime
      ensures from.Validate().Some? ==> Refused(old(runtime.events), from.Validate().value, r)
      ensures from.Validate().None? && to.Validate().Some? ==> Refused(old(runtime.events), to.Validate().value, r)
      ensures from.Validate().None? && to.Validate().None? ==>
        PresenceExchange(old(runtime.events),
          PresenceScript("dragDrop(" + from.ToSikuliScript() + "," + to.ToSikuliScript() + ")"), 0.0, r)
    {
      var a, b := from.ToSikuliScript(), to.ToSikuliScript();
      assert Join(",", [a, b]) == a + "," + b;
      assert Call("dragDrop", [a, b], "") == "dragDrop(" + a + "," + b + ")";
      assert Failsafe(0) == 0.0;
      r := RunRegionPairCommand("dragDrop", from, to, 0);
    }

    /** The four `Highlight` overloads: `region.highlight(<parameters>)`. */
    method Highlight(region: Region, seconds: Option<int>, color: Option<string>) returns (r: Result<bool, SessionError>)
      modifies runtime
      ensures region.Validate().Some? ==> Refused(old(runtime.events), region.Validate().value, r)
      ensures region.Validate().None? ==>
        PresenceExchange(old(runtime.events),
          PresenceScript(region.ToSikuliScript() + ".highlight(" + RenderParameters(HighlightParameters(seconds, color)) + ")"),
          0.0, r)
    {
      var target, parameters := region.ToSikuliScript(), RenderParameters(HighlightParameters(seconds, color));
      assert "." + "highlight" + "(" == ".highlight(";
      assert DotCall("highlight", target, parameters) == target + ".highlight(" + parameters + ")";
      assert Failsafe(0) == 0.0;
      r := RunDotCommand("highlight", region, HighlightParameters(seconds, color), 0);
    }
  }
}
