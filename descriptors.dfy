/**
 * Pattern and region descriptors, seen only through the two operations the
 * session uses: `Validate()` and `ToSikuliScript()`. Their concrete classes are
 * not part of this model, so a plain descriptor carries its rendered script
 * expression and the verdict its `Validate()` gives (`None` when valid, otherwise
 * the message of the exception it throws).
 */
module Descriptors {
  import opened Wrappers
  import Decimal

  datatype Point = Point(x: int, y: int)

  /** An `IPattern`: an image pattern, or a pattern decorated with a click offset (`WithOffsetPattern`). */
  datatype Pattern =
    | Image(expression: string, fault: Option<string>)
    | WithOffset(inner: Pattern, offset: Point)
  {
    /** `Validate()`: `None` when the pattern is well formed, else the validation message. */
    function Validate(): Option<string>
    {
      match this
      case Image(_, fault) => fault
      case WithOffset(inner, _) => inner.Validate()
    }

    /** `ToSikuliScript()`: the interpreter expression for this pattern; the decorator extends its inner pattern's. */
    function ToSikuliScript(): string
    {
      match this
      case Image(expression, _) => expression
      case WithOffset(inner, offset) =>
        inner.ToSikuliScript() + ".targetOffset(" + IntText(offset.x) + ", " + IntText(offset.y) + ")"
    }
  }

  /** An `IRegion`: a screen rectangle or whole-screen sentinel. */
  datatype Region = Region(expression: string, fault: Option<string>)
  {
    function Validate(): Option<string> { fault }

    function ToSikuliScript(): string { expression }
  }

  function IntText(n: int): string
  {
    if n < 0 then "-" + Decimal.NatText(-n) else Decimal.NatText(n)
  }

  /** Every pattern of the list validates. */
  predicate AllValid(patterns: seq<Pattern>)
  {
    forall i :: 0 <= i < |patterns| ==> patterns[i].Validate().None?
  }

  /** `reason` is what the first failing pattern reports: every pattern before it validates. */
  ghost predicate IsFirstFault(patterns: seq<Pattern>, reason: string)
  {
    exists k :: 0 <= k < |patterns| && patterns[k].Validate() == Some(reason) && AllValid(patterns[..k])
  }

  /** The script expressions of the patterns, in argument order. */
  function Expressions(patterns: seq<Pattern>): (r: seq<string>)
    ensures |r| == |patterns|
    ensures forall i :: 0 <= i < |patterns| ==> r[i] == patterns[i].ToSikuliScript()
  {
    if patterns == [] then [] else [patterns[0].ToSikuliScript()] + Expressions(patterns[1..])
  }

  /**
   * `foreach (var pattern in patterns) pattern.Validate();` — stops at the first
   * pattern that fails and reports its message; reports nothing when all pass.
   */
  method ValidateAll(patterns: seq<Pattern>) returns (fault: Option<string>)
    ensures fault.None? <==> AllValid(patterns)
    ensures fault.Some? ==> IsFirstFault(patterns, fault.value)
  {
    var i := 0;
    while i < |patterns|
      invariant 0 <= i <= |patterns|
      invariant AllValid(patterns[..i])
    {
      var verdict := patterns[i].Validate();
      if verdict.Some? {
        assert patterns[i].Validate() == Some(verdict.value);
        return verdict;
      }
      assert patterns[..i + 1] == patterns[..i] + [patterns[i]];
      i := i + 1;
    }
    assert patterns[..i] == patterns;
    return None;
  }

  /** A decorated pattern is valid exactly when the pattern it wraps is, and its expression extends the wrapped one. */
  lemma OffsetDelegates(p: Pattern, offset: Point)
    ensures WithOffset(p, offset).Validate() == p.Validate()
    ensures var e := WithOffset(p, offset).ToSikuliScript();
      |p.ToSikuliScript()| < |e| && e[..|p.ToSikuliScript()|] == p.ToSikuliScript()
  {
  }
}
