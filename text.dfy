/** Ordinal string operations the session relies on: `string.Contains` and `string.Join`. */
module Text {

  /** `sub` occurs in `text` starting at index `i`. */
  predicate OccursAt(text: string, sub: string, i: int)
  {
    0 <= i && i + |sub| <= |text| && text[i..i + |sub|] == sub
  }

  /** Ordinal substring search starting at `from`. */
  function ContainsFrom(text: string, sub: string, from: nat): (r: bool)
    ensures r <==> exists i :: from <= i && OccursAt(text, sub, i)
    decreases |text| - from
  {
    if from + |sub| > |text| then false
    else OccursAt(text, sub, from) || ContainsFrom(text, sub, from + 1)
  }

  /** C#'s `text.Contains(sub)`: true iff `sub` occurs somewhere in `text`. */
  function Contains(text: string, sub: string): (r: bool)
    ensures r <==> exists i :: OccursAt(text, sub, i)
  {
    ContainsFrom(text, sub, 0)
  }

  /** An occurrence inside an occurrence is an occurrence. */
  lemma ContainsTransitive(a: string, b: string, c: string)
    requires Contains(a, b) && Contains(b, c)
    ensures Contains(a, c)
  {
    var i :| OccursAt(a, b, i);
    var j :| OccursAt(b, c, j);
    forall k | 0 <= k < |c|
      ensures a[i + j + k] == c[k]
    {
      assert b[j + k] == a[i..i + |b|][j + k];
    }
    assert OccursAt(a, c, i + j);
  }

  /** A piece of a concatenation is contained in it. */
  lemma ContainsPiece(a: string, b: string, c: string)
    ensures Contains(a + b + c, b)
  {
    assert (a + b + c)[|a|..|a| + |b|] == b;
    assert OccursAt(a + b + c, b, |a|);
  }

  /** An occurrence in `a + b` lies in `a`, lies in `b`, or straddles the seam. */
  lemma SplitOccurrence(a: string, b: string, sub: string, i: int)
    requires OccursAt(a + b, sub, i)
    ensures || (i + |sub| <= |a| && OccursAt(a, sub, i))
            || (|a| <= i && OccursAt(b, sub, i - |a|))
            || (i < |a| < i + |sub| && sub[|a| - 1 - i] == a[|a| - 1])
  {
    if i + |sub| <= |a| {
      assert a[i..i + |sub|] == (a + b)[i..i + |sub|];
    } else if |a| <= i {
      assert b[i - |a|..i - |a| + |sub|] == (a + b)[i..i + |sub|];
    } else {
      assert (a + b)[i..i + |sub|][|a| - 1 - i] == a[|a| - 1];
    }
  }

  /**
   * Gluing two texts cannot create an occurrence of `sub` when neither text holds one
   * and the last character of `a` never appears in `sub` before its last position.
   */
  lemma NoOccurrenceAcrossSeam(a: string, b: string, sub: string)
    requires !Contains(a, sub) && !Contains(b, sub)
    requires |a| > 0
    requires forall k :: 0 <= k < |sub| - 1 ==> sub[k] != a[|a| - 1]
    ensures !Contains(a + b, sub)
  {
    forall i | OccursAt(a + b, sub, i)
      ensures false
    {
      SplitOccurrence(a, b, sub, i);
    }
  }

  /** C#'s `string.Join(sep, parts)`. */
  function Join(sep: string, parts: seq<string>): string
  {
    if |parts| == 0 then ""
    else if |parts| == 1 then parts[0]
    else parts[0] + sep + Join(sep, parts[1..])
  }

  /** Every part is found, unmodified, in the joined text. */
  lemma {:induction false} JoinContainsParts(sep: string, parts: seq<string>, k: nat)
    requires k < |parts|
    ensures Contains(Join(sep, parts), parts[k])
  {
    if |parts| == 1 {
      ContainsPiece("", parts[0], "");
      assert "" + parts[0] + "" == parts[0];
    } else if k == 0 {
      ContainsPiece("", parts[0], sep + Join(sep, parts[1..]));
      assert "" + parts[0] + (sep + Join(sep, parts[1..])) == Join(sep, parts);
    } else {
      JoinContainsParts(sep, parts[1..], k - 1);
      ContainsPiece(parts[0] + sep, Join(sep, parts[1..]), "");
      assert parts[0] + sep + Join(sep, parts[1..]) + "" == Join(sep, parts);
      ContainsTransitive(Join(sep, parts), Join(sep, parts[1..]), parts[k]);
    }
  }
}
