/**
 * `sanitize_string` and `normalize_string` of the task library: the rules
 * that turn a free-form name into a path- and branch-safe identifier.
 */
module TextUtils {
  import opened Strings

  /** The twelve characters `[ ] / space \ ? < > : | * @` that are replaced by `_`. */
  const Forbidden: string := "[]/ \\?<>:|*@"

  /** The string with every forbidden character replaced by `_`, position by position. */
  function MaskForbidden(s: string): string {
    seq(|s|, i requires 0 <= i < |s| => if s[i] in Forbidden then '_' else s[i])
  }

  /**
   * What `sanitize_string` returns: forbidden characters masked, then
   * surrounding whitespace stripped. The UTF-8 encode/decode round trip with
   * "ignore" is the identity on Dafny strings, which hold only Unicode scalar
   * values.
   */
  function Sanitized(s: string): (r: string)
    ensures Trimmed(r) && |r| <= |s|
  {
    Strip(MaskForbidden(s))
  }

  /** `sanitize_string`: one `replace` per forbidden character, then `strip`. */
  method SanitizeString(path: string) returns (r: string)
    ensures r == Sanitized(path)
  {
    var p := path;
    for k := 0 to |Forbidden|
      invariant |p| == |path|
      invariant forall i :: 0 <= i < |path| ==> p[i] == if path[i] in Forbidden[..k] then '_' else path[i]
    {
      ReplaceAllChar(p, Forbidden[k], '_');
      p := ReplaceAll(p, [Forbidden[k]], "_");
    }
    assert Forbidden[..|Forbidden|] == Forbidden;
    assert p == MaskForbidden(path);
    r := Strip(p);
  }

  predicate NoForbidden(s: string) {
    forall i :: 0 <= i < |s| ==> s[i] !in Forbidden
  }

  /** The result holds none of the twelve characters, has no surrounding whitespace, and is no longer than the input. */
  lemma SanitizedProperties(s: string)
    ensures NoForbidden(Sanitized(s))
    ensures Trimmed(Sanitized(s))
    ensures |Sanitized(s)| <= |s|
  {
    var m := MaskForbidden(s);
    assert NoForbidden(m);
    var r := Strip(m);
    forall i | 0 <= i < |r| ensures r[i] !in Forbidden {
      assert r[i] in r;
    }
  }

  /** A string is left unchanged exactly when it has no forbidden character and no surrounding whitespace. */
  lemma SanitizedFixedPoints(s: string)
    ensures Sanitized(s) == s <==> NoForbidden(s) && Trimmed(s)
  {
    SanitizedProperties(s);
    if NoForbidden(s) && Trimmed(s) {
      assert MaskForbidden(s) == s;
    }
  }

  /** Sanitizing twice gives the same result as sanitizing once. */
  lemma SanitizeIdempotent(s: string)
    ensures Sanitized(Sanitized(s)) == Sanitized(s)
  {
    SanitizedProperties(s);
    SanitizedFixedPoints(Sanitized(s));
  }

  /** What `normalize_string` returns: `sanitize_string(s).strip().lower()`. */
  function Normalized(s: string): (r: string)
    ensures |r| <= |s|
  {
    Lower(Strip(Sanitized(s)))
  }

  predicate NoUpperAscii(s: string) {
    forall i :: 0 <= i < |s| ==> !('A' <= s[i] <= 'Z')
  }

  /** The normalized string has no surrounding whitespace, no upper-case ASCII letter and no forbidden character. */
  lemma NormalizedProperties(s: string)
    ensures Normalized(s) == Lower(Sanitized(s))
    ensures Trimmed(Normalized(s))
    ensures NoUpperAscii(Normalized(s))
    ensures NoForbidden(Normalized(s))
  {
    var t := Sanitized(s);
    NormalizedIsLowerSanitized(s);
    SanitizedProperties(s);
    LowerKeepsTrimmed(t);
    LowerKeepsSafe(t);
    LowerHasNoUpper(t);
  }

  lemma LowerHasNoUpper(t: string)
    ensures NoUpperAscii(Lower(t))
  {
    forall i | 0 <= i < |t| ensures !('A' <= Lower(t)[i] <= 'Z') {
      LowerCharNotUpper(t[i]);
    }
  }

  lemma LowerCharNotUpper(c: char)
    ensures !('A' <= LowerChar(c) <= 'Z')
  {
  }

  lemma NormalizedIsLowerSanitized(s: string)
    ensures Normalized(s) == Lower(Sanitized(s))
  {
    SanitizedProperties(s);
  }

  lemma LowerKeepsTrimmed(t: string)
    requires Trimmed(t)
    ensures Trimmed(Lower(t))
  {
    if |t| > 0 {
      LowerCharKeepsSpace(t[0]);
      LowerCharKeepsSpace(t[|t| - 1]);
    }
  }

  lemma LowerCharKeepsSpace(c: char)
    ensures IsSpace(LowerChar(c)) == IsSpace(c)
  {
  }

  lemma LowerKeepsSafe(t: string)
    requires NoForbidden(t)
    ensures NoForbidden(Lower(t))
  {
    forall i | 0 <= i < |t| ensures Lower(t)[i] !in Forbidden {
      LowerCharKeepsSafe(t[i]);
    }
  }

  lemma LowerCharKeepsSafe(c: char)
    requires c !in Forbidden
    ensures LowerChar(c) !in Forbidden
  {
    if 'A' <= c <= 'Z' {
      assert 'a' <= LowerChar(c) <= 'z';
    }
  }

  /** Lower-casing a string without upper-case ASCII letters changes nothing. */
  lemma LowerWithoutUpper(t: string)
    requires NoUpperAscii(t)
    ensures Lower(t) == t
  {
    assert forall i :: 0 <= i < |t| ==> Lower(t)[i] == t[i];
  }

  /** Normalizing a normalized string changes nothing. */
  lemma NormalizeIdempotent(s: string)
    ensures Normalized(Normalized(s)) == Normalized(s)
  {
    var n := Normalized(s);
    NormalizedProperties(s);
    SanitizedFixedPoints(n);
    assert Strip(Sanitized(n)) == n;
    LowerWithoutUpper(n);
  }
}
