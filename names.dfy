/**
 * Feature names compared without regard to the case of ASCII letters: the model's stand-in
 * for the store's `StringComparer.InvariantCultureIgnoreCase` dictionary. Names are folded to
 * a canonical form, and two names are the same key exactly when their folded forms are equal.
 */
module FeatureNames {

  /** Lower-cases one ASCII letter and leaves every other character alone. */
  function LowerChar(c: char): char
  {
    if 'A' <= c <= 'Z' then (c as int + 32) as char else c
  }

  /** The canonical form of a name: every letter lower-cased. */
  function Fold(name: string): string
  {
    seq(|name|, i requires 0 <= i < |name| => LowerChar(name[i]))
  }

  /** Whether the model's registry key treats `a` and `b` as the same name. */
  predicate SameIgnoringCase(a: string, b: string)
  {
    Fold(a) == Fold(b)
  }

  /**
   * `a` and `b` differ at most in the case of their letters: at each position the characters
   * are equal, or one is the capital of the other.
   */
  predicate CaseVariants(a: string, b: string)
  {
    |a| == |b| &&
    forall i :: 0 <= i < |a| ==> a[i] == b[i] || LowerChar(a[i]) == b[i] || a[i] == LowerChar(b[i])
  }

  /**
   * Under the model's key, two names are the same exactly when they differ only in the case
   * of their letters: case variants collide, and names differing in anything else stay apart.
   */
  lemma SameKeyIffCaseVariants(a: string, b: string)
    ensures SameIgnoringCase(a, b) <==> CaseVariants(a, b)
  {
    if CaseVariants(a, b) {
      forall i | 0 <= i < |a| ensures Fold(a)[i] == Fold(b)[i] {
        assert LowerChar(LowerChar(a[i])) == LowerChar(a[i]);
        assert LowerChar(LowerChar(b[i])) == LowerChar(b[i]);
      }
    }
    if SameIgnoringCase(a, b) {
      assert |a| == |Fold(a)| == |Fold(b)| == |b|;
      forall i | 0 <= i < |a| ensures a[i] == b[i] || LowerChar(a[i]) == b[i] || a[i] == LowerChar(b[i]) {
        assert LowerChar(a[i]) == Fold(a)[i] == Fold(b)[i] == LowerChar(b[i]);
      }
    }
  }
}
