/** `String.equalsIgnoreCase`, restricted to the ASCII letters. */
module CaseFold {
  /** ASCII lower-casing of one character; every other character is left alone. */
  function LowerChar(c: char): (r: char)
    ensures 'a' <= r <= 'z' <==> ('a' <= c <= 'z' || 'A' <= c <= 'Z')
  {
    if 'A' <= c <= 'Z' then (c as int + 32) as char else c
  }

  /** ASCII upper-casing of one character. */
  function UpperChar(c: char): (r: char)
    ensures 'A' <= r <= 'Z' <==> ('a' <= c <= 'z' || 'A' <= c <= 'Z')
  {
    if 'a' <= c <= 'z' then (c as int - 32) as char else c
  }

  /** Lower-casing of a whole string, character by character. */
  function Lower(s: string): (r: string)
    ensures |r| == |s|
    ensures forall i :: 0 <= i < |s| ==> r[i] == LowerChar(s[i])
  {
    if s == [] then [] else [LowerChar(s[0])] + Lower(s[1..])
  }

  function Upper(s: string): (r: string)
    ensures |r| == |s|
    ensures forall i :: 0 <= i < |s| ==> r[i] == UpperChar(s[i])
  {
    if s == [] then [] else [UpperChar(s[0])] + Upper(s[1..])
  }

  /** Java's rule: same length, and each pair of characters equal up to case. Equal strings
      match, and matching strings have the same length. */
  predicate EqualsIgnoreCase(a: string, b: string)
    ensures a == b ==> EqualsIgnoreCase(a, b)
    ensures EqualsIgnoreCase(a, b) ==> |a| == |b|
  {
    |a| == |b| && forall i :: 0 <= i < |a| ==> CharEqualsIgnoreCase(a[i], b[i])
  }

  /** Two characters match when equal, when their upper cases are equal, or when the
      lower cases of their upper cases are equal; on ASCII, exactly when their lower cases are
      equal. */
  predicate CharEqualsIgnoreCase(x: char, y: char)
    ensures CharEqualsIgnoreCase(x, y) <==> LowerChar(x) == LowerChar(y)
  {
    x == y || UpperChar(x) == UpperChar(y) || LowerChar(UpperChar(x)) == LowerChar(UpperChar(y))
  }

  /** The character-by-character rule is the same as comparing the lower-cased strings. */
  lemma EqualsIgnoreCaseIffLower(a: string, b: string)
    ensures EqualsIgnoreCase(a, b) <==> Lower(a) == Lower(b)
  {
    if Lower(a) == Lower(b) {
      forall i | 0 <= i < |a| ensures CharEqualsIgnoreCase(a[i], b[i]) {
        assert Lower(a)[i] == Lower(b)[i];
      }
    }
  }

  lemma Reflexive(a: string)
    ensures EqualsIgnoreCase(a, a)
  {
  }

  lemma Symmetric(a: string, b: string)
    ensures EqualsIgnoreCase(a, b) <==> EqualsIgnoreCase(b, a)
  {
    EqualsIgnoreCaseIffLower(a, b);
    EqualsIgnoreCaseIffLower(b, a);
  }

  lemma Transitive(a: string, b: string, c: string)
    requires EqualsIgnoreCase(a, b) && EqualsIgnoreCase(b, c)
    ensures EqualsIgnoreCase(a, c)
  {
    EqualsIgnoreCaseIffLower(a, b);
    EqualsIgnoreCaseIffLower(b, c);
    EqualsIgnoreCaseIffLower(a, c);
  }

  /** Changing the case of any letters of a string does not change what it matches. */
  lemma CaseInsensitive(a: string)
    ensures EqualsIgnoreCase(a, Lower(a)) && EqualsIgnoreCase(a, Upper(a))
  {
    forall i | 0 <= i < |a| ensures CharEqualsIgnoreCase(a[i], Lower(a)[i]) && CharEqualsIgnoreCase(a[i], Upper(a)[i]) {
    }
  }

  /** A status is "Completed" ignoring case exactly when it lower-cases to "completed". */
  lemma CompletedAnyCase(s: string)
    ensures EqualsIgnoreCase("Completed", s) <==> Lower(s) == "completed"
  {
    EqualsIgnoreCaseIffLower("Completed", s);
    assert Lower("Completed") == "completed" by {
      LowerCompleted();
    }
  }

  lemma LowerCompleted()
    ensures Lower("Completed") == "completed"
  {
    assert "Completed"[1..] == "ompleted";
    LowerKeepsLowerCase("ompleted");
  }

  /** A string with no upper-case ASCII letter is its own lower case. */
  lemma LowerKeepsLowerCase(s: string)
    requires forall i :: 0 <= i < |s| ==> !('A' <= s[i] <= 'Z')
    ensures Lower(s) == s
  {
  }

  /** So "COMPLETED" and "completed" match "Completed", while "Complete" and "Pending" do not. */
  lemma CompletedExamples()
    ensures EqualsIgnoreCase("Completed", "COMPLETED") && EqualsIgnoreCase("Completed", "completed")
    ensures !EqualsIgnoreCase("Completed", "Complete") && !EqualsIgnoreCase("Completed", "Pending")
  {
    assert CharEqualsIgnoreCase('C', 'C');
    assert !CharEqualsIgnoreCase('C', 'P');
  }
}
