/** The string tests the source makes, on strings as sequences of UTF-8 bytes. */
module Text {

  predicate StartsWith(s: string, prefix: string) {
    |prefix| <= |s| && s[..|prefix|] == prefix
  }

  predicate EndsWith(s: string, suffix: string) {
    |suffix| <= |s| && s[|s| - |suffix|..] == suffix
  }

  predicate HasDotDot(s: string) {
    exists i :: 0 <= i < |s| - 1 && s[i] == '.' && s[i + 1] == '.'
  }

  /** Characters no reference or branch name may hold. */
  predicate ForbiddenChar(c: char) {
    c in " ~^:?*[\\"
  }

  /** No two dots side by side. */
  ghost predicate DotsApart(s: string) {
    forall i, j :: 0 <= i && j == i + 1 < |s| ==> s[i] != '.' || s[j] != '.'
  }

  /** None of the eight characters. */
  ghost predicate Unreserved(s: string) {
    forall i :: 0 <= i < |s| ==>
      s[i] != ' ' && s[i] != '~' && s[i] != '^' && s[i] != ':' && s[i] != '?' && s[i] != '*' && s[i] != '[' && s[i] != '\\'
  }

  lemma DotsExactly(s: string)
    ensures HasDotDot(s) <==> !DotsApart(s)
  {
    if HasDotDot(s) {
      var i :| 0 <= i < |s| - 1 && s[i] == '.' && s[i + 1] == '.';
      var j := i + 1;
      assert s[j] == '.';
    }
    if i, j :| 0 <= i && j == i + 1 < |s| && s[i] == '.' && s[j] == '.' {
      assert s[i + 1] == '.';
    }
  }

  lemma ReservedExactly(s: string)
    ensures (forall c :: c in s ==> !ForbiddenChar(c)) <==> Unreserved(s)
  {
    assert (forall c :: c in s ==> !ForbiddenChar(c)) <==> forall i :: 0 <= i < |s| ==> !ForbiddenChar(s[i]);
  }

  lemma EndsExactly(s: string, suffix: string)
    ensures EndsWith(s, suffix) <==> exists front :: s == front + suffix
  {
    if EndsWith(s, suffix) {
      assert s == s[..|s| - |suffix|] + suffix;
    }
  }

  lemma StartsExactly(s: string, prefix: string)
    ensures StartsWith(s, prefix) <==> exists rest :: s == prefix + rest
  {
    if StartsWith(s, prefix) {
      assert s == prefix + s[|prefix|..];
    }
  }
}
