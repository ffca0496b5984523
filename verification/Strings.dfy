/** The string operations the services rely on. */
module Strings {

  /** WhiteSpace and LineTerminator of sections 12.2 and 12.3 of ECMA-262: what `trim` removes. */
  predicate IsSpace(c: char) {
    c in {' ', '\t', '\n', '\r', '\U{000B}', '\U{000C}', '\U{00A0}', '\U{1680}', '\U{2028}', '\U{2029}', '\U{202F}', '\U{205F}', '\U{3000}',
          '\U{FEFF}'} || '\U{2000}' <= c <= '\U{200A}'
  }

  function Trim(s: string): string {
    if s == "" then ""
    else if IsSpace(s[0]) then Trim(s[1..])
    else if IsSpace(s[|s| - 1]) then Trim(s[..|s| - 1])
    else s
  }

  /** White space before a and from b on, and none at the ends of what is between. */
  predicate TrimmedAt(s: string, a: nat, b: nat)
    requires a <= b <= |s|
  {
    && (forall i :: 0 <= i < |s| && (i < a || b <= i) ==> IsSpace(s[i]))
    && (a < b ==> !IsSpace(s[a]) && !IsSpace(s[b - 1]))
  }

  /** Trimming takes away exactly the white space at both ends. */
  lemma {:induction false} TrimCutsTheEnds(s: string)
    ensures exists a: nat, b: nat :: a <= b <= |s| && TrimmedAt(s, a, b) && Trim(s) == s[a..b]
  {
    hide IsSpace;
    if s == "" {
      assert TrimmedAt(s, 0, 0);
    } else if IsSpace(s[0]) {
      TrimCutsTheEnds(s[1..]);
      var a: nat, b: nat :| a <= b <= |s[1..]| && TrimmedAt(s[1..], a, b) && Trim(s[1..]) == s[1..][a..b];
      assert forall i :: 0 < i < |s| ==> s[i] == s[1..][i - 1];
      assert TrimmedAt(s, a + 1, b + 1) && s[1..][a..b] == s[a + 1..b + 1];
    } else if IsSpace(s[|s| - 1]) {
      var init := s[..|s| - 1];
      TrimCutsTheEnds(init);
      var a: nat, b: nat :| a <= b <= |init| && TrimmedAt(init, a, b) && Trim(init) == init[a..b];
      assert TrimmedAt(s, a, b) && init[a..b] == s[a..b];
    } else {
      assert TrimmedAt(s, 0, |s|) && s[0..|s|] == s;
    }
  }
}
