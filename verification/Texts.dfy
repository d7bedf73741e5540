/** Blank text, as strip() sees it. */
module Texts {

  predicate IsBlank(c: char) { c == ' ' || c == '\t' || c == '\n' || c == '\r' }

  function StripLeft(s: string): string {
    if s != [] && IsBlank(s[0]) then StripLeft(s[1..]) else s
  }

  function StripRight(s: string): string {
    if s != [] && IsBlank(s[|s|-1]) then StripRight(s[..|s|-1]) else s
  }

  function Strip(s: string): string { StripRight(StripLeft(s)) }

  /** Some character is not blank. */
  predicate Nonblank(s: string) { exists i :: 0 <= i < |s| && !IsBlank(s[i]) }

  /** That is what a nonempty strip() tells. */
  lemma NonblankExactly(s: string)
    ensures Nonblank(s) <==> Strip(s) != ""
  {
    StripLeftExactly(s);
    StripRightExactly(StripLeft(s));
  }

  lemma {:induction false} StripLeftExactly(s: string)
    ensures Nonblank(StripLeft(s)) <==> Nonblank(s)
    ensures !Nonblank(s) ==> StripLeft(s) == ""
  {
    if s != [] && IsBlank(s[0]) {
      StripLeftExactly(s[1..]);
      if i :| 0 <= i < |s| && !IsBlank(s[i]) { assert s[1..][i-1] == s[i]; }
      if i :| 0 <= i < |s[1..]| && !IsBlank(s[1..][i]) { assert s[i+1] == s[1..][i]; }
    } else if s != [] {
      assert !IsBlank(s[0]);
    }
  }

  lemma {:induction false} StripRightExactly(s: string)
    ensures Nonblank(s) <==> StripRight(s) != ""
  {
    if s != [] && IsBlank(s[|s|-1]) {
      var init := s[..|s|-1];
      StripRightExactly(init);
      if i :| 0 <= i < |s| && !IsBlank(s[i]) { assert init[i] == s[i]; }
      if i :| 0 <= i < |init| && !IsBlank(init[i]) { assert s[i] == init[i]; }
    } else if s != [] {
      assert !IsBlank(s[|s|-1]);
    }
  }

  lemma StripIsNonblank(s: string)
    requires Nonblank(s)
    ensures Nonblank(Strip(s))
  {
    StripLeftExactly(s);
    StripRightKeepsNonblank(StripLeft(s));
  }

  lemma {:induction false} StripRightKeepsNonblank(s: string)
    requires Nonblank(s)
    ensures Nonblank(StripRight(s))
  {
    if IsBlank(s[|s|-1]) {
      var init := s[..|s|-1];
      var i :| 0 <= i < |s| && !IsBlank(s[i]);
      assert init[i] == s[i];
      StripRightKeepsNonblank(init);
    }
  }

  lemma NonblankHead(s: string)
    requires s != [] && !IsBlank(s[0])
    ensures Nonblank(s)
  {}

  lemma NonblankInside(s: string, i: nat)
    requires i < |s| && !IsBlank(s[i])
    ensures Nonblank(s)
  {}
}
