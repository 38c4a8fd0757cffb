/** The slug that keys a long-term fact: lower case, runs of other characters as one dash, at most 64. */
module Slugs {
  const MAX := 64

  predicate Alnum(c: char) {
    'a' <= c <= 'z' || '0' <= c <= '9'
  }

  /**
   `str.lower` as far as a slug can see it: outside A-Z, only the dotted capital I and the Kelvin sign
   have an ASCII letter in their lower case; every other character is a separator either way.
   */
  function LowerChar(c: char): string {
    if 'A' <= c <= 'Z' then [c - 'A' + 'a']
    else if c == '\U{130}' then "i\U{307}"
    else if c == '\U{212A}' then "k"
    else [c]
  }

  function Lower(s: string): string {
    if s == [] then [] else Lower(s[..|s| - 1]) + LowerChar(s[|s| - 1])
  }

  /** Replace every run of characters outside [a-z0-9] by one dash. */
  function Collapse(s: string): string {
    if s == [] then [] else
    var before, c := Collapse(s[..|s| - 1]), s[|s| - 1];
    if Alnum(c) then before + [c]
    else if before != [] && before[|before| - 1] == '-' then before
    else before + "-"
  }

  function LStripDash(s: string): string {
    if s != [] && s[0] == '-' then LStripDash(s[1..]) else s
  }

  function RStripDash(s: string): string {
    if s != [] && s[|s| - 1] == '-' then RStripDash(s[..|s| - 1]) else s
  }

  function Stripped(value: string): string {
    RStripDash(LStripDash(Collapse(Lower(value))))
  }

  function Slug(value: string): string {
    var cleaned := Stripped(value);
    if |cleaned| > MAX then cleaned[..MAX] else cleaned
  }

  /* ---- what a slug keeps of the value ---- */

  /** By their codes: the lower-case letters of ASCII and its digits. */
  lemma AlnumIs(c: char)
    ensures Alnum(c) <==> 97 <= c as int <= 122 || 48 <= c as int <= 57
  {
  }

  /** An upper-case letter becomes the same letter, and letters in lower case, digits and dashes stay. */
  lemma LowerCharIs(c: char)
    ensures 'A' <= c <= 'Z' ==>
              |LowerChar(c)| == 1 && LowerChar(c)[0] as int - 'a' as int == c as int - 'A' as int
    ensures 'a' <= c <= 'z' || '0' <= c <= '9' || c == '-' ==> LowerChar(c) == [c]
    ensures LowerChar('\U{130}') == "i\U{307}" && LowerChar('\U{212A}') == "k"
  {
  }

  /** The letters and digits of a text, in their order. */
  ghost function Letters(s: string): string {
    if s == [] then [] else Letters(s[..|s| - 1]) + if Alnum(s[|s| - 1]) then [s[|s| - 1]] else []
  }

  lemma LettersOfMore(s: string, c: char)
    ensures Letters(s + [c]) == Letters(s) + if Alnum(c) then [c] else []
  {
    assert (s + [c])[..|s|] == s;
  }

  lemma {:induction false} LettersOfRest(s: string)
    requires s != [] && !Alnum(s[0])
    ensures Letters(s[1..]) == Letters(s)
  {
    var n := |s| - 1;
    if n > 0 {
      LettersOfRest(s[..n]);
      assert s[1..] == s[..n][1..] + [s[n]];
      LettersOfMore(s[..n][1..], s[n]);
    } else {
      assert s[..0] == [] && s[1..] == [];
    }
  }

  lemma {:induction false} CollapseKeepsLetters(s: string)
    ensures Letters(Collapse(s)) == Letters(s)
  {
    if s != [] {
      var c := s[|s| - 1];
      CollapseKeepsLetters(s[..|s| - 1]);
      LettersOfMore(Collapse(s[..|s| - 1]), c);
      LettersOfMore(Collapse(s[..|s| - 1]), '-');
    }
  }

  lemma {:induction false} LStripKeepsLetters(s: string)
    ensures Letters(LStripDash(s)) == Letters(s)
  {
    if s != [] && s[0] == '-' {
      LStripKeepsLetters(s[1..]);
      LettersOfRest(s);
    }
  }

  lemma {:induction false} RStripKeepsLetters(s: string)
    ensures Letters(RStripDash(s)) == Letters(s)
  {
    if s != [] && s[|s| - 1] == '-' {
      RStripKeepsLetters(s[..|s| - 1]);
    }
  }

  /** Up to the cut a slug has all the letters and digits of the lowered value and no others, in their order. */
  lemma SlugKeepsLetters(value: string)
    ensures Letters(Stripped(value)) == Letters(Lower(value))
    ensures |Stripped(value)| <= 64 ==> Slug(value) == Stripped(value)
    ensures |Stripped(value)| > 64 ==> Slug(value) == Stripped(value)[..64]
  {
    CollapseKeepsLetters(Lower(value));
    LStripKeepsLetters(Collapse(Lower(value)));
    RStripKeepsLetters(LStripDash(Collapse(Lower(value))));
  }

  /** Runs of other characters stand for one dash each: where two letters stood apart, one dash is between them. */
  lemma {:induction false} CollapseEndsAs(s: string)
    ensures s != [] ==> Collapse(s) != [] && (TrailingDash(Collapse(s)) <==> !Alnum(s[|s| - 1]))
  {
    if |s| > 1 {
      CollapseEndsAs(s[..|s| - 1]);
    }
  }

  /* ---- the shape of a slug ---- */

  /** Only [a-z0-9-], and no dash next to another. */
  predicate Dashed(s: string) {
    && (forall i | 0 <= i < |s| :: Alnum(s[i]) || s[i] == '-')
    && (forall i | 0 <= i < |s| - 1 :: s[i] == '-' ==> s[i + 1] != '-')
  }

  predicate LeadingDash(s: string) {
    s != [] && s[0] == '-'
  }

  predicate TrailingDash(s: string) {
    s != [] && s[|s| - 1] == '-'
  }

  lemma {:induction false} CollapseIsDashed(s: string)
    ensures Dashed(Collapse(s))
  {
    if s != [] {
      CollapseIsDashed(s[..|s| - 1]);
    }
  }

  lemma LowerCharIsFixed(c: char)
    requires Alnum(c) || c == '-'
    ensures LowerChar(c) == [c]
  {
  }

  lemma {:induction false} LowerIsFixed(s: string, k: nat)
    requires k <= |s| && forall i | 0 <= i < |s| :: Alnum(s[i]) || s[i] == '-'
    ensures Lower(s[..k]) == s[..k]
  {
    if k > 0 {
      LowerIsFixed(s, k - 1);
      var init, last := s[..k - 1], s[k - 1];
      LowerCharIsFixed(last);
      LowerOneMore(init, last);
      assert s[..k] == init + [last];
    }
  }

  lemma LowerOneMore(init: string, last: char)
    ensures Lower(init + [last]) == Lower(init) + LowerChar(last)
  {
    assert (init + [last])[..|init|] == init;
  }

  lemma {:induction false} CollapseIsFixed(s: string)
    requires Dashed(s)
    ensures Collapse(s) == s
  {
    if s != [] {
      var init := s[..|s| - 1];
      CollapseIsFixed(init);
      assert s == init + [s[|s| - 1]];
    }
  }

  lemma PartIsDashed(s: string, from: nat, to: nat)
    requires Dashed(s) && from <= to <= |s|
    ensures Dashed(s[from..to])
  {
    var part := s[from..to];
    forall i | 0 <= i < |part| - 1 ensures part[i] == '-' ==> part[i + 1] != '-' {
      assert part[i] == s[from + i] && part[i + 1] == s[from + i + 1];
    }
  }

  /** A dashed string loses at most one dash at each end. */
  lemma StripDashed(s: string)
    requires Dashed(s)
    ensures LStripDash(s) == if LeadingDash(s) then s[1..] else s
    ensures RStripDash(s) == if TrailingDash(s) then s[..|s| - 1] else s
  {
    if LeadingDash(s) && |s| > 1 { assert s[1..][0] == s[1]; }
    if TrailingDash(s) && |s| > 1 { assert s[..|s| - 1][|s| - 2] == s[|s| - 2]; }
  }

  lemma StrippedShape(value: string)
    ensures Dashed(Stripped(value)) && !LeadingDash(Stripped(value)) && !TrailingDash(Stripped(value))
  {
    var c := Collapse(Lower(value));
    CollapseIsDashed(Lower(value));
    StripDashed(c);
    var l := LStripDash(c);
    if LeadingDash(c) {
      PartIsDashed(c, 1, |c|);
      assert c[1..|c|] == c[1..] && (l != [] ==> l[0] == c[0 + 1]);
    }
    StripDashed(l);
    if TrailingDash(l) {
      PartIsDashed(l, 0, |l| - 1);
      assert l[0..|l| - 1] == l[..|l| - 1] && (|l| > 1 ==> l[..|l| - 1][|l| - 2] == l[|l| - 2]);
    }
  }

  lemma SlugShape(value: string)
    ensures |Slug(value)| <= MAX && Dashed(Slug(value)) && !LeadingDash(Slug(value))
    ensures TrailingDash(Slug(value)) <==> |Stripped(value)| > MAX && Stripped(value)[MAX - 1] == '-'
  {
    StrippedShape(value);
  }

  lemma SlugOfSlug(value: string)
    ensures var s := Slug(value);
            Slug(s) == if TrailingDash(s) then s[..|s| - 1] else s
  {
    var s := Slug(value);
    SlugShape(value);
    LowerIsFixed(s, |s|);
    assert s[..|s|] == s;
    CollapseIsFixed(s);
    StripDashed(s);
  }

  /** A slug is stable exactly when the cut at 64 characters did not leave a dash at its end. */
  lemma SlugIsStableIff(value: string)
    ensures Slug(Slug(value)) == Slug(value) <==> !(|Stripped(value)| > MAX && Stripped(value)[MAX - 1] == '-')
  {
    SlugShape(value);
    SlugOfSlug(value);
  }

  /** Two applications always reach the fixed point. */
  lemma SlugSettles(value: string)
    ensures Slug(Slug(Slug(value))) == Slug(Slug(value))
  {
    var s := Slug(value);
    SlugShape(value);
    SlugOfSlug(value);
    SlugOfSlug(s);
    if TrailingDash(s) {
      assert |s| > 1 ==> s[|s| - 2] != '-';
    }
  }

  predicate AnyAlnum(s: string) {
    exists i | 0 <= i < |s| :: Alnum(s[i])
  }

  lemma {:induction false} CollapseKeepsAlnum(s: string)
    ensures AnyAlnum(Collapse(s)) <==> AnyAlnum(s)
  {
    if s != [] {
      var init, c := s[..|s| - 1], s[|s| - 1];
      var before := Collapse(init);
      CollapseKeepsAlnum(init);
      assert s == init + [c];
      AppendAlnum(init, c);
      AppendAlnum(before, c);
      AppendAlnum(before, '-');
    }
  }

  lemma AppendAlnum(s: string, c: char)
    ensures AnyAlnum(s + [c]) <==> AnyAlnum(s) || Alnum(c)
  {
    var t := s + [c];
    if i :| 0 <= i < |s| && Alnum(s[i]) { assert Alnum(t[i]); }
    if Alnum(c) { assert Alnum(t[|s|]); }
  }

  lemma StripKeepsAlnum(s: string)
    requires Dashed(s)
    ensures AnyAlnum(RStripDash(LStripDash(s))) <==> AnyAlnum(s)
  {
    StripDashed(s);
    var l := LStripDash(s);
    assert Dashed(l);
    StripDashed(l);
    var r := RStripDash(l);
    if i :| 0 <= i < |s| && Alnum(s[i]) {
      var j := if LeadingDash(s) then i - 1 else i;
      assert l[j] == s[i] && r[j] == s[i];
    }
  }

  /** The slug is empty exactly when the value has no letter or digit: the content hash is used then. */
  lemma SlugIsEmptyIff(value: string)
    ensures Slug(value) == "" <==> !AnyAlnum(Lower(value))
  {
    var low := Lower(value);
    CollapseIsDashed(low);
    CollapseKeepsAlnum(low);
    StripKeepsAlnum(Collapse(low));
    StrippedShape(value);
    if Stripped(value) != "" { assert Alnum(Stripped(value)[0]); }
  }
}
