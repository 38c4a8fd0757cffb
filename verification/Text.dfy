/** Whitespace at the ends of a text, as Python's `strip` removes it. */
module Text {
  predicate IsSpace(c: char) {
    var n := c as int;
    || 9 <= n <= 13 || 28 <= n <= 32 || n == 133 || n == 160 || n == 5760 || 8192 <= n <= 8202
    || n == 8232 || n == 8233 || n == 8239 || n == 8287 || n == 12288
  }

  /** Tab to carriage return, the four separators, space, and the spaces of Unicode. */
  lemma IsSpaceIs(c: char)
    ensures IsSpace(c) <==>
      var n := c as int;
      n in [9, 10, 11, 12, 13, 28, 29, 30, 31, 32, 133, 160, 5760, 8192, 8193, 8194, 8195, 8196, 8197, 8198, 8199, 8200,
            8201, 8202, 8232, 8233, 8239, 8287, 12288]
  {
  }

  function LStrip(s: string): string {
    if s != [] && IsSpace(s[0]) then LStrip(s[1..]) else s
  }

  function RStrip(s: string): (r: string)
    ensures r <= s
    ensures r != [] ==> !IsSpace(r[|r| - 1])
    ensures forall i | |r| <= i < |s| :: IsSpace(s[i])
  {
    if s != [] && IsSpace(s[|s| - 1]) then RStrip(s[..|s| - 1]) else s
  }

  function Strip(s: string): string {
    RStrip(LStrip(s))
  }

  ghost predicate AllSpace(s: string) {
    forall c <- s :: IsSpace(c)
  }

  lemma {:induction false} LStripIs(s: string) returns (lead: string)
    ensures s == lead + LStrip(s) && AllSpace(lead)
    ensures LStrip(s) == [] || !IsSpace(LStrip(s)[0])
  {
    lead := [];
    if s != [] && IsSpace(s[0]) {
      var rest := LStripIs(s[1..]);
      lead := [s[0]] + rest;
    }
  }

  /** Only whitespace is lost, and only at the ends. */
  lemma StripIs(s: string) returns (lead: string, trail: string)
    ensures s == lead + Strip(s) + trail && AllSpace(lead) && AllSpace(trail)
    ensures Strip(s) == [] || (!IsSpace(Strip(s)[0]) && !IsSpace(Strip(s)[|Strip(s)| - 1]))
  {
    lead := LStripIs(s);
    var left := LStrip(s);
    trail := left[|Strip(s)|..];
  }

  lemma StripIsStable(s: string)
    ensures Strip(Strip(s)) == Strip(s)
  {
    var lead := LStripIs(s);
    var l, r := LStrip(s), Strip(s);
    if r != [] {
      assert r[0] == l[0];
      assert LStrip(r) == r;
    }
  }
}
