/** ASCII text operations behind `str.strip`, `str.lower` and `str.upper`. */
module Text {

  /** The ASCII characters that `str.strip` removes. */
  predicate IsSpace(c: char) { c == ' ' || '\t' <= c <= '\r' || 28 <= c as int <= 31 }

  function LowerChar(c: char): char {
    if 'A' <= c <= 'Z' then (c as int + 32) as char else c
  }

  function UpperChar(c: char): char {
    if 'a' <= c <= 'z' then (c as int - 32) as char else c
  }

  function Lower(s: string): string {
    seq(|s|, i requires 0 <= i < |s| => LowerChar(s[i]))
  }

  function Upper(s: string): string {
    seq(|s|, i requires 0 <= i < |s| => UpperChar(s[i]))
  }

  function StripLeft(s: string): string {
    if s != [] && IsSpace(s[0]) then StripLeft(s[1..]) else s
  }

  function StripRight(s: string): string {
    if s != [] && IsSpace(s[|s| - 1]) then StripRight(s[..|s| - 1]) else s
  }

  function Strip(s: string): string { StripRight(StripLeft(s)) }

  /** Nothing to strip. */
  predicate Trimmed(s: string) { s == [] || (!IsSpace(s[0]) && !IsSpace(s[|s| - 1])) }

  lemma {:induction false} StripRightKeepsHead(s: string)
    ensures var r := StripRight(s);
            r <= s && (r == [] || (r[0] == s[0] && !IsSpace(r[|r| - 1])))
  {
    if s != [] && IsSpace(s[|s| - 1]) {
      StripRightKeepsHead(s[..|s| - 1]);
    }
  }

  lemma {:induction false} StripLeftHead(s: string)
    ensures var r := StripLeft(s); r == [] || !IsSpace(r[0])
  {
    if s != [] && IsSpace(s[0]) {
      StripLeftHead(s[1..]);
    }
  }

  lemma StripTrims(s: string)
    ensures Trimmed(Strip(s))
  {
    StripLeftHead(s);
    StripRightKeepsHead(StripLeft(s));
  }

  lemma StripOfTrimmed(s: string)
    requires Trimmed(s)
    ensures Strip(s) == s
  {
  }

  lemma {:induction false} StripLeftPadded(left: string, s: string)
    requires (s == [] || !IsSpace(s[0])) && forall c | c in left :: IsSpace(c)
    ensures StripLeft(left + s) == s
  {
    if left == [] {
      assert left + s == s;
    } else {
      assert (left + s)[1..] == left[1..] + s;
      StripLeftPadded(left[1..], s);
    }
  }

  lemma {:induction false} StripRightPadded(s: string, right: string)
    requires (s == [] || !IsSpace(s[|s| - 1])) && forall c | c in right :: IsSpace(c)
    ensures StripRight(s + right) == s
  {
    if right == [] {
      assert s + right == s;
    } else {
      var n := |right| - 1;
      assert (s + right)[..|s| + n] == s + right[..n];
      StripRightPadded(s, right[..n]);
    }
  }

  /** White space around a trimmed text is what is stripped. */
  lemma StripPadded(left: string, s: string, right: string)
    requires Trimmed(s) && forall c | c in left || c in right :: IsSpace(c)
    ensures Strip(left + s + right) == s
  {
    if s == [] {
      assert left + s + right == left + right;
      assert left + right + [] == left + right;
      StripLeftPadded(left + right, []);
    } else {
      assert left + s + right == left + (s + right);
      StripLeftPadded(left, s + right);
      StripRightPadded(s, right);
    }
  }

  /** Changing the case of letters neither makes nor removes white space. */
  lemma LowerKeepsTrimmed(s: string)
    ensures Trimmed(Lower(s)) == Trimmed(s) && Lower(Lower(s)) == Lower(s)
  {
  }

  lemma UpperOfLower(s: string)
    ensures Upper(Lower(s)) == Upper(s) && Lower(Upper(s)) == Lower(s)
  {
  }
}
