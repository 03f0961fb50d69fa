/** The Python string operations the sync script relies on: `str.strip()` and
    `str.lower()` restricted to ASCII, and the line splitting of `readlines()`
    with its inverse `"".join(...)`. */
module PyText {

  /** The ASCII characters `str.strip()` removes: space, tab, line feed,
      vertical tab, form feed, carriage return and the four separators 0x1C-0x1F. */
  predicate IsSpace(c: char) {
    c == ' ' || ('\t' <= c <= '\r') || (28 <= c as int <= 31)
  }

  predicate AllSpace(s: string) {
    forall i :: 0 <= i < |s| ==> IsSpace(s[i])
  }

  /** `s.lstrip()`: the suffix of s left after its leading whitespace. */
  function StripLeft(s: string): (r: string)
    ensures |r| <= |s| && r == s[|s| - |r|..]
    ensures forall i :: 0 <= i < |s| - |r| ==> IsSpace(s[i])
    ensures r == [] || !IsSpace(r[0])
    decreases |s|
  {
    if s != [] && IsSpace(s[0]) then StripLeft(s[1..]) else s
  }

  /** `s.rstrip()`: the prefix of s left before its trailing whitespace. */
  function StripRight(s: string): (r: string)
    ensures |r| <= |s| && r == s[..|r|]
    ensures forall i :: |r| <= i < |s| ==> IsSpace(s[i])
    ensures r == [] || !IsSpace(r[|r| - 1])
    decreases |s|
  {
    if s != [] && IsSpace(s[|s| - 1]) then StripRight(s[..|s| - 1]) else s
  }

  /** `s.strip()`. */
  function Strip(s: string): string {
    StripRight(StripLeft(s))
  }

  /** `c.lower()` for ASCII: upper-case letters map to lower case, all else is kept. */
  function LowerChar(c: char): (r: char)
    ensures 'A' <= c <= 'Z' ==> 'a' <= r <= 'z' && r as int - c as int == 32
    ensures !('A' <= c <= 'Z') ==> r == c
  {
    if 'A' <= c <= 'Z' then (c as int + 32) as char else c
  }

  /** `s.lower()` for ASCII, character by character. */
  function Lower(s: string): (r: string)
    ensures |r| == |s|
    ensures forall i :: 0 <= i < |s| ==> r[i] == LowerChar(s[i])
  {
    seq(|s|, i requires 0 <= i < |s| => LowerChar(s[i]))
  }

  // ---------------------------------------------------------------------
  // Whitespace padding does not change what strip() returns.
  // ---------------------------------------------------------------------

  lemma {:induction false} StripLeftPadded(w: string, s: string)
    requires AllSpace(w)
    ensures StripLeft(w + s) == StripLeft(s)
    decreases |w|
  {
    if w == [] {
      assert w + s == s;
    } else {
      assert (w + s)[0] == w[0] && (w + s)[1..] == w[1..] + s;
      StripLeftPadded(w[1..], s);
    }
  }

  lemma {:induction false} StripRightPadded(s: string, w: string)
    requires AllSpace(w)
    ensures StripRight(s + w) == StripRight(s)
    decreases |w|
  {
    if w == [] {
      assert s + w == s;
    } else {
      assert (s + w)[|s + w| - 1] == w[|w| - 1];
      assert (s + w)[..|s + w| - 1] == s + w[..|w| - 1];
      StripRightPadded(s, w[..|w| - 1]);
    }
  }

  /** Left-stripping a string with whitespace appended keeps the appended part,
      unless everything is whitespace. */
  lemma {:induction false} StripLeftAppendSpace(s: string, w: string)
    requires AllSpace(w)
    ensures StripLeft(s + w) == if StripLeft(s) == [] then [] else StripLeft(s) + w
    decreases |s|
  {
    if s == [] {
      assert s + w == w + [];
      StripLeftPadded(w, []);
    } else if IsSpace(s[0]) {
      assert (s + w)[1..] == s[1..] + w;
      StripLeftAppendSpace(s[1..], w);
    }
  }

  /** Left-stripping `w1 + s + w2` drops w1, and keeps w2 unless s is all whitespace. */
  lemma StripLeftPaddedBoth(w1: string, s: string, w2: string)
    requires AllSpace(w1) && AllSpace(w2)
    ensures StripLeft(w1 + s + w2) == if StripLeft(s) == [] then [] else StripLeft(s) + w2
  {
    ConcatAssoc(w1, s, w2);
    StripLeftPadded(w1, s + w2);
    StripLeftAppendSpace(s, w2);
  }

  lemma ConcatAssoc(a: string, b: string, c: string)
    ensures a + b + c == a + (b + c)
  {
  }

  /** `(w1 + s + w2).strip() == s.strip()` for whitespace-only w1 and w2. */
  lemma StripPadded(w1: string, s: string, w2: string)
    requires AllSpace(w1) && AllSpace(w2)
    ensures Strip(w1 + s + w2) == Strip(s)
  {
    var t := StripLeft(s);
    StripLeftPaddedBoth(w1, s, w2);
    if t != [] {
      StripRightPadded(t, w2);
    }
  }

  // ---------------------------------------------------------------------
  // lower() and strip() commute, since no whitespace character is a letter.
  // ---------------------------------------------------------------------

  lemma {:induction false} StripLeftLower(s: string)
    ensures StripLeft(Lower(s)) == Lower(StripLeft(s))
    decreases |s|
  {
    if s != [] {
      var l := Lower(s);
      assert l[0] == LowerChar(s[0]);
      if IsSpace(s[0]) {
        assert l[1..] == Lower(s[1..]);
        StripLeftLower(s[1..]);
      } else {
        assert !IsSpace(l[0]);
      }
    }
  }

  lemma {:induction false} StripRightLower(s: string)
    ensures StripRight(Lower(s)) == Lower(StripRight(s))
    decreases |s|
  {
    if s != [] {
      var l := Lower(s);
      assert l[|s| - 1] == LowerChar(s[|s| - 1]);
      if IsSpace(s[|s| - 1]) {
        assert l[..|s| - 1] == Lower(s[..|s| - 1]);
        StripRightLower(s[..|s| - 1]);
      } else {
        assert !IsSpace(l[|l| - 1]);
      }
    }
  }

  lemma StripLower(s: string)
    ensures Lower(Strip(s)) == Strip(Lower(s))
  {
    StripLeftLower(s);
    StripRightLower(StripLeft(s));
  }

  // ---------------------------------------------------------------------
  // readlines() and "".join(...)
  // ---------------------------------------------------------------------

  /** Length of the first line of a non-empty text, its '\n' included if it has one. */
  function FirstLineLength(s: string): (k: nat)
    requires s != ""
    ensures 1 <= k <= |s|
    ensures forall i :: 0 <= i < k - 1 ==> s[i] != '\n'
    ensures k == |s| || s[k - 1] == '\n'
    decreases |s|
  {
    if s[0] == '\n' || |s| == 1 then 1 else 1 + FirstLineLength(s[1..])
  }

  /** `readlines()`: the text cut after every '\n'; only the last line may lack one. */
  function Lines(s: string): (ls: seq<string>)
    ensures forall i :: 0 <= i < |ls| ==> ls[i] != ""
    ensures forall i :: 0 <= i < |ls| - 1 ==> ls[i] != "" && ls[i][|ls[i]| - 1] == '\n'
    ensures forall i, j :: 0 <= i < |ls| && 0 <= j < |ls[i]| - 1 ==> ls[i][j] != '\n'
    decreases |s|
  {
    if s == "" then []
    else
      var k := FirstLineLength(s);
      [s[..k]] + Lines(s[k..])
  }

  /** `"".join(ls)`. */
  function Join(ls: seq<string>): string
    decreases |ls|
  {
    if ls == [] then "" else ls[0] + Join(ls[1..])
  }

  /** Joining the lines gives the text back. */
  lemma {:induction false} JoinLines(s: string)
    ensures Join(Lines(s)) == s
    decreases |s|
  {
    if s != "" {
      var k := FirstLineLength(s);
      assert Lines(s) == [s[..k]] + Lines(s[k..]);
      assert Lines(s)[1..] == Lines(s[k..]);
      JoinLines(s[k..]);
      assert s[..k] + s[k..] == s;
    }
  }

  /** Two texts with the same line lists are the same text. */
  lemma LinesInjective(a: string, b: string)
    requires Lines(a) == Lines(b)
    ensures a == b
  {
    JoinLines(a);
    JoinLines(b);
  }
}
