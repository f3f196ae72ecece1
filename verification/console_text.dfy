/** Normalising the answer to the "is this your city? [Y/n]" question:
    `answer.lower().strip()` and the test against the accepted replies. */
module ConsoleText {

  /** Python's `str.isspace`: the characters `strip()` removes. */
  predicate IsSpace(c: char) {
    var n := c as int;
    n == 0x20 || 0x09 <= n <= 0x0D || 0x1C <= n <= 0x1F || n == 0x85 || n == 0xA0
    || n == 0x1680 || 0x2000 <= n <= 0x200A || n == 0x2028 || n == 0x2029
    || n == 0x202F || n == 0x205F || n == 0x3000
  }

  predicate AllSpace(s: string) {
    forall i :: 0 <= i < |s| ==> IsSpace(s[i])
  }

  /** Upper-case letters: A-Z, the Latin-1 capitals, and the Cyrillic
      capitals U+0400-U+042F. */
  predicate IsUpper(c: char) {
    var n := c as int;
    0x41 <= n <= 0x5A || (0xC0 <= n <= 0xDE && n != 0xD7) || 0x400 <= n <= 0x42F
  }

  /** `str.lower` on one character of those blocks. */
  function LowerChar(c: char): (l: char)
    ensures !IsUpper(l)
    ensures !IsUpper(c) ==> l == c
    ensures IsSpace(l) <==> IsSpace(c)
  {
    var n := c as int;
    if !IsUpper(c) then c
    else if 0x400 <= n <= 0x40F then (n + 0x50) as char
    else (n + 0x20) as char
  }

  function Lower(s: string): (r: string)
    ensures |r| == |s| && forall i :: 0 <= i < |s| ==> r[i] == LowerChar(s[i])
  {
    seq(|s|, i requires 0 <= i < |s| => LowerChar(s[i]))
  }

  /** How many characters of white space `s` starts with. */
  function LeadingSpace(s: string): (n: nat)
    ensures n <= |s| && AllSpace(s[..n])
    ensures n == |s| || !IsSpace(s[n])
  {
    if s != [] && IsSpace(s[0]) then
      var m := LeadingSpace(s[1..]);
      assert s[..m + 1] == [s[0]] + s[1..][..m];
      m + 1
    else 0
  }

  /** How many characters of white space `s` ends with. */
  function TrailingSpace(s: string): (n: nat)
    ensures n <= |s| && AllSpace(s[|s| - n..])
    ensures n == |s| || !IsSpace(s[|s| - n - 1])
  {
    if s != [] && IsSpace(s[|s| - 1]) then
      var m := TrailingSpace(s[..|s| - 1]);
      assert s[|s| - m - 1..] == s[..|s| - 1][|s| - 1 - m..] + [s[|s| - 1]];
      m + 1
    else 0
  }

  /** `strip()`: drop white space at both ends. */
  function Strip(s: string): (r: string)
    ensures r == [] || (!IsSpace(r[0]) && !IsSpace(r[|r| - 1]))
  {
    var t := s[LeadingSpace(s)..];
    t[..|t| - TrailingSpace(t)]
  }

  /** What `strip()` keeps is one slice of the input, and what it cuts off
      on either side is white space only. */
  lemma {:induction false} StripIsSlice(s: string)
    ensures var r, i := Strip(s), LeadingSpace(s);
      && i + |r| <= |s| && r == s[i..i + |r|]
      && AllSpace(s[..i]) && AllSpace(s[i + |r|..])
  {
    var i := LeadingSpace(s);
    var t := s[i..];
    var r := t[..|t| - TrailingSpace(t)];
    assert s[i + |r|..] == t[|r|..];
  }

  /** The replies that accept the detected city, after normalisation. */
  const Affirmatives: set<string> := {"", "y", "yes", "д", "да"}

  /** The test applied to the raw console line. */
  predicate Confirms(answer: string) {
    Strip(Lower(answer)) in Affirmatives
  }

  // ---------------------------------------------------------------------------
  // Properties

  /** Leading white space before `s` adds to the count of `s`. */
  lemma {:induction false} LeadingSpacePadding(p: string, s: string)
    requires AllSpace(p)
    ensures LeadingSpace(p + s) == |p| + LeadingSpace(s)
  {
    if p != [] {
      assert (p + s)[1..] == p[1..] + s;
      LeadingSpacePadding(p[1..], s);
    } else {
      assert p + s == s;
    }
  }

  /** Trailing white space after `s` adds to the count of `s`. */
  lemma {:induction false} TrailingSpacePadding(s: string, q: string)
    requires AllSpace(q)
    ensures TrailingSpace(s + q) == TrailingSpace(s) + |q|
  {
    if q != [] {
      assert (s + q)[..|s + q| - 1] == s + q[..|q| - 1];
      TrailingSpacePadding(s, q[..|q| - 1]);
    } else {
      assert s + q == s;
    }
  }

  /** A string of white space only is leading white space throughout. */
  lemma {:induction false} LeadingSpaceAll(s: string)
    requires AllSpace(s)
    ensures LeadingSpace(s) == |s|
  {
    if s != [] {
      LeadingSpaceAll(s[1..]);
    }
  }

  /** The leading white space of `s` ends inside `s` when `s` holds a
      non-space, whatever follows it. */
  lemma {:induction false} LeadingSpaceAppend(s: string, q: string)
    requires !AllSpace(s)
    ensures LeadingSpace(s + q) == LeadingSpace(s)
  {
    if IsSpace(s[0]) {
      assert (s + q)[1..] == s[1..] + q;
      assert !AllSpace(s[1..]) by {
        var k :| 0 <= k < |s| && !IsSpace(s[k]);
        assert s[1..][k - 1] == s[k];
      }
      LeadingSpaceAppend(s[1..], q);
    }
  }

  /** `Strip` cuts the leading white space off, then the trailing. */
  lemma StripByParts(s: string, t: string)
    requires t == s[LeadingSpace(s)..]
    ensures Strip(s) == t[..|t| - TrailingSpace(t)]
  {
  }

  /** Padding in front of a string holding a non-space adds its length to
      the leading white space, whatever follows. */
  lemma {:induction false} LeadingSpaceOfPadded(p: string, s: string, q: string)
    requires AllSpace(p) && !AllSpace(s)
    ensures LeadingSpace(p + s + q) == |p| + LeadingSpace(s)
  {
    assert p + s + q == p + (s + q);
    LeadingSpacePadding(p, s + q);
    LeadingSpaceAppend(s, q);
  }

  /** Dropping the front padding and `i` more characters leaves the rest of
      `s` followed by the back padding. */
  lemma DropPadded(p: string, s: string, q: string, i: nat)
    requires i <= |s|
    ensures (p + s + q)[|p| + i..] == s[i..] + q
  {
  }

  /** Cutting trailing white space ignores white space appended first. */
  lemma {:induction false} TrimRightPadding(t: string, q: string)
    requires AllSpace(q)
    ensures (t + q)[..|t + q| - TrailingSpace(t + q)] == t[..|t| - TrailingSpace(t)]
  {
    TrailingSpacePadding(t, q);
    assert (t + q)[..|t| - TrailingSpace(t)] == t[..|t| - TrailingSpace(t)];
  }

  /** Padding around a string of white space only still strips to nothing. */
  lemma {:induction false} StripPaddingBlank(p: string, s: string, q: string)
    requires AllSpace(p) && AllSpace(s) && AllSpace(q)
    ensures Strip(p + s + q) == Strip(s)
  {
    assert p + s + q == p + (s + q);
    LeadingSpacePadding(p, s + q);
    assert AllSpace(s + q);
    LeadingSpaceAll(s + q);
    LeadingSpaceAll(s);
  }

  /** Padding around a string holding a non-space is cut off entirely. */
  lemma {:induction false} StripPaddingText(p: string, s: string, q: string)
    requires AllSpace(p) && !AllSpace(s) && AllSpace(q)
    ensures Strip(p + s + q) == Strip(s)
  {
    var i := LeadingSpace(s);
    var t := s[i..];
    LeadingSpaceOfPadded(p, s, q);
    DropPadded(p, s, q, i);
    StripByParts(p + s + q, t + q);
    StripByParts(s, t);
    TrimRightPadding(t, q);
  }

  /** White space around a string does not change what it strips to. */
  lemma {:induction false} StripPadding(p: string, s: string, q: string)
    requires AllSpace(p) && AllSpace(q)
    ensures Strip(p + s + q) == Strip(s)
  {
    if AllSpace(s) {
      StripPaddingBlank(p, s, q);
    } else {
      StripPaddingText(p, s, q);
    }
  }

  /** Lower-casing twice is lower-casing once. */
  lemma LowerIdempotent(s: string)
    ensures Lower(Lower(s)) == Lower(s)
  {
  }

  /** Lower-casing works character by character. */
  lemma LowerAppend(a: string, b: string)
    ensures Lower(a + b) == Lower(a) + Lower(b)
  {
  }

  /** The confirmation ignores white space around the reply. */
  lemma ConfirmsIgnoresPadding(p: string, s: string, q: string)
    requires AllSpace(p) && AllSpace(q)
    ensures Confirms(p + s + q) <==> Confirms(s)
  {
    LowerAppend(p + s, q);
    LowerAppend(p, s);
    StripPadding(Lower(p), Lower(s), Lower(q));
  }

  /** The confirmation ignores the case of the reply. */
  lemma ConfirmsIgnoresCase(s: string)
    ensures Confirms(Lower(s)) <==> Confirms(s)
  {
    LowerIdempotent(s);
  }

  /** A string with no white space at either end strips to itself. */
  lemma StripTrimmed(s: string)
    requires s == [] || (!IsSpace(s[0]) && !IsSpace(s[|s| - 1]))
    ensures Strip(s) == s
  {
  }

  /** A string with no upper-case letter lower-cases to itself. */
  lemma LowerUnchanged(s: string)
    requires forall i :: 0 <= i < |s| ==> !IsUpper(s[i])
    ensures Lower(s) == s
  {
  }

  /** "Y" accepts. */
  lemma ConfirmsUpperY()
    ensures Confirms("Y")
  {
    assert Lower("Y") == "y";
    StripTrimmed("y");
  }

  /** "Да" accepts. */
  lemma ConfirmsUpperDa()
    ensures Confirms("Да")
  {
    assert Lower("Да") == "да";
    StripTrimmed("да");
  }

  /** A refusal does not accept. */
  lemma RefusesNo()
    ensures !Confirms("n")
  {
    LowerUnchanged("n");
    StripTrimmed("n");
  }

  /** Nor does a refusal in Russian. */
  lemma RefusesNet()
    ensures !Confirms("нет")
  {
    var s := "нет";
    LowerUnchanged(s);
    StripTrimmed(s);
    assert Strip(Lower(s)) == s;
    assert s[0] == 'н';
  }
}
