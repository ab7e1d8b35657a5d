/**
 * The string operations the publisher relies on: Python's `str.lower()`,
 * `str.replace(" ", "")`, the `in` substring test, `str.strip(c)` and
 * `str.split(c)`.
 */
module Text {

  /** `str.lower()` on one character, for the ASCII letters and the Latin-1
      capitals U+00C0..U+00DE (except the multiplication sign U+00D7), which is
      where Python's lowering agrees with adding 32. */
  function Lower(c: char): (r: char)
    ensures ('A' <= c <= 'Z') ==> 'a' <= r <= 'z'
    ensures r == c || r as int == c as int + 32
    ensures r != ' ' <== c != ' '
  {
    if 'A' <= c <= 'Z' || ('À' <= c <= 'Þ' && c != '×') then (c as int + 32) as char else c
  }

  /** `s.lower()`: lowers every character, keeps the length. */
  function Lowered(s: string): (r: string)
    ensures |r| == |s|
  {
    seq(|s|, i requires 0 <= i < |s| => Lower(s[i]))
  }

  /** No U+0020 in `s`. */
  predicate NoSpace(s: string) {
    forall k :: 0 <= k < |s| ==> s[k] != ' '
  }

  /** `s.replace(" ", "")`: drops every U+0020 and keeps the rest in order. */
  function RemoveSpaces(s: string): (r: string)
    ensures NoSpace(r)
    ensures |r| <= |s|
    ensures NoSpace(s) ==> r == s
  {
    if s == [] then []
    else if s[0] == ' ' then RemoveSpaces(s[1..])
    else [s[0]] + RemoveSpaces(s[1..])
  }

  lemma {:induction false} RemoveSpacesAppend(a: string, b: string)
    ensures RemoveSpaces(a + b) == RemoveSpaces(a) + RemoveSpaces(b)
  {
    if a == [] {
      assert a + b == b;
    } else {
      assert (a + b)[0] == a[0];
      assert (a + b)[1..] == a[1..] + b;
      RemoveSpacesAppend(a[1..], b);
    }
  }

  /** The comparison key of the flexible catalog lookup:
      `s.lower().replace(" ", "")`. */
  function Flex(s: string): (r: string)
    ensures NoSpace(r)
  {
    RemoveSpaces(Lowered(s))
  }

  /** The first character of a lowered string is the lowered first character. */
  lemma LoweredHead(s: string)
    requires s != []
    ensures Lowered(s)[0] == Lower(s[0])
  {
  }

  lemma LoweredAppend(a: string, b: string)
    ensures Lowered(a + b) == Lowered(a) + Lowered(b)
  {
  }

  /** The flexible key of a concatenation is the concatenation of the keys. */
  lemma FlexAppend(a: string, b: string)
    ensures Flex(a + b) == Flex(a) + Flex(b)
  {
    LoweredAppend(a, b);
    RemoveSpacesAppend(Lowered(a), Lowered(b));
  }

  /** A word without spaces only gets lowered. */
  lemma FlexWord(a: string)
    requires NoSpace(a)
    ensures Flex(a) == Lowered(a)
  {
    assert NoSpace(Lowered(a));
  }

  /** The space between two words disappears from the flexible key. */
  lemma FlexWordThen(a: string, t: string)
    requires NoSpace(a)
    ensures Flex(a + " " + t) == Lowered(a) + Flex(t)
  {
    FlexAppend(a + " ", t);
    FlexAppend(a, " ");
    assert Lowered(" ") == " ";
    assert RemoveSpaces(" ") == RemoveSpaces(" "[1..]);
    FlexWord(a);
  }

  /** `sub in s` for strings: some window of `s` equals `sub`. */
  predicate Contains(s: string, sub: string)
    decreases |s|
  {
    if |s| < |sub| then false
    else s[..|sub|] == sub || (s != [] && Contains(s[1..], sub))
  }

  /** A string without spaces contains no string that has one. */
  lemma {:induction false} NoSpaceExcludes(s: string, sub: string)
    requires NoSpace(s) && !NoSpace(sub)
    ensures !Contains(s, sub)
    decreases |s|
  {
    if |s| >= |sub| {
      var k :| 0 <= k < |sub| && sub[k] == ' ';
      assert s[..|sub|][k] == s[k];
      if s != [] {
        NoSpaceExcludes(s[1..], sub);
      }
    }
  }
}
