/** Splitting strings at a character and joining them again. */
module Strings {

  /** `s.split(c)`. */
  function Split(s: string, c: char): (r: seq<string>)
    ensures r != []
  {
    if s == "" then [""]
    else if s[0] == c then [""] + Split(s[1..], c)
    else
      var rest := Split(s[1..], c);
      [[s[0]] + rest[0]] + rest[1..]
  }

  function Join(parts: seq<string>, c: char): (r: string) {
    if parts == [] then "" else if |parts| == 1 then parts[0] else parts[0] + [c] + Join(parts[1..], c)
  }

  lemma {:induction false} JoinSplit(s: string, c: char)
    ensures Join(Split(s, c), c) == s
  {
    hide Join;
    JoinOne("", c);
    if s != "" {
      JoinSplit(s[1..], c);
      var rest := Split(s[1..], c);
      if s[0] == c {
        JoinMore("", rest, c);
      } else {
        JoinLonger([s[0]], rest, c);
      }
    }
  }

  lemma JoinOne(a: string, c: char)
    ensures Join([a], c) == a
  {
  }

  lemma JoinMore(a: string, rest: seq<string>, c: char)
    requires rest != []
    ensures Join([a] + rest, c) == a + [c] + Join(rest, c)
  {
    assert ([a] + rest)[1..] == rest;
  }

  lemma JoinLonger(a: string, rest: seq<string>, c: char)
    requires rest != []
    ensures Join([a + rest[0]] + rest[1..], c) == a + Join(rest, c)
  {
    if |rest| > 1 {
      assert ([a + rest[0]] + rest[1..])[1..] == rest[1..];
    }
  }

  lemma SplitFirst(a: string, rest: string, c: char)
    requires c !in a
    ensures Split(a + [c] + rest, c) == [a] + Split(rest, c)
  {
    SplitBoth(a, rest, c);
    SplitNone(a, c);
  }

  lemma {:induction false} SplitClean(s: string, c: char)
    ensures forall k :: 0 <= k < |Split(s, c)| ==> c !in Split(s, c)[k]
  {
    if s != "" {
      SplitClean(s[1..], c);
    }
  }

  lemma {:induction false} SplitNone(a: string, c: char)
    requires c !in a
    ensures Split(a, c) == [a]
  {
    if a != "" {
      SplitNone(a[1..], c);
      assert a[0] in a && [a[0]] + a[1..] == a;
    }
  }

  lemma SplitStep(x: char, s: string, c: char)
    ensures Split([x] + s, c) == if x == c then [""] + Split(s, c) else [[x] + Split(s, c)[0]] + Split(s, c)[1..]
  {
    assert ([x] + s)[1..] == s;
  }

  lemma FirstGrows(x: char, l: seq<string>, r: seq<string>)
    requires l != []
    ensures [[x] + (l + r)[0]] + (l + r)[1..] == ([[x] + l[0]] + l[1..]) + r
    ensures [""] + (l + r) == ([""] + l) + r
  {
    assert (l + r)[1..] == l[1..] + r;
  }

  /** Splitting a joined text splits both sides. */
  lemma {:induction false} SplitBoth(a: string, rest: string, c: char)
    ensures Split(a + [c] + rest, c) == Split(a, c) + Split(rest, c)
  {
    hide Split;
    if a == "" {
      assert a + [c] + rest == [c] + rest;
      SplitStep(c, rest, c);
      SplitEmpty(c);
    } else {
      SplitBoth(a[1..], rest, c);
      SplitStep(a[0], a[1..], c);
      SplitStep(a[0], a[1..] + [c] + rest, c);
      FirstGrows(a[0], Split(a[1..], c), Split(rest, c));
      assert a + [c] + rest == [a[0]] + (a[1..] + [c] + rest) && [a[0]] + a[1..] == a;
    }
  }

  lemma SplitEmpty(c: char)
    ensures Split("", c) == [""]
  {
  }

  /** Python's `needle in text`. */
  predicate Contains(text: string, needle: string) {
    exists k :: 0 <= k <= |text| && OccursAt(text, needle, k)
  }

  predicate OccursAt(text: string, needle: string, k: nat) {
    k + |needle| <= |text| && text[k..k + |needle|] == needle
  }
}
