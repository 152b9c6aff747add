/**
 * The PHP string built-ins that the asset path resolver relies on:
 * `empty()` and truthiness of a string, `explode()` with a one-character
 * delimiter (and its inverse `implode()`), and `trim()` with its default
 * character list.
 */
module PhpStrings {
  import opened SeqFacts

  /** PHP's `empty($s)` on a string: true for "" and for "0", false for
      every other string ("00", " ", "0.0" are not empty). */
  predicate IsEmpty(s: string) {
    s == "" || s == "0"
  }

  /** PHP's truthiness of a string: `(bool) $s`, the negation of `empty($s)`. */
  predicate IsTruthy(s: string) {
    !IsEmpty(s)
  }

  /** Number of occurrences of `c` in `s`. */
  function Occurrences(s: string, c: char): (n: nat)
    ensures n <= |s|
    ensures n == 0 <==> c !in s
  {
    if s == [] then 0
    else
      assert s == s[..|s| - 1] + [s[|s| - 1]];
      Occurrences(s[..|s| - 1], c) + (if s[|s| - 1] == c then 1 else 0)
  }

  /** PHP's `explode(sep, s)`: the pieces of `s` between occurrences of
      `sep`, in order. Empty pieces are kept: there is always one piece more
      than there are separators, and `explode(',', "")` is `[""]`. */
  function Explode(sep: char, s: string): (pieces: seq<string>)
    ensures |pieces| == Occurrences(s, sep) + 1
    ensures forall k :: 0 <= k < |pieces| ==> sep !in pieces[k]
  {
    if s == [] then [""]
    else
      var init := Explode(sep, s[..|s| - 1]);
      var c := s[|s| - 1];
      if c == sep then init + [""]
      else init[..|init| - 1] + [init[|init| - 1] + [c]]
  }

  /** PHP's `implode(sep, pieces)`: the pieces joined by `sep`. */
  function Implode(sep: char, pieces: seq<string>): string
  {
    if |pieces| == 0 then ""
    else if |pieces| == 1 then pieces[0]
    else Implode(sep, pieces[..|pieces| - 1]) + [sep] + pieces[|pieces| - 1]
  }

  /** Joining one more piece adds the separator and the piece. */
  lemma ImplodeSnoc(sep: char, init: seq<string>, p: string)
    requires |init| >= 1
    ensures Implode(sep, init + [p]) == Implode(sep, init) + [sep] + p
  {
    assert (init + [p])[..|init|] == init;
  }

  /** Extending the last piece by a character extends the joined string by
      that character. */
  lemma ImplodeExtendLast(sep: char, init: seq<string>, c: char)
    requires |init| >= 1
    ensures var m := |init|;
      Implode(sep, init[..m - 1] + [init[m - 1] + [c]]) == Implode(sep, init) + [c]
  {
    var m := |init|;
    var front := init[..m - 1];
    SnocSplit(init);
    if m > 1 {
      ImplodeSnoc(sep, front, init[m - 1]);
      ImplodeSnoc(sep, front, init[m - 1] + [c]);
    }
  }

  /** Joining the pieces of `explode` gives back the original string. */
  lemma {:induction false} ImplodeExplode(sep: char, s: string)
    ensures Implode(sep, Explode(sep, s)) == s
  {
    if s != [] {
      var s', c := s[..|s| - 1], s[|s| - 1];
      SnocSplit(s);
      ImplodeExplode(sep, s');
      ExplodeStep(sep, s', c);
      var init := Explode(sep, s');
      if c == sep {
        ImplodeSnoc(sep, init, "");
      } else {
        ImplodeExtendLast(sep, init, c);
      }
    }
  }

  /** A string without the separator explodes into itself alone. */
  lemma {:induction false} ExplodeWithoutSeparator(sep: char, p: string)
    requires sep !in p
    ensures Explode(sep, p) == [p]
  {
    if p != [] {
      var p' := p[..|p| - 1];
      assert p == p' + [p[|p| - 1]];
      ExplodeWithoutSeparator(sep, p');
    }
  }

  /** One more character: a separator starts a new empty piece, any other
      character extends the last piece. */
  lemma ExplodeStep(sep: char, s: string, c: char)
    ensures var init := Explode(sep, s);
      Explode(sep, s + [c]) ==
        if c == sep then init + [""] else init[..|init| - 1] + [init[|init| - 1] + [c]]
  {
    assert (s + [c])[..|s|] == s;
  }

  /** A separator followed by separator-free text ends a string's pieces
      with that text as one more piece. */
  lemma {:induction false} ExplodeLastPiece(sep: char, s: string, p: string)
    requires sep !in p
    ensures Explode(sep, s + [sep] + p) == Explode(sep, s) + [p]
  {
    if p == [] {
      ExplodeStep(sep, s, sep);
      assert s + [sep] + p == s + [sep];
    } else {
      var p', c := p[..|p| - 1], p[|p| - 1];
      assert p == p' + [c];
      assert c != sep by {
        assert p[|p| - 1] in p;
      }
      var u := s + [sep] + p';
      assert s + [sep] + p == u + [c];
      ExplodeLastPiece(sep, s, p');
      var init := Explode(sep, u);
      assert init == Explode(sep, s) + [p'];
      ExplodeStep(sep, u, c);
      assert init[..|init| - 1] == Explode(sep, s);
    }
  }

  /** Exploding joined separator-free pieces gives back the pieces. */
  lemma {:induction false} ExplodeImplode(sep: char, pieces: seq<string>)
    requires |pieces| >= 1
    requires forall k :: 0 <= k < |pieces| ==> sep !in pieces[k]
    ensures Explode(sep, Implode(sep, pieces)) == pieces
  {
    if |pieces| == 1 {
      ExplodeWithoutSeparator(sep, pieces[0]);
    } else {
      var init, last := pieces[..|pieces| - 1], pieces[|pieces| - 1];
      SnocSplit(pieces);
      ImplodeSnoc(sep, init, last);
      ExplodeImplode(sep, init);
      ExplodeLastPiece(sep, Implode(sep, init), last);
    }
  }

  /** The characters PHP's `trim()` strips by default: space, tab, line
      feed, carriage return, NUL and vertical tab. */
  predicate IsTrimmable(c: char) {
    c == ' ' || c == '\t' || c == '\n' || c == '\r' || c == '\0' || c == '\U{000B}'
  }

  /** Every character of `s` is one that `trim()` strips. */
  predicate AllTrimmable(s: string) {
    forall k :: 0 <= k < |s| ==> IsTrimmable(s[k])
  }

  /** `s` neither starts nor ends with a character `trim()` strips. */
  predicate HasNoOuterTrimmable(s: string) {
    s == [] || (!IsTrimmable(s[0]) && !IsTrimmable(s[|s| - 1]))
  }

  /** The number of strippable characters at the start of `s`. */
  function LeadingCount(s: string): (n: nat)
    ensures n <= |s|
  {
    if s == [] then 0
    else
      var m := LeadingCount(s[..|s| - 1]);
      if m == |s| - 1 && IsTrimmable(s[|s| - 1]) then |s| else m
  }

  /** Where the strippable characters at the end of `s` begin. */
  function KeptLength(s: string): (n: nat)
    ensures n <= |s|
  {
    if s != [] && IsTrimmable(s[|s| - 1]) then KeptLength(s[..|s| - 1]) else |s|
  }

  /** All characters before the leading count are strippable and the next
      one, if any, is not. */
  lemma {:induction false} LeadingCountBounds(s: string)
    ensures var n := LeadingCount(s);
      && (forall k :: 0 <= k < n ==> IsTrimmable(s[k]))
      && (n == |s| || !IsTrimmable(s[n]))
  {
    if s != [] {
      var init := s[..|s| - 1];
      LeadingCountBounds(init);
      assert forall k :: 0 <= k < |init| ==> init[k] == s[k];
    }
  }

  /** All characters from the kept length on are strippable and the one
      before, if any, is not. */
  lemma {:induction false} KeptLengthBounds(s: string)
    ensures var n := KeptLength(s);
      && (forall k :: n <= k < |s| ==> IsTrimmable(s[k]))
      && (n == 0 || !IsTrimmable(s[n - 1]))
  {
    if s != [] && IsTrimmable(s[|s| - 1]) {
      var init := s[..|s| - 1];
      KeptLengthBounds(init);
      assert forall k :: 0 <= k < |init| ==> init[k] == s[k];
    }
  }

  /** PHP's `trim()`: strips strippable characters at both ends only. */
  function Trim(s: string): (r: string)
    ensures |r| <= |s|
  {
    var i, j := LeadingCount(s), KeptLength(s);
    if j <= i then [] else s[i..j]
  }

  /** The result of `trim()` has no strippable character at either end, and
      is empty exactly when every character is strippable. */
  lemma TrimEnds(s: string)
    ensures HasNoOuterTrimmable(Trim(s))
    ensures Trim(s) == [] <==> AllTrimmable(s)
  {
    LeadingCountBounds(s);
    KeptLengthBounds(s);
  }

  /** The leading count is determined by where the first non-strippable
      character stands. */
  lemma LeadingCountIs(s: string, n: nat)
    requires n <= |s|
    requires forall k :: 0 <= k < n ==> IsTrimmable(s[k])
    requires n == |s| || !IsTrimmable(s[n])
    ensures LeadingCount(s) == n
  {
    LeadingCountBounds(s);
  }

  /** The kept length is determined by where the last non-strippable
      character stands. */
  lemma KeptLengthIs(s: string, n: nat)
    requires n <= |s|
    requires forall k :: n <= k < |s| ==> IsTrimmable(s[k])
    requires n == 0 || !IsTrimmable(s[n - 1])
    ensures KeptLength(s) == n
  {
    KeptLengthBounds(s);
  }

  /** `trim()` removes exactly the strippable characters at both ends and
      leaves the interior untouched. */
  lemma TrimExact(w1: string, x: string, w2: string)
    requires AllTrimmable(w1) && AllTrimmable(w2)
    requires HasNoOuterTrimmable(x)
    ensures Trim(w1 + x + w2) == x
  {
    var s := w1 + x + w2;
    TrimEnds(s);
    if x == [] {
      assert AllTrimmable(s) by {
        forall k | 0 <= k < |s| ensures IsTrimmable(s[k]) {
          if k < |w1| {
            assert s[k] == w1[k];
          } else {
            assert s[k] == w2[k - |w1|];
          }
        }
      }
    } else {
      var i, j := |w1|, |w1| + |x|;
      assert forall k :: 0 <= k < i ==> s[k] == w1[k];
      assert forall k :: j <= k < |s| ==> s[k] == w2[k - j];
      assert s[i] == x[0] && s[j - 1] == x[|x| - 1];
      LeadingCountIs(s, i);
      KeptLengthIs(s, j);
      assert s[i..j] == x;
    }
  }

  /** Every string is its trimmed form surrounded by strippable text: what
      `trim()` keeps is a contiguous slice, and everything before and after
      that slice is strippable. */
  lemma TrimDecomposes(s: string)
    ensures var i, r := LeadingCount(s), Trim(s);
      && i + |r| <= |s|
      && (forall k :: 0 <= k < i ==> IsTrimmable(s[k]))
      && s[i..i + |r|] == r
      && (forall k :: i + |r| <= k < |s| ==> IsTrimmable(s[k]))
  {
    LeadingCountBounds(s);
    KeptLengthBounds(s);
  }

  /** Trimming twice is trimming once. */
  lemma TrimIdempotent(s: string)
    ensures Trim(Trim(s)) == Trim(s)
  {
    var t := Trim(s);
    TrimEnds(s);
    TrimExact([], t, []);
    assert [] + t + [] == t;
  }
}
