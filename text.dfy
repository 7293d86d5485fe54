/**
 * String helpers that app.py takes from Python's `str`: `strip`, `split`,
 * `upper`, `replace(",", "")`, `startswith` and the substring test `x in s`.
 */
module Text {

  /** The characters for which Python's `str.isspace` holds; `strip()` and
      `split()` with no argument use exactly these. */
  predicate IsSpace(c: char) {
    || ('\t' <= c <= '\r')                  // tab, line feed, vertical tab, form feed, carriage return
    || ('\U{1C}' <= c <= '\U{1F}')          // file, group, record and unit separators
    || c == ' ' || c == '\U{85}' || c == '\U{A0}' || c == '\U{1680}'
    || ('\U{2000}' <= c <= '\U{200A}')      // en quad .. hair space
    || c == '\U{2028}' || c == '\U{2029}' || c == '\U{202F}' || c == '\U{205F}' || c == '\U{3000}'
  }

  predicate NoSpace(s: string) {
    forall i :: 0 <= i < |s| ==> !IsSpace(s[i])
  }

  predicate StartsWith(s: string, prefix: string) {
    |prefix| <= |s| && s[..|prefix|] == prefix
  }

  /** `s.lstrip()`: the suffix of `s` left after dropping its leading whitespace. */
  function TrimLeft(s: string): (r: string)
    ensures |r| <= |s| && r == s[|s| - |r|..]
    ensures forall k :: 0 <= k < |s| - |r| ==> IsSpace(s[k])
    ensures r == [] || !IsSpace(r[0])
  {
    if s == [] || !IsSpace(s[0]) then s else TrimLeft(s[1..])
  }

  /** `s.rstrip()`: the prefix of `s` left after dropping its trailing whitespace. */
  function TrimRight(s: string): (r: string)
    ensures |r| <= |s| && r == s[..|r|]
    ensures forall k :: |r| <= k < |s| ==> IsSpace(s[k])
    ensures r == [] || !IsSpace(r[|r| - 1])
  {
    if s == [] || !IsSpace(s[|s| - 1]) then s else TrimRight(s[..|s| - 1])
  }

  /** `s.strip()` */
  function Strip(s: string): string {
    TrimRight(TrimLeft(s))
  }

  /** Length of the run of non-whitespace characters that starts `s`. */
  function WordLength(s: string): (n: nat)
    ensures n <= |s|
    ensures NoSpace(s[..n])
    ensures n < |s| ==> IsSpace(s[n])
  {
    if s == [] || IsSpace(s[0]) then 0 else 1 + WordLength(s[1..])
  }

  /** `s.split()`: the maximal runs of non-whitespace characters, in order. */
  function Split(s: string): (words: seq<string>)
    ensures forall j :: 0 <= j < |words| ==> words[j] != [] && NoSpace(words[j])
    decreases |s|
  {
    if s == [] then []
    else if IsSpace(s[0]) then Split(s[1..])
    else
      var n := WordLength(s);
      [s[..n]] + Split(s[n..])
  }

  /** The words joined with one space between each two, the inverse of `Split`. */
  function JoinSpaced(words: seq<string>): string {
    if words == [] then []
    else if |words| == 1 then words[0]
    else words[0] + " " + JoinSpaced(words[1..])
  }

  lemma {:induction false} WordLengthOfWord(w: string, rest: string)
    requires NoSpace(w)
    requires rest == [] || IsSpace(rest[0])
    ensures WordLength(w + rest) == |w|
    decreases |w|
  {
    if w != [] {
      assert (w + rest)[1..] == w[1..] + rest;
      WordLengthOfWord(w[1..], rest);
    } else {
      assert w + rest == rest;
    }
  }

  /** Splitting words joined with single spaces gives the words back. */
  lemma {:induction false} SplitJoinSpaced(words: seq<string>)
    requires forall j :: 0 <= j < |words| ==> words[j] != [] && NoSpace(words[j])
    ensures Split(JoinSpaced(words)) == words
    decreases |words|
  {
    if words == [] {
    } else if |words| == 1 {
      var w := words[0];
      WordLengthOfWord(w, []);
      assert w + [] == w;
      assert w[..|w|] == w && w[|w|..] == [];
    } else {
      var w, tail := words[0], JoinSpaced(words[1..]);
      var s := w + " " + tail;
      assert s == w + (" " + tail);
      WordLengthOfWord(w, " " + tail);
      assert s[..|w|] == w;
      assert s[|w|..] == " " + tail;
      assert (" " + tail)[1..] == tail;
      SplitJoinSpaced(words[1..]);
    }
  }

  /** A trailing whitespace character does not change the words. */
  lemma {:induction false} SplitTrailingSpace(s: string, c: char)
    requires IsSpace(c)
    ensures Split(s + [c]) == Split(s)
    decreases |s|
  {
    if s == [] {
      assert Split([c]) == Split([c][1..]);
    } else {
      assert (s + [c])[0] == s[0] && (s + [c])[1..] == s[1..] + [c];
      if IsSpace(s[0]) {
        SplitTrailingSpace(s[1..], c);
      } else {
        var n := WordLength(s);
        WordLengthOfWord(s[..n], s[n..]);
        assert s[..n] + s[n..] == s;
        if n < |s| {
          WordLengthOfWord(s[..n], s[n..] + [c]);
          assert s[..n] + (s[n..] + [c]) == s + [c];
        } else {
          WordLengthOfWord(s[..n], [c]);
          assert s[..n] + [c] == s + [c];
        }
        assert (s + [c])[..n] == s[..n];
        assert (s + [c])[n..] == s[n..] + [c];
        SplitTrailingSpace(s[n..], c);
      }
    }
  }

  lemma {:induction false} SplitTrimRight(s: string)
    ensures Split(TrimRight(s)) == Split(s)
    decreases |s|
  {
    if s != [] && IsSpace(s[|s| - 1]) {
      var init := s[..|s| - 1];
      SplitTrimRight(init);
      assert init + [s[|s| - 1]] == s;
      SplitTrailingSpace(init, s[|s| - 1]);
    }
  }

  lemma {:induction false} SplitTrimLeft(s: string)
    ensures Split(TrimLeft(s)) == Split(s)
  {
    if s != [] && IsSpace(s[0]) {
      SplitTrimLeft(s[1..]);
    }
  }

  /** `text.strip().split()` has the same words as `text.split()`. */
  lemma SplitStrip(s: string)
    ensures Split(Strip(s)) == Split(s)
  {
    SplitTrimLeft(s);
    SplitTrimRight(TrimLeft(s));
  }

  /** Text that neither starts nor ends with whitespace is left alone by `strip`. */
  lemma StripTrimmed(s: string)
    requires s != [] && !IsSpace(s[0]) && !IsSpace(s[|s| - 1])
    ensures Strip(s) == s
  {
  }

  /** `s.upper()`, restricted to ASCII: each `a`..`z` becomes its capital, nothing else changes. */
  function ToUpper(s: string): string
  {
    seq(|s|, i requires 0 <= i < |s| => if 'a' <= s[i] <= 'z' then (s[i] as int - 32) as char else s[i])
  }

  predicate NoLowerAscii(s: string) {
    forall i :: 0 <= i < |s| ==> !('a' <= s[i] <= 'z')
  }

  /** Upper-casing leaves no lower-case ASCII letter and is idempotent. */
  lemma ToUpperIdempotent(s: string)
    ensures NoLowerAscii(ToUpper(s))
    ensures ToUpper(ToUpper(s)) == ToUpper(s)
  {
    var u := ToUpper(s);
    assert NoLowerAscii(u);
    assert ToUpper(u) == u;
  }

  /** `s.replace(",", "")` */
  function RemoveCommas(s: string): string {
    if s == [] then []
    else (if s[0] == ',' then [] else [s[0]]) + RemoveCommas(s[1..])
  }

  /** No comma is left, and every other character keeps its number of occurrences. */
  lemma {:induction false} RemoveCommasSpec(s: string)
    ensures ',' !in RemoveCommas(s)
    ensures forall c :: c != ',' ==> multiset(RemoveCommas(s))[c] == multiset(s)[c]
  {
    if s != [] {
      RemoveCommasSpec(s[1..]);
      assert s == [s[0]] + s[1..];
    }
  }

  lemma {:induction false} RemoveCommasNoComma(s: string)
    requires ',' !in s
    ensures RemoveCommas(s) == s
  {
    if s != [] {
      assert s[0] in s;
      assert forall c :: c in s[1..] ==> c in s;
      RemoveCommasNoComma(s[1..]);
      assert s == [s[0]] + s[1..];
    }
  }

  /** Comma removal works character by character. */
  lemma {:induction false} RemoveCommasConcat(a: string, b: string)
    ensures RemoveCommas(a + b) == RemoveCommas(a) + RemoveCommas(b)
  {
    if a != [] {
      assert (a + b)[0] == a[0] && (a + b)[1..] == a[1..] + b;
      RemoveCommasConcat(a[1..], b);
    } else {
      assert a + b == b;
    }
  }

  /** `p` occurs in `s` starting at index `i`. */
  predicate OccursAt(s: string, p: string, i: nat) {
    i + |p| <= |s| && s[i..i + |p|] == p
  }

  /** Python's `p in s` for strings: `p` occurs as a contiguous part of `s`. */
  function HasInfix(s: string, p: string): (b: bool)
    ensures b <==> exists i: nat :: OccursAt(s, p, i)
    decreases |s|
  {
    if |s| < |p| then false
    else if s[..|p|] == p then
      assert OccursAt(s, p, 0);
      true
    else
      var b := HasInfix(s[1..], p);
      if b then
        var i: nat :| OccursAt(s[1..], p, i);
        assert OccursAt(s, p, i + 1);
        true
      else
        assert forall i: nat :: OccursAt(s, p, i) && i > 0 ==> OccursAt(s[1..], p, i - 1);
        false
  }
}
