/**
 * `escape_markdown_v2` (app.py:18-22): every character that Telegram's
 * MarkdownV2 parse mode reserves is preceded by a backslash; every other
 * character is copied unchanged.
 */
module Markdown {
  import opened Wrappers

  /** The characters app.py escapes: `_*[]()~` + "`" + `>#+-=|{}.!` and the backslash itself. */
  predicate IsSpecial(c: char) {
    c in {'_', '*', '[', ']', '(', ')', '~', '`', '>', '#', '+', '-', '=', '|', '{', '}', '.', '!', '\\'}
  }

  /** How many characters of `s` are special. */
  function CountSpecial(s: string): (n: nat)
    ensures n <= |s|
  {
    if s == [] then 0 else (if IsSpecial(s[0]) then 1 else 0) + CountSpecial(s[1..])
  }

  function EscapeChar(c: char): string {
    if IsSpecial(c) then ['\\', c] else [c]
  }

  /** The escaped text grows by exactly one backslash per special character. */
  function EscapeMarkdownV2(s: string): (r: string)
    ensures |r| == |s| + CountSpecial(s)
  {
    if s == [] then [] else EscapeChar(s[0]) + EscapeMarkdownV2(s[1..])
  }

  /**
   * Reads MarkdownV2-escaped text back: a backslash followed by a special
   * character stands for that character; an unescaped special character, or
   * a backslash before anything else, makes the text ill-formed.
   */
  function UnescapeMarkdownV2(t: string): (r: Option<string>)
    decreases |t|
  {
    if t == [] then Some([])
    else if t[0] == '\\' then
      if |t| >= 2 && IsSpecial(t[1]) then
        match UnescapeMarkdownV2(t[2..])
        case None => None
        case Some(rest) => Some([t[1]] + rest)
      else None
    else if IsSpecial(t[0]) then None
    else
      match UnescapeMarkdownV2(t[1..])
      case None => None
      case Some(rest) => Some([t[0]] + rest)
  }

  /** Removing the escape backslashes recovers the input. */
  lemma {:induction false} EscapeRoundTrip(s: string)
    ensures UnescapeMarkdownV2(EscapeMarkdownV2(s)) == Some(s)
  {
    if s != [] {
      var rest := EscapeMarkdownV2(s[1..]);
      EscapeRoundTrip(s[1..]);
      var t := EscapeChar(s[0]) + rest;
      if IsSpecial(s[0]) {
        assert t[0] == '\\' && t[1] == s[0] && t[2..] == rest;
      } else {
        assert t[0] == s[0] && t[1..] == rest;
      }
      assert [s[0]] + s[1..] == s;
    }
  }

  /** Every well-formed escaped text is the escape of what it reads back as. */
  lemma {:induction false} UnescapeSound(t: string, s: string)
    requires UnescapeMarkdownV2(t) == Some(s)
    ensures EscapeMarkdownV2(s) == t
    decreases |t|
  {
    if t != [] {
      if t[0] == '\\' {
        var rest := UnescapeMarkdownV2(t[2..]).value;
        UnescapeSound(t[2..], rest);
        assert s == [t[1]] + rest && s[1..] == rest;
        assert t == ['\\', t[1]] + t[2..];
      } else {
        var rest := UnescapeMarkdownV2(t[1..]).value;
        UnescapeSound(t[1..], rest);
        assert s == [t[0]] + rest && s[1..] == rest;
        assert t == [t[0]] + t[1..];
      }
    }
  }

  /** Escaping is one-to-one: the escaped text determines the original. */
  lemma EscapeInjective(s1: string, s2: string)
    requires EscapeMarkdownV2(s1) == EscapeMarkdownV2(s2)
    ensures s1 == s2
  {
    EscapeRoundTrip(s1);
    EscapeRoundTrip(s2);
  }

  /** Escaping works character by character, so it distributes over concatenation. */
  lemma {:induction false} EscapeConcat(a: string, b: string)
    ensures EscapeMarkdownV2(a + b) == EscapeMarkdownV2(a) + EscapeMarkdownV2(b)
  {
    if a != [] {
      assert (a + b)[0] == a[0] && (a + b)[1..] == a[1..] + b;
      EscapeConcat(a[1..], b);
    } else {
      assert a + b == b;
    }
  }

  /** Text without special characters is left as it is. */
  lemma {:induction false} EscapePlain(s: string)
    requires forall i :: 0 <= i < |s| ==> !IsSpecial(s[i])
    ensures EscapeMarkdownV2(s) == s
  {
    if s != [] {
      EscapePlain(s[1..]);
      assert [s[0]] + s[1..] == s;
    }
  }
}
