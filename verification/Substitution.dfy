/** Replacement of substrings, one pattern after the other, as in recordstore/path.go. */
module Substitution {

  /** Go's `strings.ReplaceAll` */
  function ReplaceAll(s: string, pattern: string, replacement: string): string
    requires pattern != []
    decreases |s|
  {
    if s == [] then []
    else if pattern <= s then replacement + ReplaceAll(s[|pattern|..], pattern, replacement)
    else [s[0]] + ReplaceAll(s[1..], pattern, replacement)
  }

  predicate Contains(s: string, pattern: string) {
    exists i :: 0 <= i <= |s| && pattern <= s[i..]
  }

  lemma {:induction false} NothingToReplace(s: string, pattern: string, replacement: string)
    requires pattern != [] && !Contains(s, pattern)
    ensures ReplaceAll(s, pattern, replacement) == s
  {
    if s != [] {
      assert s[0..] == s;
      forall i | 0 <= i <= |s[1..]| ensures !(pattern <= s[1..][i..]) {
        assert s[1..][i..] == s[i + 1..];
      }
      NothingToReplace(s[1..], pattern, replacement);
    }
  }

  // Tokens: a percent sign and a letter

  function Token(letter: char): string {
    ['%', letter]
  }

  predicate StartsToken(s: string, letters: seq<char>) {
    |s| >= 2 && s[0] == '%' && s[1] in letters
  }

  /** The texts put in the place of tokens cannot form a token with what is around them. */
  predicate Harmless(text: char -> string, letters: seq<char>) {
    && '%' !in letters
    && forall c <- letters :: text(c) != [] && '%' !in text(c) && text(c)[0] !in letters
  }

  /** All tokens replaced, one kind after the other. */
  function OneByOne(s: string, letters: seq<char>, text: char -> string): string {
    if letters == [] then s
    else
      var last := letters[|letters| - 1];
      ReplaceAll(OneByOne(s, letters[..|letters| - 1], text), Token(last), text(last))
  }

  /** All tokens replaced at once. */
  function AtOnce(s: string, letters: seq<char>, text: char -> string): string {
    if s == [] then []
    else if StartsToken(s, letters) then text(s[1]) + AtOnce(s[2..], letters, text)
    else [s[0]] + AtOnce(s[1..], letters, text)
  }

  lemma {:induction false} ReplaceBehind(front: string, s: string, c: char, replacement: string)
    requires '%' !in front
    ensures ReplaceAll(front + s, Token(c), replacement) == front + ReplaceAll(s, Token(c), replacement)
  {
    if front == [] {
      assert front + s == s;
    } else {
      var all := front + s;
      assert all[1..] == front[1..] + s && all[0] == front[0] && front[0] in front;
      assert front == [front[0]] + front[1..];
      ReplaceBehind(front[1..], s, c, replacement);
    }
  }

  lemma FirstOfAtOnce(s: string, letters: seq<char>, text: char -> string, c: char)
    requires Harmless(text, letters) && (forall l <- letters :: text(l)[0] != c) && c != '%'
    ensures AtOnce(s, letters, text) != [] && AtOnce(s, letters, text)[0] == c <==> s != [] && s[0] == c
  {
  }

  /** One more kind of token can be replaced after the others as well as together with them. */
  lemma {:induction false} OneMoreKind(s: string, letters: seq<char>, c: char, text: char -> string)
    requires Harmless(text, letters + [c]) && c !in letters
    ensures ReplaceAll(AtOnce(s, letters, text), Token(c), text(c)) == AtOnce(s, letters + [c], text)
    decreases |s|
  {
    HarmlessPrefix(text, letters, c);
    if s != [] {
      if StartsToken(s, letters) {
        OneMoreKind(s[2..], letters, c, text);
        ReplaceBehind(text(s[1]), AtOnce(s[2..], letters, text), c, text(c));
      } else if StartsToken(s, [c]) {
        OneMoreKind(s[2..], letters, c, text);
        ReplaceNow(s, letters, c, text);
      } else {
        OneMoreKind(s[1..], letters, c, text);
        ReplaceLater(s, letters, c, text);
      }
    }
  }

  lemma HarmlessPrefix(text: char -> string, letters: seq<char>, c: char)
    requires Harmless(text, letters + [c])
    ensures Harmless(text, letters) && c != '%' && forall l <- letters :: text(l)[0] != c
  {
    assert c in letters + [c];
    assert forall l <- letters :: l in letters + [c];
  }

  lemma ReplaceNow(s: string, letters: seq<char>, c: char, text: char -> string)
    requires StartsToken(s, [c]) && c !in letters && c != '%'
    ensures ReplaceAll(AtOnce(s, letters, text), Token(c), text(c)) ==
            text(c) + ReplaceAll(AtOnce(s[2..], letters, text), Token(c), text(c))
  {
    var rest := AtOnce(s[2..], letters, text);
    assert s[1..][1..] == s[2..];
    assert AtOnce(s[1..], letters, text) == [c] + rest;
    assert AtOnce(s, letters, text) == ['%'] + ([c] + rest) == Token(c) + rest;
    assert (Token(c) + rest)[2..] == rest;
  }

  lemma ReplaceLater(s: string, letters: seq<char>, c: char, text: char -> string)
    requires s != [] && !StartsToken(s, letters) && !StartsToken(s, [c])
    requires Harmless(text, letters) && c != '%' && forall l <- letters :: text(l)[0] != c
    ensures ReplaceAll(AtOnce(s, letters, text), Token(c), text(c)) ==
            [s[0]] + ReplaceAll(AtOnce(s[1..], letters, text), Token(c), text(c))
  {
    var rest := AtOnce(s[1..], letters, text);
    FirstOfAtOnce(s[1..], letters, text, c);
    var all := [s[0]] + rest;
    assert all[1..] == rest && all[0] == s[0];
    assert rest != [] ==> all[1] == rest[0];
    assert s[1..] != [] ==> s[1..][0] == s[1];
  }

  predicate Distinct(letters: seq<char>) {
    forall i, j :: 0 <= i < j < |letters| ==> letters[i] != letters[j]
  }

  /** Replacing token by token and replacing all at once is the same. */
  lemma {:induction false} OneByOneIsAtOnce(s: string, letters: seq<char>, text: char -> string)
    requires Harmless(text, letters) && Distinct(letters)
    ensures OneByOne(s, letters, text) == AtOnce(s, letters, text)
  {
    if letters == [] {
      NoTokens(s, text);
    } else {
      var front, last := letters[..|letters| - 1], letters[|letters| - 1];
      assert letters == front + [last];
      HarmlessPrefix(text, front, last);
      OneByOneIsAtOnce(s, front, text);
      OneMoreKind(s, front, last, text);
    }
  }

  lemma {:induction false} NoTokens(s: string, text: char -> string)
    ensures AtOnce(s, [], text) == s
  {
    if s != [] {
      NoTokens(s[1..], text);
    }
  }

  /** A text without percent signs is left alone. */
  lemma {:induction false} AtOnceBehind(front: string, s: string, letters: seq<char>, text: char -> string)
    requires '%' !in front
    ensures AtOnce(front + s, letters, text) == front + AtOnce(s, letters, text)
  {
    if front == [] {
      assert front + s == s;
    } else {
      var all := front + s;
      assert all[1..] == front[1..] + s && all[0] == front[0] && front[0] in front;
      assert front == [front[0]] + front[1..];
      AtOnceBehind(front[1..], s, letters, text);
    }
  }

  /** No token lies across the end of a text that does not end with a percent sign. */
  lemma {:induction false} AtOnceSplit(front: string, s: string, letters: seq<char>, text: char -> string)
    requires front == [] || front[|front| - 1] != '%'
    ensures AtOnce(front + s, letters, text) == AtOnce(front, letters, text) + AtOnce(s, letters, text)
    decreases |front|
  {
    var all := front + s;
    if front == [] {
      assert all == s;
    } else if StartsToken(front, letters) {
      assert all[2..] == front[2..] + s && all[0] == front[0] && all[1] == front[1];
      AtOnceSplit(front[2..], s, letters, text);
    } else {
      assert all[1..] == front[1..] + s && all[0] == front[0];
      assert |front| > 1 ==> all[1] == front[1];
      AtOnceSplit(front[1..], s, letters, text);
    }
  }

  /** A pattern that cannot overlap itself is found nowhere across its own beginning. */
  lemma NotAcross(front: string, pattern: string, rest: string)
    requires pattern != [] && pattern[0] !in pattern[1..] && front != [] && !(pattern <= front)
    ensures !(pattern <= front + (pattern + rest))
  {
    var all := front + (pattern + rest);
    if |pattern| <= |front| {
      assert all[..|pattern|] == front[..|pattern|];
    } else {
      assert all[|front|] == pattern[0];
      assert pattern[|front|] == pattern[1..][|front| - 1];
    }
  }

  lemma {:induction false} ReplaceOnce(front: string, pattern: string, rest: string, replacement: string)
    requires pattern != [] && pattern[0] !in pattern[1..]
    requires !Contains(front, pattern) && !Contains(rest, pattern)
    ensures ReplaceAll(front + (pattern + rest), pattern, replacement) == front + (replacement + rest)
  {
    var all := front + (pattern + rest);
    if front == [] {
      assert all == pattern + rest && all[|pattern|..] == rest;
      NothingToReplace(rest, pattern, replacement);
    } else {
      assert front[0..] == front;
      NotAcross(front, pattern, rest);
      forall i | 0 <= i <= |front[1..]| ensures !(pattern <= front[1..][i..]) {
        assert front[1..][i..] == front[i + 1..];
      }
      ReplaceOnce(front[1..], pattern, rest, replacement);
      assert all[1..] == front[1..] + (pattern + rest) && all[0] == front[0];
      assert front == [front[0]] + front[1..];
    }
  }

  // Escaping

  /** A backslash in front of each of the given characters. */
  function Escaped(s: string, special: seq<char>): string {
    if s == [] then []
    else EscapedChar(s[0], special) + Escaped(s[1..], special)
  }

  /** Escaping one more character does not disturb what has been escaped, provided that backslashes were first. */
  lemma {:induction false} EscapeOneMore(s: string, special: seq<char>, c: char)
    requires c !in special && (special == [] <==> c == '\\')
    ensures ReplaceAll(Escaped(s, special), [c], ['\\', c]) == Escaped(s, special + [c])
  {
    if s != [] {
      EscapeOneMore(s[1..], special, c);
      EscapeFirst(s, special, c);
    }
  }

  function EscapedChar(x: char, special: seq<char>): string {
    if x in special then ['\\', x] else [x]
  }

  lemma EscapeFirst(s: string, special: seq<char>, c: char)
    requires c !in special && (special == [] <==> c == '\\') && s != []
    ensures ReplaceAll(Escaped(s, special), [c], ['\\', c]) ==
            EscapedChar(s[0], special + [c]) + ReplaceAll(Escaped(s[1..], special), [c], ['\\', c])
  {
    EscapeCharThen(s[0], special, c, Escaped(s[1..], special));
  }

  lemma EscapeCharThen(x: char, special: seq<char>, c: char, rest: string)
    requires c !in special && (special == [] <==> c == '\\')
    ensures ReplaceAll(EscapedChar(x, special) + rest, [c], ['\\', c]) ==
            EscapedChar(x, special + [c]) + ReplaceAll(rest, [c], ['\\', c])
  {
    if x in special {
      EscapedTwice(x, rest, c);
    } else {
      ReplaceChar(x, rest, c);
    }
  }

  lemma EscapedTwice(x: char, rest: string, c: char)
    requires x != c && c != '\\'
    ensures ReplaceAll(['\\', x] + rest, [c], ['\\', c]) == ['\\', x] + ReplaceAll(rest, [c], ['\\', c])
  {
    assert ['\\', x] + rest == ['\\'] + ([x] + rest);
    ReplaceChar('\\', [x] + rest, c);
    ReplaceChar(x, rest, c);
  }

  lemma ReplaceChar(x: char, rest: string, c: char)
    ensures ReplaceAll([x] + rest, [c], ['\\', c]) ==
            (if x == c then ['\\', c] else [x]) + ReplaceAll(rest, [c], ['\\', c])
  {
    var all := [x] + rest;
    assert all[1..] == rest && all[0] == x;
  }

  lemma {:induction false} NothingEscaped(s: string)
    ensures Escaped(s, []) == s
  {
    if s != [] {
      NothingEscaped(s[1..]);
    }
  }

  /** A word without special characters is in the escaped text only if it is in the text. */
  lemma {:induction false} PrefixOfEscaped(s: string, special: seq<char>, word: string)
    requires word <= Escaped(s, special) && (forall c <- word :: c !in special && c != '\\')
    ensures word <= s
  {
    if word != [] {
      assert word[0] in word && forall c <- word[1..] :: c in word;
      assert s != [] && s[0] == word[0];
      assert Escaped(s, special)[1..] == Escaped(s[1..], special);
      PrefixOfEscaped(s[1..], special, word[1..]);
    }
  }
}
