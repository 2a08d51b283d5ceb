/** The names of segments in the default format, `./recordings/%path/%Y-%m-%d_%H-%M-%S-%f` (conf/path.go). */
module SegmentExample {
  import opened Substitution
  import opened SegmentNames
  import opened SegmentPath
  import opened SegmentRoundTrip

  const FRONT: string := "./recordings/"

  const DATE: string := "/%Y-%m-%d_%H-%M-%S-%f"

  /** A separator, a text, and what follows. */
  function Then(separator: char, text: string, rest: string): string {
    [separator] + (text + rest)
  }

  /** Without the letter p there is no path. */
  lemma NoPath(s: string)
    requires 'p' !in s
    ensures !Contains(s, PATH)
  {
    forall i | 0 <= i <= |s| ensures !(PATH <= s[i..]) {
      if i + 1 < |s| {
        assert s[i + 1] in s && s[i..][1] != PATH[1];
      }
    }
  }

  lemma IsLetter(letter: char)
    requires letter in "YmdHMSfs"
    ensures letter in LETTERS
  {
    assert LETTERS == "YmdHMSfs";
  }

  /** A token behind a separator is replaced, and is a group of digits of this width. */
  lemma OneToken(separator: char, letter: char, rest: string, text: char -> string)
    requires separator != '%' && letter in "YmdHMSfs"
    ensures var s := Then(separator, ['%', letter], rest);
      && AtOnce(s, LETTERS, text) == Then(separator, text(letter), AtOnce(rest, LETTERS, text))
      && Atoms(s) == [Literal(separator), Digits(Width(letter))] + Atoms(rest)
  {
    IsLetter(letter);
    LettersAreNotSpecial();
    var s := Then(separator, ['%', letter], rest);
    var token := ['%', letter] + rest;
    assert s[1..] == token && token[2..] == rest;
    assert !(PATH <= token) by { assert token[1] != PATH[1]; }
    assert [Literal(separator)] + ([Digits(Width(letter))] + Atoms(rest)) ==
      [Literal(separator), Digits(Width(letter))] + Atoms(rest);
  }

  lemma DateIsTokens()
    ensures DATE == Then('/', "%Y", Then('-', "%m", Then('-', "%d", Then('_', "%H", Then('-', "%M",
                    Then('-', "%S", Then('-', "%f", [])))))))
  {
  }

  /** What is printed of an instant. */
  function DayPrinted(t: Instant, rest: string): string {
    Then('/', FormatInt(t.year), Then('-', Padded(t.month, 2), Then('-', Padded(t.day, 2), rest)))
  }

  function TimePrinted(t: Instant, rest: string): string {
    Then('_', Padded(t.hour, 2), Then('-', Padded(t.minute, 2), Then('-', Padded(t.second, 2), rest)))
  }

  function DatePrinted(t: Instant): string {
    DayPrinted(t, TimePrinted(t, Then('-', Padded(t.nanosecond / 1000, 6), [])))
  }

  lemma ThreeTokens(a: char, x: char, b: char, y: char, c: char, z: char, rest: string, text: char -> string)
    requires a != '%' && b != '%' && c != '%' && x in "YmdHMSfs" && y in "YmdHMSfs" && z in "YmdHMSfs"
    ensures AtOnce(Then(a, ['%', x], Then(b, ['%', y], Then(c, ['%', z], rest))), LETTERS, text) ==
            Then(a, text(x), Then(b, text(y), Then(c, text(z), AtOnce(rest, LETTERS, text))))
  {
    OneToken(c, z, rest, text);
    OneToken(b, y, Then(c, ['%', z], rest), text);
    OneToken(a, x, Then(b, ['%', y], Then(c, ['%', z], rest)), text);
  }

  lemma TextsOf(t: Instant)
    ensures TextOf(t, 'Y') == FormatInt(t.year) && TextOf(t, 's') == FormatInt(t.unix)
    ensures TextOf(t, 'm') == Padded(t.month, 2) && TextOf(t, 'd') == Padded(t.day, 2)
    ensures TextOf(t, 'H') == Padded(t.hour, 2) && TextOf(t, 'M') == Padded(t.minute, 2)
    ensures TextOf(t, 'S') == Padded(t.second, 2) && TextOf(t, 'f') == Padded(t.nanosecond / 1000, 6)
  {
  }

  lemma DateIsPrinted(t: Instant)
    ensures AtOnce(DATE, LETTERS, letter => TextOf(t, letter)) == DatePrinted(t)
  {
    var text := letter => TextOf(t, letter);
    var f := Then('-', ['%', 'f'], []);
    var time := Then('_', ['%', 'H'], Then('-', ['%', 'M'], Then('-', ['%', 'S'], f)));
    DateIsTokens();
    ThreeTokens('/', 'Y', '-', 'm', '-', 'd', time, text);
    ThreeTokens('_', 'H', '-', 'M', '-', 'S', f, text);
    OneToken('-', 'f', [], text);
    TextsOf(t);
    FromTokens(DATE, time, f, t, text);
  }

  lemma FromTokens(date: string, time: string, f: string, t: Instant, text: char -> string)
    requires text == (letter => TextOf(t, letter))
    requires AtOnce(date, LETTERS, text) ==
             Then('/', text('Y'), Then('-', text('m'), Then('-', text('d'), AtOnce(time, LETTERS, text))))
    requires AtOnce(time, LETTERS, text) ==
             Then('_', text('H'), Then('-', text('M'), Then('-', text('S'), AtOnce(f, LETTERS, text))))
    requires AtOnce(f, LETTERS, text) == Then('-', text('f'), [])
    ensures AtOnce(date, LETTERS, text) == DatePrinted(t)
  {
    TextsOf(t);
  }

  /** The name is the path with the year, and the other fields of the instant with two digits, six for microseconds. */
  lemma DefaultNameIs(path: string, t: Instant)
    requires '%' !in path && '\n' !in path
    ensures Encode(FRONT + (PATH + DATE), path, t) == FRONT + (path + DatePrinted(t))
  {
    NoPath(FRONT);
    NoPath(DATE);
    EncodeWithPath(FRONT, DATE, path, t);
    NothingInFront(letter => TextOf(t, letter));
    DateIsPrinted(t);
  }

  lemma {:induction false} NoTokens(s: string, text: char -> string)
    requires '%' !in s
    ensures AtOnce(s, LETTERS, text) == s
  {
    if s != [] {
      assert s[0] in s;
      NoTokens(s[1..], text);
    }
  }

  lemma NothingInFront(text: char -> string)
    ensures AtOnce(FRONT, LETTERS, text) == FRONT
  {
    NoTokens(FRONT, text);
  }

  /** The Unix time is printed as it is, and read back from ten digits. */
  lemma UnixNameIs(path: string, t: Instant)
    ensures Encode("-%s", path, t) == ['-'] + FormatInt(t.unix) && Atoms("-%s") == [Literal('-'), Digits(10)]
  {
    var text := letter => TextOf(t, letter);
    var s := Then('-', "%s", []);
    assert s == "-%s";
    NoPath(s);
    EncodeIsSubstitution(s, path, t);
    NothingToReplace(s, PATH, path);
    OneToken('-', 's', [], text);
    assert FormatInt(t.unix) + [] == FormatInt(t.unix);
  }
}
