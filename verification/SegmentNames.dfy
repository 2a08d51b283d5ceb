/** Names of recording segments, printed and parsed: recordstore/path.go. */
module SegmentNames {
  import opened Substitution

  // Decimal numbers

  function Digit(d: nat): char
    requires d < 10
  {
    '0' + d as char
  }

  predicate IsDigit(c: char) {
    '0' <= c <= '9'
  }

  predicate AllDigits(s: string) {
    forall c <- s :: IsDigit(c)
  }

  function Decimal(n: nat): string {
    if n < 10 then [Digit(n)] else Decimal(n / 10) + [Digit(n % 10)]
  }

  /** Go's `strconv.FormatInt` in base 10 */
  function FormatInt(v: int): string {
    if v < 0 then ['-'] + Decimal(-v) else Decimal(v)
  }

  /** Go's `strconv.ParseInt` on digits */
  function ParseInt(s: string): int {
    if s == [] then 0 else ParseInt(s[..|s| - 1]) * 10 + (s[|s| - 1] as int - '0' as int)
  }

  function Zeros(n: nat): string {
    seq(n, i => '0')
  }

  function Padded(v: int, size: nat): string {
    var out := FormatInt(v);
    if |out| >= size then out else Zeros(size - |out|) + out
  }

  method LeadingZeros(v: int, size: nat) returns (r: string)
    ensures r == Padded(v, size)
  {
    var out := FormatInt(v);
    if |out| >= size {
      return out;
    }
    var out2 := "";
    for i := 0 to size - |out|
      invariant out2 == Zeros(i)
    {
      out2 := out2 + "0";
    }
    return out2 + out;
  }

  function Pow10(n: nat): nat {
    if n == 0 then 1 else 10 * Pow10(n - 1)
  }

  lemma {:induction false} DecimalParses(n: nat)
    ensures Decimal(n) != [] && AllDigits(Decimal(n)) && ParseInt(Decimal(n)) == n
  {
    if n >= 10 {
      DecimalParses(n / 10);
      assert Decimal(n)[..|Decimal(n)| - 1] == Decimal(n / 10);
    }
  }

  lemma {:induction false} DecimalFits(n: nat, size: nat)
    requires size > 0
    ensures |Decimal(n)| <= size <==> n < Pow10(size)
  {
    if n >= 10 {
      if size == 1 {
        assert |Decimal(n / 10)| > 0 by { DecimalParses(n / 10); }
      } else {
        DecimalFits(n / 10, size - 1);
      }
    } else {
      Pow10AtLeastTen(size);
    }
  }

  lemma {:induction false} Pow10AtLeastTen(n: nat)
    requires n > 0
    ensures Pow10(n) >= 10
  {
    if n > 1 {
      Pow10AtLeastTen(n - 1);
    }
  }

  lemma {:induction false} ZerosParse(n: nat, s: string)
    ensures ParseInt(Zeros(n) + s) == ParseInt(s)
  {
    if s != [] {
      assert (Zeros(n) + s)[..n + |s| - 1] == Zeros(n) + s[..|s| - 1];
      ZerosParse(n, s[..|s| - 1]);
    } else if n > 0 {
      assert (Zeros(n) + s)[..n - 1] == Zeros(n - 1) + s;
      ZerosParse(n - 1, s);
    }
  }

  /** A number that fits is printed with exactly `size` digits, and comes back. */
  lemma PaddedParses(n: nat, size: nat)
    requires size > 0 && n < Pow10(size)
    ensures |Padded(n, size)| == size && AllDigits(Padded(n, size)) && ParseInt(Padded(n, size)) == n
  {
    DecimalParses(n);
    DecimalFits(n, size);
    ZerosParse(size - |Decimal(n)|, Decimal(n));
  }

  // Formats

  const LETTERS: seq<char> := ['Y', 'm', 'd', 'H', 'M', 'S', 'f', 's']

  const PATH: string := ['%', 'p', 'a', 't', 'h']

  function Width(letter: char): nat {
    if letter == 'Y' then 4 else if letter == 'f' then 6 else if letter == 's' then 10 else 2
  }

  /**
   * The calendar fields of an instant in some time zone, and its Unix time. They belong together: whatever the time
   * zone, a Unix time of up to ten digits is one of the years 1969 to 2286.
   */
  datatype Instant = Instant(
    year: int, month: nat, day: nat, hour: nat, minute: nat, second: nat, nanosecond: nat, unix: int)
  {
    predicate Valid() {
      && 1 <= month <= 12 && 1 <= day <= 31 && hour < 24 && minute < 60 && second < 60 && nanosecond < 1_000_000_000
      && (0 <= unix <= 9_999_999_999 ==> 1969 <= year <= 2286)
    }
  }

  function ValueOf(t: Instant, letter: char): int {
    if letter == 'Y' then t.year
    else if letter == 'm' then t.month
    else if letter == 'd' then t.day
    else if letter == 'H' then t.hour
    else if letter == 'M' then t.minute
    else if letter == 'S' then t.second
    else if letter == 'f' then t.nanosecond / 1000
    else t.unix
  }

  function TextOf(t: Instant, letter: char): string {
    if letter == 'Y' || letter == 's' then FormatInt(ValueOf(t, letter)) else Padded(ValueOf(t, letter), Width(letter))
  }

  function Encode(format: string, path: string, t: Instant): string {
    OneByOne(ReplaceAll(format, PATH, path), LETTERS, letter => TextOf(t, letter))
  }

  predicate IsPlain(s: string) {
    s != [] && forall c <- s :: IsDigit(c) || c == '-'
  }

  lemma FormatIntIsPlain(v: int)
    ensures IsPlain(FormatInt(v))
  {
    DecimalParses(if v < 0 then -v else v);
  }

  lemma TextIsPlain(t: Instant, letter: char)
    ensures IsPlain(TextOf(t, letter))
  {
    FormatIntIsPlain(ValueOf(t, letter));
  }

  lemma LettersAreNotPlain()
    ensures Distinct(LETTERS) && '%' !in LETTERS && forall c <- LETTERS :: !IsDigit(c) && c != '-'
  {
  }

  lemma TextsAreHarmless(t: Instant)
    ensures Harmless(letter => TextOf(t, letter), LETTERS) && Distinct(LETTERS)
  {
    LettersAreNotPlain();
    forall c: char ensures IsPlain(TextOf(t, c)) {
      TextIsPlain(t, c);
    }
  }

  /** Printing a name fills in the path, and then replaces every token once, and nothing that has been put in. */
  lemma EncodeIsSubstitution(format: string, path: string, t: Instant)
    ensures Encode(format, path, t) == AtOnce(ReplaceAll(format, PATH, path), LETTERS, letter => TextOf(t, letter))
  {
    TextsAreHarmless(t);
    OneByOneIsAtOnce(ReplaceAll(format, PATH, path), LETTERS, letter => TextOf(t, letter));
  }

  // Regular expressions

  const SPECIAL: seq<char> := ['\\', '.', '+', '*', '?', '^', '$', '(', ')', '[', ']', '{', '}', '|']

  /** The characters that have a meaning in Go's regular expressions. */
  predicate IsOperator(c: char) {
    || c == '\\' || c == '.' || c == '+' || c == '*' || c == '?' || c == '(' || c == ')' || c == '|'
    || c == '[' || c == ']' || c == '{' || c == '}' || c == '^' || c == '$'
  }

  /** Exactly those are escaped. */
  lemma OperatorsAreEscaped(c: char)
    ensures c in SPECIAL <==> IsOperator(c)
  {
    assert SPECIAL[0] == '\\' && SPECIAL[1] == '.' && SPECIAL[2] == '+' && SPECIAL[3] == '*' && SPECIAL[4] == '?';
    assert SPECIAL[5] == '^' && SPECIAL[6] == '$' && SPECIAL[7] == '(' && SPECIAL[8] == ')' && SPECIAL[9] == '[';
    assert SPECIAL[10] == ']' && SPECIAL[11] == '{' && SPECIAL[12] == '}' && SPECIAL[13] == '|';
  }

  /** The group of `n` digits. */
  function DigitsText(n: nat): string {
    ['(', '[', '0', '-', '9', ']', '{'] + Decimal(n) + ['}', ')']
  }

  function GroupText(letter: char): string {
    DigitsText(Width(letter))
  }

  const PATH_GROUP: string := ['(', '.', '*', '?', ')']

  function RegexpText(format: string): string {
    OneByOne(ReplaceAll(Escaped(format, SPECIAL), PATH, PATH_GROUP), LETTERS, GroupText)
  }

  /** What a regular expression consists of: characters, groups of digits, and the lazy group of anything. */
  datatype Atom = Literal(c: char) | Digits(n: nat) | Anything

  /** The regular expression that a text stands for, if it has only escapes, these groups and ordinary characters. */
  function Read(text: string): seq<Atom>
    decreases |text|
  {
    if text == [] then []
    else if text[0] == '\\' && |text| >= 2 then [Literal(text[1])] + Read(text[2..])
    else if PATH_GROUP <= text then [Anything] + Read(text[|PATH_GROUP|..])
    else if DigitsText(2) <= text then [Digits(2)] + Read(text[|DigitsText(2)|..])
    else if DigitsText(4) <= text then [Digits(4)] + Read(text[|DigitsText(4)|..])
    else if DigitsText(6) <= text then [Digits(6)] + Read(text[|DigitsText(6)|..])
    else if DigitsText(10) <= text then [Digits(10)] + Read(text[|DigitsText(10)|..])
    else [Literal(text[0])] + Read(text[1..])
  }

  /** What the format asks for. */
  function Atoms(format: string): seq<Atom>
    decreases |format|
  {
    if format == [] then []
    else if PATH <= format then [Anything] + Atoms(format[|PATH|..])
    else if StartsToken(format, LETTERS) then [Digits(Width(format[1]))] + Atoms(format[2..])
    else [Literal(format[0])] + Atoms(format[1..])
  }

  lemma LettersAreNotSpecial()
    ensures '%' !in SPECIAL && '\\' in SPECIAL && '(' in SPECIAL
    ensures forall c <- LETTERS :: c !in SPECIAL && c != '(' && c != '\\' && c != 'p'
    ensures forall c <- PATH :: c !in SPECIAL && c != '\\'
  {
    assert SPECIAL[0] == '\\' && SPECIAL[7] == '(';
    PathIsNotSpecial();
  }

  lemma PathIsNotSpecial()
    ensures forall c <- PATH :: c !in SPECIAL && c != '\\'
  {
  }

  lemma GroupsAreHarmless()
    ensures Harmless(GroupText, LETTERS) && Distinct(LETTERS)
  {
    LettersAreNotPlain();
    LettersAreNotSpecial();
    forall c: char ensures GroupText(c) != [] && '%' !in GroupText(c) && GroupText(c)[0] == '(' {
      GroupIsPlain(Width(c));
    }
  }

  lemma GroupIsPlain(n: nat)
    ensures DigitsText(n) != [] && '%' !in DigitsText(n) && DigitsText(n)[0] == '('
  {
    DecimalParses(n);
  }

  // Reading the parts of a regular expression

  lemma DigitsTexts()
    ensures Decimal(2) == ['2'] && Decimal(4) == ['4'] && Decimal(6) == ['6'] && Decimal(10) == ['1', '0']
  {
  }

  lemma ReadGroup(n: nat, rest: string)
    requires n == 2 || n == 4 || n == 6 || n == 10
    ensures Read(DigitsText(n) + rest) == [Digits(n)] + Read(rest)
  {
    DigitsTexts();
    var text := DigitsText(n) + rest;
    assert text[0] == '(' && text[1] == '[' && text[7] == DigitsText(n)[7];
    assert text[|DigitsText(n)|..] == rest;
    assert DigitsText(n) <= text;
  }

  lemma ReadPathGroup(rest: string)
    ensures Read(PATH_GROUP + rest) == [Anything] + Read(rest)
  {
    var text := PATH_GROUP + rest;
    assert text[0] == '(' && text[|PATH_GROUP|..] == rest && PATH_GROUP <= text;
  }

  lemma ReadEscape(c: char, rest: string)
    ensures Read(['\\', c] + rest) == [Literal(c)] + Read(rest)
  {
    assert (['\\', c] + rest)[2..] == rest;
  }

  lemma ReadPlain(c: char, rest: string)
    requires c != '\\' && c != '('
    ensures Read([c] + rest) == [Literal(c)] + Read(rest)
  {
    var text := [c] + rest;
    assert text[0] == c && text[1..] == rest;
  }

  // Compiling an escaped format: first the path, then the tokens

  function Compiled(s: string): string {
    AtOnce(ReplaceAll(s, PATH, PATH_GROUP), LETTERS, GroupText)
  }

  lemma CompiledPath(rest: string)
    ensures Compiled(PATH + rest) == PATH_GROUP + Compiled(rest)
  {
    assert (PATH + rest)[|PATH|..] == rest;
    AtOnceBehind(PATH_GROUP, ReplaceAll(rest, PATH, PATH_GROUP), LETTERS, GroupText);
  }

  lemma CompiledToken(c: char, rest: string)
    requires c in LETTERS && c != 'p' && c != '%'
    ensures Compiled(['%', c] + rest) == GroupText(c) + Compiled(rest)
  {
    var text := ['%', c] + rest;
    assert text[1..] == [c] + rest && text[1..][1..] == rest && text[0] == '%' && text[1] == c;
    var filled := ReplaceAll(rest, PATH, PATH_GROUP);
    assert ReplaceAll(text[1..], PATH, PATH_GROUP) == [c] + filled;
    assert ReplaceAll(text, PATH, PATH_GROUP) == ['%'] + ([c] + filled) == ['%', c] + filled;
    assert (['%', c] + filled)[2..] == filled;
  }

  lemma CompiledChar(c: char, rest: string)
    requires c != '%'
    ensures Compiled([c] + rest) == [c] + Compiled(rest)
  {
    assert ([c] + rest)[0] == c && ([c] + rest)[1..] == rest;
    var filled := ReplaceAll(rest, PATH, PATH_GROUP);
    assert ReplaceAll([c] + rest, PATH, PATH_GROUP) == [c] + filled;
    assert ([c] + filled)[0] == c && ([c] + filled)[1..] == filled;
  }

  lemma CompiledPercent(rest: string)
    requires !(PATH <= ['%'] + rest) && (rest != [] ==> rest[0] !in LETTERS) && '(' !in LETTERS
    ensures Compiled(['%'] + rest) == ['%'] + Compiled(rest)
  {
    var text, filled := ['%'] + rest, ReplaceAll(rest, PATH, PATH_GROUP);
    assert text[1..] == rest && text[0] == '%';
    assert ReplaceAll(text, PATH, PATH_GROUP) == ['%'] + filled;
    assert filled != [] ==> filled[0] == '(' || (rest != [] && filled[0] == rest[0]);
    assert (['%'] + filled)[1..] == filled;
  }

  lemma EscapedPath(s: string)
    requires PATH <= s
    ensures Escaped(s, SPECIAL) == PATH + Escaped(s[|PATH|..], SPECIAL)
  {
    LettersAreNotSpecial();
    EscapedWord(PATH, s[|PATH|..], SPECIAL);
    assert s == PATH + s[|PATH|..];
  }

  lemma {:induction false} EscapedWord(word: string, rest: string, special: seq<char>)
    requires forall c <- word :: c !in special
    ensures Escaped(word + rest, special) == word + Escaped(rest, special)
  {
    if word == [] {
      assert word + rest == rest;
    } else {
      var all := word + rest;
      assert all[1..] == word[1..] + rest && all[0] == word[0] && word[0] in word;
      assert EscapedChar(all[0], special) == [word[0]];
      EscapedWord(word[1..], rest, special);
      assert [word[0]] + (word[1..] + Escaped(rest, special)) == word + Escaped(rest, special);
    }
  }

  lemma CompiledSpecial(c: char, rest: string)
    requires c != '%'
    ensures Compiled(['\\', c] + rest) == ['\\', c] + Compiled(rest)
  {
    assert ['\\', c] + rest == ['\\'] + ([c] + rest);
    CompiledChar('\\', [c] + rest);
    CompiledChar(c, rest);
  }

  /** A percent sign of the format that begins neither the path nor a token. */
  lemma CompiledLonePercent(s: string)
    requires s != [] && s[0] == '%' && !(PATH <= s) && !StartsToken(s, LETTERS)
    ensures Compiled(Escaped(s, SPECIAL)) == ['%'] + Compiled(Escaped(s[1..], SPECIAL))
  {
    LettersAreNotSpecial();
    var rest := Escaped(s[1..], SPECIAL);
    assert Escaped(s, SPECIAL) == ['%'] + rest;
    if PATH <= ['%'] + rest {
      PrefixOfEscaped(s, SPECIAL, PATH);
      assert false;
    }
    if rest != [] {
      assert s[1..] != [] && rest[0] == if s[1] in SPECIAL then '\\' else s[1];
    }
    CompiledPercent(rest);
  }

  lemma {:induction false} ReadCompiled(format: string)
    ensures Read(Compiled(Escaped(format, SPECIAL))) == Atoms(format)
    decreases |format|
  {
    if format != [] {
      LettersAreNotSpecial();
      var c := format[0];
      if PATH <= format {
        EscapedPath(format);
        CompiledPath(Escaped(format[|PATH|..], SPECIAL));
        ReadPathGroup(Compiled(Escaped(format[|PATH|..], SPECIAL)));
        ReadCompiled(format[|PATH|..]);
      } else if StartsToken(format, LETTERS) {
        EscapedToken(format);
        LettersAreNotPlain();
        CompiledToken(format[1], Escaped(format[2..], SPECIAL));
        ReadGroup(Width(format[1]), Compiled(Escaped(format[2..], SPECIAL)));
        ReadCompiled(format[2..]);
      } else {
        ReadCompiled(format[1..]);
        ReadCompiledChar(format);
      }
    }
  }

  lemma EscapedToken(s: string)
    requires StartsToken(s, LETTERS)
    ensures Escaped(s, SPECIAL) == ['%', s[1]] + Escaped(s[2..], SPECIAL)
  {
    LettersAreNotSpecial();
    EscapedWord(['%', s[1]], s[2..], SPECIAL);
    assert s == ['%', s[1]] + s[2..];
  }

  lemma ReadCompiledChar(format: string)
    requires format != [] && !(PATH <= format) && !StartsToken(format, LETTERS)
    ensures var rest := Compiled(Escaped(format[1..], SPECIAL));
      Read(Compiled(Escaped(format, SPECIAL))) == [Literal(format[0])] + Read(rest)
  {
    LettersAreNotSpecial();
    var c, rest := format[0], Escaped(format[1..], SPECIAL);
    if c in SPECIAL {
      CompiledSpecial(c, rest);
      ReadEscape(c, Compiled(rest));
    } else if c == '%' {
      CompiledLonePercent(format);
      ReadPlain(c, Compiled(rest));
    } else {
      CompiledChar(c, rest);
      ReadPlain(c, Compiled(rest));
    }
  }

  /** The regular expression built from a format asks for what the format asks for: escapes and groups are right. */
  lemma RegexpIsRight(format: string)
    ensures Read(RegexpText(format)) == Atoms(format)
  {
    GroupsAreHarmless();
    OneByOneIsAtOnce(ReplaceAll(Escaped(format, SPECIAL), PATH, PATH_GROUP), LETTERS, GroupText);
    ReadCompiled(format);
  }
}
