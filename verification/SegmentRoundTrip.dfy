/** A segment name that has been printed is parsed again: `Path.Encode` against `Path.Decode` of recordstore/path.go. */
module SegmentRoundTrip {
  import opened Common
  import opened Substitution
  import opened SegmentNames
  import opened SegmentPath

  function Texts(tokens: seq<char>, text: char -> string): seq<string> {
    seq(|tokens|, i requires 0 <= i < |tokens| => text(tokens[i]))
  }

  function Prefixed(captures: seq<string>, others: Option<seq<string>>): Option<seq<string>> {
    if others.None? then None else Some(captures + others.value)
  }

  // A format without the path

  predicate Plain(format: string) {
    NAME !in Tokens(format)
  }

  lemma {:induction false} WithoutPathIsPlain(format: string)
    requires !Contains(format, PATH)
    ensures Plain(format)
    decreases |format|
  {
    if format != [] {
      assert format[0..] == format;
      LettersAreNotSpecial();
      if StartsToken(format, LETTERS) {
        NotInTail(format, 2);
        WithoutPathIsPlain(format[2..]);
      } else {
        NotInTail(format, 1);
        WithoutPathIsPlain(format[1..]);
      }
    }
  }

  lemma NotInTail(s: string, n: nat)
    requires !Contains(s, PATH) && n <= |s|
    ensures !Contains(s[n..], PATH)
  {
    forall i | 0 <= i <= |s[n..]| ensures !(PATH <= s[n..][i..]) {
      assert s[n..][i..] == s[n + i..];
    }
  }

  lemma MatchGroup(digits: string, atoms: seq<Atom>, v: string)
    requires AllDigits(digits)
    ensures MatchAt([Digits(|digits|)] + atoms, digits + v) == Captured(digits, MatchAt(atoms, v))
  {
    assert ([Digits(|digits|)] + atoms)[1..] == atoms;
    assert (digits + v)[..|digits|] == digits && (digits + v)[|digits|..] == v;
  }

  lemma MatchLiteral(c: char, atoms: seq<Atom>, v: string)
    ensures MatchAt([Literal(c)] + atoms, [c] + v) == MatchAt(atoms, v)
  {
    assert ([Literal(c)] + atoms)[1..] == atoms && ([c] + v)[1..] == v;
  }

  lemma PathIsToken(format: string)
    requires PATH <= format
    ensures NAME in Tokens(format)
  {
    assert Tokens(format)[0] == NAME;
  }

  lemma PlainHasNoPath(format: string)
    requires Plain(format)
    ensures !(PATH <= format)
  {
    if PATH <= format {
      PathIsToken(format);
    }
  }

  lemma TokenFirst(format: string, text: char -> string)
    requires StartsToken(format, LETTERS) && Plain(format)
    ensures Tokens(format) == [format[1]] + Tokens(format[2..]) && Plain(format[2..])
    ensures Atoms(format) == [Digits(Width(format[1]))] + Atoms(format[2..])
    ensures AtOnce(format, LETTERS, text) == text(format[1]) + AtOnce(format[2..], LETTERS, text)
  {
    PlainHasNoPath(format);
    assert Tokens(format) == [format[1]] + Tokens(format[2..]);
    assert forall c <- Tokens(format[2..]) :: c in Tokens(format);
  }

  lemma LiteralFirst(format: string, text: char -> string)
    requires format != [] && !StartsToken(format, LETTERS) && Plain(format)
    ensures Tokens(format) == Tokens(format[1..])
    ensures Atoms(format) == [Literal(format[0])] + Atoms(format[1..])
    ensures AtOnce(format, LETTERS, text) == [format[0]] + AtOnce(format[1..], LETTERS, text)
  {
    PlainHasNoPath(format);
  }

  lemma TextsOneMore(c: char, tokens: seq<char>, text: char -> string, others: Option<seq<string>>)
    ensures Captured(text(c), Prefixed(Texts(tokens, text), others)) == Prefixed(Texts([c] + tokens, text), others)
  {
    assert Texts([c] + tokens, text) == [text(c)] + Texts(tokens, text);
    if others.Some? {
      assert [text(c)] + (Texts(tokens, text) + others.value) == Texts([c] + tokens, text) + others.value;
    }
  }

  predicate Sized(format: string, text: char -> string) {
    forall c <- Tokens(format) :: |text(c)| == Width(c) && AllDigits(text(c))
  }

  /** What is printed with numbers of the expected widths is matched, whatever follows. */
  lemma {:induction false} MatchesItself(format: string, text: char -> string, rest: seq<Atom>, w: string)
    requires Plain(format) && Sized(format, text)
    ensures MatchAt(Atoms(format) + rest, AtOnce(format, LETTERS, text) + w) ==
            Prefixed(Texts(Tokens(format), text), MatchAt(rest, w))
    decreases |format|
  {
    if format == [] {
      assert Texts([], text) == [] && [] + w == w;
      assert Atoms(format) + rest == rest && AtOnce(format, LETTERS, text) + w == w;
      assert MatchAt(rest, w).Some? ==> [] + MatchAt(rest, w).value == MatchAt(rest, w).value;
    } else if StartsToken(format, LETTERS) {
      var c, tail := format[1], format[2..];
      TokenFirst(format, text);
      assert c in [c] + Tokens(tail) && forall d <- Tokens(tail) :: d in [c] + Tokens(tail);
      MatchesItself(tail, text, rest, w);
      MatchGroup(text(c), Atoms(tail) + rest, AtOnce(tail, LETTERS, text) + w);
      TextsOneMore(c, Tokens(tail), text, MatchAt(rest, w));
      Regroup([Digits(Width(c))], Atoms(tail), rest);
      Regroup(text(c), AtOnce(tail, LETTERS, text), w);
    } else {
      var c, tail := format[0], format[1..];
      LiteralFirst(format, text);
      MatchesItself(tail, text, rest, w);
      MatchLiteral(c, Atoms(tail) + rest, AtOnce(tail, LETTERS, text) + w);
      Regroup([Literal(c)], Atoms(tail), rest);
      Regroup([c], AtOnce(tail, LETTERS, text), w);
    }
  }

  lemma Regroup<T>(a: seq<T>, b: seq<T>, c: seq<T>)
    ensures a + (b + c) == (a + b) + c
  {
  }

  lemma {:induction false} ValuesOfTexts(tokens: seq<char>, text: char -> string)
    ensures forall c :: c in Values(tokens, Texts(tokens, text)) <==> c in tokens
    ensures forall c <- tokens :: Values(tokens, Texts(tokens, text))[c] == text(c)
  {
    if tokens != [] {
      var n := |tokens| - 1;
      ValuesOfTexts(tokens[..n], text);
      assert Texts(tokens, text)[..n] == Texts(tokens[..n], text);
      assert tokens == tokens[..n] + [tokens[n]];
    }
  }

  // The texts of an instant

  /** The numbers of an instant have the widths that the format expects. */
  predicate Printable(format: string, t: Instant) {
    && ('Y' in Tokens(format) ==> 1000 <= t.year <= 9999)
    && ('s' in Tokens(format) ==> 1_000_000_000 <= t.unix <= 9_999_999_999)
  }

  lemma PowersOfTen()
    ensures Pow10(2) == 100 && Pow10(3) == 1000 && Pow10(4) == 10000 && Pow10(6) == 1000000
    ensures Pow10(9) == 1000000000 && Pow10(10) == 10000000000
  {
    assert Pow10(6) == 1000 * Pow10(3);
    assert Pow10(9) == 1000 * Pow10(6);
  }

  lemma ExactWidth(n: nat, size: nat)
    requires size > 1 && Pow10(size - 1) <= n < Pow10(size)
    ensures |Decimal(n)| == size && AllDigits(Decimal(n)) && ParseInt(Decimal(n)) == n
  {
    DecimalParses(n);
    DecimalFits(n, size);
    DecimalFits(n, size - 1);
  }

  lemma {:induction false} TokensAreLetters(format: string, letter: char)
    requires letter in Tokens(format) && letter != NAME
    ensures letter in LETTERS
    decreases |format|
  {
    if PATH <= format {
      TokensAreLetters(format[|PATH|..], letter);
    } else if StartsToken(format, LETTERS) {
      if letter != format[1] {
        TokensAreLetters(format[2..], letter);
      }
    } else {
      TokensAreLetters(format[1..], letter);
    }
  }

  lemma TextFits(format: string, t: Instant, letter: char)
    requires t.Valid() && Printable(format, t) && letter in Tokens(format) && letter != NAME
    ensures |TextOf(t, letter)| == Width(letter) && AllDigits(TextOf(t, letter))
    ensures ParseInt(TextOf(t, letter)) == ValueOf(t, letter)
  {
    PowersOfTen();
    if letter == 'Y' {
      ExactWidth(t.year, 4);
    } else if letter == 's' || letter !in LETTERS {
      TokensAreLetters(format, letter);
      ExactWidth(t.unix, 10);
    } else {
      PaddedParses(ValueOf(t, letter), Width(letter));
    }
  }

  function FieldOf(format: string, t: Instant, letter: char, default: int): int {
    if letter in Tokens(format) then ValueOf(t, letter) else default
  }

  /** What a format keeps of an instant. */
  function Kept(format: string, t: Instant): Start {
    if 's' in Tokens(format) then UnixSeconds(t.unix)
    else
      Calendar(
        FieldOf(format, t, 'Y', 0), FieldOf(format, t, 'm', 1), FieldOf(format, t, 'd', 1),
        FieldOf(format, t, 'H', 0), FieldOf(format, t, 'M', 0), FieldOf(format, t, 'S', 0),
        FieldOf(format, t, 'f', 0) * 1000)
  }

  /** There is a value for each token, and for nothing else. */
  ghost predicate ValuesOf(format: string, path: string, t: Instant, values: map<char, string>) {
    && (forall c :: c in values <==> c in Tokens(format))
    && (forall c <- values :: values[c] == if c == NAME then path else TextOf(t, c))
  }

  lemma FieldFromValues(
    format: string, path: string, t: Instant, values: map<char, string>, letter: char, default: int)
    requires t.Valid() && Printable(format, t) && letter != NAME && ValuesOf(format, path, t, values)
    ensures Field(values, letter, default) == FieldOf(format, t, letter, default)
  {
    if letter in values {
      TextFits(format, t, letter);
    }
  }

  /** The values of all tokens, with the path among them, give back what the format keeps. */
  lemma KeptFromValues(format: string, path: string, t: Instant, values: map<char, string>)
    requires t.Valid() && Printable(format, t) && ValuesOf(format, path, t, values)
    ensures StartFrom(values) == Kept(format, t)
  {
    FieldFromValues(format, path, t, values, 's', -1);
    if 's' !in Tokens(format) {
      FieldFromValues(format, path, t, values, 'Y', 0);
      FieldFromValues(format, path, t, values, 'm', 1);
      FieldFromValues(format, path, t, values, 'd', 1);
      FieldFromValues(format, path, t, values, 'H', 0);
      FieldFromValues(format, path, t, values, 'M', 0);
      FieldFromValues(format, path, t, values, 'S', 0);
      FieldFromValues(format, path, t, values, 'f', 0);
    }
  }

  lemma TextsAreSized(format: string, whole: string, t: Instant)
    requires t.Valid() && Printable(whole, t) && Plain(format) && forall c <- Tokens(format) :: c in Tokens(whole)
    ensures Sized(format, letter => TextOf(t, letter))
  {
    forall c <- Tokens(format) ensures |TextOf(t, c)| == Width(c) && AllDigits(TextOf(t, c)) {
      TextFits(whole, t, c);
    }
  }

  /**
   * Without the path in the format, a printed name is parsed and gives back every field that the format has; without a
   * field, its default.
   */
  lemma RoundTrip(format: string, path: string, t: Instant)
    requires !Contains(format, PATH) && t.Valid() && Printable(format, t)
    ensures Decoded(format, Encode(format, path, t)) == Some(Decoding([], Kept(format, t)))
  {
    var text := letter => TextOf(t, letter);
    var v := AtOnce(format, LETTERS, text);
    EncodeIsSubstitution(format, path, t);
    NothingToReplace(format, PATH, path);
    WithoutPathIsPlain(format);
    TextsAreSized(format, format, t);
    MatchesItself(format, text, [], []);
    assert Atoms(format) + [] == Atoms(format) && v + [] == v;
    assert Texts(Tokens(format), text) + [] == Texts(Tokens(format), text);
    ValuesOfTexts(Tokens(format), text);
    KeptFromValues(format, path, t, Values(Tokens(format), Texts(Tokens(format), text)));
  }

  // A format with the path in it

  /** `front` and `rest` stand before and after the path. */
  function WithPath(front: string, rest: string): string {
    front + (PATH + rest)
  }

  /** The path occurs once, and neither it nor what is put in its place can form a token with what surrounds it. */
  predicate OnePath(front: string, rest: string, path: string) {
    && !Contains(front, PATH) && !Contains(rest, PATH)
    && (front == [] || front[|front| - 1] != '%')
    && '%' !in path && '\n' !in path
  }

  lemma {:induction false} PathBetween(front: string, rest: string)
    requires !Contains(front, PATH)
    ensures Atoms(WithPath(front, rest)) == Atoms(front) + ([Anything] + Atoms(rest))
    ensures Tokens(WithPath(front, rest)) == Tokens(front) + ([NAME] + Tokens(rest))
    decreases |front|
  {
    var all := WithPath(front, rest);
    if front == [] {
      assert all == PATH + rest && all[|PATH|..] == rest;
    } else {
      assert front[0..] == front;
      NotAcross(front, PATH, rest);
      if StartsToken(front, LETTERS) {
        assert all[0] == front[0] && all[1] == front[1] && all[2..] == WithPath(front[2..], rest);
        NotInTail(front, 2);
        PathBetween(front[2..], rest);
        Regroup([Digits(Width(front[1]))], Atoms(front[2..]), [Anything] + Atoms(rest));
        Regroup([front[1]], Tokens(front[2..]), [NAME] + Tokens(rest));
      } else {
        LettersAreNotPlain();
        assert all[0] == front[0] && all[1..] == WithPath(front[1..], rest);
        assert all[1] == if |front| > 1 then front[1] else '%';
        NotInTail(front, 1);
        PathBetween(front[1..], rest);
        Regroup([Literal(front[0])], Atoms(front[1..]), [Anything] + Atoms(rest));
      }
    }
  }

  lemma EncodeWithPath(front: string, rest: string, path: string, t: Instant)
    requires OnePath(front, rest, path)
    ensures var text := letter => TextOf(t, letter);
      Encode(WithPath(front, rest), path, t) ==
      AtOnce(front, LETTERS, text) + (path + AtOnce(rest, LETTERS, text))
  {
    var text := letter => TextOf(t, letter);
    EncodeIsSubstitution(WithPath(front, rest), path, t);
    ReplaceOnce(front, PATH, rest, path);
    AtOnceSplit(front, path + rest, LETTERS, text);
    AtOnceBehind(path, rest, LETTERS, text);
  }

  lemma LazyMatches(rest: seq<Atom>, v: string, k: nat, n: nat)
    requires k <= n <= |v| && MatchAt(rest, v[n..]).Some? && forall j :: k <= j < n ==> v[j] != '\n'
    ensures MatchLazily(rest, v, k).Some?
    decreases n - k
  {
    if k < n {
      LazyMatches(rest, v, k + 1, n);
    }
  }

  /** The rest of the format fits nowhere inside the path: the parser cannot end the path too early. */
  predicate Unambiguous(rest: string, path: string, printed: string) {
    forall k :: 0 <= k < |path| ==> MatchAt(Atoms(rest), (path + printed)[k..]).None?
  }

  /** The lazy group takes the whole path exactly in that case. */
  lemma LazyTakesPath(rest: string, path: string, text: char -> string) returns (m: nat)
    requires Plain(rest) && Sized(rest, text) && '\n' !in path
    ensures var printed := AtOnce(rest, LETTERS, text);
      && m <= |path| && MatchAt(Atoms(rest), (path + printed)[m..]).Some?
      && MatchLazily(Atoms(rest), path + printed, 0) ==
         Captured((path + printed)[..m], MatchAt(Atoms(rest), (path + printed)[m..]))
      && (m == |path| <==> Unambiguous(rest, path, printed))
      && (m == |path| ==> MatchAt(Atoms(rest), (path + printed)[m..]) == Some(Texts(Tokens(rest), text)))
  {
    var printed := AtOnce(rest, LETTERS, text);
    var v, b := path + printed, Atoms(rest);
    MatchesItself(rest, text, [], []);
    assert b + [] == b && printed + [] == printed && v[|path|..] == printed;
    assert Texts(Tokens(rest), text) + [] == Texts(Tokens(rest), text);
    assert forall j :: 0 <= j < |path| ==> v[j] == path[j] && path[j] in path;
    LazyMatches(b, v, 0, |path|);
    m := LazyEnd(b, v, 0);
  }

  lemma {:induction false} LastValue(tokens: seq<char>, captures: seq<string>, i: nat)
    requires |tokens| == |captures| && i < |tokens| && tokens[i] !in tokens[i + 1..]
    ensures tokens[i] in Values(tokens, captures) && Values(tokens, captures)[tokens[i]] == captures[i]
  {
    var n := |tokens| - 1;
    if i < n {
      assert tokens[n] == tokens[i + 1..][n - i - 1];
      assert tokens[..n][i + 1..] == tokens[i + 1..][..n - i - 1];
      LastValue(tokens[..n], captures[..n], i);
    }
  }

  /** The texts of all tokens, the path included. */
  function AllTexts(path: string, t: Instant): char -> string {
    letter => if letter == NAME then path else TextOf(t, letter)
  }

  lemma TextsWithoutName(tokens: seq<char>, path: string, t: Instant)
    requires NAME !in tokens
    ensures Texts(tokens, letter => TextOf(t, letter)) == Texts(tokens, AllTexts(path, t))
  {
  }

  lemma TextsOfSum(a: seq<char>, b: seq<char>, text: char -> string)
    ensures Texts(a + b, text) == Texts(a, text) + Texts(b, text)
  {
  }

  /** What the parser captures from a printed name. */
  lemma MatchWithPath(front: string, rest: string, path: string, t: Instant) returns (m: nat, others: seq<string>)
    requires OnePath(front, rest, path) && t.Valid() && Printable(WithPath(front, rest), t)
    ensures var text := letter => TextOf(t, letter);
      var printed := AtOnce(rest, LETTERS, text);
      && m <= |path| && (m == |path| <==> Unambiguous(rest, path, printed))
      && MatchAt(Atoms(WithPath(front, rest)), Encode(WithPath(front, rest), path, t)) ==
         Some(Texts(Tokens(front), text) + ([(path + printed)[..m]] + others))
      && (m == |path| ==> others == Texts(Tokens(rest), text))
  {
    var text := letter => TextOf(t, letter);
    var format, printed := WithPath(front, rest), AtOnce(rest, LETTERS, text);
    WithoutPathIsPlain(front);
    WithoutPathIsPlain(rest);
    PathBetween(front, rest);
    EncodeWithPath(front, rest, path, t);
    TextsAreSized(front, format, t);
    TextsAreSized(rest, format, t);
    m := LazyTakesPath(rest, path, text);
    others := MatchAt(Atoms(rest), (path + printed)[m..]).value;
    MatchesItself(front, text, [Anything] + Atoms(rest), path + printed);
    assert ([Anything] + Atoms(rest))[1..] == Atoms(rest);
  }

  /**
   * With the path in the format, a printed name is always parsed. The path comes back if and only if the rest of the
   * format fits nowhere inside it, and then so does every field of the format.
   */
  lemma RoundTripWithPath(front: string, rest: string, path: string, t: Instant)
    requires OnePath(front, rest, path) && t.Valid() && Printable(WithPath(front, rest), t)
    ensures var format, printed := WithPath(front, rest), AtOnce(rest, LETTERS, letter => TextOf(t, letter));
      var decoded := Decoded(format, Encode(format, path, t));
      && decoded.Some?
      && (decoded.value.path == path <==> Unambiguous(rest, path, printed))
      && (Unambiguous(rest, path, printed) ==> decoded.value == Decoding(path, Kept(format, t)))
  {
    var text := letter => TextOf(t, letter);
    var format, printed := WithPath(front, rest), AtOnce(rest, LETTERS, text);
    var m, others := MatchWithPath(front, rest, path, t);
    var name := (path + printed)[..m];
    var captures := Texts(Tokens(front), text) + ([name] + others);
    GroupsFollowTokens(format);
    MatchFits(Atoms(format), Encode(format, path, t));
    PathIsCaptured(front, rest, captures);
    assert m < |path| ==> |name| != |path|;
    if m == |path| {
      assert name == path;
      CapturesAreTexts(front, rest, path, t);
      ValuesOfTexts(Tokens(format), AllTexts(path, t));
      KeptFromValues(format, path, t, Values(Tokens(format), captures));
    }
  }

  lemma CapturesAreTexts(front: string, rest: string, path: string, t: Instant)
    requires OnePath(front, rest, path)
    ensures var text := letter => TextOf(t, letter);
      Texts(Tokens(front), text) + ([path] + Texts(Tokens(rest), text)) ==
      Texts(Tokens(WithPath(front, rest)), AllTexts(path, t))
  {
    PathBetween(front, rest);
    WithoutPathIsPlain(rest);
    WithoutPathIsPlain(front);
    TextsWithoutName(Tokens(front), path, t);
    TextsWithoutName(Tokens(rest), path, t);
    TextsOfSum(Tokens(front), [NAME] + Tokens(rest), AllTexts(path, t));
    TextsOfSum([NAME], Tokens(rest), AllTexts(path, t));
    assert Texts([NAME], AllTexts(path, t)) == [path];
  }

  /** It cannot end too early if the rest begins with a character that the path does not contain. */
  lemma SeparatedIsUnambiguous(rest: string, path: string, printed: string)
    requires rest != [] && !(PATH <= rest) && !StartsToken(rest, LETTERS) && rest[0] !in path
    ensures Unambiguous(rest, path, printed)
  {
    forall k | 0 <= k < |path| ensures MatchAt(Atoms(rest), (path + printed)[k..]).None? {
      assert (path + printed)[k..][0] == path[k] && path[k] in path;
      assert Atoms(rest)[0] == Literal(rest[0]);
    }
  }

  /** A path that ends like a printed name: with the format `%path-%s`, the path `a-1234567890` comes back as `a`. */
  lemma PathCanBeCutShort(t: Instant)
    requires t.Valid() && 1_000_000_000 <= t.unix <= 9_999_999_999
    ensures var rest, path := ['-', '%', 's'], ['a', '-', '1', '2', '3', '4', '5', '6', '7', '8', '9', '0'];
      var decoded := Decoded(WithPath([], rest), Encode(WithPath([], rest), path, t));
      decoded.Some? && decoded.value.path != path
  {
    var rest, path := ['-', '%', 's'], ['a', '-', '1', '2', '3', '4', '5', '6', '7', '8', '9', '0'];
    var printed := AtOnce(rest, LETTERS, letter => TextOf(t, letter));
    DashAndSeconds(rest);
    PathBetween([], rest);
    FitsInside(path, printed);
    assert !Unambiguous(rest, path, printed);
    RoundTripWithPath([], rest, path, t);
  }

  lemma DashAndSeconds(rest: string)
    requires rest == ['-', '%', 's']
    ensures Atoms(rest) == [Literal('-'), Digits(10)] && Tokens(rest) == ['s'] && !Contains(rest, PATH)
  {
    var token := rest[1..];
    assert LETTERS[7] == 's' && token == ['%', 's'] && token[2..] == [];
    assert !(PATH <= token) && StartsToken(token, LETTERS);
    assert Atoms(token) == [Digits(10)] + Atoms([]) && Tokens(token) == ['s'] + Tokens([]);
    assert !StartsToken(rest, LETTERS) && !(PATH <= rest);
    assert Atoms(rest) == [Literal('-')] + Atoms(token);
    forall i | 0 <= i <= |rest| ensures !(PATH <= rest[i..]) {
      assert |rest[i..]| < |PATH|;
    }
  }

  lemma FitsInside(path: string, printed: string)
    requires path == ['a', '-', '1', '2', '3', '4', '5', '6', '7', '8', '9', '0']
    ensures MatchAt([Literal('-'), Digits(10)], (path + printed)[1..]).Some?
  {
    var v := (path + printed)[1..];
    assert v == ['-'] + (path[2..] + printed);
    MatchLiteral('-', [Digits(10)], path[2..] + printed);
    MatchGroup(path[2..], [], printed);
    assert [Literal('-')] + [Digits(10)] == [Literal('-'), Digits(10)] && [Digits(10)] + [] == [Digits(10)];
  }

  // Years

  lemma {:induction false} ParseBound(s: string)
    requires AllDigits(s)
    ensures 0 <= ParseInt(s) < Pow10(|s|)
  {
    if s != [] {
      ParseBound(s[..|s| - 1]);
      assert IsDigit(s[|s| - 1]);
    }
  }

  lemma {:induction false} ValuesFit(tokens: seq<char>, captures: seq<string>, c: char)
    requires Fit(captures, Widths(tokens)) && c in tokens
    ensures c in Values(tokens, captures) && Fits(Values(tokens, captures)[c], WidthOf(c))
  {
    var n := |tokens| - 1;
    assert tokens == tokens[..n] + [tokens[n]];
    if c != tokens[n] {
      assert Fit(captures[..n], Widths(tokens[..n]));
      ValuesFit(tokens[..n], captures[..n], c);
    }
  }

  /** Whatever name is parsed, the year has four digits. */
  lemma DecodedYear(format: string, v: string)
    requires 'Y' in Tokens(format) && Decoded(format, v).Some?
    ensures var start := Decoded(format, v).value.start; start.Calendar? ==> 0 <= start.year <= 9999
  {
    GroupsFollowTokens(format);
    FindFits(Atoms(format), v);
    var captures := Find(Atoms(format), v).value;
    ValuesFit(Tokens(format), captures, 'Y');
    ParseBound(Values(Tokens(format), captures)['Y']);
    PowersOfTen();
  }

  /** Whatever name is parsed, a Unix time is positive and has at most ten digits. */
  lemma DecodedSeconds(format: string, v: string)
    requires 's' in Tokens(format) && Decoded(format, v).Some?
    ensures var start := Decoded(format, v).value.start; start.UnixSeconds? ==> 0 < start.seconds <= 9_999_999_999
  {
    GroupsFollowTokens(format);
    FindFits(Atoms(format), v);
    var captures := Find(Atoms(format), v).value;
    ValuesFit(Tokens(format), captures, 's');
    ParseBound(Values(Tokens(format), captures)['s']);
    PowersOfTen();
  }

  function Size(atoms: seq<Atom>): nat {
    if atoms == [] then 0
    else (match atoms[0] case Literal(_) => 1 case Digits(n) => n case Anything => 0) + Size(atoms[1..])
  }

  lemma {:induction false} SizeOfSum(a: seq<Atom>, b: seq<Atom>)
    ensures Size(a + b) == Size(a) + Size(b)
  {
    if a == [] {
      assert a + b == b;
    } else {
      assert (a + b)[1..] == a[1..] + b;
      SizeOfSum(a[1..], b);
    }
  }

  /** What a match takes at least: its characters and digits, and any one of its lazy groups. */
  predicate HasRoom(atoms: seq<Atom>, captures: seq<string>, length: nat) {
    && |captures| == |Groups(atoms)| && length >= Size(atoms)
    && forall i :: 0 <= i < |captures| && Groups(atoms)[i].None? ==> length >= Size(atoms) + |captures[i]|
  }

  lemma {:induction false} MatchNeedsRoom(atoms: seq<Atom>, v: string)
    requires MatchAt(atoms, v).Some?
    ensures HasRoom(atoms, MatchAt(atoms, v).value, |v|)
    decreases |atoms|
  {
    MatchFits(atoms, v);
    if atoms != [] {
      match atoms[0]
      case Literal(c) => MatchNeedsRoom(atoms[1..], v[1..]);
      case Digits(n) => MatchNeedsRoom(atoms[1..], v[n..]);
      case Anything =>
        var m := LazyEnd(atoms[1..], v, 0);
        MatchNeedsRoom(atoms[1..], v[m..]);
    }
  }

  lemma {:induction false} FindNeedsRoom(atoms: seq<Atom>, v: string)
    requires Find(atoms, v).Some?
    ensures HasRoom(atoms, Find(atoms, v).value, |v|)
  {
    if MatchAt(atoms, v).Some? {
      MatchNeedsRoom(atoms, v);
    } else {
      FindNeedsRoom(atoms, v[1..]);
    }
  }

  lemma {:induction false} SizeOfName(format: string, text: char -> string, short: char)
    requires Plain(format) && forall c <- Tokens(format) :: |text(c)| <= Width(c)
    ensures |AtOnce(format, LETTERS, text)| <= Size(Atoms(format))
    ensures short in Tokens(format) && |text(short)| < Width(short) ==>
      |AtOnce(format, LETTERS, text)| < Size(Atoms(format))
    decreases |format|
  {
    if format == [] {
    } else if StartsToken(format, LETTERS) {
      TokenFirst(format, text);
      assert format[1] in [format[1]] + Tokens(format[2..]);
      assert forall d <- Tokens(format[2..]) :: d in [format[1]] + Tokens(format[2..]);
      SizeOfName(format[2..], text, short);
      SizeOfSum([Digits(Width(format[1]))], Atoms(format[2..]));
    } else {
      LiteralFirst(format, text);
      SizeOfName(format[1..], text, short);
      SizeOfSum([Literal(format[0])], Atoms(format[1..]));
    }
  }

  /** The number that decides whether an instant comes back has fewer digits than the format expects. */
  predicate IsShort(format: string, t: Instant, letter: char) {
    && letter in Tokens(format)
    && if 's' in Tokens(format) then letter == 's' && 0 <= t.unix < 1_000_000_000
       else letter == 'Y' && 0 <= t.year < 1000
  }

  /** The number that decides is negative or has too many digits. */
  predicate IsOutside(format: string, t: Instant) {
    if 's' in Tokens(format) then !(0 <= t.unix <= 9_999_999_999)
    else 'Y' in Tokens(format) && !(0 <= t.year <= 9999)
  }

  lemma ShortText(format: string, t: Instant, short: char, letter: char)
    requires t.Valid() && IsShort(format, t, short)
    requires letter in Tokens(format) && letter != NAME
    ensures |TextOf(t, letter)| <= Width(letter) && (letter == short ==> |TextOf(t, letter)| < Width(letter))
  {
    PowersOfTen();
    TokensAreLetters(format, letter);
    if letter == 'Y' {
      DecimalFits(t.year, if short == 'Y' then 3 else 4);
    } else if letter == 's' {
      DecimalFits(t.unix, 9);
    } else {
      PaddedParses(ValueOf(t, letter), Width(letter));
    }
  }

  /** What is printed of a part of a format takes no more than the part asks for, and less if the number is in it. */
  lemma ShortName(whole: string, part: string, t: Instant, short: char)
    requires t.Valid() && IsShort(whole, t, short)
    requires Plain(part) && forall c <- Tokens(part) :: c in Tokens(whole)
    ensures var printed := AtOnce(part, LETTERS, letter => TextOf(t, letter));
      |printed| <= Size(Atoms(part)) && (short in Tokens(part) ==> |printed| < Size(Atoms(part)))
  {
    var text := letter => TextOf(t, letter);
    forall c <- Tokens(part) ensures |text(c)| <= Width(c) && (c == short ==> |text(c)| < Width(c)) {
      ShortText(whole, t, short, c);
    }
    SizeOfName(part, text, short);
  }

  /** Without the path in the format, a name with a shorter year or Unix time is too short to be parsed at all. */
  lemma ShortIsLost(format: string, path: string, t: Instant, short: char)
    requires !Contains(format, PATH) && t.Valid() && IsShort(format, t, short)
    ensures Decoded(format, Encode(format, path, t)) == None
  {
    EncodeIsSubstitution(format, path, t);
    NothingToReplace(format, PATH, path);
    WithoutPathIsPlain(format);
    ShortName(format, format, t, short);
    var v := Encode(format, path, t);
    if Find(Atoms(format), v).Some? {
      FindNeedsRoom(Atoms(format), v);
    }
  }

  /** A year or a Unix time that is negative or has too many digits does not come back from any name. */
  lemma OtherStart(format: string, v: string, t: Instant)
    requires Decoded(format, v).Some? && IsOutside(format, t)
    ensures Decoded(format, v).value.start != Kept(format, t)
  {
    if 's' in Tokens(format) {
      DecodedSeconds(format, v);
    } else {
      DecodedYear(format, v);
    }
  }

  /** The number that stands in the way, if an instant is not printable. */
  lemma NotPrintable(format: string, t: Instant) returns (short: char)
    requires t.Valid() && !Printable(format, t)
    ensures IsShort(format, t, short) || IsOutside(format, t)
  {
    short := if 's' in Tokens(format) then 's' else 'Y';
  }

  /**
   * Without the path in the format: what the format keeps of an instant comes back exactly when the year, if the
   * format has it, has four digits and the Unix time, if the format has it, ten.
   */
  lemma RoundTripExactlyWhen(format: string, path: string, t: Instant)
    requires !Contains(format, PATH) && t.Valid()
    ensures Decoded(format, Encode(format, path, t)) == Some(Decoding([], Kept(format, t))) <==> Printable(format, t)
  {
    if Printable(format, t) {
      RoundTrip(format, path, t);
    } else {
      var short := NotPrintable(format, t);
      if IsShort(format, t, short) {
        ShortIsLost(format, path, t, short);
      } else if Decoded(format, Encode(format, path, t)).Some? {
        OtherStart(format, Encode(format, path, t), t);
      }
    }
  }

  lemma NoRoomForPath(front: string, rest: string, path: string, t: Instant, short: char)
    requires OnePath(front, rest, path) && t.Valid() && IsShort(WithPath(front, rest), t, short)
    ensures |Encode(WithPath(front, rest), path, t)| < Size(Atoms(WithPath(front, rest))) + |path|
  {
    WithoutPathIsPlain(front);
    WithoutPathIsPlain(rest);
    PathBetween(front, rest);
    EncodeWithPath(front, rest, path, t);
    ShortName(WithPath(front, rest), front, t, short);
    ShortName(WithPath(front, rest), rest, t, short);
    SizeOfSum(Atoms(front), [Anything] + Atoms(rest));
    SizeOfSum([Anything], Atoms(rest));
  }

  /** With the path in the format, a shorter year or Unix time leaves no room for the whole path. */
  lemma ShortCutsPath(front: string, rest: string, path: string, t: Instant, short: char)
    requires OnePath(front, rest, path) && t.Valid() && IsShort(WithPath(front, rest), t, short)
    ensures var decoded := Decoded(WithPath(front, rest), Encode(WithPath(front, rest), path, t));
      decoded.None? || decoded.value.path != path
  {
    var format, v := WithPath(front, rest), Encode(WithPath(front, rest), path, t);
    if Find(Atoms(format), v).Some? {
      NoRoomForPath(front, rest, path, t, short);
      DecodedPathHasRoom(front, rest, v);
    }
  }

  /** The capture of the path, which the format has once, becomes the path of the result. */
  lemma PathIsCaptured(front: string, rest: string, captures: seq<string>)
    requires !Contains(front, PATH) && !Contains(rest, PATH)
    requires |captures| == |Tokens(WithPath(front, rest))|
    ensures |Tokens(front)| < |captures| && Tokens(WithPath(front, rest))[|Tokens(front)|] == NAME
    ensures FromValues(Values(Tokens(WithPath(front, rest)), captures)).path == captures[|Tokens(front)|]
  {
    var tokens, i := Tokens(WithPath(front, rest)), |Tokens(front)|;
    PathBetween(front, rest);
    WithoutPathIsPlain(rest);
    assert tokens[i] == NAME && tokens[i + 1..] == Tokens(rest);
    LastValue(tokens, captures, i);
  }

  lemma DecodedPathHasRoom(front: string, rest: string, v: string)
    requires !Contains(front, PATH) && !Contains(rest, PATH) && Find(Atoms(WithPath(front, rest)), v).Some?
    ensures Decoded(WithPath(front, rest), v).Some?
    ensures |v| >= Size(Atoms(WithPath(front, rest))) + |Decoded(WithPath(front, rest), v).value.path|
  {
    var format := WithPath(front, rest);
    FindNeedsRoom(Atoms(format), v);
    GroupsFollowTokens(format);
    PathIsCaptured(front, rest, Find(Atoms(format), v).value);
    assert Groups(Atoms(format))[|Tokens(front)|] == WidthOf(NAME);
  }

  /**
   * With the path in the format: the path and what the format keeps of an instant come back exactly when the year has
   * four digits and the Unix time ten, as far as the format has them, and the rest of the format fits nowhere inside
   * the path.
   */
  lemma RoundTripWithPathExactlyWhen(front: string, rest: string, path: string, t: Instant)
    requires OnePath(front, rest, path) && t.Valid()
    ensures
      Decoded(WithPath(front, rest), Encode(WithPath(front, rest), path, t)) ==
      Some(Decoding(path, Kept(WithPath(front, rest), t))) <==>
      && Printable(WithPath(front, rest), t)
      && Unambiguous(rest, path, AtOnce(rest, LETTERS, letter => TextOf(t, letter)))
  {
    var format := WithPath(front, rest);
    if Printable(format, t) {
      RoundTripWithPath(front, rest, path, t);
    } else {
      var short := NotPrintable(format, t);
      if IsShort(format, t, short) {
        ShortCutsPath(front, rest, path, t, short);
      } else if Decoded(format, Encode(format, path, t)).Some? {
        OtherStart(format, Encode(format, path, t), t);
      }
    }
  }

  // What is kept

  /** All calendar fields, and no Unix time. */
  predicate Complete(format: string) {
    && 'Y' in Tokens(format) && 'm' in Tokens(format) && 'd' in Tokens(format)
    && 'H' in Tokens(format) && 'M' in Tokens(format) && 'S' in Tokens(format) && 'f' in Tokens(format)
    && 's' !in Tokens(format)
  }

  /** A format with all calendar fields keeps all of an instant but the digits after the microseconds. */
  lemma CompleteKeepsAll(format: string, t: Instant)
    requires Complete(format)
    ensures Kept(format, t) ==
            Calendar(t.year, t.month, t.day, t.hour, t.minute, t.second, t.nanosecond / 1000 * 1000)
  {
  }
}
