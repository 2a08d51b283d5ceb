/** Printing a segment name and parsing it again: `Path.Encode` and `Path.Decode` of recordstore/path.go. */
module SegmentPath {
  import opened Common
  import opened Substitution
  import opened SegmentNames

  /** Stands for the path among the letters of tokens. */
  const NAME := 'p'

  /** The tokens of a format, in order. */
  function Tokens(format: string): seq<char>
    decreases |format|
  {
    if format == [] then []
    else if PATH <= format then [NAME] + Tokens(format[|PATH|..])
    else if StartsToken(format, LETTERS) then [format[1]] + Tokens(format[2..])
    else Tokens(format[1..])
  }

  // Matching

  function MatchAt(atoms: seq<Atom>, v: string): Option<seq<string>>
    decreases |atoms|, 0
  {
    if atoms == [] then Some([])
    else
      match atoms[0]
      case Literal(c) => if v != [] && v[0] == c then MatchAt(atoms[1..], v[1..]) else None
      case Digits(n) =>
        if |v| >= n && AllDigits(v[..n]) then Captured(v[..n], MatchAt(atoms[1..], v[n..])) else None
      case Anything => MatchLazily(atoms[1..], v, 0)
  }

  /** The lazy group has taken `k` characters; it takes one more only if the rest does not match. */
  function MatchLazily(rest: seq<Atom>, v: string, k: nat): Option<seq<string>>
    requires k <= |v|
    decreases |rest|, 1 + |v| - k
  {
    if MatchAt(rest, v[k..]).Some? then Captured(v[..k], MatchAt(rest, v[k..]))
    else if k < |v| && v[k] != '\n' then MatchLazily(rest, v, k + 1)
    else None
  }

  function Captured(first: string, others: Option<seq<string>>): Option<seq<string>> {
    if others.None? then None else Some([first] + others.value)
  }

  /** Go's `FindStringSubmatch`: the leftmost match, wherever it begins. */
  function Find(atoms: seq<Atom>, v: string): Option<seq<string>> {
    if MatchAt(atoms, v).Some? then MatchAt(atoms, v)
    else if v == [] then None
    else Find(atoms, v[1..])
  }

  /** The groups of a regular expression, with their widths. */
  function Groups(atoms: seq<Atom>): seq<Option<nat>> {
    if atoms == [] then []
    else
      match atoms[0]
      case Literal(_) => Groups(atoms[1..])
      case Digits(n) => [Some(n)] + Groups(atoms[1..])
      case Anything => [None] + Groups(atoms[1..])
  }

  function WidthOf(token: char): Option<nat> {
    if token == NAME then None else Some(Width(token))
  }

  function Widths(tokens: seq<char>): seq<Option<nat>> {
    seq(|tokens|, i requires 0 <= i < |tokens| => WidthOf(tokens[i]))
  }

  lemma WidthsOneMore(token: char, tokens: seq<char>)
    ensures Widths([token] + tokens) == [WidthOf(token)] + Widths(tokens)
  {
  }

  /** The groups of the regular expression are those of the tokens, in the same order. */
  lemma {:induction false} GroupsFollowTokens(format: string)
    ensures Groups(Atoms(format)) == Widths(Tokens(format))
    decreases |format|
  {
    if format != [] {
      LettersAreNotSpecial();
      if PATH <= format {
        GroupsFollowTokens(format[|PATH|..]);
        assert Atoms(format)[1..] == Atoms(format[|PATH|..]);
        WidthsOneMore(NAME, Tokens(format[|PATH|..]));
      } else if StartsToken(format, LETTERS) {
        GroupsFollowTokens(format[2..]);
        assert Atoms(format)[1..] == Atoms(format[2..]);
        WidthsOneMore(format[1], Tokens(format[2..]));
      } else {
        GroupsFollowTokens(format[1..]);
        assert Atoms(format)[1..] == Atoms(format[1..]);
      }
    }
  }

  predicate Fits(capture: string, width: Option<nat>) {
    width.Some? ==> |capture| == width.value && AllDigits(capture)
  }

  predicate Fit(captures: seq<string>, widths: seq<Option<nat>>) {
    |captures| == |widths| && forall i :: 0 <= i < |captures| ==> Fits(captures[i], widths[i])
  }

  lemma FitOneMore(capture: string, width: Option<nat>, captures: seq<string>, widths: seq<Option<nat>>)
    requires Fits(capture, width) && Fit(captures, widths)
    ensures Fit([capture] + captures, [width] + widths)
  {
  }

  /** Where a lazy group ends when it matches. */
  lemma {:induction false} LazyEnd(rest: seq<Atom>, v: string, k: nat) returns (m: nat)
    requires k <= |v| && MatchLazily(rest, v, k).Some?
    ensures k <= m <= |v| && MatchAt(rest, v[m..]).Some?
    ensures MatchLazily(rest, v, k) == Captured(v[..m], MatchAt(rest, v[m..]))
    ensures forall j :: k <= j < m ==> MatchAt(rest, v[j..]).None?
    decreases |v| - k
  {
    if MatchAt(rest, v[k..]).Some? {
      m := k;
    } else {
      m := LazyEnd(rest, v, k + 1);
    }
  }

  lemma {:induction false} MatchFits(atoms: seq<Atom>, v: string)
    requires MatchAt(atoms, v).Some?
    ensures Fit(MatchAt(atoms, v).value, Groups(atoms))
    decreases |atoms|
  {
    if atoms != [] {
      match atoms[0]
      case Literal(c) => MatchFits(atoms[1..], v[1..]);
      case Digits(n) =>
        MatchFits(atoms[1..], v[n..]);
        FitOneMore(v[..n], Some(n), MatchAt(atoms[1..], v[n..]).value, Groups(atoms[1..]));
      case Anything =>
        var m := LazyEnd(atoms[1..], v, 0);
        MatchFits(atoms[1..], v[m..]);
        FitOneMore(v[..m], None, MatchAt(atoms[1..], v[m..]).value, Groups(atoms[1..]));
    }
  }

  lemma {:induction false} FindFits(atoms: seq<Atom>, v: string)
    ensures Find(atoms, v).Some? ==> Fit(Find(atoms, v).value, Groups(atoms))
  {
    if MatchAt(atoms, v).Some? {
      MatchFits(atoms, v);
    } else if v != [] {
      FindFits(atoms, v[1..]);
    }
  }

  /** Wherever the expression matches first, at the beginning of a name or later, that match is taken. */
  lemma {:induction false} FirstMatchIsFound(atoms: seq<Atom>, v: string, i: nat)
    requires i <= |v| && MatchAt(atoms, v[i..]).Some? && forall j :: 0 <= j < i ==> MatchAt(atoms, v[j..]).None?
    ensures Find(atoms, v) == MatchAt(atoms, v[i..])
    decreases i
  {
    assert v[0..] == v;
    if i > 0 {
      forall j | 0 <= j <= i - 1 ensures v[1..][j..] == v[j + 1..] {
      }
      FirstMatchIsFound(atoms, v[1..], i - 1);
    }
  }

  lemma {:induction false} NothingIsFound(atoms: seq<Atom>, v: string)
    requires forall i :: 0 <= i <= |v| ==> MatchAt(atoms, v[i..]).None?
    ensures Find(atoms, v).None?
  {
    assert v[0..] == v;
    if v != [] {
      forall i | 0 <= i <= |v[1..]| ensures MatchAt(atoms, v[1..][i..]).None? {
        assert v[1..][i..] == v[i + 1..];
      }
      NothingIsFound(atoms, v[1..]);
    }
  }

  /** A lazy group matches exactly when the rest does at some place behind it, with no line break in between. */
  lemma {:induction false} LazyMatchesExactlyWhen(rest: seq<Atom>, v: string, k: nat)
    requires k <= |v|
    ensures MatchLazily(rest, v, k).Some? <==>
            exists m :: k <= m <= |v| && MatchAt(rest, v[m..]).Some? && '\n' !in v[k..m]
    decreases |v| - k
  {
    if MatchAt(rest, v[k..]).Some? {
      assert v[k..k] == [];
    } else if k < |v| && v[k] != '\n' {
      LazyMatchesExactlyWhen(rest, v, k + 1);
      forall m | k < m <= |v| ensures '\n' in v[k..m] <==> '\n' in v[k + 1..m] {
        assert v[k..m] == [v[k]] + v[k + 1..m];
      }
    } else if k < |v| {
      forall m | k < m <= |v| ensures '\n' in v[k..m] {
        assert v[k..m][0] == '\n';
      }
    }
  }

  // Decoding

  /** The last capture of each token. */
  function Values(tokens: seq<char>, captures: seq<string>): map<char, string>
    requires |tokens| == |captures|
  {
    if tokens == [] then map[]
    else
      var n := |tokens| - 1;
      Values(tokens[..n], captures[..n])[tokens[n] := captures[n]]
  }

  datatype Start =
    | Calendar(year: int, month: int, day: int, hour: int, minute: int, second: int, nanosecond: int)
    | UnixSeconds(seconds: int)

  function Field(values: map<char, string>, letter: char, default: int): int {
    if letter in values then ParseInt(values[letter]) else default
  }

  function StartFrom(values: map<char, string>): Start {
    if Field(values, 's', -1) > 0 then UnixSeconds(Field(values, 's', -1))
    else
      Calendar(
        Field(values, 'Y', 0), Field(values, 'm', 1), Field(values, 'd', 1),
        Field(values, 'H', 0), Field(values, 'M', 0), Field(values, 'S', 0), Field(values, 'f', 0) * 1000)
  }

  datatype Decoding = Decoding(path: string, start: Start)

  function FromValues(values: map<char, string>): Decoding {
    Decoding(if NAME in values then values[NAME] else [], StartFrom(values))
  }

  function Decoded(format: string, v: string): Option<Decoding> {
    GroupsFollowTokens(format);
    FindFits(Atoms(format), v);
    var captures := Find(Atoms(format), v);
    if captures.None? then None else Some(FromValues(Values(Tokens(format), captures.value)))
  }

  method Escape(format: string) returns (re: string)
    ensures re == Escaped(format, SPECIAL)
  {
    re := format;
    NothingEscaped(format);
    for k := 0 to |SPECIAL|
      invariant re == Escaped(format, SPECIAL[..k])
    {
      assert SPECIAL[k] !in SPECIAL[..k];
      EscapeOneMore(format, SPECIAL[..k], SPECIAL[k]);
      assert SPECIAL[..k + 1] == SPECIAL[..k] + [SPECIAL[k]];
      re := ReplaceAll(re, [SPECIAL[k]], ['\\', SPECIAL[k]]);
    }
    assert SPECIAL[..|SPECIAL|] == SPECIAL;
  }

  /** Every position with a percent sign is looked at. */
  function Scan(s: string): seq<char> {
    if s == [] then [] else StartOf(s) + Scan(s[1..])
  }

  function StartOf(s: string): seq<char> {
    if PATH <= s then [NAME] else if StartsToken(s, LETTERS) then [s[1]] else []
  }

  lemma ScanSkips(s: string)
    requires s != [] && s[0] != '%'
    ensures Scan(s) == Scan(s[1..])
  {
  }

  lemma ScanSkipsPath(s: string)
    requires PATH <= s
    ensures Scan(s) == [NAME] + Scan(s[|PATH|..])
  {
    ScanSkips(s[1..]);
    assert s[1..][1..] == s[2..];
    ScanSkips(s[2..]);
    assert s[2..][1..] == s[3..];
    ScanSkips(s[3..]);
    assert s[3..][1..] == s[4..];
    ScanSkips(s[4..]);
    assert s[4..][1..] == s[5..];
  }

  lemma {:induction false} ScanFindsTokens(s: string)
    ensures Scan(s) == Tokens(s)
    decreases |s|
  {
    if s != [] {
      if PATH <= s {
        ScanSkipsPath(s);
        ScanFindsTokens(s[|PATH|..]);
      } else if StartsToken(s, LETTERS) {
        LettersAreNotPlain();
        ScanSkips(s[1..]);
        assert s[1..][1..] == s[2..];
        ScanFindsTokens(s[2..]);
      } else {
        ScanFindsTokens(s[1..]);
      }
    }
  }

  /** The tokens that `cur` starts with: at most one. */
  method TokensAt(cur: string) returns (mapping: seq<char>)
    ensures mapping == StartOf(cur)
  {
    mapping := [];
    if PATH <= cur {
      mapping := mapping + [NAME];
    }
    LettersAreNotSpecial();
    for k := 0 to |LETTERS|
      invariant mapping == if PATH <= cur then [NAME] else if StartsToken(cur, LETTERS[..k]) then [cur[1]] else []
    {
      assert LETTERS[..k + 1] == LETTERS[..k] + [LETTERS[k]];
      assert LETTERS[k] !in LETTERS[..k];
      if Token(LETTERS[k]) <= cur {
        assert LETTERS[k] in LETTERS && cur[1] == LETTERS[k];
        mapping := mapping + [LETTERS[k]];
      }
    }
    assert LETTERS[..|LETTERS|] == LETTERS;
  }

  lemma ScanOneMore(mapping: seq<char>, cur: string)
    requires cur != []
    ensures mapping + StartOf(cur) + Scan(cur[1..]) == mapping + Scan(cur)
    ensures cur[0] != '%' ==> StartOf(cur) == []
  {
    assert Scan(cur) == StartOf(cur) + Scan(cur[1..]);
    Regrouped(mapping, StartOf(cur), Scan(cur[1..]));
  }

  lemma Regrouped(a: seq<char>, b: seq<char>, c: seq<char>)
    ensures (a + b) + c == a + (b + c)
  {
  }

  method GroupMapping(format: string) returns (mapping: seq<char>)
    ensures mapping == Tokens(format)
  {
    ScanFindsTokens(format);
    mapping := [];
    var cur := format;
    while cur != []
      invariant mapping + Scan(cur) == Tokens(format)
      decreases |cur|
    {
      ScanOneMore(mapping, cur);
      if cur[0] == '%' {
        var found := TokensAt(cur);
        mapping := mapping + found;
      }
      cur := cur[1..];
    }
  }

  /** `Path.Decode`; `None` is the result `false`. */
  method Decode(format: string, v: string) returns (r: Option<Decoding>)
    ensures r == Decoded(format, v)
  {
    var re := Escape(format);
    re := ReplaceAll(re, PATH, PATH_GROUP);
    re := OneByOne(re, LETTERS, GroupText);
    RegexpIsRight(format);
    var groupMapping := GroupMapping(format);
    var matches := Find(Read(re), v);
    if matches.None? {
      return None;
    }
    GroupsFollowTokens(format);
    FindFits(Atoms(format), v);
    var captures := matches.value;
    var values: map<char, string> := map[];
    for i := 0 to |captures|
      invariant values == Values(groupMapping[..i], captures[..i])
    {
      assert groupMapping[..i + 1][..i] == groupMapping[..i] && captures[..i + 1][..i] == captures[..i];
      values := values[groupMapping[i] := captures[i]];
    }
    assert groupMapping[..|captures|] == groupMapping && captures[..|captures|] == captures;
    return Some(FromValues(values));
  }
}
