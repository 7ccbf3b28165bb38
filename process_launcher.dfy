/** `ProcessLauncher::createLaunchCommand`: builds the command line that
    launches a game from its platform's command template and the game's ROM
    path. Both values handed to the template, the path and its complete base
    name, are first prepared for QProcess's command-line splitting; the
    template's tokens are then replaced in two ordered rounds. */
module ProcessLauncher {
  import opened QtString
  import opened QtFileInfo

  const Quote: string := "\""
  const TripleQuote: string := "\"\"\""

  // The three tokens, bare and in quotes.
  const Rom: string := "%ROM%"
  const RomRaw: string := "%ROM_RAW%"
  const BaseNameToken: string := "%BASENAME%"
  const QuotedRom: string := "\"%ROM%\""
  const QuotedRomRaw: string := "\"%ROM_RAW%\""
  const QuotedBaseName: string := "\"%BASENAME%\""

  /** The keys of the builder's parameter map, in the map's (ascending) order. */
  datatype ParamType = Path | BaseName

  // ---------------------------------------------------------------------
  // Preparing one parameter
  // ---------------------------------------------------------------------

  /** Reference reading of the escape: every '"' becomes three '"', every
      other character stays, in order. */
  function TripleQuotes(v: string): (r: string)
    ensures |r| >= |v|
    ensures r == v <==> '"' !in v
    decreases |v|
  {
    if v == [] then []
    else (if v[0] == '"' then TripleQuote else [v[0]]) + TripleQuotes(v[1..])
  }

  /** `param.replace('"', "\"\"\"")`: QProcess reads three quotes as one
      literal quote. */
  function Escape(v: string): (r: string)
    ensures r == TripleQuotes(v)
  {
    EscapeTriplesQuotes(v);
    ReplaceAll(v, Quote, TripleQuote)
  }

  /** The inverse reading: each `"""` collapses back to one '"'. */
  function Unescape(w: string): (r: string)
    ensures '"' !in w ==> r == w
  {
    assert '"' !in w ==> !Contains(w, TripleQuote) by {
      if '"' !in w {
        MissingCharRulesOut(w, TripleQuote, '"');
      }
    }
    ReplaceAll(w, TripleQuote, Quote)
  }

  /** Replacing every '"' by `"""` is the character-by-character tripling. */
  lemma {:induction false} EscapeTriplesQuotes(v: string)
    ensures ReplaceAll(v, Quote, TripleQuote) == TripleQuotes(v)
    decreases |v|
  {
    if v != [] {
      EscapeTriplesQuotes(v[1..]);
      if v[0] == '"' {
        assert StartsWith(v, Quote);
      } else {
        assert !StartsWith(v, Quote);
      }
    }
  }

  lemma {:induction false} CollapseTripledQuotes(v: string)
    ensures Unescape(TripleQuotes(v)) == v
    decreases |v|
  {
    if v != [] {
      var w := TripleQuotes(v);
      CollapseTripledQuotes(v[1..]);
      if v[0] == '"' {
        assert w[..3] == TripleQuote;
        assert w[3..] == TripleQuotes(v[1..]);
      } else {
        assert w[0] == v[0];
        assert w[1..] == TripleQuotes(v[1..]);
      }
    }
  }

  /** The escape works character by character. */
  lemma {:induction false} TripleQuotesConcat(a: string, b: string)
    ensures TripleQuotes(a + b) == TripleQuotes(a) + TripleQuotes(b)
    decreases |a|
  {
    if a != [] {
      assert (a + b)[1..] == a[1..] + b;
      TripleQuotesConcat(a[1..], b);
    } else {
      assert a + b == b;
    }
  }

  /** Collapsing every `"""` of an escaped value gives the value back. */
  lemma EscapeRoundTrip(v: string)
    ensures Unescape(Escape(v)) == v
  {
    CollapseTripledQuotes(v);
  }

  lemma {:induction false} TripleQuotesWhitespace(v: string)
    ensures ContainsWhitespace(TripleQuotes(v)) <==> ContainsWhitespace(v)
    decreases |v|
  {
    if v != [] {
      TripleQuotesWhitespace(v[1..]);
      var head := if v[0] == '"' then TripleQuote else [v[0]];
      ContainsWhitespaceConcat(head, TripleQuotes(v[1..]));
      assert v == [v[0]] + v[1..];
      ContainsWhitespaceConcat([v[0]], v[1..]);
    }
  }

  /** Escaping adds no whitespace and removes none. */
  lemma EscapeKeepsWhitespace(v: string)
    ensures ContainsWhitespace(Escape(v)) <==> ContainsWhitespace(v)
  {
    TripleQuotesWhitespace(v);
  }

  /** The preparation of one parameter: escape the quotes, then wrap the result
      in one pair of quotes when it contains whitespace. Since escaping keeps
      whitespace, the value is wrapped exactly when the original contains
      whitespace. */
  function Prepare(v: string): (r: string)
    ensures r == Quote + Escape(v) + Quote <==> ContainsWhitespace(v)
    ensures r == Escape(v) <==> !ContainsWhitespace(v)
  {
    var e := Escape(v);
    EscapeKeepsWhitespace(v);
    if ContainsWhitespace(e) then Quote + e + Quote else e
  }

  /** How QProcess reads a prepared value back: drop the wrapping quotes of a
      value with whitespace, then collapse each `"""`. QProcess's splitting is
      taken to stop at the same six characters as `\s`; see `IsQProcessSpace`
      for the characters it really splits at. */
  function Unprepare(w: string): (r: string)
    ensures '"' !in w && !ContainsWhitespace(w) ==> r == w
  {
    Unescape(if ContainsWhitespace(w) && |w| >= 2 then w[1..|w| - 1] else w)
  }

  /** Preparation loses nothing: the value is recovered from its prepared form. */
  lemma PrepareRoundTrip(v: string)
    ensures Unprepare(Prepare(v)) == v
  {
    var e := Escape(v);
    EscapeKeepsWhitespace(v);
    EscapeRoundTrip(v);
    if ContainsWhitespace(v) {
      var w := Quote + e + Quote;
      ContainsWhitespaceConcat(Quote, e);
      ContainsWhitespaceConcat(Quote + e, Quote);
      assert w[1..|w| - 1] == e;
    }
  }

  /** A value holding neither a quote nor whitespace is passed on unchanged. */
  lemma PreparePlainValue(v: string)
    requires '"' !in v && !ContainsWhitespace(v)
    ensures Prepare(v) == v
  {
    if Contains(v, Quote) {
      ContainedCharsOccur(v, Quote, '"');
    }
  }

  /** The characters QProcess splits an unquoted command line at
      (`QChar::isSpace`): the six characters `\s` matches, NEL, and the
      Unicode space, line and paragraph separators. */
  predicate IsQProcessSpace(c: char)
  {
    IsWhitespace(c) || c == '\U{85}' || c == '\U{A0}' || c == '\U{1680}'
    || '\U{2000}' <= c <= '\U{200A}' || c == '\U{2028}' || c == '\U{2029}'
    || c == '\U{202F}' || c == '\U{205F}' || c == '\U{3000}'
  }

  /** QProcess splits at every character `\s` matches, and at more:
      U+3000 IDEOGRAPHIC SPACE is one that `\s` leaves alone. */
  lemma QProcessSpacesIncludeWhitespace(c: char)
    ensures IsWhitespace(c) ==> IsQProcessSpace(c)
    ensures IsQProcessSpace('\U{3000}') && !IsWhitespace('\U{3000}')
  {
  }

  /** A value whose only space is U+3000 is not wrapped by the preparation, so
      QProcess, which splits at that character, would see two arguments. */
  lemma IdeographicSpaceNotWrapped(x: string, space: char, y: string)
    requires space == '\U{3000}'
    requires '"' !in x && '"' !in y && !ContainsWhitespace(x) && !ContainsWhitespace(y)
    ensures Prepare(x + [space] + y) == x + [space] + y
    ensures IsQProcessSpace(space)
  {
    var v := x + [space] + y;
    assert [space][1..] == [];
    assert !ContainsWhitespace([space]);
    ContainsWhitespaceConcat(x, [space]);
    ContainsWhitespaceConcat(x + [space], y);
    assert '"' !in v;
    PreparePlainValue(v);
  }

  // ---------------------------------------------------------------------
  // Substituting the tokens
  // ---------------------------------------------------------------------

  /** The first round: the manually quoted tokens, replaced together with their
      quotes. */
  function QuotedRound(cmd: string, path: string, baseName: string): (r: string)
  {
    ReplaceAll(ReplaceAll(ReplaceAll(cmd, QuotedRom, path), QuotedRomRaw, path), QuotedBaseName, baseName)
  }

  /** The second round: the bare tokens. */
  function BareRound(cmd: string, path: string, baseName: string): (r: string)
  {
    ReplaceAll(ReplaceAll(ReplaceAll(cmd, Rom, path), RomRaw, path), BaseNameToken, baseName)
  }

  /** The launch command for `template` and `romPath`: the path and its complete
      base name, each prepared on its own, substituted in two rounds. */
  function BuildCommand(template: string, romPath: string): (r: string)
  {
    var path := Prepare(romPath);
    var baseName := Prepare(CompleteBaseName(romPath));
    BareRound(QuotedRound(template, path, baseName), path, baseName)
  }

  /** `createLaunchCommand` as written: the parameter map is prepared value by
      value in place, then the command is rewritten by six successive
      replacements. */
  method CreateLaunchCommand(launchCmd: string, romPath: string) returns (cmd: string)
    ensures cmd == BuildCommand(launchCmd, romPath)
  {
    var params := map[Path := romPath, BaseName := CompleteBaseName(romPath)];
    ghost var raw := params;
    // The map's keys in its iteration order.
    var keys := [Path, BaseName];
    var i := 0;
    while i < |keys|
      invariant 0 <= i <= |keys|
      invariant params.Keys == raw.Keys
      invariant forall j :: 0 <= j < i ==> params[keys[j]] == Prepare(raw[keys[j]])
      invariant forall j :: i <= j < |keys| ==> params[keys[j]] == raw[keys[j]]
    {
      var key := keys[i];
      var param := params[key];
      param := ReplaceAll(param, Quote, TripleQuote);
      if ContainsWhitespace(param) {
        param := Quote + param + Quote;
      }
      assert param == Prepare(raw[key]);
      params := params[key := param];
      i := i + 1;
    }
    assert keys[0] == Path && keys[1] == BaseName;
    var path, baseName := params[Path], params[BaseName];
    assert path == Prepare(romPath) && baseName == Prepare(CompleteBaseName(romPath));
    cmd := launchCmd;
    cmd := ReplaceAll(cmd, QuotedRom, path);
    cmd := ReplaceAll(cmd, QuotedRomRaw, path);
    cmd := ReplaceAll(cmd, QuotedBaseName, baseName);
    cmd := ReplaceAll(cmd, Rom, path);
    cmd := ReplaceAll(cmd, RomRaw, path);
    cmd := ReplaceAll(cmd, BaseNameToken, baseName);
    assert cmd == BareRound(QuotedRound(launchCmd, path, baseName), path, baseName);
  }

  // ---------------------------------------------------------------------
  // What the substitution does with a template
  // ---------------------------------------------------------------------

  /** Each quoted token is its bare token between two quotes. */
  lemma QuotedTokensWrapBareOnes()
    ensures QuotedRom == Quote + Rom + Quote
    ensures QuotedRomRaw == Quote + RomRaw + Quote
    ensures QuotedBaseName == Quote + BaseNameToken + Quote
  {
  }

  /** `%ROM%` does not occur in `%ROM_RAW%`. */
  lemma RomNotInRomRaw()
    ensures !Contains(RomRaw, Rom)
  {
  }

  /** `"%ROM%"` does not occur in `"%ROM_RAW%"`. */
  lemma QuotedRomNotInQuotedRomRaw()
    ensures !Contains(QuotedRomRaw, QuotedRom)
  {
    // The quotes of `"%ROM%"` are six characters apart; in `"%ROM_RAW%"`
    // only the first and the last character is a quote.
    var s, pat := QuotedRomRaw, QuotedRom;
    forall i ensures !OccursAt(s, pat, i) {
      if 0 <= i <= |s| - |pat| {
        var window := s[i..i + |pat|];
        if i == 0 {
          assert window[6] == s[6] != pat[6];
        } else {
          assert window[0] == s[i] != pat[0];
        }
      }
    }
    ContainsIffOccurrence(s, pat);
  }

  /** No quoted token occurs in a bare one: most are longer, and the bare
      tokens hold no quote. */
  lemma QuotedTokensNotInBareOnes()
    ensures !Contains(Rom, QuotedRom) && !Contains(Rom, QuotedRomRaw) && !Contains(Rom, QuotedBaseName)
    ensures !Contains(RomRaw, QuotedRom) && !Contains(RomRaw, QuotedRomRaw) && !Contains(RomRaw, QuotedBaseName)
    ensures !Contains(BaseNameToken, QuotedRom) && !Contains(BaseNameToken, QuotedRomRaw) && !Contains(BaseNameToken, QuotedBaseName)
  {
    MissingCharRulesOut(RomRaw, QuotedRom, '"');
    MissingCharRulesOut(BaseNameToken, QuotedRom, '"');
  }

  /** No ROM token occurs in a base-name token: the latter hold no 'R'. */
  lemma RomTokensNotInBaseNameOnes()
    ensures !Contains(QuotedBaseName, QuotedRom) && !Contains(QuotedBaseName, QuotedRomRaw)
    ensures !Contains(BaseNameToken, Rom) && !Contains(BaseNameToken, RomRaw)
  {
    MissingCharRulesOut(QuotedBaseName, QuotedRom, 'R');
    MissingCharRulesOut(QuotedBaseName, QuotedRomRaw, 'R');
    MissingCharRulesOut(BaseNameToken, Rom, 'R');
    MissingCharRulesOut(BaseNameToken, RomRaw, 'R');
  }

  /** Every token contains '%', so a string without '%' contains none. */
  lemma NoPercentNoToken(s: string)
    requires '%' !in s
    ensures !Contains(s, QuotedRom) && !Contains(s, QuotedRomRaw) && !Contains(s, QuotedBaseName)
    ensures !Contains(s, Rom) && !Contains(s, RomRaw) && !Contains(s, BaseNameToken)
  {
    if Contains(s, QuotedRom) { ContainedCharsOccur(s, QuotedRom, '%'); }
    if Contains(s, QuotedRomRaw) { ContainedCharsOccur(s, QuotedRomRaw, '%'); }
    if Contains(s, QuotedBaseName) { ContainedCharsOccur(s, QuotedBaseName, '%'); }
    if Contains(s, Rom) { ContainedCharsOccur(s, Rom, '%'); }
    if Contains(s, RomRaw) { ContainedCharsOccur(s, RomRaw, '%'); }
    if Contains(s, BaseNameToken) { ContainedCharsOccur(s, BaseNameToken, '%'); }
  }

  /** Preparing a value adds only quotes. */
  lemma PrepareNoPercent(v: string)
    requires '%' !in v
    ensures '%' !in Prepare(v)
  {
    if '%' in Escape(v) {
      ReplaceAllChars(v, Quote, TripleQuote, '%');
    }
  }

  /** The prepared values of a ROM path without '%' contain no token. */
  lemma PreparedValuesTokenFree(romPath: string)
    requires '%' !in romPath
    ensures '%' !in Prepare(romPath) && '%' !in Prepare(CompleteBaseName(romPath))
  {
    PrepareNoPercent(romPath);
    if '%' in CompleteBaseName(romPath) {
      CompleteBaseNameChars(romPath, '%');
    }
    PrepareNoPercent(CompleteBaseName(romPath));
  }

  /** A template containing none of the tokens, whatever other `%...%` words
      it holds, is returned unchanged. Each quoted token contains its bare
      form, so the three bare tokens are the ones to rule out. */
  lemma UnknownTokensPassThrough(template: string, romPath: string)
    requires !Contains(template, Rom) && !Contains(template, RomRaw) && !Contains(template, BaseNameToken)
    ensures BuildCommand(template, romPath) == template
  {
    QuotedTokensWrapBareOnes();
    if Contains(template, QuotedRom) {
      ContainsPart(template, Quote, Rom, Quote);
    }
    if Contains(template, QuotedRomRaw) {
      ContainsPart(template, Quote, RomRaw, Quote);
    }
    if Contains(template, QuotedBaseName) {
      ContainsPart(template, Quote, BaseNameToken, Quote);
    }
    var path := Prepare(romPath);
    var baseName := Prepare(CompleteBaseName(romPath));
    assert QuotedRound(template, path, baseName) == template;
    assert BareRound(template, path, baseName) == template;
  }

  /** A template made of the ROM token, bare or quoted, becomes exactly the
      prepared path: the quoted token loses its quotes, so no quote is
      doubled. The path is assumed free of '%', since the later replacements
      also run over the inserted value. */
  lemma RomTokenAlone(romPath: string)
    requires '%' !in romPath
    ensures BuildCommand(Rom, romPath) == Prepare(romPath)
    ensures BuildCommand(QuotedRom, romPath) == Prepare(romPath)
  {
    var path := Prepare(romPath);
    var baseName := Prepare(CompleteBaseName(romPath));
    PreparedValuesTokenFree(romPath);
    NoPercentNoToken(path);
    QuotedTokensNotInBareOnes();
    ReplaceAllWhole(Rom, path);
    ReplaceAllWhole(QuotedRom, path);
    assert QuotedRound(Rom, path, baseName) == Rom;
    assert BareRound(Rom, path, baseName) == path;
    assert QuotedRound(QuotedRom, path, baseName) == path;
    assert BareRound(path, path, baseName) == path;
  }

  /** `%ROM_RAW%`, bare or quoted, gets the same prepared path as `%ROM%`:
      it is not the raw path. */
  lemma RomRawTokenAlone(romPath: string)
    requires '%' !in romPath
    ensures BuildCommand(RomRaw, romPath) == Prepare(romPath)
    ensures BuildCommand(QuotedRomRaw, romPath) == Prepare(romPath)
  {
    var path := Prepare(romPath);
    var baseName := Prepare(CompleteBaseName(romPath));
    PreparedValuesTokenFree(romPath);
    NoPercentNoToken(path);
    RomNotInRomRaw();
    QuotedRomNotInQuotedRomRaw();
    QuotedTokensNotInBareOnes();
    ReplaceAllWhole(RomRaw, path);
    ReplaceAllWhole(QuotedRomRaw, path);
    assert QuotedRound(RomRaw, path, baseName) == RomRaw;
    assert BareRound(RomRaw, path, baseName) == path;
    assert QuotedRound(QuotedRomRaw, path, baseName) == path;
    assert BareRound(path, path, baseName) == path;
  }

  /** A template made of the base-name token becomes exactly the prepared
      complete base name of the raw path. */
  lemma BaseNameTokenAlone(romPath: string)
    requires '%' !in romPath
    ensures BuildCommand(BaseNameToken, romPath) == Prepare(CompleteBaseName(romPath))
  {
    var path := Prepare(romPath);
    var baseName := Prepare(CompleteBaseName(romPath));
    PreparedValuesTokenFree(romPath);
    QuotedTokensNotInBareOnes();
    RomTokensNotInBaseNameOnes();
    ReplaceAllWhole(BaseNameToken, baseName);
    assert QuotedRound(BaseNameToken, path, baseName) == BaseNameToken;
    assert BareRound(BaseNameToken, path, baseName) == baseName;
  }

  /** The quoted base-name token is replaced together with its quotes. */
  lemma QuotedBaseNameTokenAlone(romPath: string)
    requires '%' !in romPath
    ensures BuildCommand(QuotedBaseName, romPath) == Prepare(CompleteBaseName(romPath))
  {
    var path := Prepare(romPath);
    var baseName := Prepare(CompleteBaseName(romPath));
    PreparedValuesTokenFree(romPath);
    NoPercentNoToken(baseName);
    RomTokensNotInBaseNameOnes();
    ReplaceAllWhole(QuotedBaseName, baseName);
    assert QuotedRound(QuotedBaseName, path, baseName) == baseName;
    assert BareRound(baseName, path, baseName) == baseName;
  }

  /** Without the quoted round, a quoted ROM token would keep its quotes
      around the prepared path, doubling the quotes of a wrapped path; this
      is why the quoted round runs first. */
  lemma BareRoundAloneKeepsQuotes(path: string, baseName: string)
    requires '%' !in path
    ensures BareRound(QuotedRom, path, baseName) == Quote + path + Quote
  {
    QuotedTokensWrapBareOnes();
    BareRomInsideQuotes(path);
    NoPercentNoToken(Quote + path + Quote);
  }

  /** Replacing the bare `%ROM%` inside `"%ROM%"` leaves the quotes around
      the value. */
  lemma BareRomInsideQuotes(path: string)
    ensures ReplaceAll(Quote + Rom + Quote, Rom, path) == Quote + path + Quote
  {
    var w := Quote + Rom + Quote;
    assert !StartsWith(w, Rom);
    assert w[1..] == Rom + Quote;
    ReplaceAllConcat(Rom, Quote, Rom, path);
    ReplaceAllWhole(Rom, path);
  }

  lemma QuotedRoundSeparated(a: string, b: string, path: string, baseName: string)
    requires b != [] && IsWhitespace(b[0])
    ensures QuotedRound(a + b, path, baseName) == QuotedRound(a, path, baseName) + QuotedRound(b, path, baseName)
    ensures QuotedRound(b, path, baseName) != [] && QuotedRound(b, path, baseName)[0] == b[0]
  {
    TokenHeads();
    var a1, b1 := ReplaceAll(a, QuotedRom, path), ReplaceAll(b, QuotedRom, path);
    ReplaceAllConcat(a, b, QuotedRom, path);
    var a2, b2 := ReplaceAll(a1, QuotedRomRaw, path), ReplaceAll(b1, QuotedRomRaw, path);
    ReplaceAllConcat(a1, b1, QuotedRomRaw, path);
    ReplaceAllConcat(a2, b2, QuotedBaseName, baseName);
  }

  lemma BareRoundSeparated(a: string, b: string, path: string, baseName: string)
    requires b != [] && IsWhitespace(b[0])
    ensures BareRound(a + b, path, baseName) == BareRound(a, path, baseName) + BareRound(b, path, baseName)
  {
    TokenHeads();
    var a1, b1 := ReplaceAll(a, Rom, path), ReplaceAll(b, Rom, path);
    ReplaceAllConcat(a, b, Rom, path);
    var a2, b2 := ReplaceAll(a1, RomRaw, path), ReplaceAll(b1, RomRaw, path);
    ReplaceAllConcat(a1, b1, RomRaw, path);
    ReplaceAllConcat(a2, b2, BaseNameToken, baseName);
  }

  /** Parts of a template separated by whitespace are substituted
      independently: no token can straddle the whitespace. */
  lemma SeparatedArguments(a: string, b: string, romPath: string)
    requires b != [] && IsWhitespace(b[0])
    ensures BuildCommand(a + b, romPath) == BuildCommand(a, romPath) + BuildCommand(b, romPath)
  {
    var path := Prepare(romPath);
    var baseName := Prepare(CompleteBaseName(romPath));
    QuotedRoundSeparated(a, b, path, baseName);
    BareRoundSeparated(QuotedRound(a, path, baseName), QuotedRound(b, path, baseName), path, baseName);
  }

  /** Every quoted token starts with a quote, every bare one with '%'. */
  lemma TokenHeads()
    ensures QuotedRom[0] == '"' && QuotedRomRaw[0] == '"' && QuotedBaseName[0] == '"'
    ensures Rom[0] == '%' && RomRaw[0] == '%' && BaseNameToken[0] == '%'
  {
  }

  /** Text before the first token that holds neither '%' nor a quote, such as
      the program name and the flags before the ROM, is copied as it is. */
  lemma PlainPrefix(w: string, b: string, romPath: string)
    requires '%' !in w && '"' !in w
    ensures BuildCommand(w + b, romPath) == w + BuildCommand(b, romPath)
  {
    var path := Prepare(romPath);
    var baseName := Prepare(CompleteBaseName(romPath));
    TokenHeads();
    var q1 := ReplaceAll(b, QuotedRom, path);
    ReplaceAllPlainPrefix(w, b, QuotedRom, path);
    var q2 := ReplaceAll(q1, QuotedRomRaw, path);
    ReplaceAllPlainPrefix(w, q1, QuotedRomRaw, path);
    var q3 := ReplaceAll(q2, QuotedBaseName, baseName);
    ReplaceAllPlainPrefix(w, q2, QuotedBaseName, baseName);
    assert QuotedRound(w + b, path, baseName) == w + q3;
    var b1 := ReplaceAll(q3, Rom, path);
    ReplaceAllPlainPrefix(w, q3, Rom, path);
    var b2 := ReplaceAll(b1, RomRaw, path);
    ReplaceAllPlainPrefix(w, b1, RomRaw, path);
    ReplaceAllPlainPrefix(w, b2, BaseNameToken, baseName);
  }

  /** A template `w "%ROM%" flags`: the prepared path takes the place of the
      quoted token, between the untouched program part and flags. */
  lemma QuotedRomArgument(w: string, flags: string, romPath: string)
    requires '%' !in w && '"' !in w && '%' !in flags && '%' !in romPath
    requires flags != [] && IsWhitespace(flags[0])
    ensures BuildCommand(w + (QuotedRom + flags), romPath) == w + (Prepare(romPath) + flags)
  {
    PlainPrefix(w, QuotedRom + flags, romPath);
    QuotedRomThenFlags(flags, romPath);
  }

  /** `"%ROM%" flags` becomes the prepared path followed by the flags. */
  lemma QuotedRomThenFlags(flags: string, romPath: string)
    requires '%' !in flags && '%' !in romPath
    requires flags != [] && IsWhitespace(flags[0])
    ensures BuildCommand(QuotedRom + flags, romPath) == Prepare(romPath) + flags
  {
    SeparatedArguments(QuotedRom, flags, romPath);
    RomTokenAlone(romPath);
    NoPercentNoToken(flags);
    UnknownTokensPassThrough(flags, romPath);
  }

  /** A path with whitespace but without quotes is inserted wrapped in one
      pair of quotes. */
  lemma SpacedPathWrapped(romPath: string)
    requires '%' !in romPath && '"' !in romPath && ContainsWhitespace(romPath)
    ensures BuildCommand(Rom, romPath) == Quote + romPath + Quote
  {
    RomTokenAlone(romPath);
    MissingCharRulesOut(romPath, Quote, '"');
  }

  /** A path without whitespace is inserted with its quotes tripled and
      nothing around it, even where the template quoted the token. */
  lemma PlainPathEscaped(romPath: string)
    requires '%' !in romPath && !ContainsWhitespace(romPath)
    ensures BuildCommand(QuotedRom, romPath) == TripleQuotes(romPath)
  {
    RomTokenAlone(romPath);
  }

  /** A quote between two quote-free parts is tripled where it stands. */
  lemma TripleQuotesAround(x: string, y: string)
    requires '"' !in x && '"' !in y
    ensures TripleQuotes(x + Quote + y) == x + TripleQuote + y
  {
    TripleQuotesConcat(x + Quote, y);
    TripleQuotesConcat(x, Quote);
  }

  /** The base-name token is free of whitespace. */
  lemma BaseNameTokenPlain()
    ensures !ContainsWhitespace(BaseNameToken)
  {
    var x, y := "%BASE", "NAME%";
    assert BaseNameToken == x + y;
    assert !ContainsWhitespace(x) && !ContainsWhitespace(y);
    ContainsWhitespaceConcat(x, y);
  }

  /** The base-name token holds no quote. */
  lemma BaseNameTokenChars()
    ensures '"' !in BaseNameToken
  {
  }

  // ---------------------------------------------------------------------
  // Worked examples
  // ---------------------------------------------------------------------

  lemma SpacedPathHasWhitespace(p: string)
    requires p == "/games/my game.rom"
    ensures ContainsWhitespace(p) && '%' !in p && '"' !in p
  {
    ContainsWhitespaceIffAt(p);
    assert IsWhitespace(p[9]);
  }

  /** `%ROM%` with a path containing a space gives the path in quotes. */
  lemma ExampleSpacedPath(p: string)
    requires p == "/games/my game.rom"
    ensures BuildCommand(Rom, p) == Quote + p + Quote
  {
    SpacedPathHasWhitespace(p);
    SpacedPathWrapped(p);
  }

  /** The template `emulator "%ROM%" --fullscreen` with a path containing a
      space: the program name and the flag stay, and the path takes the
      place of the quoted token, in one pair of quotes. */
  lemma ExampleEmulatorTemplate(w: string, flags: string, p: string)
    requires w == "emulator " && flags == " --fullscreen" && p == "/games/my game.rom"
    ensures BuildCommand(w + (QuotedRom + flags), p) == w + (Quote + p + Quote + flags)
  {
    assert '%' !in w && '"' !in w && '%' !in flags && IsWhitespace(flags[0]);
    SpacedPathHasWhitespace(p);
    QuotedRomArgument(w, flags, p);
    MissingCharRulesOut(p, Quote, '"');
  }

  lemma QuotedTokenWithFlagParts(dir: string, file: string, flag: string)
    requires dir == "C:\\g\\a" && file == "b.rom" && flag == " --flag"
    ensures !ContainsWhitespace(dir) && !ContainsWhitespace(file)
    ensures '%' !in dir && '%' !in file && '%' !in flag && '"' !in dir && '"' !in file
    ensures flag != [] && IsWhitespace(flag[0])
  {
    ContainsWhitespaceIffAt(dir);
    ContainsWhitespaceIffAt(file);
  }

  /** A quoted token followed by a flag, with a path holding a quote: the
      token's quotes are replaced with it, the quote inside the path is
      tripled and, as the path has no whitespace, nothing is wrapped. */
  lemma ExampleQuotedTokenWithFlag(dir: string, file: string, flag: string)
    requires dir == "C:\\g\\a" && file == "b.rom" && flag == " --flag"
    ensures BuildCommand(QuotedRom + flag, dir + Quote + file) == dir + TripleQuote + file + flag
  {
    var p := dir + Quote + file;
    QuotedTokenWithFlagParts(dir, file, flag);
    ContainsWhitespaceConcat(dir + Quote, file);
    ContainsWhitespaceConcat(dir, Quote);
    SeparatedArguments(QuotedRom, flag, p);
    PlainPathEscaped(p);
    TripleQuotesAround(dir, file);
    NoPercentNoToken(flag);
    UnknownTokensPassThrough(flag, p);
  }

  /** A value without whitespace holding one quote is prepared by tripling
      that quote, and nothing else. */
  lemma PrepareQuoteInside(x: string, y: string)
    requires '"' !in x && '"' !in y && !ContainsWhitespace(x) && !ContainsWhitespace(y)
    ensures Prepare(x + Quote + y) == x + TripleQuote + y
  {
    ContainsWhitespaceConcat(x + Quote, y);
    ContainsWhitespaceConcat(x, Quote);
    TripleQuotesAround(x, y);
  }

  /** The complete base name is taken from the raw path and prepared on its
      own: whitespace in the directory does not make it quoted, and a quote
      inside it is tripled. */
  lemma BaseNameOfQuotedFile(p: string, dir: string, x: string, y: string, ext: string)
    requires p == dir + x + Quote + y + "." + ext
    requires dir == [] || dir[|dir| - 1] == Separator
    requires '%' !in dir && '%' !in x && '%' !in y && '%' !in ext
    requires Separator !in x && Separator !in y && Separator !in ext && '.' !in ext
    requires '"' !in x && '"' !in y && !ContainsWhitespace(x) && !ContainsWhitespace(y)
    ensures BuildCommand(BaseNameToken, p) == x + TripleQuote + y
  {
    QuotedFileStem(p, dir, x, y, ext);
    BaseNameTokenAlone(p);
    PrepareQuoteInside(x, y);
  }

  lemma QuotedFileStem(p: string, dir: string, x: string, y: string, ext: string)
    requires p == dir + x + Quote + y + "." + ext
    requires dir == [] || dir[|dir| - 1] == Separator
    requires '%' !in dir && '%' !in x && '%' !in y && '%' !in ext
    requires Separator !in x && Separator !in y && Separator !in ext && '.' !in ext
    ensures CompleteBaseName(p) == x + Quote + y && '%' !in p
  {
    var base := x + Quote + y;
    assert p == dir + base + "." + ext;
    assert Separator !in base;
    CompleteBaseNameOf(p, dir, base, ext);
  }

  /** `%BASENAME%` with a path under a directory with a space and a file
      name holding a quote. */
  lemma ExampleBaseNamePreparedOnItsOwn(p: string, dir: string, x: string, y: string, ext: string)
    requires p == dir + x + Quote + y + "." + ext
    requires dir == "/my games/" && x == "a" && y == "b" && ext == "rom"
    ensures BuildCommand(BaseNameToken, p) == x + TripleQuote + y
  {
    assert dir[|dir| - 1] == Separator && '%' !in dir;
    BaseNameOfQuotedFile(p, dir, x, y, ext);
  }

  /** Replacing the base-name token at the head of `%BASENAME%/name`. */
  lemma ReplaceLeadingBaseNameToken(rest: string, name: string)
    requires rest != [] && rest[0] == Separator && '%' !in rest
    ensures ReplaceAll(BaseNameToken + rest, BaseNameToken, name) == name + rest
  {
    ReplaceAllConcat(BaseNameToken, rest, BaseNameToken, name);
    ReplaceAllWhole(BaseNameToken, name);
    MissingCharRulesOut(rest, BaseNameToken, '%');
  }

  /** The path `%BASENAME%/name` needs no preparation, and neither does its
      complete base name `name`. */
  lemma TokenPathPrepared(p: string, rest: string, name: string)
    requires rest == [Separator] + name && p == BaseNameToken + rest
    requires '%' !in name && '"' !in name && !ContainsWhitespace(name)
    requires Separator !in name && '.' !in name
    ensures Prepare(p) == p && Prepare(CompleteBaseName(p)) == name
  {
    assert p == (BaseNameToken + [Separator]) + name;
    CompleteBaseNameWithoutExtension(p, BaseNameToken + [Separator], name);
    PreparePlainValue(name);
    BaseNameTokenPlain();
    BaseNameTokenChars();
    ContainsWhitespaceConcat(BaseNameToken, rest);
    ContainsWhitespaceConcat([Separator], name);
    PreparePlainValue(p);
  }

  /** Later replacements run over values inserted by earlier ones: a path
      `%BASENAME%/name` put in place of `%ROM%` has its own token replaced
      by the base name in turn. */
  lemma InsertedValueIsSubstitutedAgain(p: string, rest: string, name: string)
    requires rest == [Separator] + name && p == BaseNameToken + rest
    requires '%' !in name && '"' !in name && !ContainsWhitespace(name)
    requires Separator !in name && '.' !in name
    ensures BuildCommand(Rom, p) == name + rest
  {
    TokenPathPrepared(p, rest, name);
    QuotedTokensNotInBareOnes();
    assert QuotedRound(Rom, p, name) == Rom;
    var afterRom := ReplaceAll(Rom, Rom, p);
    ReplaceAllWhole(Rom, p);
    assert afterRom == p;
    var afterRomRaw := ReplaceAll(afterRom, RomRaw, p);
    RomRawNotInTokenPath(rest, p);
    assert afterRomRaw == p;
    ReplaceLeadingBaseNameToken(rest, name);
  }

  /** `%ROM_RAW%` finds nothing in `%BASENAME%` followed by a '%'-free rest
      that starts with a separator: not in the token, not in the rest, and
      not across the separator between them. */
  lemma RomRawNotInTokenPath(rest: string, value: string)
    requires rest != [] && rest[0] == Separator && '%' !in rest
    ensures ReplaceAll(BaseNameToken + rest, RomRaw, value) == BaseNameToken + rest
  {
    RomTokensNotInBaseNameOnes();
    assert ReplaceAll(BaseNameToken, RomRaw, value) == BaseNameToken;
    MissingCharRulesOut(rest, RomRaw, '%');
    assert ReplaceAll(rest, RomRaw, value) == rest;
    SeparatorNotInRomRaw();
    ReplaceAllConcat(BaseNameToken, rest, RomRaw, value);
  }

  /** No path separator occurs in `%ROM_RAW%`. */
  lemma SeparatorNotInRomRaw()
    ensures Separator !in RomRaw
  {
  }

  /** `%ROM%` with the path `%BASENAME%/c` gives `c/c`. */
  lemma ExampleInsertedValueIsSubstitutedAgain(p: string, rest: string, name: string)
    requires name == "c" && rest == [Separator] + name && p == BaseNameToken + rest
    ensures BuildCommand(Rom, p) == name + rest
  {
    assert !ContainsWhitespace(name);
    InsertedValueIsSubstitutedAgain(p, rest, name);
  }
}
