/** The keyword-to-pattern compiler of `scripts/src/regex.py`: it turns a
    technology's keyword phrases into one regex alternation string.
    Only the pattern STRING is modelled; what a pattern matches is left to
    a matcher the callers receive as a parameter. */
module KeywordRegex {
  import opened Strings
  import opened Seqs

  /** The three switches of `keywords_to_pattern`. */
  datatype PatternOptions = PatternOptions(spacesOptional: bool, wordBoundaries: bool, group: bool)

  /** The defaults: spaces optional, no word boundaries, no group. */
  const DefaultOptions := PatternOptions(true, false, false)

  const GroupedOptions := PatternOptions(true, false, true)

  /** One configured technology: its tag name and its keyword phrases. */
  datatype TechTerm = TechTerm(tech: string, keywords: seq<string>)

  /** A technology entry after `add_regex_pattern` has given it a pattern. */
  datatype CompiledTech = CompiledTech(tech: string, keywords: seq<string>, regex: string)

  /** `re.sub(' ', '.?', keyword)`. */
  function OptionalSpaces(keyword: string): string {
    ReplaceChar(keyword, ' ', ".?")
  }

  function WithBoundaries(keyword: string): string {
    "\\b" + keyword + "\\b"
  }

  /** `keywords_to_pattern`: optional-space rewriting, then word boundaries,
      then the `|`-join, then the optional group. Regex operators inside a
      keyword are NOT escaped. */
  function KeywordsToPattern(keywords: seq<string>, opts: PatternOptions): (r: string)
    ensures opts.spacesOptional ==> ' ' !in r
    ensures |keywords| == 0 ==> r == (if opts.group then "()" else "")
    ensures opts.group ==> r == "(" + KeywordsToPattern(keywords, opts.(group := false)) + ")"
    ensures !opts.spacesOptional && !opts.wordBoundaries && !opts.group ==> r == Join("|", keywords)
    decreases if opts.group then 1 else 0
  {
    var spaced := if opts.spacesOptional then Map(OptionalSpaces, keywords) else keywords;
    var bounded := if opts.wordBoundaries then Map(WithBoundaries, spaced) else spaced;
    var joined := Join("|", bounded);
    assert opts.spacesOptional ==> ' ' !in joined by {
      if opts.spacesOptional {
        assert forall i :: 0 <= i < |bounded| ==> ' ' !in bounded[i];
        JoinAvoids("|", bounded, ' ');
      }
    }
    if opts.group then "(" + joined + ")" else joined
  }

  /** The alternative one keyword contributes, stated independently of the
      compiler: its space-separated words re-joined with `.?` when spaces
      are optional, wrapped in `\b` when boundaries are on. */
  function Alternative(keyword: string, opts: PatternOptions): string {
    var words := if opts.spacesOptional then Join(".?", Split(keyword, ' ')) else keyword;
    if opts.wordBoundaries then "\\b" + words + "\\b" else words
  }

  /** Reading the ungrouped pattern back: splitting it on `|` yields exactly
      one alternative per keyword, in order, provided no keyword itself
      contains `|`. */
  lemma PatternAlternatives(keywords: seq<string>, opts: PatternOptions)
    requires |keywords| >= 1 && !opts.group
    requires forall i :: 0 <= i < |keywords| ==> '|' !in keywords[i]
    ensures Split(KeywordsToPattern(keywords, opts), '|') == Map(k => Alternative(k, opts), keywords)
  {
    var spaced := if opts.spacesOptional then Map(OptionalSpaces, keywords) else keywords;
    var bounded := if opts.wordBoundaries then Map(WithBoundaries, spaced) else spaced;
    forall i | 0 <= i < |keywords|
      ensures bounded[i] == Alternative(keywords[i], opts)
      ensures '|' !in bounded[i]
    {
      ReplaceCharIsSplitJoin(keywords[i], ' ', ".?");
    }
    SplitJoin(bounded, '|');
  }

  /** `add_regex_pattern`: every entry gains the pattern of its keywords
      under the default options; order, names and keywords are unchanged. */
  function AddRegexPattern(techs: seq<TechTerm>): (r: seq<CompiledTech>)
    ensures |r| == |techs|
    ensures forall i :: 0 <= i < |r| ==>
              && r[i].tech == techs[i].tech
              && r[i].keywords == techs[i].keywords
              && r[i].regex == KeywordsToPattern(techs[i].keywords, DefaultOptions)
  {
    Map((t: TechTerm) => CompiledTech(t.tech, t.keywords, KeywordsToPattern(t.keywords, DefaultOptions)), techs)
  }

  /** `grouped_pattern`: the `|`-join of every technology's grouped pattern. */
  function GroupedPattern(techs: seq<TechTerm>): string {
    Join("|", Map((t: TechTerm) => KeywordsToPattern(t.keywords, GroupedOptions), techs))
  }

  /** The combined pattern is each technology's own compiled pattern wrapped
      in parentheses, joined by `|` in declaration order. */
  lemma GroupedPatternOfCompiled(techs: seq<TechTerm>)
    ensures GroupedPattern(techs) == Join("|", Map((c: CompiledTech) => "(" + c.regex + ")", AddRegexPattern(techs)))
  {
    var compiled := AddRegexPattern(techs);
    var lhs := Map((t: TechTerm) => KeywordsToPattern(t.keywords, GroupedOptions), techs);
    var rhs := Map((c: CompiledTech) => "(" + c.regex + ")", compiled);
    forall i | 0 <= i < |techs| ensures lhs[i] == rhs[i] {
      assert GroupedOptions.(group := false) == DefaultOptions;
    }
    assert lhs == rhs;
  }

  /** A configuration entry as the script actually reads it: the keyword
      setting is one string. */
  datatype ConfigTech = ConfigTech(tech: string, keywords: string)

  /** Iterating a Python string yields its characters. */
  function Characters(s: string): (r: seq<string>)
    ensures |r| == |s|
    ensures forall i :: 0 <= i < |s| ==> r[i] == [s[i]]
  {
    Map((ch: char) => [ch], s)
  }

  /** `add_regex_pattern` as written: the keyword string is handed to
      `keywords_to_pattern`, whose comprehension walks it character by
      character, so every character becomes an alternative of its own. */
  function AddRegexPatternAsWritten(techs: seq<ConfigTech>): (r: seq<CompiledTech>)
    ensures |r| == |techs|
    ensures forall i :: 0 <= i < |r| ==>
              && r[i].tech == techs[i].tech
              && r[i].regex == KeywordsToPattern(Characters(techs[i].keywords), DefaultOptions)
  {
    Map((t: ConfigTech) => CompiledTech(t.tech, Characters(t.keywords), KeywordsToPattern(Characters(t.keywords), DefaultOptions)), techs)
  }

  /** As written, a keyword setting without `|` compiles to one
      single-character alternative per character. */
  lemma AsWrittenAlternativesAreCharacters(t: ConfigTech)
    requires |t.keywords| >= 1 && '|' !in t.keywords
    ensures var alts := Split(AddRegexPatternAsWritten([t])[0].regex, '|');
            |alts| == |t.keywords| &&
            forall i :: 0 <= i < |alts| ==> alts[i] == (if t.keywords[i] == ' ' then ".?" else [t.keywords[i]])
  {
    var cs := Characters(t.keywords);
    PatternAlternatives(cs, DefaultOptions);
    forall i | 0 <= i < |cs|
      ensures Alternative(cs[i], DefaultOptions) == (if t.keywords[i] == ' ' then ".?" else [t.keywords[i]])
    {
      var ch := t.keywords[i];
      if ch == ' ' {
        assert [ch] == [] + [' '] + [];
        SplitAtFirst([], ' ', []);
        assert Split([ch], ' ') == ["", ""];
      } else {
        SplitNoSeparator([ch], ' ');
      }
    }
  }

  /** The keyword setting "ai ml" compiles to five alternatives as written. */
  lemma AsWrittenCounterexample()
    ensures Split(AddRegexPatternAsWritten([ConfigTech("AI", "ai ml")])[0].regex, '|') == ["a", "i", ".?", "m", "l"]
  {
    var t := ConfigTech("AI", "ai ml");
    AsWrittenAlternativesAreCharacters(t);
    var alts := Split(AddRegexPatternAsWritten([t])[0].regex, '|');
    assert "ai ml" == ['a', 'i', ' ', 'm', 'l'];
    FiveAlternatives(alts);
  }

  lemma FiveAlternatives(alts: seq<string>)
    requires |alts| == 5 && alts[0] == "a" && alts[1] == "i" && alts[2] == ".?" && alts[3] == "m" && alts[4] == "l"
    ensures alts == ["a", "i", ".?", "m", "l"]
  {
  }

  /** The phrase "ai ml" is one alternative with an optional space. */
  lemma PhraseAlternative()
    ensures Alternative("ai ml", DefaultOptions) == "ai.?ml"
  {
    assert "ai ml" == "ai" + [' '] + "ml";
    SplitAtFirst("ai", ' ', "ml");
    SplitNoSeparator("ml", ' ');
    assert Split("ai ml", ' ') == ["ai", "ml"];
  }

  /** The same setting read as a one-phrase list compiles to the single
      alternative `ai.?ml`. */
  lemma CorrectedCounterexample()
    ensures Split(AddRegexPattern([TechTerm("AI", ["ai ml"])])[0].regex, '|') == ["ai.?ml"]
  {
    var alt := Alternative("ai ml", DefaultOptions);
    PhraseAlternative();
    assert '|' !in "ai ml" by {
      assert "ai ml" == ['a', 'i', ' ', 'm', 'l'];
    }
    PatternAlternatives(["ai ml"], DefaultOptions);
    var m := Map(k => Alternative(k, DefaultOptions), ["ai ml"]);
    assert m == [alt];
  }
}
