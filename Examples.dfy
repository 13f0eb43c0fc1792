/** The cop's documented behaviour on concrete configurations and blocks:
    the `Prefixes` setting `[when, with]`, the setting `[if]`, and a
    `Patterns` setting in Japanese whose regexes stay abstract. */
module ContextWordingExamples {
  import opened Wrappers
  import opened PatternSet
  import opened Matching
  import opened Rendering
  import opened ContextWording

  /** `context 'description', *metadata do ... end` (or another selector). */
  function ContextBlock(selector: string, description: string, loc: Span, metadata: seq<Arg>): Node {
    Block(Call(Implicit, selector, [Str(description, loc)] + metadata))
  }

  const WhenWith := Config(None, Some(["when", "with"]))
  const WhenWithMessage: string := "Write context description like " + "'^when\\b', or '^with\\b'."

  lemma WhenWithPatterns()
    ensures ResolvePatterns(WhenWith) == ["^when\\b", "^with\\b"]
  {
    var pp := ["^when\\b", "^with\\b"];
    WhenWithPrefixPatterns();
    assert ConfiguredPatterns(WhenWith) + PrefixPatterns(Prefixes(WhenWith)) == pp;
    assert pp[0][2] == 'h' && pp[1][2] == 'i';
    UniqOfDistinct(pp);
  }

  lemma WhenWithPrefixPatterns()
    ensures PrefixPatterns(Prefixes(WhenWith)) == ["^when\\b", "^with\\b"]
  {
    assert PrefixPattern("when") == "^when\\b";
    assert PrefixPattern("with") == "^with\\b";
  }

  lemma WhenWithResolution()
    ensures ResolvePatterns(WhenWith) == ["^when\\b", "^with\\b"]
    ensures ResolutionWarnings(WhenWith) == [DeprecationWarning]
    ensures OffenseMessage(ResolvePatterns(WhenWith)) == WhenWithMessage
  {
    WhenWithRendering();
    WhenWithPatterns();
  }

  lemma WhenWithRendering()
    ensures OffenseMessage(["^when\\b", "^with\\b"]) == WhenWithMessage
  {
    assert Enumeration(["^when\\b", "^with\\b"]) == Quote("^when\\b") + ", or " + Quote("^with\\b");
    assert Quote("^when\\b") + ", or " + Quote("^with\\b") == "'^when\\b', or '^with\\b'";
  }

  /** Under `[when, with]` a checked block is accepted when some line of its
      description begins with either word, and reported when no line can. */
  lemma WhenWithFlagging(m: Matcher, selector: string, description: string, loc: Span, metadata: seq<Arg>)
    requires HonoursPrefixPatterns(m)
    requires IsContextMethod(selector)
    ensures SomeLineStartsWithWord("when", description) || SomeLineStartsWithWord("with", description) ==>
      OnBlock(WhenWith, m, ContextBlock(selector, description, loc, metadata)) == None
    ensures !SomeLineMayStartWithWord("when", description) && !SomeLineMayStartWithWord("with", description) ==>
      OnBlock(WhenWith, m, ContextBlock(selector, description, loc, metadata)) == Some(Offense(loc, WhenWithMessage))
  {
    var node := ContextBlock(selector, description, loc, metadata);
    assert IsWordPrefix("when") && IsWordPrefix("with");
    assert Prefixes(WhenWith) == ["when", "with"];
    WhenWithResolution();
    PrefixFlagging(WhenWith, m, node);
    if SomeLineStartsWithWord("when", description) {
      assert "when" in Prefixes(WhenWith);
    } else if SomeLineStartsWithWord("with", description) {
      assert "with" in Prefixes(WhenWith);
    }
  }

  // Word-boundary facts about the descriptions of the examples, kept apart
  // from the cop so that each proof stays small. A long description is
  // written as two concatenated literals, which denote the same string: the
  // verifier then only has to look into the shorter first half.

  lemma NoConditionWord()
    ensures !SomeLineMayStartWithWord("when", "the display name not present")
    ensures !SomeLineMayStartWithWord("with", "the display name not present")
  {
    var d := "the display name not present";
    assert '\n' !in d;
    SingleLine("when", d);
    SingleLine("with", d);
    assert d[..4][0] == 't';
  }

  lemma WhenThenSpace()
    ensures SomeLineStartsWithWord("when", "when the display name " + "is not present")
  {
    var head := "when the display name ";
    var d := head + "is not present";
    assert head[4] == ' ' && head[..4] == "when";
    assert d[..4] == head[..4] && d[4] == head[4];
    assert WordAt("when", d, 0);
  }

  lemma WhenThenComma()
    ensures SomeLineStartsWithWord("when", "when, for some inexplicable reason, " + "you inject a subordinate clause")
  {
    var head := "when, for some inexplicable reason, ";
    var d := head + "you inject a subordinate clause";
    assert head[4] == ',' && head[..4] == "when";
    assert d[..4] == head[..4] && d[4] == head[4];
    assert WordAt("when", d, 0);
  }

  lemma WheneverNotAWord()
    ensures !SomeLineMayStartWithWord("when", "whenever you do")
    ensures !SomeLineMayStartWithWord("with", "whenever you do")
  {
    var d := "whenever you do";
    assert '\n' !in d;
    SingleLine("when", d);
    SingleLine("with", d);
    assert d[..4] == "when" && IsWordChar(d[4]);
    assert d[..4] != "with";
  }

  lemma LaterLineStartsWithWhen()
    ensures SomeLineStartsWithWord("when", "setup\nwhen ready")
  {
    var d := "setup\nwhen ready";
    assert d[5] == '\n' && d[6..10] == "when" && d[10] == ' ';
    assert WordAt("when", d, 6);
  }

  /** `context` and `shared_context` titled 'the display name not present' are reported. */
  lemma MissingConditionIsFlagged(m: Matcher, selector: string, loc: Span)
    requires HonoursPrefixPatterns(m)
    requires IsContextMethod(selector)
    ensures OnBlock(WhenWith, m, ContextBlock(selector, "the display name not present", loc, []))
         == Some(Offense(loc, WhenWithMessage))
  {
    NoConditionWord();
    WhenWithFlagging(m, selector, "the display name not present", loc, []);
  }

  /** 'when the display name is not present' is accepted. */
  lemma WhenFollowedBySpaceIsAccepted(m: Matcher, loc: Span)
    requires HonoursPrefixPatterns(m)
    ensures OnBlock(WhenWith, m, ContextBlock("context", "when the display name " + "is not present", loc, [])) == None
  {
    WhenThenSpace();
    WhenWithFlagging(m, "context", "when the display name " + "is not present", loc, []);
  }

  /** 'when, for some inexplicable reason, ...' is accepted: the comma ends the word. */
  lemma WhenFollowedByCommaIsAccepted(m: Matcher, loc: Span)
    requires HonoursPrefixPatterns(m)
    ensures OnBlock(WhenWith, m,
      ContextBlock("context", "when, for some inexplicable reason, " + "you inject a subordinate clause", loc, [])) == None
  {
    WhenThenComma();
    WhenWithFlagging(m, "context", "when, for some inexplicable reason, " + "you inject a subordinate clause", loc, []);
  }

  /** 'whenever you do' is reported, with or without trailing metadata:
      "when" is not a whole word there. */
  lemma WheneverIsFlagged(m: Matcher, loc: Span, metadata: seq<Arg>)
    requires HonoursPrefixPatterns(m)
    ensures OnBlock(WhenWith, m, ContextBlock("context", "whenever you do", loc, metadata))
         == Some(Offense(loc, WhenWithMessage))
  {
    WheneverNotAWord();
    WhenWithFlagging(m, "context", "whenever you do", loc, metadata);
  }

  /** `^` anchors at every line start, so a description whose second line
      begins with "when" is accepted. */
  lemma LaterLineIsAccepted(m: Matcher, loc: Span)
    requires HonoursPrefixPatterns(m)
    ensures OnBlock(WhenWith, m, ContextBlock("context", "setup\nwhen ready", loc, [])) == None
  {
    LaterLineStartsWithWhen();
    WhenWithFlagging(m, "context", "setup\nwhen ready", loc, []);
  }

  /** `describe` blocks are never reported, whatever their description. */
  lemma DescribeIsSkipped(cfg: Config, m: Matcher, description: string, loc: Span)
    ensures OnBlock(cfg, m, ContextBlock("describe", description, loc, [])) == None
  {
    OtherMethodsNeverFlagged(cfg, m, ContextBlock("describe", description, loc, []));
  }

  const OnlyIf := Config(None, Some(["if"]))
  const OnlyIfMessage: string := "Write context description like " + "'^if\\b'."

  lemma OnlyIfPatterns()
    ensures ResolvePatterns(OnlyIf) == ["^if\\b"]
  {
    assert PrefixPattern("if") == "^if\\b";
    assert PrefixPatterns(["if"]) == ["^if\\b"];
    assert ConfiguredPatterns(OnlyIf) + ["^if\\b"] == ["^if\\b"];
    UniqOfDistinct(["^if\\b"]);
  }

  /** Under `[if]` the message names the single pattern, without "or". */
  lemma OnlyIfResolution()
    ensures ResolvePatterns(OnlyIf) == ["^if\\b"]
    ensures OffenseMessage(ResolvePatterns(OnlyIf)) == OnlyIfMessage
  {
    OnlyIfPatterns();
    OnlyIfRendering();
  }

  lemma OnlyIfRendering()
    ensures OffenseMessage(["^if\\b"]) == OnlyIfMessage
  {
    assert Enumeration(["^if\\b"]) == Quote("^if\\b");
    assert Quote("^if\\b") == "'^if\\b'";
  }

  /** Under `[if]`, 'when display name is present' is reported. */
  lemma OnlyIfFlagsWhen(m: Matcher, loc: Span)
    requires HonoursPrefixPatterns(m)
    ensures OnBlock(OnlyIf, m, ContextBlock("context", "when display name is present", loc, []))
         == Some(Offense(loc, OnlyIfMessage))
  {
    OnlyIfResolution();
    assert IsWordPrefix("if") && Prefixes(OnlyIf) == ["if"];
    var d := "when display name is present";
    assert '\n' !in d;
    SingleLine("if", d);
    assert d[..2][0] == 'w';
    PrefixFlagging(OnlyIf, m, ContextBlock("context", d, loc, []));
  }

  /** Under `[if]`, 'if display name is present' is accepted. */
  lemma OnlyIfAcceptsIf(m: Matcher, loc: Span)
    requires HonoursPrefixPatterns(m)
    ensures OnBlock(OnlyIf, m, ContextBlock("context", "if display name is present", loc, [])) == None
  {
    OnlyIfResolution();
    assert IsWordPrefix("if") && Prefixes(OnlyIf) == ["if"];
    var d := "if display name is present";
    assert d[..2] == "if" && d[2] == ' ';
    assert WordAt("if", d, 0);
    PrefixFlagging(OnlyIf, m, ContextBlock("context", d, loc, []));
  }

  const Japanese := Config(Some(["時$", "^もし.*ならば$"]), None)
  const JapaneseMessage: string := "Write context description like " + "'時$', or '^もし.*ならば$'."

  lemma JapaneseRendering()
    ensures OffenseMessage(["時$", "^もし.*ならば$"]) == JapaneseMessage
  {
    assert Enumeration(["時$", "^もし.*ならば$"]) == Quote("時$") + ", or " + Quote("^もし.*ならば$");
    assert Quote("時$") + ", or " + Quote("^もし.*ならば$") == "'時$', or '^もし.*ならば$'";
  }

  lemma JapaneseResolution()
    ensures ResolvePatterns(Japanese) == ["時$", "^もし.*ならば$"]
    ensures ResolutionWarnings(Japanese) == []
    ensures OffenseMessage(ResolvePatterns(Japanese)) == JapaneseMessage
  {
    assert PrefixPatterns(Prefixes(Japanese)) == [];
    assert ConfiguredPatterns(Japanese) + [] == ["時$", "^もし.*ならば$"];
    UniqOfDistinct(["時$", "^もし.*ならば$"]);
    JapaneseRendering();
  }

  /** A description that neither regex matches is reported with both listed. */
  lemma JapaneseUnmatchedIsFlagged(m: Matcher, selector: string, loc: Span)
    requires IsContextMethod(selector)
    requires !m("時$", "the display name not present") && !m("^もし.*ならば$", "the display name not present")
    ensures OnBlock(Japanese, m, ContextBlock(selector, "the display name not present", loc, []))
         == Some(Offense(loc, JapaneseMessage))
  {
    JapaneseResolution();
  }

  /** A description either regex matches is accepted. */
  lemma JapaneseMatchedIsAccepted(m: Matcher, description: string, loc: Span)
    requires m("時$", description) || m("^もし.*ならば$", description)
    ensures OnBlock(Japanese, m, ContextBlock("context", description, loc, [])) == None
  {
    JapaneseResolution();
  }

  /** A prefix whose pattern the user also lists is dropped by `uniq`,
      yet the deprecation warning is still printed. */
  lemma DuplicatePrefixDropped()
    ensures ResolvePatterns(Config(Some(["^when\\b"]), Some(["when"]))) == ["^when\\b"]
    ensures ResolutionWarnings(Config(Some(["^when\\b"]), Some(["when"]))) == [DeprecationWarning]
  {
    var cfg := Config(Some(["^when\\b"]), Some(["when"]));
    assert PrefixPattern("when") == "^when\\b";
    assert PrefixPatterns(["when"]) == ["^when\\b"];
    var s := ConfiguredPatterns(cfg) + PrefixPatterns(Prefixes(cfg));
    assert s == ["^when\\b", "^when\\b"];
    assert s[..1] == ["^when\\b"];
    UniqOfDistinct(["^when\\b"]);
  }
}
