# RSpec/ContextWording, modelled in Dafny

`RSpec/ContextWording` is a RuboCop cop for RSpec suites. It checks the
description of every `context` and `shared_context` block against a list of
accepted regular expressions. A block whose literal description matches none of
them is reported. The report sits on the string literal, and its message is
`Write context description like <patterns>.`

The cop's configuration has two keys, and either may be missing:

- `Patterns`: the accepted regexes.
- `Prefixes`: a deprecated list of words. Each word becomes the pattern
  `^<word>\b`.

The resolved list is `Patterns` followed by the prefix-derived patterns, with
duplicates removed and the first occurrence kept.

The project has five modules:

- `PatternSet` (PatternSet.dfy): the configuration and the pattern-list
  resolution (`patterns`, `prefix_patterns`, `prefixes`, Ruby's `uniq`). It also
  returns the deprecation warnings printed by one resolution.
- `Matching` (Matching.dfy): matching a description against the list.
  - Ruby's regex engine is a parameter, `m: (pattern, subject) -> bool`.
  - `HonoursPrefixPatterns(m)` gives word-prefix patterns `^<word>\b` their
    concrete meaning, as Ruby defines it:
    - `^` matches at the start of the text and right after every `\n`,
      except one that ends the text.
    - `\b` after the word holds at the end of the text, or before an ASCII
      character outside `[A-Za-z0-9_]`.
    - It fails before one of `[A-Za-z0-9_]`. A non-ASCII character after the
      word is left to the engine.
    Ruby's engine meets this condition, and so does the small engine
    `PrefixOnlyEngine`.
  - `MatchesAny` is `Regexp.union(...).match?` for patterns without numbered
    group references: backreferences such as `\1` or `\k<1>`, subexpression
    calls such as `\g<1>`, and conditionals such as `(?(1)...)`.
- `Rendering` (Rendering.dfy): the message.
  - `JoinedPatterns` is a method that follows the source's steps: quote each
    pattern, return a lone item as is, otherwise pop the last item, push it back
    as `"or " + last` and join with `", "`.
  - It is proved equal to `Enumeration`, a separate item-by-item definition of
    the same text.
- `ContextWording` (ContextWording.dfy): the syntax node as a datatype, the
  `context_wording` node matcher (`ContextDescription`), `bad_pattern?`
  (`BadPattern`), `on_block` (`OnBlock`), and the general properties.
- `ContextWordingExamples` (Examples.dfy): the behaviour that
  `spec/rubocop/cop/rspec/context_wording_spec.rb` expects. The prefix examples
  are proved for every engine that gives `^<word>\b` its Ruby meaning, Ruby's
  own included. The regexes of the Japanese example stay abstract.

Three details of the code are easy to miss:

- The receiver check `#rspec?` accepts an implicit receiver and also the
  `RSpec` constant.
- `prefix_patterns` calls `warn` each time the pattern list is resolved, so the
  deprecation warning is printed on every resolution.
- With no pattern at all, the message reads `Write context description like or .`
  This is because `pop` on an empty array yields nil, which interpolates as the
  empty string.

## Model

| member | source | states |
|---|---|---|
| `PatternSet.Uniq` | lib/rubocop/cop/rspec/context_wording.rb:76 | `uniq` returns a list without duplicates that has exactly the elements of its input and is no longer than it |
| `PatternSet.UniqFirstSeenOrder` | lib/rubocop/cop/rspec/context_wording.rb:76 | `uniq` keeps elements in the order of their first occurrence in the input |
| `PatternSet.UniqOfDistinct` | lib/rubocop/cop/rspec/context_wording.rb:76 | a list with no duplicates is returned unchanged |
| `PatternSet.UniqIdempotent` | lib/rubocop/cop/rspec/context_wording.rb:76 | applying `uniq` twice is the same as applying it once |
| `PatternSet.UniqAppend` | lib/rubocop/cop/rspec/context_wording.rb:76 | deduplicating `a + b` leaves `uniq(a)` unchanged at the front; every later element comes from `b` and is absent from `a` |
| `PatternSet.PrefixPattern` | lib/rubocop/cop/rspec/context_wording.rb:81 | the pattern for one prefix is three characters longer than it: `^`, the prefix unchanged (not escaped), then `\` and `b` |
| `PatternSet.PrefixPatterns` | lib/rubocop/cop/rspec/context_wording.rb:79-82 | one pattern per prefix, in the same order; entry i is `^`, then prefix i, then `\b` |
| `PatternSet.PrefixPatternInjective` | lib/rubocop/cop/rspec/context_wording.rb:81 | distinct prefixes give distinct patterns |
| `PatternSet.Prefixes` | lib/rubocop/cop/rspec/context_wording.rb:84-86 | a missing (nil) `Prefixes` key reads as the empty list; otherwise the configured list is used unchanged |
| `PatternSet.ConfiguredPatterns` | lib/rubocop/cop/rspec/context_wording.rb:76 | a missing (nil) `Patterns` key reads as the empty list; otherwise the configured list is used unchanged |
| `PatternSet.ResolvePatterns` | lib/rubocop/cop/rspec/context_wording.rb:75-77 | the resolved list has no duplicates; a string is in it iff it is a configured pattern or a prefix-derived pattern (a nil key counts as empty) |
| `PatternSet.ResolvedOrder` | lib/rubocop/cop/rspec/context_wording.rb:76 | the user's `Patterns` come first, deduplicated in their own order; every later entry is a prefix-derived pattern that `Patterns` does not hold |
| `PatternSet.UniqAppendFresh` | lib/rubocop/cop/rspec/context_wording.rb:76 | appending distinct elements that `a` does not hold, `uniq` keeps all of them, in order, after `uniq(a)` |
| `PatternSet.DistinctPrefixesKept` | lib/rubocop/cop/rspec/context_wording.rb:76-81 | distinct prefixes whose patterns `Patterns` does not already hold each keep their own `^<prefix>\b` pattern, in order, after the deduplicated `Patterns` |
| `PatternSet.MigrationToPatterns` | lib/rubocop/cop/rspec/context_wording.rb:75-82 | moving the resolved list into `Patterns` and dropping `Prefixes`, as the warning asks, accepts the same patterns in the same order and prints no warning |
| `PatternSet.ResolutionWarnings` | lib/rubocop/cop/rspec/context_wording.rb:80 | one resolution prints the deprecation warning exactly once if `Prefixes` is non-empty, and prints nothing otherwise |
| `Matching.MatchesAny` | lib/rubocop/cop/rspec/context_wording.rb:70-72 | the union of the patterns matches iff the pattern at some index matches; the union of no pattern matches nothing |
| `Matching.AsciiWordDecided` | lib/rubocop/cop/rspec/context_wording.rb:81 | on a description made of ASCII characters, "some line may begin with the word" and "some line begins with the word" coincide, so `^<word>\b` is fully decided |
| `Matching.SingleLine` | lib/rubocop/cop/rspec/context_wording.rb:81 | on a description without a newline, `^` can only anchor at the start |
| `Matching.PrefixOnlyEngineHonours` | lib/rubocop/cop/rspec/context_wording.rb:81 | the line-anchored, whole-word reading of `^<word>\b` is a consistent engine, so the condition on the engine can be met |
| `Rendering.Quoted` | lib/rubocop/cop/rspec/context_wording.rb:63 | every pattern is wrapped in single quotes, in order |
| `Rendering.Join` | lib/rubocop/cop/rspec/context_wording.rb:67 | `join` of no item is the empty string; a join of one or more items begins with the first item |
| `Rendering.JoinEndsWithLast` | lib/rubocop/cop/rspec/context_wording.rb:67 | a join of one or more items ends with the last item |
| `Rendering.Enumeration` | lib/rubocop/cop/rspec/context_wording.rb:62-68 | the rendered list starts with the first quoted pattern; with two or more patterns it ends with `, or ` followed by the last quoted pattern |
| `Rendering.EnumerationIsJoin` | lib/rubocop/cop/rspec/context_wording.rb:66-67 | for two or more patterns, the rendering is the `", "` join of the quoted patterns with `or ` put before the last one |
| `Rendering.OffenseMessage` | lib/rubocop/cop/rspec/context_wording.rb:52 | the message begins with `Write context description like `, ends with `.`, and for a non-empty list the first quoted pattern follows the head directly |
| `Rendering.JoinedPatterns` | lib/rubocop/cop/rspec/context_wording.rb:62-68 | the quote, pop, push and join steps produce exactly `Enumeration(patterns)`, for every length including 0 and 1 |
| `ContextWording.ContextDescription` | lib/rubocop/cop/rspec/context_wording.rb:45-47 | a description is captured iff the node is a block whose call has an implicit or `RSpec` receiver, the selector `context` or `shared_context`, and a string literal as first argument; the capture is that argument |
| `ContextWording.IsRSpecReceiver` | lib/rubocop/cop/rspec/context_wording.rb:46 | `#rspec?` accepts every receiver except a qualified one: no receiver, or the `RSpec` constant |
| `ContextWording.BadPattern` | lib/rubocop/cop/rspec/context_wording.rb:58-60 | a description is bad iff no pattern among the configured and the prefix-derived ones matches it; removing duplicates does not change the verdict |
| `ContextWording.OnBlock` | lib/rubocop/cop/rspec/context_wording.rb:49-54 | an offence is reported iff the node has the checked shape and no resolved pattern matches the literal; it is placed on the literal, and its message is `MSG` filled with the rendered pattern list |
| `ContextWording.OtherMethodsNeverFlagged` | lib/rubocop/cop/rspec/context_wording.rb:46 | `describe` and every selector other than `context`/`shared_context` are never reported |
| `ContextWording.QualifiedCallsNeverFlagged` | lib/rubocop/cop/rspec/context_wording.rb:46 | a call through a receiver other than `RSpec` is never reported |
| `ContextWording.NonLiteralDescriptionNeverFlagged` | lib/rubocop/cop/rspec/context_wording.rb:46 | a missing or non-literal first argument is never reported, whatever the configuration |
| `ContextWording.MetadataIrrelevant` | lib/rubocop/cop/rspec/context_wording.rb:46 | arguments after the description never change the outcome |
| `ContextWording.FlaggedIffNoConfiguredPatternMatches` | lib/rubocop/cop/rspec/context_wording.rb:58-59 | a checked block is reported iff neither a configured pattern nor any `^<prefix>\b` pattern matches its description; deduplication does not affect the verdict |
| `ContextWording.PrefixFlagging` | lib/rubocop/cop/rspec/context_wording.rb:79-82 | with word prefixes configured, a checked block is accepted when some line of its description begins with one of them as a whole word; it is reported when no configured pattern matches and no line can begin so; for an ASCII description, it is reported iff no configured pattern matches and no line begins with a prefix as a whole word |
| `ContextWording.EmptyConfigurationFlagsEverything` | lib/rubocop/cop/rspec/context_wording.rb:62-68 | with no patterns, every checked block is reported, with the message `Write context description like or .` |
| `ContextWordingExamples.WhenWithPatterns` | spec/rubocop/cop/rspec/context_wording_spec.rb:4 | `Prefixes [when, with]` with nil `Patterns` resolves to exactly `['^when\b', '^with\b']` |
| `ContextWordingExamples.WhenWithPrefixPatterns` | spec/rubocop/cop/rspec/context_wording_spec.rb:4 | the prefixes `[when, with]` map to `['^when\b', '^with\b']` |
| `ContextWordingExamples.WhenWithRendering` | spec/rubocop/cop/rspec/context_wording_spec.rb:17 | those two patterns render as `'^when\b', or '^with\b'` inside the message |
| `ContextWordingExamples.WhenWithResolution` | spec/rubocop/cop/rspec/context_wording_spec.rb:4-17 | that configuration prints the deprecation warning once per resolution and gives the message the spec file expects |
| `ContextWordingExamples.WhenWithFlagging` | spec/rubocop/cop/rspec/context_wording_spec.rb:14-49 | under `[when, with]`, a checked block is accepted when some line of its description begins with either word, and is reported with the expected message on the literal when no line can |
| `ContextWordingExamples.MissingConditionIsFlagged` | spec/rubocop/cop/rspec/context_wording_spec.rb:14-28 | `context` and `shared_context` titled 'the display name not present' are reported |
| `ContextWordingExamples.WhenFollowedBySpaceIsAccepted` | spec/rubocop/cop/rspec/context_wording_spec.rb:30-35 | 'when the display name is not present' is accepted |
| `ContextWordingExamples.WhenFollowedByCommaIsAccepted` | spec/rubocop/cop/rspec/context_wording_spec.rb:37-42 | 'when, for some inexplicable reason, …' is accepted |
| `ContextWordingExamples.WheneverIsFlagged` | spec/rubocop/cop/rspec/context_wording_spec.rb:94-122 | 'whenever you do' is reported, with any trailing metadata (hash, symbol or both) |
| `ContextWordingExamples.LaterLineIsAccepted` | lib/rubocop/cop/rspec/context_wording.rb:81 | under `[when, with]`, the description `"setup\nwhen ready"` is accepted, because `^` also anchors after a newline |
| `ContextWordingExamples.DescribeIsSkipped` | spec/rubocop/cop/rspec/context_wording_spec.rb:7-12 | a `describe` block is never reported, under any configuration |
| `ContextWordingExamples.OnlyIfPatterns` | spec/rubocop/cop/rspec/context_wording_spec.rb:126 | `Prefixes [if]` resolves to exactly `['^if\b']` |
| `ContextWordingExamples.OnlyIfRendering` | spec/rubocop/cop/rspec/context_wording_spec.rb:131 | a single pattern renders as that pattern in quotes, with no `or` |
| `ContextWordingExamples.OnlyIfResolution` | spec/rubocop/cop/rspec/context_wording_spec.rb:125-131 | under `[if]`, the message is `Write context description like '^if\b'.` |
| `ContextWordingExamples.OnlyIfFlagsWhen` | spec/rubocop/cop/rspec/context_wording_spec.rb:128-134 | under `[if]`, 'when display name is present' is reported with that message |
| `ContextWordingExamples.OnlyIfAcceptsIf` | spec/rubocop/cop/rspec/context_wording_spec.rb:136-141 | under `[if]`, 'if display name is present' is accepted |
| `ContextWordingExamples.JapaneseRendering` | spec/rubocop/cop/rspec/context_wording_spec.rb:66 | the two Japanese patterns render as `'時$', or '^もし.*ならば$'` |
| `ContextWordingExamples.JapaneseResolution` | spec/rubocop/cop/rspec/context_wording_spec.rb:54-66 | `Patterns [時$, ^もし.*ならば$]` with nil `Prefixes` resolves to itself, prints no warning and gives the expected message |
| `ContextWordingExamples.JapaneseUnmatchedIsFlagged` | spec/rubocop/cop/rspec/context_wording_spec.rb:63-77 | a description that neither regex matches is reported with both patterns listed |
| `ContextWordingExamples.JapaneseMatchedIsAccepted` | spec/rubocop/cop/rspec/context_wording_spec.rb:79-91 | a description that either regex matches is accepted |
| `ContextWordingExamples.DuplicatePrefixDropped` | lib/rubocop/cop/rspec/context_wording.rb:76-81 | `Patterns ['^when\b']` with `Prefixes [when]` resolves to `['^when\b']`, and the deprecation warning is still printed |

## Left out

- Ruby's regular-expression engine (`Regexp.new`, `Regexp.union`, `match?`)
  is a parameter, not a model. General patterns have no meaning beyond what the
  engine answers.
- Only `^<prefix>\b` patterns get a concrete meaning, and only for non-empty
  prefixes made of word characters. The source does not escape a prefix, so a
  prefix with regex metacharacters means whatever the engine makes of it.
- `ContextWording.PrefixFlagging`: when a non-ASCII character follows a prefix
  in the description, only its two one-way statements apply. Whether Ruby's
  `\b` sees a boundary before that character is left to the engine.
- `ContextWording.BadPattern` and `ContextWording.OnBlock` read
  `Regexp.union(...).match?` as "some pattern matches". `Regexp.union`
  renumbers capture groups, so a pattern with a numbered group reference can
  behave differently inside the union when another pattern before it has a
  group. Such references are backreferences such as `\1` or `\k<1>`,
  subexpression calls such as `\g<1>`, and conditionals such as `(?(1)...)`.
  For example, `(b)\g<1>` matches `"bb"` alone, but after `(a)` its `\g<1>`
  calls `(a)`. That difference is not modelled.
- An invalid regex in `Patterns` raises `RegexpError` in `Regexp.new`. That
  failure is not modelled.
- The `warn` call is I/O. The model returns the warnings that one resolution
  prints (`ResolutionWarnings`). It does not count how many resolutions happen
  while one node is checked (one for `bad_pattern?`, one more when the message
  is built).
- The `@united_pattern` cache is left out. The model rebuilds the union from the
  configuration on every call, which is what the first call of a cop instance
  computes.
- The RuboCop machinery is replaced by a small `Node` datatype and a returned
  `Offense`. This covers the `def_node_matcher` DSL, the AST traversal,
  `add_offense` and the loading of `cop_config`.
- `#rspec?` comes from RuboCop's RSpec language module, which is not part of
  this model. It is modelled as "implicit receiver or the `RSpec` constant",
  with `::RSpec` folded into the latter.
- Safe-navigation calls (`csend`) and numbered-parameter blocks (`numblock`) do
  not have the matched node shape. They are not represented.
- Configuration values other than a list or nil (a bare string, say) are not
  modelled.
