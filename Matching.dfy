/** Matching a description against the resolved patterns.

    Ruby's regular-expression engine is not part of this model: a `Matcher`
    stands for it, answering whether the pattern source `pattern`, compiled
    with `Regexp.new`, matches somewhere in `subject`. The only patterns
    given a concrete meaning are the ones built from a deprecated prefix
    made of word characters, `^<prefix>\b`. In Ruby `^` matches at the start
    of every line: offset 0, and every offset right after a `'\n'` except
    the end of the text after a final `'\n'`. And `\b`
    after a word character holds at the end of the text or before a
    non-word character. An ASCII character is a word character exactly when
    it is a letter, a digit or `_`; a non-ASCII character may be either, so
    it decides nothing here. */
module Matching {
  import opened PatternSet

  type Matcher = (string, string) -> bool

  /** ASCII letters, digits and the underscore: the ASCII word characters. */
  predicate IsWordChar(c: char) {
    ('a' <= c <= 'z') || ('A' <= c <= 'Z') || ('0' <= c <= '9') || c == '_'
  }

  predicate IsAscii(c: char) {
    c as int < 128
  }

  /** A prefix whose pattern `^<prefix>\b` is literal text followed by a
      word boundary: non-empty and made only of word characters, so that it
      holds no regex metacharacter and ends in a word character. */
  predicate IsWordPrefix(prefix: string) {
    |prefix| > 0 && forall i :: 0 <= i < |prefix| ==> IsWordChar(prefix[i])
  }

  /** Where Ruby's `^` matches: the start of the text, or a position right
      after a `'\n'` that is not the end of the text. */
  predicate IsLineStart(subject: string, i: nat) {
    i == 0 || (i < |subject| && subject[i - 1] == '\n')
  }

  /** `prefix` stands in `subject` at offset `i`, at the start of a line. */
  predicate LineBeginsWith(prefix: string, subject: string, i: nat) {
    IsLineStart(subject, i) && i + |prefix| <= |subject| && subject[i..i + |prefix|] == prefix
  }

  /** `^<prefix>\b` certainly matches at `i`: the prefix starts a line and
      is followed by the end of the text or an ASCII non-word character. */
  predicate WordAt(prefix: string, subject: string, i: nat) {
    LineBeginsWith(prefix, subject, i) &&
    (i + |prefix| == |subject| || (IsAscii(subject[i + |prefix|]) && !IsWordChar(subject[i + |prefix|])))
  }

  /** `^<prefix>\b` may match at `i`: the prefix starts a line and is not
      followed by an ASCII word character. */
  predicate WordMayBeAt(prefix: string, subject: string, i: nat) {
    LineBeginsWith(prefix, subject, i) &&
    (i + |prefix| == |subject| || !IsWordChar(subject[i + |prefix|]))
  }

  /** Some line of `subject` begins with `prefix` as a whole word. */
  predicate SomeLineStartsWithWord(prefix: string, subject: string) {
    exists i | 0 <= i <= |subject| :: WordAt(prefix, subject, i)
  }

  /** Some line of `subject` begins with `prefix` not followed by an ASCII
      word character. */
  predicate SomeLineMayStartWithWord(prefix: string, subject: string) {
    exists i | 0 <= i <= |subject| :: WordMayBeAt(prefix, subject, i)
  }

  /** The engine gives every word-prefix pattern its line-anchored,
      word-boundary meaning: it matches where a line certainly begins with
      the word, and only where a line may begin with it. */
  ghost predicate HonoursPrefixPatterns(m: Matcher) {
    forall prefix, subject :: IsWordPrefix(prefix) ==>
      (SomeLineStartsWithWord(prefix, subject) ==> m(PrefixPattern(prefix), subject)) &&
      (m(PrefixPattern(prefix), subject) ==> SomeLineMayStartWithWord(prefix, subject))
  }

  /** `Regexp.union(patterns).match?(subject)`: some pattern matches. The
      union of no pattern matches nothing, and one matching pattern at any
      position is enough. */
  predicate MatchesAny(m: Matcher, patterns: seq<string>, subject: string): (r: bool)
    ensures patterns == [] ==> !r
    ensures r <==> exists i :: 0 <= i < |patterns| && m(patterns[i], subject)
  {
    exists p :: p in patterns && m(p, subject)
  }

  /** For text without non-ASCII characters the two readings agree. */
  lemma {:induction false} AsciiWordDecided(prefix: string, subject: string)
    requires forall k :: 0 <= k < |subject| ==> IsAscii(subject[k])
    ensures SomeLineMayStartWithWord(prefix, subject) <==> SomeLineStartsWithWord(prefix, subject)
  {
    if SomeLineMayStartWithWord(prefix, subject) {
      var i :| 0 <= i <= |subject| && WordMayBeAt(prefix, subject, i);
      assert WordAt(prefix, subject, i);
    }
    if SomeLineStartsWithWord(prefix, subject) {
      var i :| 0 <= i <= |subject| && WordAt(prefix, subject, i);
      assert WordMayBeAt(prefix, subject, i);
    }
  }

  /** A text without a line break has one line, which starts at offset 0. */
  lemma SingleLine(prefix: string, subject: string)
    requires '\n' !in subject
    ensures SomeLineMayStartWithWord(prefix, subject) <==> WordMayBeAt(prefix, subject, 0)
  {
  }

  /** An engine that understands only word-prefix patterns and matches
      nothing else; it shows `HonoursPrefixPatterns` can be met. */
  function PrefixOnlyEngine(pattern: string, subject: string): bool {
    4 <= |pattern| && pattern[0] == '^' && pattern[|pattern| - 2..] == "\\b" &&
    IsWordPrefix(pattern[1..|pattern| - 2]) && SomeLineStartsWithWord(pattern[1..|pattern| - 2], subject)
  }

  lemma PrefixOnlyEngineHonours()
    ensures HonoursPrefixPatterns(PrefixOnlyEngine)
  {
    forall prefix, subject | IsWordPrefix(prefix)
      ensures SomeLineStartsWithWord(prefix, subject) ==> PrefixOnlyEngine(PrefixPattern(prefix), subject)
      ensures PrefixOnlyEngine(PrefixPattern(prefix), subject) ==> SomeLineMayStartWithWord(prefix, subject)
    {
      var pat := PrefixPattern(prefix);
      assert pat[1..|pat| - 2] == prefix;
      if SomeLineStartsWithWord(prefix, subject) {
        var i :| 0 <= i <= |subject| && WordAt(prefix, subject, i);
        assert WordMayBeAt(prefix, subject, i);
      }
    }
  }
}
