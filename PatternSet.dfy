/** Resolution of the cop's configuration into the ordered list of accepted
    patterns: the `Patterns` key, followed by one `^<prefix>\b` pattern per
    entry of the deprecated `Prefixes` key, with duplicates removed. */
module PatternSet {
  import opened Wrappers

  /** The two configuration keys the cop reads; either may be absent (nil). */
  datatype Config = Config(patterns: Option<seq<string>>, prefixes: Option<seq<string>>)

  /** The warning printed whenever `Prefixes` is non-empty. */
  const DeprecationWarning: string :=
    "Configuration key `Prefixes` for RSpec/ContextWording is deprecated in favor of `Patterns`. Please use that instead."

  predicate NoDuplicates(s: seq<string>) {
    forall i, j :: 0 <= i < j < |s| ==> s[i] != s[j]
  }

  /** Position of the first occurrence of `x` in `s`. */
  function IndexOf(s: seq<string>, x: string): (k: nat)
    requires x in s
    ensures k < |s| && s[k] == x && x !in s[..k]
  {
    if s[0] == x then 0 else 1 + IndexOf(s[1..], x)
  }

  /** Ruby's `Array#uniq`: scan left to right, keep an element unless an
      equal one was already kept. */
  function Uniq(s: seq<string>): (r: seq<string>)
    ensures NoDuplicates(r)
    ensures forall x :: x in r <==> x in s
    ensures |r| <= |s|
  {
    if s == [] then []
    else
      var u := Uniq(s[..|s| - 1]);
      assert s == s[..|s| - 1] + [s[|s| - 1]];
      if s[|s| - 1] in u then u else u + [s[|s| - 1]]
  }

  /** The pattern built from one deprecated prefix: `^`, the prefix as is
      (not escaped), then the two characters `\b`. */
  function PrefixPattern(prefix: string): (r: string)
    ensures |r| == |prefix| + 3
    ensures r[0] == '^' && r[1..|r| - 2] == prefix && r[|r| - 2] == '\\' && r[|r| - 1] == 'b'
  {
    "^" + prefix + "\\b"
  }

  /** `prefixes.map { |prefix| "^#{prefix}\\b" }`. */
  function PrefixPatterns(prefixes: seq<string>): (r: seq<string>)
    ensures |r| == |prefixes|
    ensures forall i :: 0 <= i < |r| ==> r[i] == PrefixPattern(prefixes[i])
  {
    if prefixes == [] then []
    else [PrefixPattern(prefixes[0])] + PrefixPatterns(prefixes[1..])
  }

  /** `cop_config['Prefixes'] || []` */
  function Prefixes(cfg: Config): (r: seq<string>)
    ensures cfg.prefixes.None? ==> r == []
    ensures cfg.prefixes.Some? ==> r == cfg.prefixes.value
  {
    cfg.prefixes.GetOr([])
  }

  /** `cop_config['Patterns'] || []` */
  function ConfiguredPatterns(cfg: Config): (r: seq<string>)
    ensures cfg.patterns.None? ==> r == []
    ensures cfg.patterns.Some? ==> r == cfg.patterns.value
  {
    cfg.patterns.GetOr([])
  }

  /** `((cop_config['Patterns'] || []) + prefix_patterns).uniq` */
  function ResolvePatterns(cfg: Config): (r: seq<string>)
    ensures NoDuplicates(r)
    ensures forall x :: x in r <==> x in ConfiguredPatterns(cfg) || x in PrefixPatterns(Prefixes(cfg))
  {
    Uniq(ConfiguredPatterns(cfg) + PrefixPatterns(Prefixes(cfg)))
  }

  /** The warnings one resolution prints: the deprecation warning exactly
      when `Prefixes` is non-empty, whether or not its patterns survive `uniq`. */
  function ResolutionWarnings(cfg: Config): (w: seq<string>)
    ensures |w| <= 1
    ensures w != [] <==> Prefixes(cfg) != []
    ensures forall x :: x in w ==> x == DeprecationWarning
  {
    if Prefixes(cfg) == [] then [] else [DeprecationWarning]
  }

  // ---------------------------------------------------------------------
  // Properties of Uniq and of the resolved list

  /** The first occurrence of an element is characterised by its three properties. */
  lemma IndexOfUnique(s: seq<string>, x: string, k: nat)
    requires k < |s| && s[k] == x && x !in s[..k]
    ensures IndexOf(s, x) == k
  {
  }

  /** An element already present in a prefix is first found inside it. */
  lemma IndexOfInPrefix(s: seq<string>, n: nat, x: string)
    requires n <= |s| && x in s[..n]
    ensures IndexOf(s, x) == IndexOf(s[..n], x)
  {
    var k := IndexOf(s[..n], x);
    assert s[..k] == s[..n][..k];
    IndexOfUnique(s, x, k);
  }

  /** `uniq` keeps elements in the order of their first occurrence. */
  lemma {:induction false} UniqFirstSeenOrder(s: seq<string>, i: nat, j: nat)
    requires i < j < |Uniq(s)|
    ensures IndexOf(s, Uniq(s)[i]) < IndexOf(s, Uniq(s)[j])
  {
    var n := |s|;
    var s' := s[..n - 1];
    var u := Uniq(s');
    var x, y := Uniq(s)[i], Uniq(s)[j];
    assert i < |u| && x == u[i];
    IndexOfInPrefix(s, n - 1, x);
    if j < |u| {
      UniqFirstSeenOrder(s', i, j);
      IndexOfInPrefix(s, n - 1, y);
    } else {
      assert y == s[n - 1] && y !in s[..n - 1];
      IndexOfUnique(s, y, n - 1);
    }
  }

  /** A list without duplicates is left unchanged by `uniq`. */
  lemma {:induction false} UniqOfDistinct(s: seq<string>)
    requires NoDuplicates(s)
    ensures Uniq(s) == s
  {
    if s != [] {
      var s' := s[..|s| - 1];
      UniqOfDistinct(s');
      assert s[|s| - 1] !in s';
      assert s == s' + [s[|s| - 1]];
    }
  }

  /** `uniq` is idempotent. */
  lemma UniqIdempotent(s: seq<string>)
    ensures Uniq(Uniq(s)) == Uniq(s)
  {
    UniqOfDistinct(Uniq(s));
  }

  /** Deduplicating `a + b` keeps `uniq(a)` unchanged at the front; what
      follows comes from `b` and is absent from `a`. */
  lemma {:induction false} UniqAppend(a: seq<string>, b: seq<string>)
    ensures |Uniq(a)| <= |Uniq(a + b)|
    ensures Uniq(a + b)[..|Uniq(a)|] == Uniq(a)
    ensures forall k :: |Uniq(a)| <= k < |Uniq(a + b)| ==> Uniq(a + b)[k] in b && Uniq(a + b)[k] !in a
  {
    if b == [] {
      assert a + b == a;
    } else {
      var b' := b[..|b| - 1];
      UniqAppend(a, b');
      assert (a + b)[..|a + b| - 1] == a + b';
      assert b == b' + [b[|b| - 1]];
    }
  }

  /** The user's `Patterns` come first in the resolved list, deduplicated in
      their own order; every later entry is a prefix-derived pattern that the
      user's list does not already hold. */
  lemma ResolvedOrder(cfg: Config)
    ensures |Uniq(ConfiguredPatterns(cfg))| <= |ResolvePatterns(cfg)|
    ensures ResolvePatterns(cfg)[..|Uniq(ConfiguredPatterns(cfg))|] == Uniq(ConfiguredPatterns(cfg))
    ensures forall k :: |Uniq(ConfiguredPatterns(cfg))| <= k < |ResolvePatterns(cfg)| ==>
      ResolvePatterns(cfg)[k] in PrefixPatterns(Prefixes(cfg)) && ResolvePatterns(cfg)[k] !in ConfiguredPatterns(cfg)
  {
    UniqAppend(ConfiguredPatterns(cfg), PrefixPatterns(Prefixes(cfg)));
  }

  /** Distinct prefixes give distinct patterns. */
  lemma PrefixPatternInjective(p: string, q: string)
    requires PrefixPattern(p) == PrefixPattern(q)
    ensures p == q
  {
    var a, b := PrefixPattern(p), PrefixPattern(q);
    assert |p| == |q|;
    forall i | 0 <= i < |p| ensures p[i] == q[i] {
      assert a[i + 1] == p[i] && b[i + 1] == q[i];
    }
  }

  /** Appending one element `s` does not hold: `uniq` keeps it, last. */
  lemma UniqSnocFresh(s: seq<string>, x: string)
    requires x !in s
    ensures Uniq(s + [x]) == Uniq(s) + [x]
  {
    var t := s + [x];
    assert t[..|t| - 1] == s && t[|t| - 1] == x;
  }

  /** Dropping the last element of a list without duplicates leaves a list
      without duplicates that does not hold that element. */
  lemma DistinctInit(b: seq<string>)
    requires b != [] && NoDuplicates(b)
    ensures NoDuplicates(b[..|b| - 1]) && b[|b| - 1] !in b[..|b| - 1]
  {
    var b' := b[..|b| - 1];
    forall k | 0 <= k < |b'| ensures b'[k] != b[|b| - 1] {
      assert b'[k] == b[k];
    }
  }

  /** Appending distinct elements that `a` does not hold: `uniq` keeps all of them, in order. */
  lemma {:induction false} UniqAppendFresh(a: seq<string>, b: seq<string>)
    requires NoDuplicates(b)
    requires forall i :: 0 <= i < |b| ==> b[i] !in a
    ensures Uniq(a + b) == Uniq(a) + b
  {
    if b == [] {
      assert a + b == a;
    } else {
      var b', last := b[..|b| - 1], b[|b| - 1];
      DistinctInit(b);
      forall i | 0 <= i < |b'| ensures b'[i] !in a {
        assert b'[i] == b[i];
      }
      assert last !in a + b';
      calc {
        Uniq(a + b);
        { assert a + b == (a + b') + [last]; }
        Uniq((a + b') + [last]);
        { UniqSnocFresh(a + b', last); }
        Uniq(a + b') + [last];
        { UniqAppendFresh(a, b'); }
        (Uniq(a) + b') + [last];
        { assert b == b' + [last]; }
        Uniq(a) + b;
      }
    }
  }

  /** Distinct deprecated prefixes whose patterns the user does not already
      list each keep their own pattern, in their order, after the user's
      deduplicated `Patterns`. */
  lemma DistinctPrefixesKept(cfg: Config)
    requires NoDuplicates(Prefixes(cfg))
    requires forall w :: w in Prefixes(cfg) ==> PrefixPattern(w) !in ConfiguredPatterns(cfg)
    ensures ResolvePatterns(cfg) == Uniq(ConfiguredPatterns(cfg)) + PrefixPatterns(Prefixes(cfg))
  {
    var ps, pp := Prefixes(cfg), PrefixPatterns(Prefixes(cfg));
    forall i, j | 0 <= i < j < |pp| ensures pp[i] != pp[j] {
      if pp[i] == pp[j] {
        PrefixPatternInjective(ps[i], ps[j]);
      }
    }
    forall i | 0 <= i < |pp| ensures pp[i] !in ConfiguredPatterns(cfg) {
      assert ps[i] in ps;
    }
    UniqAppendFresh(ConfiguredPatterns(cfg), pp);
  }

  /** Moving the resolved list into `Patterns` and dropping `Prefixes`, as the
      deprecation warning asks, accepts the same patterns in the same order
      and no longer prints the warning. */
  lemma MigrationToPatterns(cfg: Config)
    ensures ResolvePatterns(Config(Some(ResolvePatterns(cfg)), None)) == ResolvePatterns(cfg)
    ensures ResolutionWarnings(Config(Some(ResolvePatterns(cfg)), None)) == []
  {
    var migrated := Config(Some(ResolvePatterns(cfg)), None);
    assert ConfiguredPatterns(migrated) + PrefixPatterns(Prefixes(migrated)) == ResolvePatterns(cfg);
    UniqIdempotent(ConfiguredPatterns(cfg) + PrefixPatterns(Prefixes(cfg)));
  }
}
