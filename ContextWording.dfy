/** The `RSpec/ContextWording` cop: a `context` or `shared_context` block
    whose literal description matches none of the accepted patterns is
    reported on that literal, with a message listing the patterns. */
module ContextWording {
  import opened Wrappers
  import opened PatternSet
  import opened Matching
  import opened Rendering

  /** Source range of a node, as offsets into the file. */
  datatype Span = Span(begin: nat, end: nat)

  /** The kinds of argument a call can carry. Only a plain string literal
      (`str`) can be a checked description; an interpolated string (`dstr`),
      a symbol, a hash of metadata or any other expression cannot. */
  datatype Arg =
    | Str(value: string, loc: Span)
    | Dstr(loc: Span)
    | Sym(name: string)
    | Hash(keys: seq<string>)
    | Expr

  /** The receiver of a call: none, the `RSpec` constant, or anything else. */
  datatype Receiver = Implicit | RSpecConst | Qualified

  datatype Call = Call(receiver: Receiver, selector: string, args: seq<Arg>)

  /** A call with a `do ... end` or `{ ... }` block, or a bare call. */
  datatype Node = Block(call: Call) | Send(call: Call)

  datatype Offense = Offense(loc: Span, message: string)

  /** `#rspec?`: no receiver, or the `RSpec` constant. */
  predicate IsRSpecReceiver(r: Receiver): (ok: bool)
    ensures ok <==> !r.Qualified?
  {
    r == Implicit || r == RSpecConst
  }

  predicate IsContextMethod(name: string) {
    name == "context" || name == "shared_context"
  }

  /** The shape half of the `context_wording` node matcher,
      `(block (send #rspec? {:context :shared_context} $(str ...) ...) ...)`:
      the string literal it captures. */
  function ContextDescription(node: Node): (r: Option<Arg>)
    ensures r.Some? <==>
      node.Block? && IsRSpecReceiver(node.call.receiver) && IsContextMethod(node.call.selector) &&
      |node.call.args| > 0 && node.call.args[0].Str?
    ensures r.Some? ==> r.value == node.call.args[0]
  {
    if node.Block? && IsRSpecReceiver(node.call.receiver) && IsContextMethod(node.call.selector)
       && |node.call.args| > 0 && node.call.args[0].Str?
    then Some(node.call.args[0])
    else None
  }

  /** `bad_pattern?`: no resolved pattern matches the description. */
  predicate BadPattern(cfg: Config, m: Matcher, description: string): (bad: bool)
    ensures bad <==> forall p :: p in ConfiguredPatterns(cfg) + PrefixPatterns(Prefixes(cfg)) ==> !m(p, description)
  {
    !MatchesAny(m, ResolvePatterns(cfg), description)
  }

  /** `on_block`: report the captured literal when its text is a bad pattern. */
  function OnBlock(cfg: Config, m: Matcher, node: Node): (r: Option<Offense>)
    ensures r.Some? <==>
      node.Block? && IsRSpecReceiver(node.call.receiver) && IsContextMethod(node.call.selector) &&
      |node.call.args| > 0 && node.call.args[0].Str? &&
      forall p :: p in ResolvePatterns(cfg) ==> !m(p, node.call.args[0].value)
    ensures r.Some? ==> r.value.loc == node.call.args[0].loc
    ensures r.Some? ==> r.value.message == MessageHead + Enumeration(ResolvePatterns(cfg)) + MessageTail
  {
    match ContextDescription(node)
    case Some(description) =>
      if BadPattern(cfg, m, description.value)
      then Some(Offense(description.loc, OffenseMessage(ResolvePatterns(cfg))))
      else None
    case None => None
  }

  // ---------------------------------------------------------------------
  // General properties

  /** Only `context` and `shared_context` are checked: `describe`, `it` and
      every other selector are never reported. */
  lemma OtherMethodsNeverFlagged(cfg: Config, m: Matcher, node: Node)
    requires !IsContextMethod(node.call.selector)
    ensures OnBlock(cfg, m, node) == None
  {
  }

  /** A call through any receiver other than `RSpec` is never reported. */
  lemma QualifiedCallsNeverFlagged(cfg: Config, m: Matcher, node: Node)
    requires node.call.receiver == Qualified
    ensures OnBlock(cfg, m, node) == None
  {
  }

  /** A missing or non-literal first argument is skipped, whatever the configuration. */
  lemma NonLiteralDescriptionNeverFlagged(cfg: Config, m: Matcher, node: Node)
    requires node.call.args == [] || !node.call.args[0].Str?
    ensures OnBlock(cfg, m, node) == None
  {
  }

  /** Arguments after the description (metadata hashes, symbols, or both)
      never change the outcome. */
  lemma MetadataIrrelevant(cfg: Config, m: Matcher, receiver: Receiver, selector: string,
                           description: Arg, extra1: seq<Arg>, extra2: seq<Arg>)
    ensures OnBlock(cfg, m, Block(Call(receiver, selector, [description] + extra1)))
         == OnBlock(cfg, m, Block(Call(receiver, selector, [description] + extra2)))
  {
  }

  /** A checked block is reported exactly when no user pattern and no
      prefix-derived pattern matches its description: deduplication and
      order do not affect the verdict. */
  lemma {:induction false} FlaggedIffNoConfiguredPatternMatches(cfg: Config, m: Matcher, node: Node)
    requires ContextDescription(node).Some?
    ensures OnBlock(cfg, m, node).Some? <==>
      (forall p :: p in ConfiguredPatterns(cfg) ==> !m(p, node.call.args[0].value)) &&
      (forall w :: w in Prefixes(cfg) ==> !m(PrefixPattern(w), node.call.args[0].value))
  {
    var s := node.call.args[0].value;
    var pp := PrefixPatterns(Prefixes(cfg));
    forall w | w in Prefixes(cfg) ensures PrefixPattern(w) in pp {
      var i :| 0 <= i < |Prefixes(cfg)| && Prefixes(cfg)[i] == w;
      assert pp[i] == PrefixPattern(w);
    }
  }

  /** With word prefixes configured: a checked block is accepted when some
      line of its description begins with one of them as a whole word; it
      is reported when no configured pattern matches and no line may begin
      with any of them; and for a description of ASCII characters only, it
      is reported exactly when no configured pattern matches and no line
      begins with a prefix as a whole word. */
  lemma {:induction false} PrefixFlagging(cfg: Config, m: Matcher, node: Node)
    requires forall w :: w in Prefixes(cfg) ==> IsWordPrefix(w)
    requires HonoursPrefixPatterns(m)
    requires ContextDescription(node).Some?
    ensures (exists w :: w in Prefixes(cfg) && SomeLineStartsWithWord(w, node.call.args[0].value)) ==>
      OnBlock(cfg, m, node) == None
    ensures (forall p :: p in ConfiguredPatterns(cfg) ==> !m(p, node.call.args[0].value)) &&
            (forall w :: w in Prefixes(cfg) ==> !SomeLineMayStartWithWord(w, node.call.args[0].value)) ==>
      OnBlock(cfg, m, node).Some?
    ensures (forall k :: 0 <= k < |node.call.args[0].value| ==> IsAscii(node.call.args[0].value[k])) ==>
      (OnBlock(cfg, m, node).Some? <==>
        (forall p :: p in ConfiguredPatterns(cfg) ==> !m(p, node.call.args[0].value)) &&
        (forall w :: w in Prefixes(cfg) ==> !SomeLineStartsWithWord(w, node.call.args[0].value)))
  {
    var s := node.call.args[0].value;
    FlaggedIffNoConfiguredPatternMatches(cfg, m, node);
    if forall k :: 0 <= k < |s| ==> IsAscii(s[k]) {
      forall w | w in Prefixes(cfg)
        ensures SomeLineMayStartWithWord(w, s) <==> SomeLineStartsWithWord(w, s)
      {
        AsciiWordDecided(w, s);
      }
    }
  }

  /** With no pattern at all, every checked block is reported, and the
      message lists nothing but the connective. */
  lemma EmptyConfigurationFlagsEverything(cfg: Config, m: Matcher, node: Node)
    requires ConfiguredPatterns(cfg) == [] && Prefixes(cfg) == []
    requires ContextDescription(node).Some?
    ensures OnBlock(cfg, m, node)
         == Some(Offense(node.call.args[0].loc, "Write context description like or ."))
  {
    assert ResolvePatterns(cfg) == [];
    assert OffenseMessage([]) == MessageHead + "or " + MessageTail;
    assert MessageHead + "or " + MessageTail == "Write context description like or .";
    assert BadPattern(cfg, m, node.call.args[0].value);
  }
}
