/** Rendering of the offence message: the resolved patterns, each in single
    quotes, separated by ", ", the last one introduced by "or ". */
module Rendering {

  /** The message template `MSG`, split around its `%<patterns>s` slot. */
  const MessageHead: string := "Write context description like "
  const MessageTail: string := "."

  function Quote(pattern: string): string {
    "'" + pattern + "'"
  }

  /** `patterns.map { |pattern| "'#{pattern}'" }` */
  function Quoted(patterns: seq<string>): (r: seq<string>)
    ensures |r| == |patterns|
    ensures forall i :: 0 <= i < |r| ==> r[i] == Quote(patterns[i])
  {
    if patterns == [] then [] else [Quote(patterns[0])] + Quoted(patterns[1..])
  }

  /** Ruby's `Array#join(sep)` on strings. */
  function Join(items: seq<string>, sep: string): (r: string)
    ensures |items| == 0 ==> r == ""
    ensures |items| >= 1 ==> items[0] <= r
  {
    if |items| == 0 then ""
    else if |items| == 1 then items[0]
    else items[0] + sep + Join(items[1..], sep)
  }

  /** A join ends with its last item. */
  lemma {:induction false} JoinEndsWithLast(items: seq<string>, sep: string)
    requires |items| >= 1
    ensures |items[|items| - 1]| <= |Join(items, sep)|
    ensures Join(items, sep)[|Join(items, sep)| - |items[|items| - 1]|..] == items[|items| - 1]
  {
    if |items| >= 2 {
      JoinEndsWithLast(items[1..], sep);
      assert items[1..][|items| - 2] == items[|items| - 1];
    }
  }

  /** The list as the message shows it, defined item by item: one pattern
      stands alone, two read `'a', or 'b'`, and a longer list puts its head
      before the rendering of its tail. An empty list reads "or " (nothing
      after the connective). */
  function Enumeration(patterns: seq<string>): (r: string)
    ensures |patterns| >= 1 ==> Quote(patterns[0]) <= r
    ensures |patterns| >= 2 ==> |r| >= |Quote(patterns[|patterns| - 1])| + 5
    ensures |patterns| >= 2 ==>
      r[|r| - |Quote(patterns[|patterns| - 1])| - 5..] == ", or " + Quote(patterns[|patterns| - 1])
  {
    if |patterns| == 0 then "or "
    else if |patterns| == 1 then Quote(patterns[0])
    else if |patterns| == 2 then Quote(patterns[0]) + ", or " + Quote(patterns[1])
    else Quote(patterns[0]) + ", " + Enumeration(patterns[1..])
  }

  /** `format(MSG, patterns: joined_patterns)` */
  function OffenseMessage(patterns: seq<string>): (r: string)
    ensures MessageHead <= r && r[|r| - 1] == '.'
    ensures |patterns| >= 1 ==> MessageHead + Quote(patterns[0]) <= r
  {
    MessageHead + Enumeration(patterns) + MessageTail
  }

  /** For two or more patterns the item-by-item rendering is the join of the
      quoted patterns with "or " prepended to the last one. */
  lemma {:induction false} EnumerationIsJoin(patterns: seq<string>)
    requires |patterns| >= 2
    ensures Enumeration(patterns) ==
      Join(Quoted(patterns[..|patterns| - 1]) + ["or " + Quote(patterns[|patterns| - 1])], ", ")
  {
    var n := |patterns|;
    var items := Quoted(patterns[..n - 1]) + ["or " + Quote(patterns[n - 1])];
    if n == 2 {
      assert items == [Quote(patterns[0]), "or " + Quote(patterns[1])];
      assert Join(items[1..], ", ") == "or " + Quote(patterns[1]);
      assert ", " + ("or " + Quote(patterns[1])) == ", or " + Quote(patterns[1]);
    } else {
      var tail := patterns[1..];
      EnumerationIsJoin(tail);
      assert tail[..|tail| - 1] == patterns[1..n - 1];
      assert tail[|tail| - 1] == patterns[n - 1];
      assert items[1..] == Quoted(tail[..|tail| - 1]) + ["or " + Quote(tail[|tail| - 1])];
    }
  }

  /** `joined_patterns`: quote every pattern; a single one is returned as is;
      otherwise pop the last quoted item, push it back behind "or " and join
      everything with ", ". Popping an empty list yields nil, which the
      interpolation renders as the empty string. */
  method JoinedPatterns(patterns: seq<string>) returns (joined: string)
    ensures joined == Enumeration(patterns)
  {
    var quoted := Quoted(patterns);
    if |quoted| == 1 {
      return quoted[0];
    }
    var last := "";
    if |quoted| > 0 {
      last := quoted[|quoted| - 1];
      quoted := quoted[..|quoted| - 1];
    }
    quoted := quoted + ["or " + last];
    joined := Join(quoted, ", ");
    if |patterns| >= 2 {
      assert Quoted(patterns)[..|patterns| - 1] == Quoted(patterns[..|patterns| - 1]);
      EnumerationIsJoin(patterns);
    }
  }
}
