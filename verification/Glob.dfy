/**
 The glob compiler behind KEYS, SCAN MATCH and pattern subscriptions. The
 compiler emits the pieces of a regular expression; the pieces spell a list of
 nodes whose meaning is compared with matching the glob directly.
 */
module Glob {

  datatype Item = One(c: char) | Range(lo: char, hi: char)

  /** The constructs a compiled pattern is made of. */
  datatype Node =
    | Literal(c: char)
    | AnyChar
    | AnyString
    | Class(negated: bool, items: seq<Item>)
    | EmptyGroup  // written (?:$.)

  /** The strings the compiler appends to its list of parts. */
  datatype Part =
    | Whole(node: Node)
    | OpenBracket
    | Caret
    | Member(item: Item)
    | CloseBracket

  predicate InItem(c: char, item: Item) {
    match item
    case One(d) => c == d
    case Range(lo, hi) => lo <= c <= hi
  }

  predicate InItems(c: char, items: seq<Item>) {
    exists k | 0 <= k < |items| :: InItem(c, items[k])
  }

  // ---------- the meaning of the compiled pattern ----------

  /**
   Whether the anchored expression matches all of s. The dot matches every
   character, newlines too. `$` holds at the end and also just before a final
   newline, so the empty group matches exactly a newline that ends the string.
   */
  predicate Matches(nodes: seq<Node>, s: string)
    decreases |nodes|, |s|
  {
    if nodes == [] then s == []
    else
      match nodes[0]
      case AnyString => Matches(nodes[1..], s) || (s != [] && Matches(nodes, s[1..]))
      case EmptyGroup => s == "\n" && Matches(nodes[1..], [])
      case _ => s != [] && MatchesChar(nodes[0], s[0]) && Matches(nodes[1..], s[1..])
  }

  predicate MatchesChar(n: Node, c: char) {
    match n
    case Literal(d) => c == d
    case AnyChar => true
    case Class(negated, items) => InItems(c, items) != negated
    case _ => false
  }

  // ---------- matching a glob directly ----------

  /** Whether c is a member of the bracket expression whose members start at i. */
  predicate ClassHit(p: string, i: nat, c: char)
    requires i <= |p|
    decreases |p| - i
  {
    if i == |p| then false
    else if p[i] == '\\' && i + 1 < |p| then p[i + 1] == c || ClassHit(p, i + 2, c)
    else if p[i] == ']' then false
    else if i + 2 < |p| && p[i + 1] == '-' then
      p[i] <= c <= p[i + 2] || p[i + 2] <= c <= p[i] || ClassHit(p, i + 3, c)
    else p[i] == c || ClassHit(p, i + 1, c)
  }

  /** The position after the bracket expression whose members start at i. */
  function ClassEnd(p: string, i: nat): (e: nat)
    requires i <= |p|
    ensures i <= e <= |p|
    decreases |p| - i
  {
    if i == |p| then i
    else if p[i] == '\\' && i + 1 < |p| then ClassEnd(p, i + 2)
    else if p[i] == ']' then i + 1
    else if i + 2 < |p| && p[i + 1] == '-' then ClassEnd(p, i + 3)
    else ClassEnd(p, i + 1)
  }

  predicate IsNegated(p: string, i: nat)
    requires i < |p|
  {
    i + 1 < |p| && p[i + 1] == '^'
  }

  function ClassStart(p: string, i: nat): (b: nat)
    requires i < |p|
    ensures i < b <= |p|
  {
    if IsNegated(p, i) then i + 2 else i + 1
  }

  /** The glob language: does the pattern from position i on match all of s? */
  predicate GlobMatches(p: string, i: nat, s: string)
    requires i <= |p|
    decreases |p| - i, |s|
  {
    if i == |p| then s == []
    else if p[i] == '*' then GlobMatches(p, i + 1, s) || (s != [] && GlobMatches(p, i, s[1..]))
    else if s == [] then false
    else if p[i] == '?' then GlobMatches(p, i + 1, s[1..])
    else if p[i] == '\\' && i + 1 < |p| then p[i + 1] == s[0] && GlobMatches(p, i + 2, s[1..])
    else if p[i] == '[' then
      var b := ClassStart(p, i);
      ClassHit(p, b, s[0]) != IsNegated(p, i) && GlobMatches(p, ClassEnd(p, b), s[1..])
    else p[i] == s[0] && GlobMatches(p, i + 1, s[1..])
  }

  // ---------- what bracket expressions and the other constructs are ----------

  /**
   A member of a bracket expression: a character with a backslash before it, two
   characters with a minus between them, or any other character but a closing
   bracket.
   */
  predicate IsMember(p: string, i: nat, n: nat) {
    && i + n <= |p|
    && ( || (n == 2 && p[i] == '\\')
         || (n == 3 && p[i] != '\\' && p[i] != ']' && p[i + 1] == '-')
         || (n == 1 && p[i] != ']' && (p[i] == '\\' ==> i + 1 == |p|) && !(p[i] != '\\' && i + 2 < |p| && p[i + 1] == '-')))
  }

  /** Whether c is what the member stands for. */
  predicate MemberHas(p: string, i: nat, n: nat, c: char)
    requires IsMember(p, i, n)
  {
    if n == 2 then c == p[i + 1] else if n == 3 then p[i] <= c <= p[i + 2] || p[i + 2] <= c <= p[i] else c == p[i]
  }

  /** The pattern from i on is cut into members at these positions, the last one being a closing bracket or the end. */
  ghost predicate IsCutUp(p: string, i: nat, cuts: seq<nat>) {
    && cuts != [] && cuts[0] == i
    && (forall t | 0 <= t < |cuts| - 1 :: cuts[t] < cuts[t + 1] && IsMember(p, cuts[t], cuts[t + 1] - cuts[t]))
    && (cuts[|cuts| - 1] == |p| || (cuts[|cuts| - 1] < |p| && p[cuts[|cuts| - 1]] == ']'))
  }

  lemma MemberFirst(p: string, i: nat, n: nat, c: char)
    requires IsMember(p, i, n)
    ensures ClassEnd(p, i) == ClassEnd(p, i + n)
    ensures ClassHit(p, i, c) <==> MemberHas(p, i, n, c) || ClassHit(p, i + n, c)
  {
  }

  lemma CutsBehind(p: string, i: nat, cuts: seq<nat>)
    requires i <= |p| && IsCutUp(p, i, cuts) && |cuts| > 1
    ensures i < cuts[1] <= |p| && IsMember(p, i, cuts[1] - i) && IsCutUp(p, cuts[1], cuts[1..])
  {
  }

  /** A bracket expression can be cut up in just one way: it ends behind the first closing bracket that is no part of a member. */
  lemma {:induction false} ClassEndsAfterMembers(p: string, i: nat, cuts: seq<nat>)
    requires i <= |p| && IsCutUp(p, i, cuts)
    ensures ClassEnd(p, i) == if cuts[|cuts| - 1] == |p| then |p| else cuts[|cuts| - 1] + 1
    decreases |cuts|
  {
    if |cuts| > 1 {
      CutsBehind(p, i, cuts);
      MemberFirst(p, i, cuts[1] - i, ' ');
      ClassEndsAfterMembers(p, cuts[1], cuts[1..]);
    }
  }

  /** And it can always be cut up. */
  lemma {:induction false} ClassCanBeCutUp(p: string, i: nat) returns (cuts: seq<nat>)
    requires i <= |p|
    ensures IsCutUp(p, i, cuts)
    decreases |p| - i
  {
    if i == |p| || p[i] == ']' {
      cuts := [i];
    } else {
      var n := if p[i] == '\\' && i + 1 < |p| then 2 else if p[i] != '\\' && i + 2 < |p| && p[i + 1] == '-' then 3 else 1;
      var rest := ClassCanBeCutUp(p, i + n);
      cuts := [i] + rest;
    }
  }

  /** The t-th member has the character. */
  ghost predicate HasAt(p: string, cuts: seq<nat>, t: int, c: char) {
    && 0 <= t < |cuts| - 1 && cuts[t] < cuts[t + 1] && IsMember(p, cuts[t], cuts[t + 1] - cuts[t])
    && MemberHas(p, cuts[t], cuts[t + 1] - cuts[t], c)
  }

  lemma HasBehind(p: string, cuts: seq<nat>, t: nat, c: char)
    requires |cuts| > 1
    ensures HasAt(p, cuts, t + 1, c) <==> HasAt(p, cuts[1..], t, c)
  {
  }

  /** A character matches a bracket expression if one of its members has it. */
  lemma {:induction false} ClassHitIff(p: string, i: nat, cuts: seq<nat>, c: char)
    requires i <= |p| && IsCutUp(p, i, cuts)
    ensures ClassHit(p, i, c) <==> exists t :: HasAt(p, cuts, t, c)
    decreases |cuts|
  {
    if |cuts| > 1 {
      CutsBehind(p, i, cuts);
      MemberFirst(p, i, cuts[1] - i, c);
      ClassHitIff(p, cuts[1], cuts[1..], c);
      assert HasAt(p, cuts, 0, c) <==> MemberHas(p, i, cuts[1] - i, c);
      if t: nat :| HasAt(p, cuts[1..], t, c) {
        HasBehind(p, cuts, t, c);
      }
      if t: nat :| HasAt(p, cuts, t, c) && t > 0 {
        HasBehind(p, cuts, t - 1, c);
      }
    }
  }

  predicate IsPlain(c: char) {
    c != '*' && c != '?' && c != '[' && c != '\\'
  }

  /** Plain characters match themselves, whatever comes behind them. */
  lemma {:induction false} PlainMatchesItself(p: string, i: nat, j: nat, s: string)
    requires i <= j <= |p| && forall k | i <= k < j :: IsPlain(p[k])
    ensures GlobMatches(p, i, s) <==> p[i..j] <= s && GlobMatches(p, j, s[j - i..])
    decreases j - i
  {
    if i < j {
      assert p[i..j] == [p[i]] + p[i + 1..j];
      if s != [] {
        PlainMatchesItself(p, i + 1, j, s[1..]);
        assert p[i] == s[0] ==> (p[i..j] <= s <==> p[i + 1..j] <= s[1..]);
        assert j - i <= |s| ==> s[1..][j - i - 1..] == s[j - i..];
      }
    }
  }

  /** A star matches any beginning, the empty one and the whole included. */
  lemma {:induction false} StarMatchesAnything(p: string, i: nat, s: string)
    requires i < |p| && p[i] == '*'
    ensures GlobMatches(p, i, s) <==> exists k :: 0 <= k <= |s| && GlobMatches(p, i + 1, s[k..])
    decreases |s|
  {
    if GlobMatches(p, i + 1, s) {
      assert s[0..] == s;
    }
    if s != [] {
      StarMatchesAnything(p, i, s[1..]);
      if k :| 0 <= k <= |s| - 1 && GlobMatches(p, i + 1, s[1..][k..]) {
        assert s[1..][k..] == s[k + 1..];
      }
      if k :| 0 <= k <= |s| && GlobMatches(p, i + 1, s[k..]) {
        assert k > 0 ==> s[1..][k - 1..] == s[k..];
      }
    } else {
      assert forall k | 0 <= k <= |s| :: s[k..] == s;
    }
  }

  /** A question mark, an escaped character and a bracket expression each match one character: any, that one, or one of those. */
  lemma OneCharacter(p: string, i: nat, s: string)
    requires i < |p| && (p[i] == '?' || p[i] == '[' || (p[i] == '\\' && i + 1 < |p|))
    ensures GlobMatches(p, i, s) <==>
      && s != []
      && (p[i] == '\\' ==> s[0] == p[i + 1])
      && (p[i] == '[' ==>
            if i + 1 < |p| && p[i + 1] == '^' then !ClassHit(p, i + 2, s[0]) else ClassHit(p, i + 1, s[0]))
      && GlobMatches(p,
                     if p[i] == '?' then i + 1
                     else if p[i] == '\\' then i + 2
                     else ClassEnd(p, if i + 1 < |p| && p[i + 1] == '^' then i + 2 else i + 1),
                     s[1..])
  {
  }

  // ---------- what the compiler produces ----------

  function ClassItems(p: string, i: nat): seq<Item>
    requires i <= |p|
    decreases |p| - i
  {
    if i == |p| then []
    else if p[i] == '\\' && i + 1 < |p| then [One(p[i + 1])] + ClassItems(p, i + 2)
    else if p[i] == ']' then []
    else if i + 2 < |p| && p[i + 1] == '-' then
      [if p[i] > p[i + 2] then Range(p[i + 2], p[i]) else Range(p[i], p[i + 2])] + ClassItems(p, i + 3)
    else [One(p[i])] + ClassItems(p, i + 1)
  }

  function ClassNode(p: string, i: nat): Node
    requires i < |p|
  {
    var items := ClassItems(p, ClassStart(p, i));
    if items != [] then Class(IsNegated(p, i), items)
    else if IsNegated(p, i) then AnyChar
    else EmptyGroup
  }

  function Nodes(p: string, i: nat): seq<Node>
    requires i <= |p|
    decreases |p| - i
  {
    if i == |p| then []
    else if p[i] == '?' then [AnyChar] + Nodes(p, i + 1)
    else if p[i] == '*' then [AnyString] + Nodes(p, i + 1)
    else if p[i] == '\\' && i + 1 < |p| then [Literal(p[i + 1])] + Nodes(p, i + 2)
    else if p[i] == '[' then [ClassNode(p, i)] + Nodes(p, ClassEnd(p, ClassStart(p, i)))
    else [Literal(p[i])] + Nodes(p, i + 1)
  }

  function Members(items: seq<Item>): seq<Part> {
    if items == [] then [] else [Member(items[0])] + Members(items[1..])
  }

  /** The text of a node, as the parts it is written with. */
  function Spell(n: Node): seq<Part> {
    match n
    case Class(negated, items) => Opening(negated) + (Members(items) + [CloseBracket])
    case _ => [Whole(n)]
  }

  function Opening(negated: bool): seq<Part> {
    if negated then [OpenBracket, Caret] else [OpenBracket]
  }

  function SpellAll(nodes: seq<Node>): seq<Part> {
    if nodes == [] then [] else Spell(nodes[0]) + SpellAll(nodes[1..])
  }

  lemma SpellCons(done: seq<Part>, n: Node, rest: seq<Node>)
    ensures done + SpellAll([n] + rest) == (done + Spell(n)) + SpellAll(rest)
  {
  }

  lemma MembersCons(done: seq<Part>, m: Item, rest: seq<Item>)
    ensures done + Members([m] + rest) == (done + [Member(m)]) + Members(rest)
  {
  }

  lemma {:induction false} MembersLength(items: seq<Item>)
    ensures |Members(items)| == |items|
  {
    if items != [] {
      MembersLength(items[1..]);
    }
  }

  // ---------- reading the text ----------

  /** How many members come first. */
  function LeadingMembers(parts: seq<Part>): (n: nat)
    ensures n <= |parts| && forall k | 0 <= k < n :: parts[k].Member?
    ensures n < |parts| ==> !parts[n].Member?
  {
    if parts != [] && parts[0].Member? then 1 + LeadingMembers(parts[1..]) else 0
  }

  function ItemsOf(parts: seq<Part>): seq<Item>
    requires forall k | 0 <= k < |parts| :: parts[k].Member?
  {
    seq(|parts|, k requires 0 <= k < |parts| => parts[k].item)
  }

  /**
   A regular expression reads the text so: after an opening bracket a caret
   negates, and the members up to the closing bracket follow.
   */
  function ReadText(parts: seq<Part>): seq<Node>
    decreases |parts|
  {
    if parts == [] then []
    else if parts[0].Whole? then [parts[0].node] + ReadText(parts[1..])
    else if parts[0] != OpenBracket then []
    else
      var negated := |parts| > 1 && parts[1] == Caret;
      var inside := parts[if negated then 2 else 1..];
      var n := LeadingMembers(inside);
      [Class(negated, ItemsOf(inside[..n]))] + ReadText(inside[if n < |inside| then n + 1 else n..])
  }

  lemma MemberIsRead(m: Item, behind: seq<Part>, n: nat)
    requires n == LeadingMembers(behind)
    ensures
      var inside := [Member(m)] + behind;
      && LeadingMembers(inside) == n + 1 && inside[n + 1..] == behind[n..]
      && ItemsOf(inside[..n + 1]) == [m] + ItemsOf(behind[..n])
  {
    var inside := [Member(m)] + behind;
    assert inside[1..] == behind && inside[..n + 1] == [Member(m)] + behind[..n];
  }

  lemma {:induction false} MembersAreRead(items: seq<Item>, rest: seq<Part>)
    requires rest != [] && !rest[0].Member?
    ensures
      var inside := Members(items) + rest;
      LeadingMembers(inside) == |items| && ItemsOf(inside[..|items|]) == items && inside[|items|..] == rest
  {
    MembersLength(items);
    if items != [] {
      MembersAreRead(items[1..], rest);
      var behind := Members(items[1..]) + rest;
      assert Members(items) + rest == [Member(items[0])] + behind;
      MemberIsRead(items[0], behind, |items| - 1);
    } else {
      assert Members(items) + rest == rest;
    }
  }

  lemma ClassIsRead(negated: bool, items: seq<Item>, rest: seq<Part>)
    ensures ReadText(Spell(Class(negated, items)) + rest) == [Class(negated, items)] + ReadText(rest)
  {
    var behind := [CloseBracket] + rest;
    var parts := Spell(Class(negated, items)) + rest;
    MembersAreRead(items, behind);
    assert parts == Opening(negated) + (Members(items) + behind);
    FirstInside(items, behind);
    assert parts[|Opening(negated)|..] == Members(items) + behind;
    assert behind[1..] == rest;
    var inside := Members(items) + behind;
    assert inside[|items| + 1..] == inside[|items|..][1..];
  }

  lemma FirstInside(items: seq<Item>, behind: seq<Part>)
    requires behind != [] && behind[0] == CloseBracket
    ensures var inside := Members(items) + behind; inside != [] && inside[0] != Caret
  {
    assert items != [] ==> Members(items)[0] == Member(items[0]);
    assert items == [] ==> Members(items) + behind == behind;
  }

  lemma WholeIsRead(n: Node, rest: seq<Part>)
    requires !n.Class?
    ensures ReadText(Spell(n) + rest) == [n] + ReadText(rest)
  {
    assert (Spell(n) + rest)[1..] == rest;
  }

  /** The text is read as the nodes it was written for. */
  lemma {:induction false} TextIsRead(nodes: seq<Node>)
    ensures ReadText(SpellAll(nodes)) == nodes
  {
    if nodes != [] {
      var rest := SpellAll(nodes[1..]);
      TextIsRead(nodes[1..]);
      assert nodes == [nodes[0]] + nodes[1..];
      if nodes[0].Class? {
        ClassIsRead(nodes[0].negated, nodes[0].items, rest);
      } else {
        WholeIsRead(nodes[0], rest);
      }
    }
  }

  /** The compiler: one pass over the pattern, appending to parts. The two anchors around the parts are implied. */
  method CompilePattern(p: string) returns (parts: seq<Part>)
    ensures parts == SpellAll(Nodes(p, 0)) && ReadText(parts) == Nodes(p, 0)
  {
    parts := [];
    var i := 0;
    while i < |p|
      invariant 0 <= i <= |p|
      invariant parts + SpellAll(Nodes(p, i)) == SpellAll(Nodes(p, 0))
    {
      ghost var before, n := parts, Nodes(p, i)[0];
      ghost var from := i;
      var c := p[i];
      i := i + 1;
      if c == '?' {
        parts := parts + [Whole(AnyChar)];
      } else if c == '*' {
        parts := parts + [Whole(AnyString)];
      } else if c == '\\' {
        if i == |p| {
          i := i - 1;
        }
        parts := parts + [Whole(Literal(p[i]))];
        i := i + 1;
      } else if c == '[' {
        i, parts := CompileClass(p, i, parts);
      } else {
        parts := parts + [Whole(Literal(c))];
      }
      assert parts == before + Spell(n);
      assert Nodes(p, from) == [n] + Nodes(p, i);
      SpellCons(before, n, Nodes(p, i));
    }
    TextIsRead(Nodes(p, 0));
  }

  /** The branch for a bracket expression; i0 is the position after the bracket. */
  method CompileClass(p: string, i0: nat, parts0: seq<Part>) returns (i: nat, parts: seq<Part>)
    requires 1 <= i0 <= |p| && p[i0 - 1] == '['
    ensures i == ClassEnd(p, ClassStart(p, i0 - 1))
    ensures parts == parts0 + Spell(ClassNode(p, i0 - 1))
  {
    ghost var negated := IsNegated(p, i0 - 1);
    ghost var items := ClassItems(p, ClassStart(p, i0 - 1));
    i, parts := i0, parts0 + [OpenBracket];
    if i < |p| && p[i] == '^' {
      i := i + 1;
      parts := parts + [Caret];
    }
    assert parts == parts0 + Opening(negated);
    var partsLen := |parts|;
    i, parts := CompileMembers(p, i, parts);
    MembersLength(items);
    parts := CloseClass(parts0, negated, items, parts, partsLen);
  }

  /** The code after the member loop: an empty bracket expression is rewritten, any other one is closed. */
  method CloseClass(ghost parts0: seq<Part>, ghost negated: bool, ghost items: seq<Item>, open: seq<Part>, partsLen: nat)
    returns (parts: seq<Part>)
    requires open == parts0 + Opening(negated) + Members(items)
    requires partsLen == |parts0 + Opening(negated)| && |Members(items)| == |items|
    ensures parts == parts0 + Spell(if items != [] then Class(negated, items) else if negated then AnyChar else EmptyGroup)
  {
    parts := open;
    if |parts| == partsLen {
      assert items == [] && parts == parts0 + Opening(negated);
      if parts[|parts| - 1] == OpenBracket {
        assert !negated;
        parts := parts[|parts| - 1 := Whole(EmptyGroup)];
        assert parts == parts0 + [Whole(EmptyGroup)];
      } else {
        // The source raises an AssertionError when the last part is not the caret.
        assert parts[|parts| - 1] == Caret;
        parts := parts[..|parts| - 1];
        parts := parts[|parts| - 1 := Whole(AnyChar)];
        assert parts == parts0 + [Whole(AnyChar)];
      }
    } else {
      parts := parts + [CloseBracket];
      assert parts == parts0 + (Opening(negated) + (Members(items) + [CloseBracket]));
    }
  }

  /** The loop over the members of a bracket expression. */
  method CompileMembers(p: string, i0: nat, parts0: seq<Part>) returns (i: nat, parts: seq<Part>)
    requires i0 <= |p|
    ensures i == ClassEnd(p, i0)
    ensures parts == parts0 + Members(ClassItems(p, i0))
  {
    i, parts := i0, parts0;
    while i < |p|
      invariant i <= |p|
      invariant ClassEnd(p, i) == ClassEnd(p, i0)
      invariant parts + Members(ClassItems(p, i)) == parts0 + Members(ClassItems(p, i0))
    {
      ghost var from := i;
      var member;
      if p[i] == '\\' && i + 1 < |p| {
        i := i + 1;
        member := One(p[i]);
      } else if p[i] == ']' {
        i := i + 1;
        return;
      } else if i + 2 < |p| && p[i + 1] == '-' {
        var start, end := p[i], p[i + 2];
        if start > end {
          start, end := end, start;
        }
        member := Range(start, end);
        i := i + 2;
      } else {
        member := One(p[i]);
      }
      parts := parts + [Member(member)];
      i := i + 1;
      assert ClassItems(p, from) == [member] + ClassItems(p, i);
      MembersCons(parts[..|parts| - 1], member, ClassItems(p, i));
    }
  }

  // ---------- the compiled pattern against the glob ----------

  /** The meaning in which an empty group never matches, as the glob language has it. */
  predicate MatchesStrictly(nodes: seq<Node>, s: string)
    decreases |nodes|, |s|
  {
    if nodes == [] then s == []
    else
      match nodes[0]
      case AnyString => MatchesStrictly(nodes[1..], s) || (s != [] && MatchesStrictly(nodes, s[1..]))
      case _ => s != [] && MatchesChar(nodes[0], s[0]) && MatchesStrictly(nodes[1..], s[1..])
  }

  lemma InItemsCons(c: char, m: Item, rest: seq<Item>)
    ensures InItems(c, [m] + rest) <==> InItem(c, m) || InItems(c, rest)
  {
    var items := [m] + rest;
    if InItem(c, m) {
      assert InItem(c, items[0]);
    }
    if InItems(c, rest) {
      var k :| 0 <= k < |rest| && InItem(c, rest[k]);
      assert InItem(c, items[k + 1]);
    }
    if InItems(c, items) {
      var k :| 0 <= k < |items| && InItem(c, items[k]);
      assert k > 0 ==> InItem(c, rest[k - 1]);
    }
  }

  lemma {:induction false} ClassHitIsMembership(p: string, i: nat, c: char)
    requires i <= |p|
    ensures ClassHit(p, i, c) <==> InItems(c, ClassItems(p, i))
    decreases |p| - i
  {
    if i == |p| {
    } else if p[i] == '\\' && i + 1 < |p| {
      ClassHitIsMembership(p, i + 2, c);
      InItemsCons(c, One(p[i + 1]), ClassItems(p, i + 2));
    } else if p[i] == ']' {
    } else if i + 2 < |p| && p[i + 1] == '-' {
      ClassHitIsMembership(p, i + 3, c);
      InItemsCons(c, ClassItems(p, i)[0], ClassItems(p, i + 3));
    } else {
      ClassHitIsMembership(p, i + 1, c);
      InItemsCons(c, One(p[i]), ClassItems(p, i + 1));
    }
  }

  /** Read strictly, the compiled nodes accept exactly what the glob accepts. */
  lemma {:induction false} StrictMeaningIsGlob(p: string, i: nat, s: string)
    requires i <= |p|
    ensures MatchesStrictly(Nodes(p, i), s) == GlobMatches(p, i, s)
    decreases |p| - i, |s|
  {
    if i < |p| {
      var next := if p[i] == '\\' && i + 1 < |p| then i + 2
                  else if p[i] == '[' then ClassEnd(p, ClassStart(p, i)) else i + 1;
      assert Nodes(p, i)[1..] == Nodes(p, next);
      if p[i] == '*' {
        StrictMeaningIsGlob(p, next, s);
      }
      if s != [] {
        StrictMeaningIsGlob(p, if p[i] == '*' then i else next, s[1..]);
        if p[i] == '[' {
          ClassHitIsMembership(p, ClassStart(p, i), s[0]);
        }
      }
    }
  }

  predicate AllStars(nodes: seq<Node>) {
    forall k | 0 <= k < |nodes| :: nodes[k] == AnyString
  }

  /**
   Node k is an empty group with nothing but stars behind it, and the nodes
   before it match everything in s but a newline that ends it.
   */
  predicate StrayNewlineAt(nodes: seq<Node>, k: nat, s: string)
    requires k < |nodes|
  {
    && nodes[k] == EmptyGroup && AllStars(nodes[k + 1..])
    && s != [] && s[|s| - 1] == '\n'
    && MatchesStrictly(nodes[..k], s[..|s| - 1])
  }

  predicate StrayNewline(nodes: seq<Node>, s: string) {
    exists k | 0 <= k < |nodes| :: StrayNewlineAt(nodes, k, s)
  }

  lemma {:induction false} OnlyStarsMatchEmpty(nodes: seq<Node>)
    ensures Matches(nodes, []) <==> AllStars(nodes)
  {
    if nodes != [] {
      OnlyStarsMatchEmpty(nodes[1..]);
      assert AllStars(nodes) ==> nodes[0] == AnyString;
      assert nodes == [nodes[0]] + nodes[1..];
    }
  }

  lemma StrayNewlineShift(nodes: seq<Node>, k: nat, s: string)
    requires 1 <= k < |nodes|
    ensures StrayNewlineAt(nodes, k, s) <==>
      if nodes[0] == AnyString then StrayNewlineAt(nodes[1..], k - 1, s) || (s != [] && StrayNewlineAt(nodes, k, s[1..]))
      else s != [] && MatchesChar(nodes[0], s[0]) && StrayNewlineAt(nodes[1..], k - 1, s[1..])
  {
    assert nodes[1..][k..] == nodes[k + 1..];
    assert nodes[1..][..k - 1] == nodes[..k][1..];
    if |s| > 1 {
      assert s[1..][..|s| - 2] == s[..|s| - 1][1..];
    }
  }

  /** A node that is no empty group hands the stray newline on to the nodes behind it. */
  lemma StrayNewlineCons(nodes: seq<Node>, s: string)
    requires nodes != [] && nodes[0] != EmptyGroup
    ensures StrayNewline(nodes, s) <==>
      if nodes[0] == AnyString then StrayNewline(nodes[1..], s) || (s != [] && StrayNewline(nodes, s[1..]))
      else s != [] && MatchesChar(nodes[0], s[0]) && StrayNewline(nodes[1..], s[1..])
  {
    forall k | 1 <= k < |nodes|
      ensures StrayNewlineAt(nodes, k, s) <==>
        if nodes[0] == AnyString then StrayNewlineAt(nodes[1..], k - 1, s) || (s != [] && StrayNewlineAt(nodes, k, s[1..]))
        else s != [] && MatchesChar(nodes[0], s[0]) && StrayNewlineAt(nodes[1..], k - 1, s[1..])
    {
      StrayNewlineShift(nodes, k, s);
    }
    if j :| 0 <= j < |nodes| - 1 && StrayNewlineAt(nodes[1..], j, s) {
      assert nodes[0] == AnyString ==> StrayNewlineAt(nodes, j + 1, s);
    }
    if s != [] {
      if j :| 0 <= j < |nodes| - 1 && StrayNewlineAt(nodes[1..], j, s[1..]) {
        assert nodes[0] != AnyString && MatchesChar(nodes[0], s[0]) ==> StrayNewlineAt(nodes, j + 1, s);
      }
    }
  }

  /** What the compiled pattern accepts beyond its strict meaning. */
  lemma {:induction false} MatchesExactly(nodes: seq<Node>, s: string)
    ensures Matches(nodes, s) <==> MatchesStrictly(nodes, s) || StrayNewline(nodes, s)
    decreases |nodes|, |s|
  {
    if nodes == [] {
    } else if nodes[0] == EmptyGroup {
      OnlyStarsMatchEmpty(nodes[1..]);
      if s == "\n" && AllStars(nodes[1..]) {
        assert StrayNewlineAt(nodes, 0, s);
      }
      forall k | 1 <= k < |nodes| ensures !StrayNewlineAt(nodes, k, s) {
        assert nodes[..k][0] == EmptyGroup;
      }
    } else {
      StrayNewlineCons(nodes, s);
      if nodes[0] == AnyString {
        MatchesExactly(nodes[1..], s);
        if s != [] {
          MatchesExactly(nodes, s[1..]);
        }
      } else if s != [] {
        MatchesExactly(nodes[1..], s[1..]);
      }
    }
  }

  lemma {:induction false} EmptyGroupNeverStrict(nodes: seq<Node>, k: nat, s: string)
    requires k < |nodes| && nodes[k] == EmptyGroup
    ensures !MatchesStrictly(nodes, s)
    decreases |nodes|, |s|
  {
    if nodes[0] == AnyString {
      EmptyGroupNeverStrict(nodes[1..], k - 1, s);
      if s != [] {
        EmptyGroupNeverStrict(nodes, k, s[1..]);
      }
    } else if k > 0 && s != [] {
      EmptyGroupNeverStrict(nodes[1..], k - 1, s[1..]);
    }
  }

  /** Compilation preserves the meaning of the glob on s if and only if no stray newline is accepted. */
  lemma CompilationPreservesMeaning(p: string, s: string)
    ensures Matches(Nodes(p, 0), s) == GlobMatches(p, 0, s) <==> !StrayNewline(Nodes(p, 0), s)
  {
    var nodes := Nodes(p, 0);
    MatchesExactly(nodes, s);
    StrictMeaningIsGlob(p, 0, s);
    if k :| 0 <= k < |nodes| && StrayNewlineAt(nodes, k, s) {
      EmptyGroupNeverStrict(nodes, k, s);
    }
  }

  /** Without an empty bracket expression, or without a final newline, the meaning is the glob's. */
  lemma CompilationAgrees(p: string, s: string)
    requires EmptyGroup !in Nodes(p, 0) || s == [] || s[|s| - 1] != '\n'
    ensures Matches(Nodes(p, 0), s) == GlobMatches(p, 0, s)
  {
    CompilationPreservesMeaning(p, s);
  }

  /** The pattern [] is meant to match nothing, but its compiled form accepts one newline. */
  lemma EmptyGroupAcceptsNewline()
    ensures Nodes("[]", 0) == [EmptyGroup]
    ensures Matches(Nodes("[]", 0), "\n") && !GlobMatches("[]", 0, "\n")
  {
  }

  /** Every character of s with a backslash before it. */
  function Escape(s: string): string {
    seq(2 * |s|, i requires 0 <= i < 2 * |s| => if i % 2 == 0 then '\\' else s[i / 2])
  }

  lemma EscapedPair(p: string, i: nat)
    requires i + 1 < |p| && p[i] == '\\'
    ensures Nodes(p, i) == [Literal(p[i + 1])] + Nodes(p, i + 2)
  {
  }

  lemma LiteralFirst(c: char, rest: seq<Node>, t: string)
    ensures Matches([Literal(c)] + rest, t) <==> t != [] && t[0] == c && Matches(rest, t[1..])
  {
    assert ([Literal(c)] + rest)[1..] == rest;
  }

  function Literals(s: string): seq<Node> {
    if s == [] then [] else [Literal(s[0])] + Literals(s[1..])
  }

  lemma {:induction false} EscapedFrom(p: string, s: string, k: nat)
    requires k <= |s| && |p| == 2 * |s| && forall i | 0 <= i < |s| :: p[2 * i] == '\\' && p[2 * i + 1] == s[i]
    ensures Nodes(p, 2 * k) == Literals(s[k..])
    decreases |s| - k
  {
    if k < |s| {
      EscapedPair(p, 2 * k);
      EscapedFrom(p, s, k + 1);
      assert s[k..][1..] == s[k + 1..];
    }
  }

  lemma {:induction false} LiteralsMatch(s: string, t: string)
    ensures Matches(Literals(s), t) <==> t == s
  {
    if s != [] {
      LiteralFirst(s[0], Literals(s[1..]), t);
      if t != [] {
        LiteralsMatch(s[1..], t[1..]);
        assert t == [t[0]] + t[1..] && s == [s[0]] + s[1..];
      }
    }
  }

  /** Escaping makes a pattern that matches the escaped string and nothing else. */
  lemma EscapeMatchesOnlyItself(s: string, t: string)
    ensures Matches(Nodes(Escape(s), 0), t) <==> t == s
  {
    EscapedFrom(Escape(s), s, 0);
    assert s[0..] == s;
    LiteralsMatch(s, t);
  }
}
