/**
 The sorted set: a map from members to scores beside a sorted list of
 (score, member) pairs, and the range queries answered by bisecting the list.
 */
module ZSet {
  import opened Bytes
  import opened Options
  import opened Sorted

  datatype Score = MinusInfinity | Finite(x: real) | PlusInfinity

  predicate ScoreLess(a: Score, b: Score) {
    match a
    case MinusInfinity => b != MinusInfinity
    case Finite(x) => b == PlusInfinity || (b.Finite? && x < b.x)
    case PlusInfinity => false
  }

  datatype Entry = Entry(score: Score, member: Bytes)

  /** The order of the list: tuples compare by score, then by member. */
  predicate EntryLess(a: Entry, b: Entry) {
    ScoreLess(a.score, b.score) || (a.score == b.score && Less(a.member, b.member))
  }

  lemma EntryLessIsStrictOrder(a: Entry, b: Entry, c: Entry)
    ensures !EntryLess(a, a)
    ensures EntryLess(a, b) || a == b || EntryLess(b, a)
    ensures EntryLess(a, b) && EntryLess(b, c) ==> EntryLess(a, c)
  {
    LessIsIrreflexive(a.member);
    LessIsTotal(a.member, b.member);
    if Less(a.member, b.member) && Less(b.member, c.member) {
      LessIsTransitive(a.member, b.member, c.member);
    }
  }

  predicate IsSorted(s: seq<Entry>) {
    forall i, j | 0 <= i < j < |s| :: EntryLess(s[i], s[j])
  }

  /** The list is the sorted sequence of exactly the pairs of the map. */
  ghost predicate Agree(bylex: map<Bytes, Score>, byscore: seq<Entry>) {
    && IsSorted(byscore)
    && forall e :: e in byscore <==> e.member in bylex && bylex[e.member] == e.score
  }

  // ---------- the list under insertion and removal ----------

  function InsertedAt(s: seq<Entry>, k: int, e: Entry): seq<Entry>
    requires 0 <= k <= |s|
  {
    s[..k] + [e] + s[k..]
  }

  lemma InsertKeepsSorted(s: seq<Entry>, k: int, e: Entry)
    requires IsSorted(s) && e !in s && IsCut(s, (x: Entry) => EntryLess(x, e), k)
    ensures IsSorted(InsertedAt(s, k, e))
    ensures forall x :: x in InsertedAt(s, k, e) <==> x in s || x == e
  {
    var t := InsertedAt(s, k, e);
    forall i | k <= i < |s| ensures EntryLess(e, s[i]) {
      EntryLessIsStrictOrder(e, s[i], e);
      assert s[i] in s;
    }
    forall x | x in s ensures x in t {
      var i :| 0 <= i < |s| && s[i] == x;
      assert t[if i < k then i else i + 1] == x;
    }
    assert t[k] == e;
  }

  lemma RemoveKeepsSorted(s: seq<Entry>, k: int)
    requires IsSorted(s) && 0 <= k < |s|
    ensures IsSorted(s[..k] + s[k + 1..])
    ensures forall x :: x in s[..k] + s[k + 1..] <==> x in s && x != s[k]
  {
    var t := s[..k] + s[k + 1..];
    forall x | x in s && x != s[k] ensures x in t {
      var i :| 0 <= i < |s| && s[i] == x;
      assert t[if i < k then i else i - 1] == x;
    }
    forall x | x in t ensures x in s && x != s[k] {
      var i :| 0 <= i < |t| && t[i] == x;
      EntryLessIsStrictOrder(s[k], s[k], s[k]);
      assert x == s[if i < k then i else i + 1];
      if i < k {
        assert EntryLess(s[i], s[k]);
      } else {
        assert EntryLess(s[k], s[i + 1]);
      }
    }
  }

  lemma SortedIsMonotone(s: seq<Entry>, e: Entry)
    requires IsSorted(s)
    ensures forall i, j | 0 <= i < j < |s| :: EntryLess(s[j], e) ==> EntryLess(s[i], e)
  {
    forall i, j | 0 <= i < j < |s| && EntryLess(s[j], e) ensures EntryLess(s[i], e) {
      EntryLessIsStrictOrder(s[i], s[j], e);
    }
  }

  // ---------- bounds ----------

  /** The second component of a search key: a member, or one of the two objects that compare below and above everything. */
  datatype Bound = BeforeAny | Member(b: Bytes) | AfterAny

  /** e < (score, bound). */
  predicate Before(e: Entry, score: Score, bound: Bound) {
    ScoreLess(e.score, score)
    || (e.score == score && (bound == AfterAny || (bound.Member? && Less(e.member, bound.b))))
  }

  /** (score, bound) < e. */
  predicate After(e: Entry, score: Score, bound: Bound) {
    ScoreLess(score, e.score)
    || (e.score == score && (bound == BeforeAny || (bound.Member? && Less(bound.b, e.member))))
  }

  lemma BoundIsMonotone(s: seq<Entry>, score: Score, bound: Bound)
    requires IsSorted(s)
    ensures forall i, j | 0 <= i < j < |s| :: Before(s[j], score, bound) ==> Before(s[i], score, bound)
    ensures forall i, j | 0 <= i < j < |s| :: !After(s[j], score, bound) ==> !After(s[i], score, bound)
  {
    forall i, j | 0 <= i < j < |s|
      ensures Before(s[j], score, bound) ==> Before(s[i], score, bound)
      ensures After(s[i], score, bound) ==> After(s[j], score, bound)
    {
      assert EntryLess(s[i], s[j]);
      if bound.Member? {
        EntryLessIsStrictOrder(s[i], s[j], Entry(score, bound.b));
        EntryLessIsStrictOrder(Entry(score, bound.b), s[i], s[j]);
      }
    }
  }

  /** The endpoint of a score range. */
  datatype ScoreTest = ScoreTest(value: Score, exclusive: bool) {
    function LowerBound(): Bound {
      if exclusive then AfterAny else BeforeAny
    }

    function UpperBound(): Bound {
      if exclusive then BeforeAny else AfterAny
    }
  }

  predicate InScoreRange(x: Score, lo: ScoreTest, hi: ScoreTest) {
    && (ScoreLess(lo.value, x) || (x == lo.value && !lo.exclusive))
    && (ScoreLess(x, hi.value) || (x == hi.value && !hi.exclusive))
  }

  predicate InLexRange(m: Bytes, lo: Bound, loExclusive: bool, hi: Bound, hiExclusive: bool) {
    && (lo == BeforeAny || (lo.Member? && (Less(lo.b, m) || (m == lo.b && !loExclusive))))
    && (hi == AfterAny || (hi.Member? && (Less(m, hi.b) || (m == hi.b && !hiExclusive))))
  }

  function MembersOf(s: seq<Entry>): set<Bytes> {
    set e | e in s :: e.member
  }

  lemma MembersAppend(s: seq<Entry>, e: Entry)
    requires forall x | x in s :: x.member != e.member
    ensures MembersOf(s + [e]) == MembersOf(s) + {e.member}
    ensures |MembersOf(s + [e])| == |MembersOf(s)| + 1
  {
  }

  lemma MembersDiffer(bylex: map<Bytes, Score>, byscore: seq<Entry>, i: nat, j: nat)
    requires Agree(bylex, byscore) && i < j < |byscore|
    ensures byscore[i].member != byscore[j].member
  {
    assert byscore[i] in byscore && byscore[j] in byscore && EntryLess(byscore[i], byscore[j]);
    EntryLessIsStrictOrder(byscore[i], byscore[i], byscore[i]);
  }

  /** Distinct entries of a map have distinct members. */
  lemma {:induction false} SliceSize(bylex: map<Bytes, Score>, byscore: seq<Entry>, a: int, b: int)
    requires Agree(bylex, byscore) && 0 <= a <= b <= |byscore|
    ensures |MembersOf(byscore[a..b])| == b - a
    decreases b - a
  {
    if a < b {
      SliceSize(bylex, byscore, a, b - 1);
      var t, last := byscore[a..b - 1], byscore[b - 1];
      assert byscore[a..b] == t + [last];
      forall x | x in t ensures x.member != last.member {
        var i :| 0 <= i < |t| && t[i] == x;
        MembersDiffer(bylex, byscore, a + i, b - 1);
      }
      MembersAppend(t, last);
    }
  }

  /** A query that selects exactly the entries between two positions counts the members that satisfy it. */
  lemma SliceCounts(bylex: map<Bytes, Score>, byscore: seq<Entry>, a: int, b: int, p: Entry -> bool)
    requires Agree(bylex, byscore) && 0 <= a <= |byscore| && 0 <= b <= |byscore|
    requires forall i | 0 <= i < |byscore| :: p(byscore[i]) <==> a <= i < b
    ensures |set m | m in bylex && p(Entry(bylex[m], m))| == if a <= b then b - a else 0
  {
    var selected := set m | m in bylex && p(Entry(bylex[m], m));
    if a <= b {
      SliceSize(bylex, byscore, a, b);
      forall m | m in selected ensures m in MembersOf(byscore[a..b]) {
        var e := Entry(bylex[m], m);
        assert e in byscore;
        var i :| 0 <= i < |byscore| && byscore[i] == e;
        assert byscore[a..b][i - a] == e;
      }
      forall m | m in MembersOf(byscore[a..b]) ensures m in selected {
        var e :| e in byscore[a..b] && e.member == m;
        assert e in byscore;
      }
      assert selected == MembersOf(byscore[a..b]);
    } else {
      forall m | m in bylex ensures !p(Entry(bylex[m], m)) {
        assert Entry(bylex[m], m) in byscore;
        var i :| 0 <= i < |byscore| && byscore[i] == Entry(bylex[m], m);
      }
      assert selected == {};
    }
  }

  /** The members with a lower score, and those with the same score that come first as strings. */
  function LowerScores(bylex: map<Bytes, Score>, score: Score): set<Bytes> {
    set m | m in bylex && ScoreLess(bylex[m], score)
  }

  function SameScoreBefore(bylex: map<Bytes, Score>, member: Bytes): set<Bytes>
    requires member in bylex
  {
    set m | m in bylex && bylex[m] == bylex[member] && Less(m, member)
  }

  lemma RankCounts(bylex: map<Bytes, Score>, member: Bytes)
    requires member in bylex
    ensures |set m | m in bylex && EntryLess(Entry(bylex[m], m), Entry(bylex[member], member))| ==
            |LowerScores(bylex, bylex[member])| + |SameScoreBefore(bylex, member)|
  {
    ScoreIrreflexive(bylex[member]);
    assert LowerScores(bylex, bylex[member]) !! SameScoreBefore(bylex, member);
    assert (set m | m in bylex && EntryLess(Entry(bylex[m], m), Entry(bylex[member], member)))
        == LowerScores(bylex, bylex[member]) + SameScoreBefore(bylex, member);
  }

  /** Scores compare as numbers, between the two infinities. */
  lemma ScoreLessIs(x: real, y: real)
    ensures ScoreLess(Finite(x), Finite(y)) <==> x < y
    ensures ScoreLess(MinusInfinity, Finite(x)) && ScoreLess(Finite(x), PlusInfinity) && ScoreLess(MinusInfinity, PlusInfinity)
    ensures !ScoreLess(Finite(x), MinusInfinity) && !ScoreLess(PlusInfinity, Finite(x)) && !ScoreLess(PlusInfinity, MinusInfinity)
  {
  }

  // ---------- the sorted set object ----------

  class ZSet {
    var bylex: map<Bytes, Score>
    var byscore: seq<Entry>

    ghost predicate Valid()
      reads this
    {
      Agree(bylex, byscore)
    }

    constructor ()
      ensures Valid() && bylex == map[]
    {
      bylex, byscore := map[], [];
    }

    /** SortedList.remove of a pair that is in the list. */
    method RemoveEntry(e: Entry)
      requires IsSorted(byscore) && e in byscore
      modifies this`byscore
      ensures IsSorted(byscore)
      ensures forall x :: x in byscore <==> x in old(byscore) && x != e
    {
      SortedIsMonotone(byscore, e);
      var k := Bisect(byscore, (x: Entry) => EntryLess(x, e));
      EntryIsAtCut(byscore, k, e);
      RemoveKeepsSorted(byscore, k);
      byscore := byscore[..k] + byscore[k + 1..];
    }

    /** SortedList.add of a pair that is not in the list. */
    method AddEntry(e: Entry)
      requires IsSorted(byscore) && e !in byscore
      modifies this`byscore
      ensures IsSorted(byscore)
      ensures forall x :: x in byscore <==> x in old(byscore) || x == e
    {
      SortedIsMonotone(byscore, e);
      var k := Bisect(byscore, (x: Entry) => EntryLess(x, e));
      InsertKeepsSorted(byscore, k, e);
      byscore := InsertedAt(byscore, k, e);
    }

    method Add(value: Bytes, score: Score) returns (modified: bool)
      requires Valid()
      modifies this
      ensures Valid()
      ensures bylex == old(bylex)[value := score]
      ensures modified == (bylex != old(bylex))
    {
      if value in bylex {
        if score == bylex[value] {
          return false;
        }
        RemoveEntry(Entry(bylex[value], value));
      }
      AddEntry(Entry(score, value));
      bylex := bylex[value := score];
      return true;
    }

    method Discard(key: Bytes)
      requires Valid()
      modifies this
      ensures Valid()
      ensures bylex == old(bylex) - {key}
    {
      if key !in bylex {
        return;
      }
      var score := bylex[key];
      bylex := bylex - {key};
      RemoveEntry(Entry(score, key));
    }

    method ZCount(min: ScoreTest, max: ScoreTest) returns (n: int)
      requires Valid()
      ensures n == |set m | m in bylex && InScoreRange(bylex[m], min, max)|
    {
      BoundIsMonotone(byscore, min.value, min.LowerBound());
      BoundIsMonotone(byscore, max.value, max.UpperBound());
      var pos1 := Bisect(byscore, (x: Entry) => Before(x, min.value, min.LowerBound()));
      var pos2 := Bisect(byscore, (x: Entry) => Before(x, max.value, max.UpperBound()));
      forall i | 0 <= i < |byscore|
        ensures InScoreRange(byscore[i].score, min, max) <==> pos1 <= i < pos2
      {
        ScoreBounds(byscore[i], min, max);
      }
      SliceCounts(bylex, byscore, pos1, pos2, (e: Entry) => InScoreRange(e.score, min, max));
      assert (set m | m in bylex && InScoreRange(bylex[m], min, max))
          == set m | m in bylex && ((e: Entry) => InScoreRange(e.score, min, max))(Entry(bylex[m], m));
      n := if pos2 - pos1 > 0 then pos2 - pos1 else 0;
    }

    /** The entries whose scores lie in a range, in order. */
    method IrangeScore(min: ScoreTest, max: ScoreTest, reverse: bool) returns (r: seq<Entry>)
      requires Valid()
      ensures var selected := Filter(byscore, (e: Entry) => InScoreRange(e.score, min, max));
              r == if reverse then Reversed(selected) else selected
    {
      BoundIsMonotone(byscore, min.value, min.LowerBound());
      BoundIsMonotone(byscore, max.value, max.UpperBound());
      var pos1 := Bisect(byscore, (x: Entry) => Before(x, min.value, min.LowerBound()));
      var pos2 := Bisect(byscore, (x: Entry) => !After(x, max.value, max.UpperBound()));
      forall i | 0 <= i < |byscore|
        ensures InScoreRange(byscore[i].score, min, max) <==> pos1 <= i < pos2
      {
        ScoreBounds(byscore[i], min, max);
      }
      FilterIsSlice(byscore, (e: Entry) => InScoreRange(e.score, min, max), pos1, pos2);
      r := if pos1 <= pos2 then byscore[pos1..pos2] else [];
      if reverse {
        r := Reversed(r);
      }
    }

    /** The member's position in the list and its score; None is the KeyError for a member that is not there. */
    method Rank(member: Bytes) returns (r: Option<(int, Score)>)
      requires Valid()
      ensures r.None? <==> member !in bylex
      ensures r.Some? ==>
        && r.value.1 == bylex[member]
        && r.value.0 == |set m | m in bylex && EntryLess(Entry(bylex[m], m), Entry(bylex[member], member))|
        && r.value.0 == |LowerScores(bylex, bylex[member])| + |SameScoreBefore(bylex, member)|
    {
      if member !in bylex {
        return None;
      }
      var e := Entry(bylex[member], member);
      SortedIsMonotone(byscore, e);
      var ind := Bisect(byscore, (x: Entry) => EntryLess(x, e));
      EntryIsAtCut(byscore, ind, e);
      SliceCounts(bylex, byscore, 0, ind, (x: Entry) => EntryLess(x, e));
      assert (set m | m in bylex && EntryLess(Entry(bylex[m], m), e))
          == set m | m in bylex && ((x: Entry) => EntryLess(x, e))(Entry(bylex[m], m));
      RankCounts(bylex, member);
      return Some((ind, byscore[ind].score));
    }

    /** ZLEXCOUNT looks both endpoints up with the lowest score. */
    method ZLexCount(min: Bound, minExclusive: bool, max: Bound, maxExclusive: bool) returns (n: int)
      requires Valid()
      ensures n == |LexCounted(byscore, min, minExclusive, max, maxExclusive)|
    {
      if byscore == [] {
        return 0;
      }
      var score := byscore[0].score;
      var pos1, pos2 := LexPositions(score, min, minExclusive, score, max, maxExclusive);
      n := if pos1 < pos2 then pos2 - pos1 else 0;
    }

    /** The lexicographic range looks an endpoint that is a member up with that member's score. */
    method IrangeLex(start: Bound, stop: Bound, startExclusive: bool, stopExclusive: bool, reverse: bool)
      returns (r: seq<Bytes>)
      requires Valid()
      ensures var selected := LexSelected(bylex, byscore, start, startExclusive, stop, stopExclusive);
              r == Names(if reverse then Reversed(selected) else selected)
    {
      if byscore == [] {
        return [];
      }
      var default := byscore[0].score;
      var pos1, pos2 := LexPositions(EndScore(bylex, start, default), start, startExclusive,
                                     EndScore(bylex, stop, default), stop, stopExclusive);
      var items := if pos1 <= pos2 then byscore[pos1..pos2] else [];
      r := Names(if reverse then Reversed(items) else items);
    }

    /** The two bisections of a lexicographic range. */
    method LexPositions(lo: Score, min: Bound, minExclusive: bool, hi: Score, max: Bound, maxExclusive: bool)
      returns (pos1: nat, pos2: nat)
      requires Valid()
      ensures pos1 <= |byscore| && pos2 <= |byscore|
      ensures Filter(byscore, (e: Entry) => Between(e, lo, min, minExclusive, hi, max, maxExclusive)) ==
              if pos1 <= pos2 then byscore[pos1..pos2] else []
    {
      pos1 := LowerPosition(lo, min, minExclusive);
      pos2 := UpperPosition(hi, max, maxExclusive);
      FilterIsSlice(byscore, (e: Entry) => Between(e, lo, min, minExclusive, hi, max, maxExclusive), pos1, pos2);
    }

    method LowerPosition(lo: Score, min: Bound, exclusive: bool) returns (pos: nat)
      requires Valid()
      ensures pos <= |byscore|
      ensures forall i | 0 <= i < |byscore| :: AboveLower(byscore[i], lo, min, exclusive) <==> pos <= i
    {
      BoundIsMonotone(byscore, lo, min);
      if exclusive {
        pos := Bisect(byscore, (x: Entry) => !After(x, lo, min));
      } else {
        pos := Bisect(byscore, (x: Entry) => Before(x, lo, min));
      }
    }

    method UpperPosition(hi: Score, max: Bound, exclusive: bool) returns (pos: nat)
      requires Valid()
      ensures pos <= |byscore|
      ensures forall i | 0 <= i < |byscore| :: BelowUpper(byscore[i], hi, max, exclusive) <==> i < pos
    {
      BoundIsMonotone(byscore, hi, max);
      if exclusive {
        pos := Bisect(byscore, (x: Entry) => Before(x, hi, max));
      } else {
        pos := Bisect(byscore, (x: Entry) => !After(x, hi, max));
      }
    }
  }

  /** The score a lexicographic endpoint is looked up with. */
  function EndScore(bylex: map<Bytes, Score>, b: Bound, default: Score): Score {
    if b.Member? && b.b in bylex then bylex[b.b] else default
  }

  /** What ZLEXCOUNT counts. */
  function LexCounted(byscore: seq<Entry>, min: Bound, minExclusive: bool, max: Bound, maxExclusive: bool): seq<Entry> {
    if byscore == [] then []
    else
      var score := byscore[0].score;
      Filter(byscore, (e: Entry) => Between(e, score, min, minExclusive, score, max, maxExclusive))
  }

  /** What the lexicographic range yields. */
  function LexSelected(bylex: map<Bytes, Score>, byscore: seq<Entry>, start: Bound, startExclusive: bool, stop: Bound, stopExclusive: bool):
    seq<Entry>
  {
    if byscore == [] then []
    else
      var lo, hi := EndScore(bylex, start, byscore[0].score), EndScore(bylex, stop, byscore[0].score);
      Filter(byscore, (e: Entry) => Between(e, lo, start, startExclusive, hi, stop, stopExclusive))
  }

  /** The count is the length of the range as long as both endpoints are looked up with the lowest score. */
  lemma LexCountIsRangeLength(bylex: map<Bytes, Score>, byscore: seq<Entry>, start: Bound, startExclusive: bool, stop: Bound, stopExclusive: bool)
    requires byscore != [] ==> EndScore(bylex, start, byscore[0].score) == EndScore(bylex, stop, byscore[0].score) == byscore[0].score
    ensures |LexCounted(byscore, start, startExclusive, stop, stopExclusive)| ==
            |LexSelected(bylex, byscore, start, startExclusive, stop, stopExclusive)|
  {
  }

  /**
   When all scores are equal, the range is made of exactly the members between
   the endpoints, in lexicographic order. The endpoints - and + are decoded as exclusive.
   */
  lemma EqualScoresGiveLexOrder(bylex: map<Bytes, Score>, byscore: seq<Entry>, start: Bound, startExclusive: bool, stop: Bound, stopExclusive: bool)
    requires Agree(bylex, byscore) && byscore != []
    requires forall m | m in bylex :: bylex[m] == byscore[0].score
    ensures EndScore(bylex, start, byscore[0].score) == EndScore(bylex, stop, byscore[0].score) == byscore[0].score
    ensures
      var r := LexSelected(bylex, byscore, start, startExclusive, stop, stopExclusive);
      && (forall e :: e in r <==> e in byscore && InLexRange(e.member, start, startExclusive, stop, stopExclusive))
    ensures forall i, j | 0 <= i < j < |byscore| :: Less(byscore[i].member, byscore[j].member)
  {
    forall i | 0 <= i < |byscore| ensures byscore[i].score == byscore[0].score {
      assert byscore[i] in byscore;
    }
    forall i, j | 0 <= i < j < |byscore| ensures Less(byscore[i].member, byscore[j].member) {
      assert EntryLess(byscore[i], byscore[j]);
      ScoreIrreflexive(byscore[0].score);
    }
    var score := byscore[0].score;
    ScoreIrreflexive(score);
    forall e | e in byscore
      ensures Between(e, score, start, startExclusive, score, stop, stopExclusive)
              <==> InLexRange(e.member, start, startExclusive, stop, stopExclusive)
    {
      if start.Member? {
        LessIsTotal(e.member, start.b);
        NotBoth(e.member, start.b);
      }
      if stop.Member? {
        LessIsTotal(e.member, stop.b);
        NotBoth(e.member, stop.b);
      }
    }
  }

  /** Whatever the scores, ZLEXCOUNT counts the members of the lowest score that lie between the endpoints, and no others. */
  lemma LexCountsLowestScore(
      bylex: map<Bytes, Score>, byscore: seq<Entry>, min: Bound, minExclusive: bool, max: Bound, maxExclusive: bool, e: Entry)
    requires Agree(bylex, byscore) && byscore != []
    ensures e in LexCounted(byscore, min, minExclusive, max, maxExclusive) <==>
            e in byscore && e.score == byscore[0].score && InLexRange(e.member, min, minExclusive, max, maxExclusive)
  {
    var score := byscore[0].score;
    if e in byscore {
      LowestIsFirst(byscore, e);
      ScoreIrreflexive(score);
      if min.Member? {
        LessIsTotal(e.member, min.b);
        NotBoth(e.member, min.b);
      }
      if max.Member? {
        LessIsTotal(e.member, max.b);
        NotBoth(e.member, max.b);
      }
    }
  }

  /**
   The lexicographic range between two members is made of the pairs from the
   one's own pair to the other's; a string that is no member stands for a pair
   with the lowest score.
   */
  lemma LexSelectedIff(
      bylex: map<Bytes, Score>, byscore: seq<Entry>, a: Bytes, fromExclusive: bool, b: Bytes, toExclusive: bool, e: Entry)
    requires byscore != []
    ensures
      var first := Entry(if a in bylex then bylex[a] else byscore[0].score, a);
      var last := Entry(if b in bylex then bylex[b] else byscore[0].score, b);
      e in LexSelected(bylex, byscore, Member(a), fromExclusive, Member(b), toExclusive) <==>
        && e in byscore
        && (EntryLess(first, e) || (e == first && !fromExclusive))
        && (EntryLess(e, last) || (e == last && !toExclusive))
  {
    var first := Entry(if a in bylex then bylex[a] else byscore[0].score, a);
    var last := Entry(if b in bylex then bylex[b] else byscore[0].score, b);
    EntryLessIsStrictOrder(e, first, e);
    EntryLessIsStrictOrder(e, last, e);
  }

  /** A range of finite scores: an end that is excluded leaves out just the scores equal to it. */
  lemma ScoreRangeIs(x: real, lo: real, loExclusive: bool, hi: real, hiExclusive: bool)
    ensures InScoreRange(Finite(x), ScoreTest(Finite(lo), loExclusive), ScoreTest(Finite(hi), hiExclusive)) <==>
            lo <= x <= hi && (x == lo ==> !loExclusive) && (x == hi ==> !hiExclusive)
  {
  }

  /** A range of strings likewise; - and + leave out nothing. */
  lemma LexRangeIs(m: Bytes, lo: Bytes, loExclusive: bool, hi: Bytes, hiExclusive: bool)
    ensures InLexRange(m, Member(lo), loExclusive, AfterAny, hiExclusive) <==> !Less(m, lo) && (m == lo ==> !loExclusive)
    ensures InLexRange(m, BeforeAny, loExclusive, Member(hi), hiExclusive) <==> !Less(hi, m) && (m == hi ==> !hiExclusive)
    ensures InLexRange(m, BeforeAny, loExclusive, AfterAny, hiExclusive)
    ensures !InLexRange(m, AfterAny, loExclusive, AfterAny, hiExclusive)
    ensures !InLexRange(m, BeforeAny, loExclusive, BeforeAny, hiExclusive)
  {
    LessIsTotal(m, lo);
    LessIsTotal(m, hi);
    NotBoth(m, lo);
    NotBoth(m, hi);
  }

  lemma LowestIsFirst(byscore: seq<Entry>, e: Entry)
    requires IsSorted(byscore) && e in byscore
    ensures e.score == byscore[0].score || (ScoreLess(byscore[0].score, e.score) && !ScoreLess(e.score, byscore[0].score))
  {
    var i :| 0 <= i < |byscore| && byscore[i] == e;
    assert i > 0 ==> EntryLess(byscore[0], byscore[i]);
  }

  lemma ScoreIrreflexive(x: Score)
    ensures !ScoreLess(x, x)
  {
  }

  lemma NotBoth(a: Bytes, b: Bytes)
    ensures !(Less(a, b) && Less(b, a)) && !Less(a, a)
  {
  }

  function Names(s: seq<Entry>): (r: seq<Bytes>)
    ensures |r| == |s| && forall i | 0 <= i < |s| :: r[i] == s[i].member
  {
    seq(|s|, i requires 0 <= i < |s| => s[i].member)
  }

  /** Whether an entry lies between two search keys. */
  predicate Between(e: Entry, lo: Score, min: Bound, minExclusive: bool, hi: Score, max: Bound, maxExclusive: bool) {
    AboveLower(e, lo, min, minExclusive) && BelowUpper(e, hi, max, maxExclusive)
  }

  predicate AboveLower(e: Entry, score: Score, min: Bound, exclusive: bool) {
    if exclusive then After(e, score, min) else !Before(e, score, min)
  }

  predicate BelowUpper(e: Entry, score: Score, max: Bound, exclusive: bool) {
    if exclusive then Before(e, score, max) else !After(e, score, max)
  }

  lemma SortedAt(s: seq<Entry>, i: nat, j: nat)
    requires IsSorted(s) && i <= j < |s|
    ensures i == j || EntryLess(s[i], s[j])
  {
  }

  lemma EntryIsAtCut(s: seq<Entry>, k: int, e: Entry)
    requires IsSorted(s) && e in s && IsCut(s, (x: Entry) => EntryLess(x, e), k)
    ensures k < |s| && s[k] == e
    ensures forall i | 0 <= i < |s| :: EntryLess(s[i], e) <==> i < k
  {
    var i :| 0 <= i < |s| && s[i] == e;
    EntryLessIsStrictOrder(e, e, e);
    assert ((x: Entry) => EntryLess(x, e))(s[i]) <==> i < k;
    SortedAt(s, k, i);
    assert ((x: Entry) => EntryLess(x, e))(s[k]) <==> k < k;
    forall i | 0 <= i < |s| ensures EntryLess(s[i], e) <==> i < k {
      assert ((x: Entry) => EntryLess(x, e))(s[i]) <==> i < k;
    }
  }

  lemma ScoreBounds(e: Entry, min: ScoreTest, max: ScoreTest)
    ensures InScoreRange(e.score, min, max) <==>
            !Before(e, min.value, min.LowerBound()) && Before(e, max.value, max.UpperBound())
    ensures After(e, max.value, max.UpperBound()) <==> !Before(e, max.value, max.UpperBound())
  {
  }
}
