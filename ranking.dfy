/** Ranking: a stable sort of the score table by descending score, and the
    marks handed out by rank. */
module Ranking {
  import opened Settings

  /** A score-table entry: rider number and score. */
  type Entry = (int, real)

  /** One line of the ranking: mark, rider number, score. */
  datatype Ranked = Ranked(mark: string, no: int, score: real)

  /** Scores never increase along s. */
  ghost predicate Descending(s: seq<Entry>)
  {
    forall i, j :: 0 <= i < j < |s| ==> s[i].1 >= s[j].1
  }

  /** The entries of s whose score is v, in their order in s. */
  function WithScore(s: seq<Entry>, v: real): (r: seq<Entry>)
    ensures |r| <= |s|
  {
    if |s| == 0 then []
    else (if s[0].1 == v then [s[0]] else []) + WithScore(s[1..], v)
  }

  /** Places x in front of the first entry of l that scores strictly less,
      so that x stays ahead of the entries it ties with. */
  function InsertDesc(x: Entry, l: seq<Entry>): (r: seq<Entry>)
    ensures |r| == |l| + 1
    ensures r[0] == x || (|l| > 0 && r[0] == l[0])
  {
    if |l| == 0 || x.1 >= l[0].1 then [x] + l
    else [l[0]] + InsertDesc(x, l[1..])
  }

  lemma {:induction false} InsertPermutes(x: Entry, l: seq<Entry>)
    ensures multiset(InsertDesc(x, l)) == multiset(l) + multiset{x}
  {
    if |l| > 0 && x.1 < l[0].1 {
      InsertPermutes(x, l[1..]);
      assert l == [l[0]] + l[1..];
    }
  }

  lemma {:induction false} InsertSorted(x: Entry, l: seq<Entry>)
    requires Descending(l)
    ensures Descending(InsertDesc(x, l))
  {
    if |l| > 0 && x.1 < l[0].1 {
      var rest := InsertDesc(x, l[1..]);
      InsertSorted(x, l[1..]);
      var r := [l[0]] + rest;
      assert l[0].1 >= rest[0].1;
      forall i, j | 0 <= i < j < |r| ensures r[i].1 >= r[j].1 {
        if i == 0 {
          assert r[j] == rest[j - 1];
          assert rest[0].1 >= rest[j - 1].1 || j - 1 == 0;
        } else {
          assert r[i] == rest[i - 1] && r[j] == rest[j - 1];
        }
      }
    }
  }

  /** Stable sort by descending score, the order of a stable sort with
      reverse=True on the score key. */
  function SortDesc(s: seq<Entry>): (r: seq<Entry>)
    ensures multiset(r) == multiset(s)
    ensures Descending(r)
  {
    if |s| == 0 then []
    else
      var rest := SortDesc(s[1..]);
      InsertPermutes(s[0], rest);
      InsertSorted(s[0], rest);
      assert s == [s[0]] + s[1..];
      InsertDesc(s[0], rest)
  }

  /** WithScore on a list with a known head. */
  lemma WithScoreCons(x: Entry, l: seq<Entry>, v: real)
    ensures WithScore([x] + l, v) == (if x.1 == v then [x] else []) + WithScore(l, v)
  {
    assert ([x] + l)[0] == x && ([x] + l)[1..] == l;
  }

  lemma {:induction false} InsertKeepsTies(x: Entry, l: seq<Entry>, v: real)
    ensures WithScore(InsertDesc(x, l), v) == (if x.1 == v then [x] else []) + WithScore(l, v)
  {
    if |l| == 0 || x.1 >= l[0].1 {
      WithScoreCons(x, l, v);
    } else {
      var rest := InsertDesc(x, l[1..]);
      InsertKeepsTies(x, l[1..], v);
      WithScoreCons(l[0], rest, v);
      WithScoreCons(l[0], l[1..], v);
      assert l == [l[0]] + l[1..];
      if x.1 == v {
        assert l[0].1 != v;
      }
    }
  }

  /** The sort is stable: for every score, the entries with that score
      appear in the same order before and after sorting. */
  lemma {:induction false} SortIsStable(s: seq<Entry>, v: real)
    ensures WithScore(SortDesc(s), v) == WithScore(s, v)
  {
    if |s| > 0 {
      SortIsStable(s[1..], v);
      InsertKeepsTies(s[0], SortDesc(s[1..]), v);
    }
  }

  /** The mark for rank position i (0-based): the i-th of MARKS, or none.
      Exactly the first |MARKS| places carry a mark. */
  function MarkAt(i: nat): (m: string)
    ensures m != "" <==> i < |MARKS|
    ensures m != "" ==> m in MARKS
  {
    if i < |MARKS| then MARKS[i] else ""
  }

  /** The eight marks are pairwise different, so no two marked places
      share a mark. */
  lemma MarksDistinct(i: nat, j: nat)
    requires i < j
    ensures MarkAt(i) != "" ==> MarkAt(i) != MarkAt(j)
  {
    if i < |MARKS| && j < |MARKS| {
      assert MARKS[i][0] != MARKS[j][0];
    }
  }

  /** The (number, score) pairs of a ranking. */
  function Entries(r: seq<Ranked>): (e: seq<Entry>)
    ensures |e| == |r|
  {
    seq(|r|, i requires 0 <= i < |r| => (r[i].no, r[i].score))
  }

  /** Sorts the score table by descending score, ties in table order, and
      marks the first eight places. */
  function RankAndMarks(scores: seq<Entry>): (r: seq<Ranked>)
    ensures |r| == |scores|
    ensures multiset(Entries(r)) == multiset(scores)
    ensures forall i, j :: 0 <= i < j < |r| ==> r[i].score >= r[j].score
    ensures forall i :: 0 <= i < |r| ==> r[i].mark == MarkAt(i)
  {
    var ordered := SortDesc(scores);
    assert |ordered| == |multiset(ordered)| == |multiset(scores)| == |scores|;
    var r := seq(|ordered|, i requires 0 <= i < |ordered| => Ranked(MarkAt(i), ordered[i].0, ordered[i].1));
    assert Entries(r) == ordered;
    r
  }

  /** Exactly the first min(8, n) lines of a ranking are marked, each with
      a different mark, in the order of MARKS. */
  lemma MarkedPlaces(scores: seq<Entry>)
    ensures |MARKS| == 8
    ensures forall i :: 0 <= i < |RankAndMarks(scores)| ==>
      (RankAndMarks(scores)[i].mark != "" <==> i < 8)
    ensures forall i :: 0 <= i < |RankAndMarks(scores)| && i < 8 ==>
      RankAndMarks(scores)[i].mark == MARKS[i]
    ensures forall i, j :: 0 <= i < j < |RankAndMarks(scores)| && RankAndMarks(scores)[i].mark != "" ==>
      RankAndMarks(scores)[i].mark != RankAndMarks(scores)[j].mark
  {
    var r := RankAndMarks(scores);
    forall i, j | 0 <= i < j < |r| && r[i].mark != "" ensures r[i].mark != r[j].mark {
      MarksDistinct(i, j);
    }
  }

  /** The ranking lists exactly the stably sorted score table. */
  lemma RankedEntriesAreSorted(scores: seq<Entry>)
    ensures Entries(RankAndMarks(scores)) == SortDesc(scores)
  {
  }

  /** Ties in the ranking keep the order they had in the score table. */
  lemma RankingIsStable(scores: seq<Entry>, v: real)
    ensures WithScore(Entries(RankAndMarks(scores)), v) == WithScore(scores, v)
  {
    RankedEntriesAreSorted(scores);
    SortIsStable(scores, v);
  }

  /** Every score-table entry sits in the ranking no higher than the top. */
  lemma TopIsMaximal(scores: seq<Entry>, k: int)
    requires 0 <= k < |scores|
    ensures RankAndMarks(scores)[0].score >= scores[k].1
  {
    var r := RankAndMarks(scores);
    var e := Entries(r);
    assert scores[k] in multiset(scores);
    assert scores[k] in multiset(e);
    var p :| 0 <= p < |e| && e[p] == scores[k];
    assert r[p].score == scores[k].1;
  }

  /** Distinct numbers stay distinct through the ranking. */
  predicate DistinctNumbers(s: seq<Entry>)
  {
    forall i, j :: 0 <= i < j < |s| ==> s[i].0 != s[j].0
  }

  lemma {:induction false} DistinctByMultiset(s: seq<Entry>, t: seq<Entry>)
    requires multiset(s) == multiset(t)
    requires DistinctNumbers(s)
    ensures DistinctNumbers(t)
  {
    forall i, j | 0 <= i < j < |t| ensures t[i].0 != t[j].0 {
      if t[i].0 == t[j].0 {
        assert t[i] in multiset(s) && t[j] in multiset(s);
        var p :| 0 <= p < |s| && s[p] == t[i];
        var q :| 0 <= q < |s| && s[q] == t[j];
        if p == q {
          assert t[i] == t[j];
          assert t == t[..i] + [t[i]] + t[i + 1..j] + [t[j]] + t[j + 1..];
          assert multiset(t)[t[i]] >= 2;
          DistinctCountOne(s, p);
          assert false;
        }
        assert false;
      }
    }
  }

  lemma {:induction false} DistinctCountOne(s: seq<Entry>, p: int)
    requires DistinctNumbers(s)
    requires 0 <= p < |s|
    ensures multiset(s)[s[p]] == 1
  {
    if p == 0 {
      assert s == [s[0]] + s[1..];
      assert s[0] !in s[1..] by {
        forall k | 0 <= k < |s[1..]| ensures s[1..][k] != s[0] {
          assert s[1..][k] == s[k + 1];
        }
      }
    } else {
      assert s == [s[0]] + s[1..];
      assert DistinctNumbers(s[1..]) by {
        forall i, j | 0 <= i < j < |s[1..]| ensures s[1..][i].0 != s[1..][j].0 {
          assert s[1..][i] == s[i + 1] && s[1..][j] == s[j + 1];
        }
      }
      DistinctCountOne(s[1..], p - 1);
      assert s[0] != s[p];
    }
  }

  lemma RankingKeepsNumbersDistinct(scores: seq<Entry>)
    requires DistinctNumbers(scores)
    ensures forall i, j :: 0 <= i < j < |RankAndMarks(scores)| ==>
      RankAndMarks(scores)[i].no != RankAndMarks(scores)[j].no
  {
    var r := RankAndMarks(scores);
    DistinctByMultiset(scores, Entries(r));
    forall i, j | 0 <= i < j < |r| ensures r[i].no != r[j].no {
      assert Entries(r)[i].0 == r[i].no && Entries(r)[j].0 == r[j].no;
    }
  }

  lemma TieExamplePair()
    ensures SortDesc([(3, 5.0), (4, 20.1)]) == [(4, 20.1), (3, 5.0)]
  {
    var s: seq<Entry> := [(3, 5.0), (4, 20.1)];
    var e4: seq<Entry> := [(4, 20.1)];
    assert s[1..] == e4 && e4[1..] == [];
    assert SortDesc(e4) == InsertDesc((4, 20.1), []) == e4;
    assert InsertDesc((3, 5.0), e4) == [(4, 20.1)] + InsertDesc((3, 5.0), []);
  }

  lemma TieExampleTail()
    ensures SortDesc([(2, 20.1), (3, 5.0), (4, 20.1)]) == [(2, 20.1), (4, 20.1), (3, 5.0)]
  {
    var s: seq<Entry> := [(2, 20.1), (3, 5.0), (4, 20.1)];
    var e34: seq<Entry> := [(4, 20.1), (3, 5.0)];
    assert s[1..] == [(3, 5.0), (4, 20.1)];
    TieExamplePair();
    assert SortDesc(s) == InsertDesc((2, 20.1), SortDesc(s[1..]));
    assert InsertDesc((2, 20.1), e34) == [(2, 20.1)] + e34;
  }

  lemma TieExampleHead()
    ensures InsertDesc((1, 10.5), [(2, 20.1), (4, 20.1), (3, 5.0)])
      == [(2, 20.1), (4, 20.1), (1, 10.5), (3, 5.0)]
  {
    var e234: seq<Entry> := [(2, 20.1), (4, 20.1), (3, 5.0)];
    var e34: seq<Entry> := [(4, 20.1), (3, 5.0)];
    var e3: seq<Entry> := [(3, 5.0)];
    assert e234[1..] == e34 && e34[1..] == e3;
    assert InsertDesc((1, 10.5), e3) == [(1, 10.5), (3, 5.0)];
    assert InsertDesc((1, 10.5), e34) == [(4, 20.1), (1, 10.5), (3, 5.0)];
  }

  /** The example field {1: 10.5, 2: 20.1, 3: 5.0, 4: 20.1}: the tie between
      2 and 4 keeps table order, so the ranking reads 2, 4, 1, 3. */
  lemma TieExample()
    ensures Entries(RankAndMarks([(1, 10.5), (2, 20.1), (3, 5.0), (4, 20.1)]))
      == [(2, 20.1), (4, 20.1), (1, 10.5), (3, 5.0)]
  {
    var s: seq<Entry> := [(1, 10.5), (2, 20.1), (3, 5.0), (4, 20.1)];
    assert s[1..] == [(2, 20.1), (3, 5.0), (4, 20.1)];
    TieExampleTail();
    TieExampleHead();
    assert SortDesc(s) == InsertDesc((1, 10.5), SortDesc(s[1..]));
    RankedEntriesAreSorted(s);
  }
}
