/** The sorted-set commands the sink uses, and why trimming after every add keeps a true top-k.

    A sorted set maps members to scores; members are ranked by score and, at equal scores, by
    the byte order of the member. */
module SortedHistory {

  type SortedSet = map<string, int>

  datatype Entry = Entry(score: int, member: string)

  /** Byte order of members; characters are code points, which UTF-8 orders as bytes. */
  predicate LexLess(a: string, b: string) {
    b != [] && (a == [] || a[0] < b[0] || (a[0] == b[0] && LexLess(a[1..], b[1..])))
  }

  predicate Below(a: Entry, b: Entry) {
    a.score < b.score || (a.score == b.score && LexLess(a.member, b.member))
  }

  function At(z: SortedSet, m: string): Entry
    requires m in z
  {
    Entry(z[m], m)
  }

  /** The members ranked above, and below, a member. */
  function Above(z: SortedSet, m: string): set<string>
    requires m in z
  {
    set x | x in z && Below(At(z, m), At(z, x))
  }

  function Under(z: SortedSet, m: string): set<string>
    requires m in z
  {
    set x | x in z && Below(At(z, x), At(z, m))
  }

  /** ZADD: insert the member or overwrite its score. */
  function ZAdd(z: SortedSet, score: int, member: string): SortedSet {
    z[member := score]
  }

  /** ZREMRANGEBYRANK: drop the ascending ranks start..stop, where a negative index counts from the end. */
  function ZRemRangeByRank(z: SortedSet, start: int, stop: int): SortedSet {
    var from := if start < 0 then (if |z| + start < 0 then 0 else |z| + start) else start;
    var to := if stop < 0 then |z| + stop else stop;
    map m | m in z && !(from <= |Under(z, m)| <= to) :: z[m]
  }

  /** The k highest members. */
  function TopK(z: SortedSet, k: nat): SortedSet {
    map m | m in z && |Above(z, m)| < k :: z[m]
  }

  // ----- the ranking is a strict total order -----

  lemma {:induction false} LexTotal(a: string, b: string)
    ensures a != b ==> LexLess(a, b) || LexLess(b, a)
    ensures !(LexLess(a, b) && LexLess(b, a))
    ensures a == b ==> !LexLess(a, b)
  {
    if a != [] && b != [] {
      assert a == [a[0]] + a[1..] && b == [b[0]] + b[1..];
      LexTotal(a[1..], b[1..]);
    }
  }

  lemma {:induction false} LexTransitive(a: string, b: string, c: string)
    requires LexLess(a, b) && LexLess(b, c)
    ensures LexLess(a, c)
  {
    if a != [] && a[0] == b[0] && b[0] == c[0] {
      LexTransitive(a[1..], b[1..], c[1..]);
    }
  }

  lemma BelowTotal(a: Entry, b: Entry)
    ensures a != b ==> Below(a, b) || Below(b, a)
    ensures !(Below(a, b) && Below(b, a))
    ensures a == b ==> !Below(a, b)
  {
    LexTotal(a.member, b.member);
  }

  lemma BelowTransitive(a: Entry, b: Entry, c: Entry)
    requires Below(a, b) && Below(b, c)
    ensures Below(a, c)
  {
    if LexLess(a.member, b.member) && LexLess(b.member, c.member) {
      LexTransitive(a.member, b.member, c.member);
    }
  }

  // ----- cutting by rank is cutting to the top -----

  lemma RankSplits(z: SortedSet, m: string)
    requires m in z
    ensures |Under(z, m)| + 1 + |Above(z, m)| == |z|
  {
    forall x | x in z
      ensures x == m || x in Under(z, m) || x in Above(z, m)
      ensures !(x in Under(z, m) && x in Above(z, m))
      ensures m !in Under(z, m) && m !in Above(z, m)
    {
      BelowTotal(At(z, x), At(z, m));
      BelowTotal(At(z, m), At(z, m));
    }
    assert z.Keys == Under(z, m) + {m} + Above(z, m);
    assert Under(z, m) !! {m} && (Under(z, m) + {m}) !! Above(z, m);
  }

  /** The sink's trim, ranks 0 to -(k + 1), keeps exactly the top k. */
  lemma TrimIsTopK(z: SortedSet, k: nat)
    ensures ZRemRangeByRank(z, 0, -(k + 1)) == TopK(z, k)
  {
    forall m | m in z ensures (0 <= |Under(z, m)| <= |z| - (k + 1)) <==> |Above(z, m)| >= k {
      RankSplits(z, m);
    }
  }

  // ----- shape of the top k -----

  lemma TopIsUpwardClosed(z: SortedSet, k: nat, x: string, y: string)
    requires x in TopK(z, k) && y in z && Below(At(z, x), At(z, y))
    ensures y in TopK(z, k)
  {
    forall u | u in Above(z, y) ensures u in Above(z, x) {
      BelowTransitive(At(z, x), At(z, y), At(z, u));
    }
    SubsetSize(Above(z, y), Above(z, x));
  }

  /** Whatever was cut lies below whatever was kept. */
  lemma CutIsBelowKept(z: SortedSet, k: nat, e: string, h: string)
    requires e in z && e !in TopK(z, k) && h in TopK(z, k)
    ensures Below(At(z, e), At(z, h))
  {
    BelowTotal(At(z, e), At(z, h));
    if Below(At(z, h), At(z, e)) { TopIsUpwardClosed(z, k, h, e); }
  }

  lemma SubsetSize<T>(a: set<T>, b: set<T>)
    requires a <= b
    ensures |a| <= |b|
  {
    assert b == a + (b - a);
  }

  /** A non-empty set of members has a highest and a lowest one. */
  lemma {:induction false} Extremes(z: SortedSet, s: set<string>) returns (hi: string, lo: string)
    requires s != {} && s <= z.Keys
    ensures hi in s && lo in s
    ensures forall x :: x in s && x != hi ==> Below(At(z, x), At(z, hi))
    ensures forall x :: x in s && x != lo ==> Below(At(z, lo), At(z, x))
    decreases |s|
  {
    var p :| p in s;
    if s == {p} {
      hi, lo := p, p;
    } else {
      var rest := s - {p};
      hi, lo := Extremes(z, rest);
      var h, l := hi, lo;
      BelowTotal(At(z, p), At(z, h));
      BelowTotal(At(z, p), At(z, l));
      if Below(At(z, h), At(z, p)) {
        hi := p;
        forall x | x in rest ensures Below(At(z, x), At(z, p)) {
          if x != h { BelowTransitive(At(z, x), At(z, h), At(z, p)); }
        }
      }
      if Below(At(z, p), At(z, l)) {
        lo := p;
        forall x | x in rest ensures Below(At(z, p), At(z, x)) {
          if x != l { BelowTransitive(At(z, p), At(z, l), At(z, x)); }
        }
      }
    }
  }

  /** The top k has at most k members, and exactly k once anything was cut. */
  lemma TopSize(z: SortedSet, k: nat)
    ensures |TopK(z, k)| <= k
    ensures TopK(z, k).Keys < z.Keys ==> |TopK(z, k)| == k
  {
    var kept := TopK(z, k).Keys;
    if kept != {} {
      var _, lo := Extremes(z, kept);
      SubsetSize(kept - {lo}, Above(z, lo));
      assert |kept - {lo}| == |kept| - 1;
    }
    var cut := z.Keys - kept;
    if cut != {} {
      var hi, _ := Extremes(z, cut);
      forall x | x in Above(z, hi) ensures x in kept {
        if x in cut { BelowTotal(At(z, x), At(z, hi)); }
      }
      SubsetSize(Above(z, hi), kept);
    }
  }

  // ----- one add -----

  /** Re-scoring a kept member leaves it above everything that was cut. */
  predicate StaysAboveCut(all: SortedSet, k: nat, score: int, member: string) {
    member in TopK(all, k) ==>
      forall e :: e in all && e !in TopK(all, k) ==> Below(At(all, e), Entry(score, member))
  }

  /** Adding to the trimmed set and trimming again gives the top k of everything, exactly when a
      member that is still kept is not re-scored below one that was already cut. */
  lemma IncrementalTopK(all: SortedSet, k: nat, score: int, member: string)
    ensures TopK(ZAdd(TopK(all, k), score, member), k) == TopK(ZAdd(all, score, member), k)
            <==> StaysAboveCut(all, k, score, member)
  {
    if StaysAboveCut(all, k, score, member) {
      IncrementalAgrees(all, k, score, member);
    } else {
      IncrementalDiffers(all, k, score, member);
    }
  }

  lemma IncrementalAgrees(all: SortedSet, k: nat, score: int, member: string)
    requires StaysAboveCut(all, k, score, member)
    ensures TopK(ZAdd(TopK(all, k), score, member), k) == TopK(ZAdd(all, score, member), k)
  {
    hide LexLess, Below;
    var kept := TopK(all, k);
    var small, big := ZAdd(kept, score, member), ZAdd(all, score, member);
    forall x | x in big
      ensures x in TopK(big, k) <==> x in TopK(small, k)
    {
      if x !in small {
        CutStaysCut(all, k, score, member, x);
      } else if x == member
                && exists e :: e in all && e !in kept && e != member && Below(Entry(score, member), At(all, e)) {
        var e :| e in all && e !in kept && e != member && Below(Entry(score, member), At(all, e));
        BelowTotal(Entry(score, member), At(all, e));
        BuriedNewcomer(all, k, score, member, e);
      } else {
        forall u | u in Above(big, x) ensures u in Above(small, x) {
          if u !in small {
            if x != member { CutIsBelowKept(all, k, u, x); }
            BelowTotal(At(big, x), At(big, u));
          }
        }
        assert Above(big, x) == Above(small, x);
      }
    }
  }

  /** A member already cut is outranked by the k kept ones after the add as well. */
  lemma CutStaysCut(all: SortedSet, k: nat, score: int, member: string, x: string)
    requires StaysAboveCut(all, k, score, member)
    requires x in all && x !in TopK(all, k) && x != member
    ensures x !in TopK(ZAdd(all, score, member), k)
  {
    hide LexLess, Below;
    var kept, big := TopK(all, k), ZAdd(all, score, member);
    TopSize(all, k);
    forall h | h in kept ensures h in Above(big, x) {
      CutIsBelowKept(all, k, x, h);
    }
    SubsetSize(kept.Keys, Above(big, x));
  }

  /** A new member that lands under one already cut is cut from both. */
  lemma BuriedNewcomer(all: SortedSet, k: nat, score: int, member: string, e: string)
    requires member !in TopK(all, k)
    requires e in all && e !in TopK(all, k) && e != member && Below(Entry(score, member), At(all, e))
    ensures member !in TopK(ZAdd(all, score, member), k)
    ensures member !in TopK(ZAdd(TopK(all, k), score, member), k)
  {
    hide LexLess, Below;
    var kept := TopK(all, k);
    var small, big := ZAdd(kept, score, member), ZAdd(all, score, member);
    TopSize(all, k);
    forall h | h in kept ensures h in Above(big, member) && h in Above(small, member) {
      CutIsBelowKept(all, k, e, h);
      BelowTransitive(Entry(score, member), At(all, e), At(all, h));
    }
    SubsetSize(kept.Keys, Above(big, member));
    SubsetSize(kept.Keys, Above(small, member));
  }

  lemma IncrementalDiffers(all: SortedSet, k: nat, score: int, member: string)
    requires !StaysAboveCut(all, k, score, member)
    ensures TopK(ZAdd(TopK(all, k), score, member), k) != TopK(ZAdd(all, score, member), k)
  {
    hide LexLess, Below;
    var kept := TopK(all, k);
    var small, big := ZAdd(kept, score, member), ZAdd(all, score, member);
    TopSize(all, k);
    var e :| e in all && e !in kept && !Below(At(all, e), Entry(score, member));
    BelowTotal(At(all, e), Entry(score, member));
    forall h | h in kept.Keys - {member} + {e} ensures h in Above(big, member) {
      if h != e {
        CutIsBelowKept(all, k, e, h);
        BelowTransitive(Entry(score, member), At(all, e), At(all, h));
      }
    }
    assert |kept.Keys - {member} + {e}| == k;
    SubsetSize(kept.Keys - {member} + {e}, Above(big, member));
    assert small.Keys == kept.Keys;
    BelowTotal(At(small, member), At(small, member));
    SubsetSize(Above(small, member), small.Keys - {member});
    assert member in TopK(small, k) && member !in TopK(big, k);
  }

  // ----- whole runs -----

  /** Everything ever added, each member at its latest score. */
  function Written(adds: seq<Entry>): SortedSet {
    if adds == [] then map[]
    else ZAdd(Written(adds[..|adds| - 1]), adds[|adds| - 1].score, adds[|adds| - 1].member)
  }

  /** What the store holds when every add is followed by the trim. */
  function Stored(adds: seq<Entry>, k: nat): SortedSet {
    if adds == [] then map[]
    else
      var z := ZAdd(Stored(adds[..|adds| - 1], k), adds[|adds| - 1].score, adds[|adds| - 1].member);
      ZRemRangeByRank(z, 0, -(k + 1))
  }

  /** No repeated member lowers its score. */
  predicate NeverLowers(adds: seq<Entry>) {
    forall i, j :: 0 <= i < j < |adds| && adds[i].member == adds[j].member ==> adds[i].score <= adds[j].score
  }

  /** The store never holds more than k members, whatever was added. */
  lemma StoredBound(adds: seq<Entry>, k: nat)
    ensures |Stored(adds, k)| <= k
  {
    if adds != [] {
      var z := ZAdd(Stored(adds[..|adds| - 1], k), adds[|adds| - 1].score, adds[|adds| - 1].member);
      TrimIsTopK(z, k);
      TopSize(z, k);
    }
  }

  lemma {:induction false} WrittenScore(adds: seq<Entry>, m: string)
    requires m in Written(adds)
    ensures exists i :: 0 <= i < |adds| && adds[i] == Entry(Written(adds)[m], m)
  {
    var last := adds[|adds| - 1];
    if last.member != m {
      WrittenScore(adds[..|adds| - 1], m);
      var i :| 0 <= i < |adds| - 1 && adds[..|adds| - 1][i] == Entry(Written(adds)[m], m);
      assert adds[i] == Entry(Written(adds)[m], m);
    } else {
      assert adds[|adds| - 1] == Entry(Written(adds)[m], m);
    }
  }

  /** Every add keeps the incremental form exact: it does not re-score a kept member below one that
      was already cut from everything written before. */
  predicate AlwaysAboveCut(adds: seq<Entry>, k: nat) {
    forall n :: 0 <= n < |adds| ==> StaysAboveCut(Written(adds[..n]), k, adds[n].score, adds[n].member)
  }

  /** The store holds the top k of everything written. */
  predicate TopAfter(adds: seq<Entry>, k: nat) {
    Stored(adds, k) == TopK(Written(adds), k)
  }

  /** The store is the top k of everything written after every add of a run exactly when no add
      re-scores a kept member below one already cut. */
  lemma {:induction false} StoredIsTopKExactly(adds: seq<Entry>, k: nat)
    ensures (forall n :: 0 <= n <= |adds| ==> TopAfter(adds[..n], k)) <==> AlwaysAboveCut(adds, k)
  {
    hide LexLess, Above, TopK, ZRemRangeByRank, StaysAboveCut;
    if adds == [] {
      EmptyTop(k);
    } else {
      var m := |adds| - 1;
      var before, last := adds[..m], adds[m];
      StoredIsTopKExactly(before, k);
      forall n | 0 <= n <= m ensures adds[..n] == before[..n] {
      }
      assert adds[..|adds|] == adds;
      if Stored(before, k) == TopK(Written(before), k) {
        TrimIsTopK(ZAdd(TopK(Written(before), k), last.score, last.member), k);
        IncrementalTopK(Written(before), k, last.score, last.member);
      }
      AlwaysAboveCutSplit(adds, k);
      PrefixesSplit(adds, k);
    }
  }

  lemma AlwaysAboveCutSplit(adds: seq<Entry>, k: nat)
    requires adds != []
    ensures var m := |adds| - 1;
            AlwaysAboveCut(adds, k) <==>
              AlwaysAboveCut(adds[..m], k) && StaysAboveCut(Written(adds[..m]), k, adds[m].score, adds[m].member)
  {
    hide StaysAboveCut, Written;
    var m := |adds| - 1;
    forall n | 0 <= n < m ensures adds[..m][..n] == adds[..n] && adds[..m][n] == adds[n] {
    }
  }

  lemma PrefixesSplit(adds: seq<Entry>, k: nat)
    requires adds != []
    ensures var m := |adds| - 1;
            (forall n :: 0 <= n <= |adds| ==> TopAfter(adds[..n], k)) <==>
              (forall n :: 0 <= n <= m ==> TopAfter(adds[..m][..n], k)) && TopAfter(adds, k)
  {
    hide TopAfter;
    var m := |adds| - 1;
    assert adds[..|adds|] == adds;
    forall n | 0 <= n <= m ensures adds[..m][..n] == adds[..n] {
    }
  }

  /** When no repeated payload lowers its score, no add does that. */
  lemma {:induction false} NeverLowersStaysAbove(adds: seq<Entry>, k: nat)
    requires NeverLowers(adds)
    ensures AlwaysAboveCut(adds, k)
  {
    hide LexLess, Above, TopK;
    forall n | 0 <= n < |adds| ensures StaysAboveCut(Written(adds[..n]), k, adds[n].score, adds[n].member) {
      var all, last := Written(adds[..n]), adds[n];
      if last.member in TopK(all, k) {
        TopSubset(all, k);
        WrittenScore(adds[..n], last.member);
        assert all[last.member] <= last.score;
        forall e | e in all && e !in TopK(all, k) ensures Below(At(all, e), last) {
          CutIsBelowKept(all, k, e, last.member);
        }
      }
    }
  }

  /** So the store is then the top k of everything written. */
  lemma StoredIsTopK(adds: seq<Entry>, k: nat)
    requires NeverLowers(adds)
    ensures Stored(adds, k) == TopK(Written(adds), k)
  {
    hide AlwaysAboveCut, Stored, Written, TopK;
    NeverLowersStaysAbove(adds, k);
    StoredIsTopKExactly(adds, k);
    assert adds[..|adds|] == adds;
  }

  lemma EmptyTop(k: nat)
    ensures TopK(map[], k) == map[]
  {
  }

  lemma TopSubset(z: SortedSet, k: nat)
    ensures TopK(z, k).Keys <= z.Keys
  {
  }

  /** Lowering a kept payload's score loses a better one: with room for one, "b" at 3 was cut by
      "a" at 5 and does not come back when "a" drops to 1. */
  lemma LoweringLosesAMember()
    ensures var all := map["a" := 5, "b" := 3];
            TopK(ZAdd(TopK(all, 1), 1, "a"), 1) != TopK(ZAdd(all, 1, "a"), 1)
  {
    hide LexLess;
    var all := map["a" := 5, "b" := 3];
    assert Above(all, "a") == {} by { LexTotal("a", "a"); }
    assert "a" in Above(all, "b");
    assert |Above(all, "b")| >= 1 by { SubsetSize({"a"}, Above(all, "b")); }
    assert !Below(At(all, "b"), Entry(1, "a"));
    IncrementalTopK(all, 1, 1, "a");
  }

  // ----- what is kept -----

  /** Member order: the first difference decides, and a proper beginning comes first. */
  lemma {:induction false} LexLessIs(a: string, b: string)
    ensures LexLess(a, b) <==>
            || (a < b)
            || (exists i :: 0 <= i < |a| && i < |b| && a[..i] == b[..i] && a[i] < b[i])
  {
    if a != [] && b != [] {
      LexLessIs(a[1..], b[1..]);
      var p, q := a[1..], b[1..];
      if a[0] == b[0] {
        assert a < b <==> p < q by { assert a == [a[0]] + p && b == [b[0]] + q; }
        if i :| 0 <= i < |p| && i < |q| && p[..i] == q[..i] && p[i] < q[i] {
          assert a[..i + 1] == [a[0]] + p[..i] && b[..i + 1] == [b[0]] + q[..i];
          assert a[i + 1] < b[i + 1];
        }
        if i :| 0 <= i < |a| && i < |b| && a[..i] == b[..i] && a[i] < b[i] {
          assert i > 0;
          assert p[..i - 1] == a[..i][1..] && q[..i - 1] == b[..i][1..];
          assert p[i - 1] < q[i - 1];
        }
      } else {
        assert a[..0] == b[..0];
        forall i | 0 < i < |a| && i < |b| ensures a[..i] != b[..i] {
          assert a[..i][0] == a[0] && b[..i][0] == b[0];
        }
      }
    }
  }

  /** Everything kept scores at least as high as everything cut, and higher among members in order
      when the scores are equal. */
  lemma KeptOutscoresCut(z: SortedSet, k: nat, x: string, y: string)
    requires x in TopK(z, k) && y in z && y !in TopK(z, k)
    ensures z[x] > z[y] || (z[x] == z[y] && LexLess(y, x))
  {
    hide LexLess;
    CutIsBelowKept(z, k, y, x);
  }

  /** Everything written stands at the score it was last given. */
  lemma {:induction false} WrittenIsLatest(adds: seq<Entry>, i: nat)
    requires i < |adds| && forall j :: i < j < |adds| ==> adds[j].member != adds[i].member
    ensures adds[i].member in Written(adds) && Written(adds)[adds[i].member] == adds[i].score
  {
    if i < |adds| - 1 { WrittenIsLatest(adds[..|adds| - 1], i); }
  }
}
