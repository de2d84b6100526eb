/** The contributor leaderboard of `ContributorAnalyst.__parse_result`:
    a stable sort by commit count, largest first, then the drop of
    non-positive totals, then the first thirty. */
module Ranking {
  import opened JsonValues

  /** One leaderboard row: the login as found in the body, and the summed commits. */
  datatype Entry = Entry(login: Json, commitCount: int)

  /** How many contributors the leaderboard keeps. */
  const MaxEntries := 30

  predicate SortedDesc(s: seq<Entry>) {
    forall i, j :: 0 <= i < j < |s| ==> s[i].commitCount >= s[j].commitCount
  }

  /** The entries of `s` whose count is `k`, in their order in `s`. */
  function WithCount(s: seq<Entry>, k: int): (r: seq<Entry>)
    ensures forall x :: x in r <==> x in s && x.commitCount == k
  {
    if |s| == 0 then []
    else if s[0].commitCount == k then [s[0]] + WithCount(s[1..], k)
    else WithCount(s[1..], k)
  }

  lemma WithCountCons(e: Entry, s: seq<Entry>, k: int)
    ensures WithCount([e] + s, k) == if e.commitCount == k then [e] + WithCount(s, k) else WithCount(s, k)
  {
    assert ([e] + s)[0] == e;
    assert ([e] + s)[1..] == s;
  }

  /** `filter(lambda x: x['commit_count'] > 0, ...)`. */
  function Positives(s: seq<Entry>): (r: seq<Entry>)
    ensures |r| <= |s|
    ensures forall i :: 0 <= i < |r| ==> r[i].commitCount > 0
  {
    if |s| == 0 then []
    else if s[0].commitCount > 0 then [s[0]] + Positives(s[1..])
    else Positives(s[1..])
  }

  /** The positive entries are exactly the entries of positive count. */
  lemma {:induction false} PositivesMembers(s: seq<Entry>)
    ensures forall x :: x in Positives(s) <==> x in s && x.commitCount > 0
    decreases |s|
  {
    if |s| > 0 {
      PositivesMembers(s[1..]);
      assert s == [s[0]] + s[1..];
    }
  }

  /** ... with their multiplicities. */
  lemma {:induction false} PositivesMultiset(s: seq<Entry>)
    ensures forall x :: multiset(Positives(s))[x] == if x.commitCount > 0 then multiset(s)[x] else 0
    decreases |s|
  {
    if |s| > 0 {
      PositivesMultiset(s[1..]);
      assert s == [s[0]] + s[1..];
      assert multiset(s) == multiset{s[0]} + multiset(s[1..]);
    }
  }

  /** Putting an entry with no smaller count than any other in front keeps a
      sequence descending. */
  lemma ConsSorted(e: Entry, t: seq<Entry>)
    requires SortedDesc(t)
    requires forall i :: 0 <= i < |t| ==> t[i].commitCount <= e.commitCount
    ensures SortedDesc([e] + t)
  {
    var r := [e] + t;
    forall i, j | 0 <= i < j < |r|
      ensures r[i].commitCount >= r[j].commitCount
    {
      assert r[j] == t[j - 1];
      if i > 0 {
        assert r[i] == t[i - 1];
      }
    }
  }

  lemma {:induction false} PositivesBelow(s: seq<Entry>, v: int)
    requires forall i :: 0 <= i < |s| ==> s[i].commitCount <= v
    ensures forall i :: 0 <= i < |Positives(s)| ==> Positives(s)[i].commitCount <= v
    decreases |s|
  {
    if |s| > 0 {
      PositivesBelow(s[1..], v);
    }
  }

  /** Places `e` in front of the first entry whose count does not exceed its
      own, so `e` stays ahead of the entries it ties with. */
  function Insert(e: Entry, s: seq<Entry>): (r: seq<Entry>)
    ensures |r| == |s| + 1
    ensures r[0] == e || (|s| > 0 && r[0] == s[0])
    ensures multiset(r) == multiset(s) + multiset{e}
  {
    if |s| == 0 || s[0].commitCount <= e.commitCount then [e] + s
    else
      assert s == [s[0]] + s[1..];
      [s[0]] + Insert(e, s[1..])
  }

  lemma {:induction false} InsertSorted(e: Entry, s: seq<Entry>)
    requires SortedDesc(s)
    ensures SortedDesc(Insert(e, s))
    decreases |s|
  {
    if |s| == 0 || s[0].commitCount <= e.commitCount {
      ConsSorted(e, s);
    } else {
      var t := Insert(e, s[1..]);
      InsertSorted(e, s[1..]);
      forall i | 0 <= i < |t| ensures t[i].commitCount <= s[0].commitCount {
        HeadIsLargest(t, t[i]);
      }
      ConsSorted(s[0], t);
    }
  }

  /** Inserting `e` adds it at the front of its own count's group and leaves
      every other group as it was. */
  lemma {:induction false} InsertWithCount(e: Entry, s: seq<Entry>, k: int)
    ensures WithCount(Insert(e, s), k) == if e.commitCount == k then [e] + WithCount(s, k) else WithCount(s, k)
    decreases |s|
  {
    if |s| == 0 || s[0].commitCount <= e.commitCount {
      WithCountCons(e, s, k);
    } else {
      WithCountCons(s[0], Insert(e, s[1..]), k);
      InsertWithCount(e, s[1..], k);
      assert s == [s[0]] + s[1..];
      WithCountCons(s[0], s[1..], k);
    }
  }

  /** Inserting the first entry into an arrangement of the rest that keeps
      the rest's groups gives the groups of the whole. */
  lemma InsertGroups(s: seq<Entry>, t: seq<Entry>)
    requires |s| > 0
    requires forall k :: WithCount(t, k) == WithCount(s[1..], k)
    ensures forall k :: WithCount(Insert(s[0], t), k) == WithCount(s, k)
  {
    assert s == [s[0]] + s[1..];
    forall k ensures WithCount(Insert(s[0], t), k) == WithCount(s, k) {
      InsertWithCount(s[0], t, k);
      WithCountCons(s[0], s[1..], k);
    }
  }

  /** Inserting the first entry into a permutation of the rest gives a
      permutation of the whole. */
  lemma InsertMultiset(s: seq<Entry>, t: seq<Entry>)
    requires |s| > 0
    requires multiset(t) == multiset(s[1..])
    ensures multiset(Insert(s[0], t)) == multiset(s)
  {
    assert s == [s[0]] + s[1..];
  }

  /** `sorted(data, key=commit_count, reverse=True)`: a stable sort, largest
      count first. It keeps every entry, and entries that tie keep their
      input order. */
  function SortDesc(s: seq<Entry>): (r: seq<Entry>)
    ensures |r| == |s|
    ensures multiset(r) == multiset(s)
    ensures SortedDesc(r)
    ensures forall k :: WithCount(r, k) == WithCount(s, k)
  {
    if |s| == 0 then []
    else
      var t := SortDesc(s[1..]);
      InsertSorted(s[0], t);
      InsertGroups(s, t);
      InsertMultiset(s, t);
      Insert(s[0], t)
  }

  lemma NonEmptyGroup(s: seq<Entry>)
    requires |s| > 0
    ensures WithCount(s, s[0].commitCount) != []
  {
  }

  /** Sequences whose count groups agree are empty together. */
  lemma SameGroupsSameEmptiness(a: seq<Entry>, b: seq<Entry>)
    requires forall k :: WithCount(a, k) == WithCount(b, k)
    ensures |a| == 0 <==> |b| == 0
  {
    if |a| > 0 {
      NonEmptyGroup(a);
      assert WithCount(b, a[0].commitCount) != [];
    }
    if |b| > 0 {
      NonEmptyGroup(b);
      assert WithCount(a, b[0].commitCount) != [];
    }
  }

  /** The first entry of a descending sequence has the largest count. */
  lemma HeadIsLargest(s: seq<Entry>, x: Entry)
    requires SortedDesc(s) && x in s
    ensures s[0].commitCount >= x.commitCount
  {
    var j :| 0 <= j < |s| && s[j] == x;
  }

  /** The group of the first entry's count starts with that entry. */
  lemma GroupHead(s: seq<Entry>)
    requires |s| > 0
    ensures |WithCount(s, s[0].commitCount)| > 0 && WithCount(s, s[0].commitCount)[0] == s[0]
  {
  }

  /** Descending sequences with the same count groups start with the same entry. */
  lemma SameGroupsSameHead(a: seq<Entry>, b: seq<Entry>)
    requires SortedDesc(a) && SortedDesc(b) && |a| > 0 && |b| > 0
    requires forall k :: WithCount(a, k) == WithCount(b, k)
    ensures a[0] == b[0]
  {
    var ka, kb := a[0].commitCount, b[0].commitCount;
    assert a[0] in WithCount(a, ka);
    assert a[0] in WithCount(b, ka);
    HeadIsLargest(b, a[0]);
    assert b[0] in WithCount(b, kb);
    assert b[0] in WithCount(a, kb);
    HeadIsLargest(a, b[0]);
    assert ka == kb;
    GroupHead(a);
    GroupHead(b);
    assert WithCount(a, ka) == WithCount(b, ka);
  }

  /** Removing the same first entry keeps the count groups equal. */
  lemma SameGroupsTails(a: seq<Entry>, b: seq<Entry>)
    requires |a| > 0 && |b| > 0 && a[0] == b[0]
    requires forall k :: WithCount(a, k) == WithCount(b, k)
    ensures forall k :: WithCount(a[1..], k) == WithCount(b[1..], k)
  {
    forall k ensures WithCount(a[1..], k) == WithCount(b[1..], k) {
      var x, y := WithCount(a[1..], k), WithCount(b[1..], k);
      assert WithCount(a, k) == WithCount(b, k);
      if a[0].commitCount == k {
        assert WithCount(a, k) == [a[0]] + x;
        assert WithCount(b, k) == [a[0]] + y;
        assert x == ([a[0]] + x)[1..];
        assert y == ([a[0]] + y)[1..];
      }
    }
  }

  /** Two descending sequences with the same count groups are equal: the
      groups fix which entries appear and in which order ties come. */
  lemma {:induction false} SortedSameGroupsEqual(a: seq<Entry>, b: seq<Entry>)
    requires SortedDesc(a) && SortedDesc(b)
    requires forall k :: WithCount(a, k) == WithCount(b, k)
    ensures a == b
    decreases |a|
  {
    SameGroupsSameEmptiness(a, b);
    if |a| > 0 {
      SameGroupsSameHead(a, b);
      SameGroupsTails(a, b);
      SortedSameGroupsEqual(a[1..], b[1..]);
      assert a == [a[0]] + a[1..] && b == [b[0]] + b[1..];
    }
  }

  /** Any descending arrangement of the input that keeps ties in input order
      is `SortDesc`'s: the stable sort has exactly one possible result. */
  lemma StableSortUnique(s: seq<Entry>, r: seq<Entry>)
    requires SortedDesc(r)
    requires forall k :: WithCount(r, k) == WithCount(s, k)
    ensures r == SortDesc(s)
  {
    SortedSameGroupsEqual(r, SortDesc(s));
  }

  /** Dropping entries keeps a descending sequence descending. */
  lemma {:induction false} PositivesSorted(s: seq<Entry>)
    requires SortedDesc(s)
    ensures SortedDesc(Positives(s))
    decreases |s|
  {
    if |s| > 0 {
      PositivesSorted(s[1..]);
      if s[0].commitCount > 0 {
        PositivesBelow(s[1..], s[0].commitCount);
        ConsSorted(s[0], Positives(s[1..]));
      }
    }
  }

  /** Dropping the non-positive entries keeps each positive count's group whole. */
  lemma {:induction false} PositivesWithCount(s: seq<Entry>, k: int)
    ensures WithCount(Positives(s), k) == if k > 0 then WithCount(s, k) else []
    decreases |s|
  {
    if |s| > 0 {
      PositivesWithCount(s[1..], k);
      if s[0].commitCount > 0 {
        WithCountCons(s[0], Positives(s[1..]), k);
      }
    }
  }

  /** Filtering a prefix gives a prefix of the filtered sequence. */
  lemma {:induction false} WithCountPrefix(p: seq<Entry>, n: nat, k: int)
    requires n <= |p|
    ensures WithCount(p[..n], k) <= WithCount(p, k)
    decreases n
  {
    if n > 0 {
      assert p[..n][0] == p[0];
      assert p[..n][1..] == p[1..][..n - 1];
      WithCountPrefix(p[1..], n - 1, k);
    }
  }

  /** Permuted inputs have permuted positive parts, of the same length. */
  lemma SamePositives(a: seq<Entry>, b: seq<Entry>)
    requires multiset(a) == multiset(b)
    ensures multiset(Positives(a)) == multiset(Positives(b))
    ensures |Positives(a)| == |Positives(b)|
  {
    PositivesMultiset(a);
    PositivesMultiset(b);
    assert multiset(Positives(a)) == multiset(Positives(b));
    assert |multiset(Positives(a))| == |Positives(a)|;
    assert |multiset(Positives(b))| == |Positives(b)|;
  }

  /** The sorted positive entries, before the cut to thirty. */
  function Leaders(s: seq<Entry>): seq<Entry> {
    Positives(SortDesc(s))
  }

  lemma LeadersSorted(s: seq<Entry>)
    ensures SortedDesc(Leaders(s))
  {
    PositivesSorted(SortDesc(s));
  }

  /** The leaders are the input's positive entries, rearranged. */
  lemma LeadersArePositives(s: seq<Entry>)
    ensures multiset(Leaders(s)) == multiset(Positives(s))
    ensures |Leaders(s)| == |Positives(s)|
    ensures forall x: Entry :: x.commitCount > 0 ==> multiset(Leaders(s))[x] == multiset(s)[x]
    ensures forall x: Entry :: multiset(Leaders(s))[x] <= multiset(s)[x]
  {
    SamePositives(SortDesc(s), s);
    PositivesMultiset(SortDesc(s));
  }

  lemma LeadersLength(s: seq<Entry>)
    ensures |Leaders(s)| == |Positives(s)|
  {
    LeadersArePositives(s);
  }

  /** An entry after the cut has no larger count than one before it. */
  lemma CutPairOrdered(p: seq<Entry>, n: nat, x: Entry, y: Entry)
    requires SortedDesc(p) && n <= |p|
    requires x in p[n..] && y in p[..n]
    ensures x.commitCount <= y.commitCount
  {
    var j :| 0 <= j < |p[n..]| && p[n..][j] == x;
    var i :| 0 <= i < n && p[..n][i] == y;
    assert p[i] == y && p[n + j] == x;
  }

  /** An entry the cut misses, but that occurs as often in `p` as in `s`, lies after the cut. */
  lemma DroppedInTail(p: seq<Entry>, s: seq<Entry>, n: nat, x: Entry)
    requires n <= |p| && multiset(p)[x] == multiset(s)[x]
    requires x in multiset(s) - multiset(p[..n])
    ensures x in p[n..]
  {
    assert p == p[..n] + p[n..];
    assert multiset(p) == multiset(p[..n]) + multiset(p[n..]);
    assert x in multiset(p[n..]);
  }

  /** The positive entries the cut removes have no larger count than any entry it keeps. */
  lemma DroppedNotLarger(s: seq<Entry>, n: nat)
    requires n <= |Leaders(s)|
    ensures forall x, y :: x in multiset(s) - multiset(Leaders(s)[..n]) && x.commitCount > 0 && y in Leaders(s)[..n] ==>
                             x.commitCount <= y.commitCount
  {
    var p := Leaders(s);
    LeadersSorted(s);
    LeadersArePositives(s);
    forall x, y | x in multiset(s) - multiset(p[..n]) && x.commitCount > 0 && y in p[..n]
      ensures x.commitCount <= y.commitCount
    {
      DroppedInTail(p, s, n, x);
      CutPairOrdered(p, n, x, y);
    }
  }

  /** A prefix of a sub-multiset is a sub-multiset. */
  lemma CutSubMultiset(p: seq<Entry>, s: seq<Entry>, n: nat)
    requires n <= |p|
    requires forall x: Entry :: multiset(p)[x] <= multiset(s)[x]
    ensures multiset(p[..n]) <= multiset(s)
  {
    assert p == p[..n] + p[n..];
    assert multiset(p) == multiset(p[..n]) + multiset(p[n..]);
    forall x ensures multiset(p[..n])[x] <= multiset(s)[x] {
      assert multiset(p)[x] <= multiset(s)[x];
    }
  }

  lemma CutStable(s: seq<Entry>, n: nat)
    requires n <= |Leaders(s)|
    ensures forall k :: WithCount(Leaders(s)[..n], k) <= WithCount(s, k)
  {
    forall k ensures WithCount(Leaders(s)[..n], k) <= WithCount(s, k) {
      WithCountPrefix(Leaders(s), n, k);
      PositivesWithCount(SortDesc(s), k);
    }
  }

  lemma CutSorted(s: seq<Entry>, n: nat)
    requires n <= |Leaders(s)|
    ensures SortedDesc(Leaders(s)[..n])
  {
    LeadersSorted(s);
  }

  lemma PrefixPositive(p: seq<Entry>, n: nat)
    requires n <= |p|
    requires forall i :: 0 <= i < |p| ==> p[i].commitCount > 0
    ensures forall x :: x in p[..n] ==> x.commitCount > 0
  {
    forall x | x in p[..n] ensures x.commitCount > 0 {
      var i :| 0 <= i < n && p[..n][i] == x;
      assert p[i] == x;
    }
  }

  /** The leaders cut to their first `n`: ordered and positive. */
  lemma CutShape(s: seq<Entry>, n: nat)
    requires n <= |Positives(s)|
    ensures n <= |Leaders(s)|
    ensures SortedDesc(Leaders(s)[..n])
    ensures forall x :: x in Leaders(s)[..n] ==> x.commitCount > 0
  {
    LeadersLength(s);
    CutSorted(s, n);
    PrefixPositive(Leaders(s), n);
  }

  /** The leaders cut to their first `n`: drawn from the input, all of the
      positive ones when none is cut off. */
  lemma CutContents(s: seq<Entry>, n: nat)
    requires n <= |Positives(s)|
    ensures n <= |Leaders(s)|
    ensures multiset(Leaders(s)[..n]) <= multiset(s)
    ensures n == |Positives(s)| ==> multiset(Leaders(s)[..n]) == multiset(Positives(s))
  {
    var p := Leaders(s);
    LeadersArePositives(s);
    CutSubMultiset(p, s, n);
    if n == |Positives(s)| {
      assert p[..n] == p;
    }
  }

  /** `sorted(...)`, then `filter(... > 0)`, then `[:30]`. */
  function Rank(s: seq<Entry>): (r: seq<Entry>)
    ensures SortedDesc(r)
    ensures forall x :: x in r ==> x.commitCount > 0
    ensures |r| == if |Positives(s)| <= MaxEntries then |Positives(s)| else MaxEntries
    ensures multiset(r) <= multiset(s)
    ensures |Positives(s)| <= MaxEntries ==> multiset(r) == multiset(Positives(s))
    ensures forall k :: WithCount(r, k) <= WithCount(s, k)
    ensures forall x, y :: x in multiset(s) - multiset(r) && x.commitCount > 0 && y in r ==>
                             x.commitCount <= y.commitCount
  {
    var n := if |Positives(s)| <= MaxEntries then |Positives(s)| else MaxEntries;
    CutShape(s, n);
    CutContents(s, n);
    CutStable(s, n);
    DroppedNotLarger(s, n);
    Leaders(s)[..n]
  }

  /** A leaderboard: descending, positive counts only, at most thirty rows. */
  predicate Ranked(r: seq<Entry>) {
    SortedDesc(r) && (forall x :: x in r ==> x.commitCount > 0) && |r| <= MaxEntries
  }

  lemma {:induction false} PositivesOfPositives(s: seq<Entry>)
    requires forall x :: x in s ==> x.commitCount > 0
    ensures Positives(s) == s
    decreases |s|
  {
    if |s| > 0 {
      PositivesOfPositives(s[1..]);
      assert s == [s[0]] + s[1..];
    }
  }

  /** Ranking a leaderboard again changes nothing. */
  lemma RankIdempotent(s: seq<Entry>)
    ensures Ranked(Rank(s))
    ensures Rank(Rank(s)) == Rank(s)
  {
    RankOfRanked(Rank(s));
  }

  /** A leaderboard is left as it is by ranking. */
  lemma RankOfRanked(r: seq<Entry>)
    requires Ranked(r)
    ensures Rank(r) == r
  {
    StableSortUnique(r, r);
    assert SortDesc(r) == r;
    PositivesOfPositives(r);
    assert Leaders(r) == r;
    assert |Positives(r)| <= MaxEntries;
    assert r[..|r|] == r;
  }
}
