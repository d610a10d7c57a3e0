/** Ranking of named scores as Python's `sorted(items, key=score,
    reverse=True)` does it: non-increasing by score, and stable, so items
    with equal scores keep their input order. */
module Ranking {
  import opened Sequences

  /** A name paired with the score it is ranked by. */
  datatype Ranked = Ranked(name: string, score: real)

  predicate Sorted(s: seq<Ranked>)
  {
    forall i, j :: 0 <= i < j < |s| ==> s[i].score >= s[j].score
  }

  /** Inserts `x` into `s` in front of the first element whose score is not
      above its own. */
  function Insert(x: Ranked, s: seq<Ranked>): seq<Ranked>
  {
    if s == [] || x.score >= s[0].score then [x] + s
    else [s[0]] + Insert(x, s[1..])
  }

  predicate AtMost(s: seq<Ranked>, v: real)
  {
    forall i :: 0 <= i < |s| ==> s[i].score <= v
  }

  lemma {:induction false} InsertAtMost(x: Ranked, s: seq<Ranked>, v: real)
    requires AtMost(s, v) && x.score <= v
    ensures AtMost(Insert(x, s), v)
  {
    if s != [] && x.score < s[0].score {
      InsertAtMost(x, s[1..], v);
    }
  }

  lemma {:induction false} InsertSorted(x: Ranked, s: seq<Ranked>)
    requires Sorted(s)
    ensures Sorted(Insert(x, s))
    ensures multiset(Insert(x, s)) == multiset(s) + multiset{x}
  {
    if s != [] && x.score < s[0].score {
      InsertSorted(x, s[1..]);
      InsertAtMost(x, s[1..], s[0].score);
      assert s == [s[0]] + s[1..];
    }
  }

  /** Stable descending sort: each element goes in front of the later
      elements with the same score. */
  function SortDesc(s: seq<Ranked>): (r: seq<Ranked>)
    ensures |r| == |s|
    ensures Sorted(r)
    ensures multiset(r) == multiset(s)
  {
    if s == [] then []
    else
      InsertSorted(s[0], SortDesc(s[1..]));
      assert s == [s[0]] + s[1..];
      var r := Insert(s[0], SortDesc(s[1..]));
      assert |r| == |multiset(r)|;
      r
  }

  /** The elements of `s` with score `k`, in their order in `s`. */
  function Keyed(s: seq<Ranked>, k: real): seq<Ranked>
  {
    if s == [] then []
    else (if s[0].score == k then [s[0]] else []) + Keyed(s[1..], k)
  }

  lemma {:induction false} InsertKeyed(x: Ranked, s: seq<Ranked>, k: real)
    requires Sorted(s)
    ensures Keyed(Insert(x, s), k) == if x.score == k then [x] + Keyed(s, k) else Keyed(s, k)
  {
    if s == [] || x.score >= s[0].score {
      assert ([x] + s)[1..] == s;
      if x.score == k && s != [] && s[0].score == k {
        assert x.score >= s[0].score;
      }
    } else {
      InsertKeyed(x, s[1..], k);
      var rest := Insert(x, s[1..]);
      assert ([s[0]] + rest)[1..] == rest;
    }
  }

  /** Stability: for every score, the elements with that score appear in the
      sorted output in exactly their input order. */
  lemma {:induction false} SortKeyed(s: seq<Ranked>, k: real)
    ensures Keyed(SortDesc(s), k) == Keyed(s, k)
  {
    if s != [] {
      SortKeyed(s[1..], k);
      InsertKeyed(s[0], SortDesc(s[1..]), k);
    }
  }

  lemma {:induction false} KeyedAbove(s: seq<Ranked>, k: real)
    requires forall i :: 0 <= i < |s| ==> s[i].score < k
    ensures Keyed(s, k) == []
  {
    if s != [] {
      KeyedAbove(s[1..], k);
    }
  }

  /** A sorted sequence is determined by its per-score subsequences: the
      stable descending sort is the only sorted arrangement of `s` that
      keeps equal scores in input order. */
  lemma {:induction false} SortUnique(s: seq<Ranked>, r: seq<Ranked>)
    requires Sorted(r)
    requires forall k :: Keyed(r, k) == Keyed(s, k)
    ensures r == SortDesc(s)
  {
    forall k ensures Keyed(r, k) == Keyed(SortDesc(s), k) {
      SortKeyed(s, k);
    }
    SortedKeyedEqual(r, SortDesc(s));
  }

  lemma {:induction false} SortedKeyedEqual(a: seq<Ranked>, b: seq<Ranked>)
    requires Sorted(a) && Sorted(b)
    requires forall k :: Keyed(a, k) == Keyed(b, k)
    ensures a == b
  {
    KeyedHead(a);
    KeyedHead(b);
    if a != [] && b != [] {
      var ka, kb := a[0].score, b[0].score;
      HeadScore(a, b);
      HeadScore(b, a);
      assert Keyed(a, ka) == Keyed(b, kb);
      KeyedTail(a, b);
      SortedKeyedEqual(a[1..], b[1..]);
      assert a == [a[0]] + a[1..] && b == [b[0]] + b[1..];
    }
  }

  lemma KeyedHead(s: seq<Ranked>)
    ensures s != [] ==> Keyed(s, s[0].score) != [] && Keyed(s, s[0].score)[0] == s[0]
  {
  }

  /** When `a` and the sorted `b` agree on the items scoring like the head
      of `a`, the head of `a` scores no higher than the head of `b`. */
  lemma HeadScore(a: seq<Ranked>, b: seq<Ranked>)
    requires Sorted(b) && a != [] && b != []
    requires Keyed(a, a[0].score) == Keyed(b, a[0].score)
    ensures a[0].score <= b[0].score
  {
    KeyedHead(a);
    if a[0].score > b[0].score {
      KeyedAbove(b, a[0].score);
    }
  }

  lemma KeyedTail(a: seq<Ranked>, b: seq<Ranked>)
    requires a != [] && b != [] && a[0] == b[0]
    requires forall k :: Keyed(a, k) == Keyed(b, k)
    ensures forall k :: Keyed(a[1..], k) == Keyed(b[1..], k)
  {
    forall k ensures Keyed(a[1..], k) == Keyed(b[1..], k) {
      var head := if k == a[0].score then [a[0]] else [];
      assert Keyed(a, k) == head + Keyed(a[1..], k);
      assert Keyed(b, k) == head + Keyed(b[1..], k);
      assert Keyed(a[1..], k) == Keyed(a, k)[|head|..];
      assert Keyed(b[1..], k) == Keyed(b, k)[|head|..];
    }
  }

  /** Cutting a sequence to its first `n` elements keeps, for every score, a
      prefix of the elements with that score. */
  lemma {:induction false} KeyedTake(s: seq<Ranked>, n: nat, k: real)
    ensures Keyed(Take(s, n), k) <= Keyed(s, k)
  {
    if s != [] && n > 0 {
      KeyedTake(s[1..], n - 1, k);
      assert Take(s, n)[1..] == Take(s[1..], n - 1);
    }
  }

  /** The first `n` of the sorted sequence are drawn from `s`, and every
      element left over scores no higher than any of them. */
  lemma TopBeatsRest(s: seq<Ranked>, n: nat)
    ensures multiset(Take(SortDesc(s), n)) <= multiset(s)
    ensures forall x: Ranked, i :: x in multiset(s) - multiset(Take(SortDesc(s), n)) && 0 <= i < |Take(SortDesc(s), n)| ==>
      x.score <= Take(SortDesc(s), n)[i].score
  {
    var sorted := SortDesc(s);
    var m := Min(n, |sorted|);
    SplitMultiset(sorted, m);
    PrefixBeatsRest(sorted, m);
  }

  lemma SplitMultiset(s: seq<Ranked>, m: nat)
    requires m <= |s|
    ensures multiset(s[..m]) <= multiset(s)
    ensures multiset(s) - multiset(s[..m]) == multiset(s[m..])
  {
    assert s == s[..m] + s[m..];
  }

  lemma PrefixBeatsRest(s: seq<Ranked>, m: nat)
    requires Sorted(s) && m <= |s|
    ensures forall x: Ranked, i :: x in multiset(s[m..]) && 0 <= i < m ==> x.score <= s[i].score
  {
    forall x: Ranked, i | x in multiset(s[m..]) && 0 <= i < m
      ensures x.score <= s[i].score
    {
      var q :| 0 <= q < |s| - m && s[m..][q] == x;
      assert s[m + q] == x;
    }
  }

  /** The first `n` of the sorted sequence are in order. */
  lemma TopSorted(s: seq<Ranked>, n: nat)
    ensures |Take(SortDesc(s), n)| == Min(n, |s|)
    ensures Sorted(Take(SortDesc(s), n))
  {
  }

  /** The first `n` of the sorted sequence keep, for every score, a prefix
      of the input's items with that score, in input order. */
  lemma TopStable(s: seq<Ranked>, n: nat)
    ensures forall k :: Keyed(Take(SortDesc(s), n), k) <= Keyed(s, k)
  {
    forall k ensures Keyed(Take(SortDesc(s), n), k) <= Keyed(s, k) {
      KeyedTake(SortDesc(s), n, k);
      SortKeyed(s, k);
    }
  }

  /** Python's slice `s[:n]`. */
  function Take<T>(s: seq<T>, n: nat): (r: seq<T>)
    ensures |r| == Min(n, |s|)
  {
    s[..Min(n, |s|)]
  }

  function Names(s: seq<Ranked>): (names: seq<string>)
    ensures |names| == |s|
    ensures forall i :: 0 <= i < |s| ==> names[i] == s[i].name
  {
    if s == [] then [] else [s[0].name] + Names(s[1..])
  }

  lemma {:induction false} InsertNames(x: Ranked, s: seq<Ranked>)
    ensures multiset(Names(Insert(x, s))) == multiset(Names(s)) + multiset{x.name}
  {
    if s != [] && x.score < s[0].score {
      InsertNames(x, s[1..]);
      var rest := Insert(x, s[1..]);
      assert Names([s[0]] + rest) == [s[0].name] + Names(rest);
      assert Names(s) == [s[0].name] + Names(s[1..]);
    } else {
      assert Names([x] + s) == [x.name] + Names(s);
    }
  }

  /** Sorting permutes the names. */
  lemma {:induction false} SortNames(s: seq<Ranked>)
    ensures multiset(Names(SortDesc(s))) == multiset(Names(s))
  {
    if s != [] {
      SortNames(s[1..]);
      InsertNames(s[0], SortDesc(s[1..]));
      assert Names(s) == [s[0].name] + Names(s[1..]);
    }
  }
}
