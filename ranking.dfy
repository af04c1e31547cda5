/** The ranking pass of the rank endpoint: every scanned candidate gets its
    score, the list is sorted by score from high to low keeping scan order
    among equal scores, and the first `resumes_selected` entries are
    projected to {id, name, phone, email, score}. */
module Ranking {
  import opened Records
  import opened Scoring

  // ---------------------------------------------------------------------
  // Scoring every candidate

  /** The scanned candidates with their scores overwritten. */
  function Rescore(candidates: seq<Resume>, k: Criteria): seq<Resume>
  {
    seq(|candidates|, i requires 0 <= i < |candidates| => candidates[i].(score := Score(candidates[i], k)))
  }

  /** The loop that sets `c.score` on each candidate and appends it to the
      list to be ranked. */
  method ScoreAll(candidates: seq<Resume>, k: Criteria) returns (ranked: seq<Resume>)
    ensures |ranked| == |candidates|
    ensures forall i :: 0 <= i < |candidates| ==> ranked[i] == candidates[i].(score := Score(candidates[i], k))
    ensures ranked == Rescore(candidates, k)
  {
    ranked := [];
    for i := 0 to |candidates|
      invariant |ranked| == i
      invariant forall j :: 0 <= j < i ==> ranked[j] == candidates[j].(score := Score(candidates[j], k))
    {
      var c := candidates[i];
      c := c.(score := Score(c, k));
      ranked := ranked + [c];
    }
  }

  /** Rescoring changes the score of every candidate, and nothing else: each
      score is the candidate's own score, in [0, 100], and order, ids and all
      other fields are those of the scan. */
  lemma RescoreChangesOnlyScores(candidates: seq<Resume>, k: Criteria)
    ensures |Rescore(candidates, k)| == |candidates|
    ensures forall i :: 0 <= i < |candidates| ==>
      Rescore(candidates, k)[i].(score := candidates[i].score) == candidates[i]
    ensures forall i :: 0 <= i < |candidates| ==>
      Rescore(candidates, k)[i].score == Score(candidates[i], k) &&
      0.0 <= Rescore(candidates, k)[i].score <= 100.0
  {
    forall i | 0 <= i < |candidates|
      ensures 0.0 <= Score(candidates[i], k) <= 100.0
    {
      ScoreRange(candidates[i], k);
    }
  }

  // ---------------------------------------------------------------------
  // Sorting by score, high to low, stable

  /** Scores never increase along the sequence. */
  ghost predicate Descending(s: seq<Resume>)
  {
    forall i, j :: 0 <= i < j < |s| ==> s[i].score >= s[j].score
  }

  /** The entries that have score `v`, in their order. */
  function WithScore(s: seq<Resume>, v: real): seq<Resume>
  {
    if s == [] then []
    else (if s[0].score == v then [s[0]] else []) + WithScore(s[1..], v)
  }

  /** Puts `x` in front of the first entry whose score is not above its own. */
  function InsertByScore(x: Resume, s: seq<Resume>): seq<Resume>
  {
    if s == [] then [x]
    else if s[0].score > x.score then [s[0]] + InsertByScore(x, s[1..])
    else [x] + s
  }

  /** `list.sort(key=score, reverse=True)`: a stable sort, high scores first. */
  function SortByScore(s: seq<Resume>): seq<Resume>
  {
    if s == [] then [] else InsertByScore(s[0], SortByScore(s[1..]))
  }

  lemma {:induction false} InsertPermutes(x: Resume, s: seq<Resume>)
    ensures multiset(InsertByScore(x, s)) == multiset(s) + multiset{x}
  {
    if s != [] && s[0].score > x.score {
      InsertPermutes(x, s[1..]);
      assert s == [s[0]] + s[1..];
    }
  }

  /** No score in `s` is above `bound`. */
  ghost predicate AtMost(s: seq<Resume>, bound: real)
  {
    forall i :: 0 <= i < |s| ==> s[i].score <= bound
  }

  lemma {:induction false} InsertAtMost(x: Resume, s: seq<Resume>, bound: real)
    requires AtMost(s, bound) && x.score <= bound
    ensures AtMost(InsertByScore(x, s), bound)
  {
    if s != [] && s[0].score > x.score {
      InsertAtMost(x, s[1..], bound);
    }
  }

  lemma ConsDescending(h: Resume, r: seq<Resume>)
    requires Descending(r) && AtMost(r, h.score)
    ensures Descending([h] + r)
  {
    var out := [h] + r;
    forall i, j | 0 <= i < j < |out| ensures out[i].score >= out[j].score {
      assert out[j] == r[j - 1];
      if i > 0 {
        assert out[i] == r[i - 1];
      }
    }
  }

  lemma {:induction false} InsertKeepsDescending(x: Resume, s: seq<Resume>)
    requires Descending(s)
    ensures Descending(InsertByScore(x, s))
  {
    if s == [] {
    } else if s[0].score > x.score {
      var t := s[1..];
      assert Descending(t);
      InsertKeepsDescending(x, t);
      assert AtMost(t, s[0].score);
      InsertAtMost(x, t, s[0].score);
      ConsDescending(s[0], InsertByScore(x, t));
    } else {
      assert AtMost(s, x.score);
      ConsDescending(x, s);
    }
  }

  lemma WithScoreCons(h: Resume, r: seq<Resume>, v: real)
    ensures WithScore([h] + r, v) == (if h.score == v then [h] else []) + WithScore(r, v)
  {
    assert ([h] + r)[1..] == r;
  }

  lemma {:induction false} InsertKeepsOrderWithinScore(x: Resume, s: seq<Resume>, v: real)
    ensures WithScore(InsertByScore(x, s), v) == (if x.score == v then [x] else []) + WithScore(s, v)
  {
    if s == [] {
      WithScoreCons(x, [], v);
      assert [x] + [] == [x];
    } else if s[0].score > x.score {
      InsertKeepsOrderWithinScore(x, s[1..], v);
      WithScoreCons(s[0], InsertByScore(x, s[1..]), v);
      WithScoreCons(s[0], s[1..], v);
      assert s == [s[0]] + s[1..];
    } else {
      WithScoreCons(x, s, v);
    }
  }

  /** The sort is a permutation of its input. */
  lemma {:induction false} SortPermutes(s: seq<Resume>)
    ensures multiset(SortByScore(s)) == multiset(s)
    ensures |SortByScore(s)| == |s|
  {
    if s != [] {
      SortPermutes(s[1..]);
      InsertPermutes(s[0], SortByScore(s[1..]));
      assert s == [s[0]] + s[1..];
      assert |multiset(SortByScore(s))| == |multiset(s)|;
    }
  }

  /** The sort leaves scores non-increasing. */
  lemma {:induction false} SortDescending(s: seq<Resume>)
    ensures Descending(SortByScore(s))
  {
    if s != [] {
      SortDescending(s[1..]);
      InsertKeepsDescending(s[0], SortByScore(s[1..]));
    }
  }

  /** The sort is stable: for every score, the entries with that score come
      out in the order they went in. */
  lemma {:induction false} SortStable(s: seq<Resume>, v: real)
    ensures WithScore(SortByScore(s), v) == WithScore(s, v)
  {
    if s != [] {
      SortStable(s[1..], v);
      InsertKeepsOrderWithinScore(s[0], SortByScore(s[1..]), v);
    }
  }

  lemma {:induction false} WithScoreHead(s: seq<Resume>)
    requires s != []
    ensures WithScore(s, s[0].score) != [] && WithScore(s, s[0].score)[0] == s[0]
  {
  }

  lemma {:induction false} WithScoreMembers(s: seq<Resume>, v: real)
    ensures forall y :: y in WithScore(s, v) <==> y in s && y.score == v
  {
    if s != [] {
      WithScoreMembers(s[1..], v);
      assert s == [s[0]] + s[1..];
    }
  }

  lemma {:induction false} WithScoreOtherThanHead(s: seq<Resume>, v: real)
    requires s != [] && v != s[0].score
    ensures WithScore(s[1..], v) == WithScore(s, v)
  {
  }

  /** Two non-empty descending sequences with the same entries per score
      start with the same entry: the first entry of the top score. */
  lemma SameHead(a: seq<Resume>, b: seq<Resume>)
    requires a != [] && b != []
    requires Descending(a) && Descending(b)
    requires forall v :: WithScore(a, v) == WithScore(b, v)
    ensures a[0] == b[0]
  {
    WithScoreHead(a);
    WithScoreHead(b);
    WithScoreMembers(a, b[0].score);
    WithScoreMembers(b, a[0].score);
    assert b[0] in WithScore(a, b[0].score);
    assert a[0] in WithScore(b, a[0].score);
    var i :| 0 <= i < |a| && a[i] == b[0];
    var j :| 0 <= j < |b| && b[j] == a[0];
    assert a[0].score >= a[i].score;
    assert b[0].score >= b[j].score;
    var m := a[0].score;
    assert WithScore(a, m) == WithScore(b, m);
  }

  lemma SameTailsPerScore(a: seq<Resume>, b: seq<Resume>)
    requires a != [] && b != [] && a[0] == b[0]
    requires forall v :: WithScore(a, v) == WithScore(b, v)
    ensures forall v :: WithScore(a[1..], v) == WithScore(b[1..], v)
  {
    forall v ensures WithScore(a[1..], v) == WithScore(b[1..], v) {
      if v == a[0].score {
        assert WithScore(a, v) == WithScore(b, v);
        assert WithScore(a[1..], v) == WithScore(a, v)[1..];
        assert WithScore(b[1..], v) == WithScore(b, v)[1..];
      } else {
        WithScoreOtherThanHead(a, v);
        WithScoreOtherThanHead(b, v);
      }
    }
  }

  /** Two descending sequences with the same entries per score, in the same
      order, are equal. */
  lemma {:induction false} DescendingDeterminedByScores(a: seq<Resume>, b: seq<Resume>)
    requires Descending(a) && Descending(b)
    requires forall v :: WithScore(a, v) == WithScore(b, v)
    ensures a == b
    decreases |a| + |b|
  {
    if a == [] && b == [] {
    } else if a == [] {
      WithScoreHead(b);
      assert false;
    } else if b == [] {
      WithScoreHead(a);
      assert false;
    } else {
      SameHead(a, b);
      SameTailsPerScore(a, b);
      DescendingDeterminedByScores(a[1..], b[1..]);
      assert a == [a[0]] + a[1..];
      assert b == [b[0]] + b[1..];
    }
  }

  /** Whatever is descending and keeps, per score, the input's order is the
      sorted sequence: the sort's result is fully determined by stability. */
  lemma SortUnique(s: seq<Resume>, t: seq<Resume>)
    requires Descending(t)
    requires forall v :: WithScore(t, v) == WithScore(s, v)
    ensures t == SortByScore(s)
  {
    SortDescending(s);
    forall v ensures WithScore(t, v) == WithScore(SortByScore(s), v) {
      SortStable(s, v);
    }
    DescendingDeterminedByScores(t, SortByScore(s));
  }

  // ---------------------------------------------------------------------
  // The top-N slice and its projection

  /** The length of `xs[:n]` for a list of length `len`, by Python's slice
      rules: a negative stop counts from the end, then is clamped to
      [0, len]. */
  function SliceLength(len: nat, n: int): (m: nat)
    ensures m <= len
    ensures n >= 0 ==> m == if n < len then n else len
    ensures n < 0 ==> m == if len + n > 0 then len + n else 0
  {
    var stop := if n < 0 then n + len else n;
    if stop < 0 then 0 else if stop > len then len else stop
  }

  function Summarize(c: Resume): Summary
  {
    Summary(c.id, c.name, c.phone, c.email, c.score)
  }

  /** `[{id, name, phone, email, score} for c in xs]`. */
  function SummarizeAll(xs: seq<Resume>): seq<Summary>
  {
    if xs == [] then [] else [Summarize(xs[0])] + SummarizeAll(xs[1..])
  }

  /** The projected `ranked[:n]`. */
  function TopN(ranked: seq<Resume>, n: int): seq<Summary>
  {
    SummarizeAll(ranked[..SliceLength(|ranked|, n)])
  }

  lemma {:induction false} SummarizeAllAt(xs: seq<Resume>)
    ensures |SummarizeAll(xs)| == |xs|
    ensures forall i :: 0 <= i < |xs| ==> SummarizeAll(xs)[i] == Summarize(xs[i])
  {
    if xs != [] {
      SummarizeAllAt(xs[1..]);
    }
  }

  /** The result holds `min(n, len)` entries for `n >= 0` (none for 0) and
      drops the last `|n|` for negative `n`; entry `i` carries exactly the id,
      name, phone, email and score of ranked candidate `i`. */
  lemma TopNEntries(ranked: seq<Resume>, n: int)
    ensures n >= 0 ==> |TopN(ranked, n)| == if n < |ranked| then n else |ranked|
    ensures n == 0 ==> TopN(ranked, n) == []
    ensures n < 0 ==> |TopN(ranked, n)| == if |ranked| + n > 0 then |ranked| + n else 0
    ensures forall i :: 0 <= i < |TopN(ranked, n)| ==>
      var e := TopN(ranked, n)[i];
      e.id == ranked[i].id && e.name == ranked[i].name && e.phone == ranked[i].phone &&
      e.email == ranked[i].email && e.score == ranked[i].score
  {
    SummarizeAllAt(ranked[..SliceLength(|ranked|, n)]);
  }

  /** Over a descending ranking, the returned entries are descending too and
      none scores below a candidate left out. */
  lemma TopNIsTop(ranked: seq<Resume>, n: int)
    requires Descending(ranked)
    ensures forall i, j :: 0 <= i < j < |TopN(ranked, n)| ==>
      TopN(ranked, n)[i].score >= TopN(ranked, n)[j].score
    ensures forall i, j :: 0 <= i < |TopN(ranked, n)| <= j < |ranked| ==>
      TopN(ranked, n)[i].score >= ranked[j].score
  {
    SummarizeAllAt(ranked[..SliceLength(|ranked|, n)]);
  }

  // ---------------------------------------------------------------------
  // The whole pass

  /** What a rank request returns for the scanned candidates. */
  function RankResult(candidates: seq<Resume>, k: Criteria): seq<Summary>
  {
    TopN(SortByScore(Rescore(candidates, k)), k.resumesSelected)
  }

  /** The response lists `SliceLength(|candidates|, resumes_selected)`
      entries, best first. */
  lemma RankResultOrdered(candidates: seq<Resume>, k: Criteria)
    ensures |RankResult(candidates, k)| == SliceLength(|candidates|, k.resumesSelected)
    ensures forall i, j :: 0 <= i < j < |RankResult(candidates, k)| ==>
      RankResult(candidates, k)[i].score >= RankResult(candidates, k)[j].score
  {
    var ranked := SortByScore(Rescore(candidates, k));
    SortPermutes(Rescore(candidates, k));
    SortDescending(Rescore(candidates, k));
    SummarizeAllAt(ranked[..SliceLength(|ranked|, k.resumesSelected)]);
    TopNIsTop(ranked, k.resumesSelected);
  }

  /** Each entry of the response is a scanned candidate's id, name, phone and
      email with that candidate's own score. */
  lemma RankResultFromCandidates(candidates: seq<Resume>, k: Criteria)
    ensures forall i :: 0 <= i < |RankResult(candidates, k)| ==>
      exists c :: c in candidates &&
        RankResult(candidates, k)[i] == Summary(c.id, c.name, c.phone, c.email, Score(c, k))
  {
    var scored := Rescore(candidates, k);
    var ranked := SortByScore(scored);
    var result := RankResult(candidates, k);
    SortPermutes(scored);
    SummarizeAllAt(ranked[..SliceLength(|ranked|, k.resumesSelected)]);
    forall i | 0 <= i < |result|
      ensures exists c :: c in candidates && result[i] == Summary(c.id, c.name, c.phone, c.email, Score(c, k))
    {
      assert result[i] == Summarize(ranked[i]);
      assert ranked[i] in multiset(scored);
      var p :| 0 <= p < |scored| && scored[p] == ranked[i];
      assert candidates[p] in candidates;
    }
  }

  /** An entry of a descending ranking whose projection was not returned
      scores no higher than any entry that was. */
  lemma TopNBeatsLeftOut(ranked: seq<Resume>, n: int, x: Resume)
    requires Descending(ranked)
    requires x in ranked && Summarize(x) !in TopN(ranked, n)
    ensures forall i :: 0 <= i < |TopN(ranked, n)| ==> TopN(ranked, n)[i].score >= x.score
  {
    var top := TopN(ranked, n);
    SummarizeAllAt(ranked[..SliceLength(|ranked|, n)]);
    TopNIsTop(ranked, n);
    assert forall q :: 0 <= q < |top| ==> Summarize(ranked[q]) in top;
    var q :| 0 <= q < |ranked| && ranked[q] == x;
    assert q >= |top|;
  }

  /** No candidate left out of the response scores above a candidate in it. */
  lemma RankResultIsTop(candidates: seq<Resume>, k: Criteria)
    ensures forall i, c ::
      (0 <= i < |RankResult(candidates, k)| && c in candidates &&
       Summary(c.id, c.name, c.phone, c.email, Score(c, k)) !in RankResult(candidates, k)) ==>
      RankResult(candidates, k)[i].score >= Score(c, k)
  {
    var scored := Rescore(candidates, k);
    var ranked := SortByScore(scored);
    var result := RankResult(candidates, k);
    SortPermutes(scored);
    SortDescending(scored);
    forall i, c | 0 <= i < |result| && c in candidates &&
      (Summary(c.id, c.name, c.phone, c.email, Score(c, k)) !in result)
      ensures result[i].score >= Score(c, k)
    {
      var p :| 0 <= p < |candidates| && candidates[p] == c;
      var x := scored[p];
      assert x in multiset(scored);
      assert x in ranked;
      assert Summarize(x) == Summary(c.id, c.name, c.phone, c.email, Score(c, k));
      TopNBeatsLeftOut(ranked, k.resumesSelected, x);
    }
  }
}
