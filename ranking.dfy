/** The final ranking: Python's `sorted(..., key=score, reverse=True)`, which is
    stable, modelled as an insertion sort on scored candidates. */
module Ranking {
  import opened Catalog

  /** One accumulator entry: the record first seen for an id and its running score. */
  datatype Candidate = Candidate(product: Product, score: real)

  predicate NonIncreasing(s: seq<Candidate>) {
    forall i, j :: 0 <= i < j < |s| ==> s[i].score >= s[j].score
  }

  /** Every two entries of `r` with equal scores occur in `s` in the same relative order.
      The witnesses are existential, so when `s` holds two equal candidates this is
      weaker than stability (for `[X, Y, X]` with one score it also admits `[X, X, Y]`);
      the rankings built here have distinct ids, where it is stability. */
  predicate KeepsTieOrder(s: seq<Candidate>, r: seq<Candidate>) {
    forall i, j :: 0 <= i < j < |r| && r[i].score == r[j].score ==>
      exists a, b :: 0 <= a < b < |s| && s[a] == r[i] && s[b] == r[j]
  }

  /** No two entries carry the same record id. */
  predicate DistinctIds(s: seq<Candidate>) {
    forall i, j :: 0 <= i < j < |s| ==> s[i].product.id != s[j].product.id
  }

  /** How many leading entries of `s` score strictly more than `c`. */
  function InsertPos(c: Candidate, s: seq<Candidate>): (p: nat)
    ensures p <= |s|
    ensures forall k :: 0 <= k < p ==> s[k].score > c.score
    ensures p < |s| ==> s[p].score <= c.score
    decreases |s|
  {
    if s == [] || s[0].score <= c.score then 0 else 1 + InsertPos(c, s[1..])
  }

  /** Puts `c` in front of every entry that does not score more than it, so it
      precedes the entries it ties with. */
  function Insert(c: Candidate, s: seq<Candidate>): (r: seq<Candidate>)
    requires NonIncreasing(s)
    ensures NonIncreasing(r)
    ensures multiset(r) == multiset(s) + multiset{c}
    ensures |r| == |s| + 1
  {
    var p := InsertPos(c, s);
    assert s == s[..p] + s[p..];
    s[..p] + [c] + s[p..]
  }

  /** The stable descending sort of `s` by score. */
  function SortByScore(s: seq<Candidate>): (r: seq<Candidate>)
    ensures NonIncreasing(r)
    ensures multiset(r) == multiset(s)
    ensures |r| == |s|
    ensures KeepsTieOrder(s, r)
    ensures DistinctIds(s) ==> DistinctIds(r)
    decreases |s|
  {
    if s == [] then []
    else
      var t := SortByScore(s[1..]);
      assert s == [s[0]] + s[1..];
      InsertKeepsTieOrder(s, t);
      InsertKeepsDistinct(s, t);
      Insert(s[0], t)
  }

  lemma InMultiset(s: seq<Candidate>, t: seq<Candidate>, x: Candidate)
    requires multiset(s) == multiset(t)
    ensures x in s <==> x in t
  {
    assert x in s <==> x in multiset(s);
    assert x in t <==> x in multiset(t);
  }

  /** Inserting the head of `s` into a stable sort of its tail gives a stable sort of `s`. */
  lemma InsertKeepsTieOrder(s: seq<Candidate>, t: seq<Candidate>)
    requires |s| > 0 && NonIncreasing(t)
    requires multiset(t) == multiset(s[1..])
    requires KeepsTieOrder(s[1..], t)
    ensures KeepsTieOrder(s, Insert(s[0], t))
  {
    var c := s[0];
    var p := InsertPos(c, t);
    var r := Insert(c, t);
    forall i, j | 0 <= i < j < |r| && r[i].score == r[j].score
      ensures exists a, b :: 0 <= a < b < |s| && s[a] == r[i] && s[b] == r[j]
    {
      if j == p {
        assert false;
      } else if i == p {
        assert r[j] == t[j - 1];
        InMultiset(t, s[1..], t[j - 1]);
        var b :| 0 <= b < |s[1..]| && s[1..][b] == t[j - 1];
        assert s[0] == r[i] && s[b + 1] == r[j];
      } else {
        var i' := if i < p then i else i - 1;
        var j' := if j < p then j else j - 1;
        assert r[i] == t[i'] && r[j] == t[j'] && i' < j';
        var a, b :| 0 <= a < b < |s[1..]| && s[1..][a] == t[i'] && s[1..][b] == t[j'];
        assert s[a + 1] == r[i] && s[b + 1] == r[j];
      }
    }
  }

  /** Inserting the head of `s`, whose id none of the tail shares, keeps ids distinct. */
  lemma InsertKeepsDistinct(s: seq<Candidate>, t: seq<Candidate>)
    requires |s| > 0 && NonIncreasing(t)
    requires multiset(t) == multiset(s[1..])
    requires DistinctIds(s) ==> DistinctIds(t)
    ensures DistinctIds(s) ==> DistinctIds(Insert(s[0], t))
  {
    if DistinctIds(s) {
      var c := s[0];
      var p := InsertPos(c, t);
      var r := Insert(c, t);
      forall k | 0 <= k < |t| ensures t[k].product.id != c.product.id {
        InMultiset(t, s[1..], t[k]);
      }
      forall i, j | 0 <= i < j < |r| ensures r[i].product.id != r[j].product.id {
        if i == p {
          assert r[j] == t[j - 1];
        } else if j == p {
          assert r[i] == t[i];
        } else {
          var i' := if i < p then i else i - 1;
          var j' := if j < p then j else j - 1;
          assert r[i] == t[i'] && r[j] == t[j'];
        }
      }
    }
  }

  /** The records of a ranking, scores dropped. */
  function Products(cs: seq<Candidate>): (r: seq<Product>)
    ensures |r| == |cs|
    ensures forall k :: 0 <= k < |cs| ==> r[k] == cs[k].product
  {
    seq(|cs|, k requires 0 <= k < |cs| => cs[k].product)
  }
}
