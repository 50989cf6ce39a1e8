/** `get_related_products`: three catalog lookups, the exclusion filter, the
    weighted merge, the similarity bonuses, the stable ranking and the
    popular-products fallback. `Related` is what the routine returns;
    `GetRelatedProducts` computes it step by step as the source does. */
module Recommender {
  import opened Catalog
  import opened Similarity
  import opened Ranking
  import opened Accumulation

  /** The three lookup results after the exclusion filter. */
  datatype Lists = Lists(category: seq<Product>, dietary: seq<Product>, price: seq<Product>)

  /** `tags[:2]`. */
  function FirstTwo(tags: seq<string>): (r: seq<string>)
    ensures |r| <= 2 && |r| <= |tags| && r == tags[..|r|]
    ensures |r| == 2 || r == tags
  {
    if |tags| <= 2 then tags else tags[..2]
  }

  /** `search_products(category=reference.get('category'), limit=limit * 2)`. */
  function CategoryQuery(reference: Product, limit: nat): (q: Query)
    ensures q.category == reference.category && q.limit == 2 * limit
    ensures q.dietaryTags.None? && q.minPrice.None? && q.maxPrice.None?
  {
    Query(reference.category, None, None, None, 2 * limit)
  }

  /** `search_products(dietary_tags=dietary_tags[:2], limit=limit * 2)`. */
  function DietaryQuery(reference: Product, limit: nat): (q: Query)
    ensures q.category.None? && q.minPrice.None? && q.maxPrice.None? && q.limit == 2 * limit
    ensures q.dietaryTags.Some?
    ensures var tags := q.dietaryTags.value;
      |tags| <= 2 && |tags| <= |DietaryOf(reference)| && tags == DietaryOf(reference)[..|tags|]
      && (|tags| == 2 || tags == DietaryOf(reference))
  {
    Query(None, Some(FirstTwo(DietaryOf(reference))), None, None, 2 * limit)
  }

  /** `search_products(min_price=max(0, p - 3), max_price=p + 3, limit=limit * 2)`. */
  function PriceQuery(reference: Product, limit: nat): (q: Query)
    ensures q.category.None? && q.dietaryTags.None? && q.limit == 2 * limit
    ensures q.minPrice.Some? && q.maxPrice.Some?
    ensures q.maxPrice.value == PriceOf(reference) + 3.0
    ensures q.minPrice.value == (if PriceOf(reference) >= 3.0 then PriceOf(reference) - 3.0 else 0.0)
  {
    var p := PriceOf(reference);
    Query(None, None, Some(Max(0.0, p - 3.0)), Some(p + 3.0), 2 * limit)
  }

  /** The lookups issued, in order; the dietary one only when the reference has dietary tags. */
  function Issued(reference: Product, limit: nat): (r: seq<Query>)
    ensures |r| == (if DietaryOf(reference) != [] then 3 else 2)
    ensures r[0] == CategoryQuery(reference, limit) && r[|r| - 1] == PriceQuery(reference, limit)
    ensures DietaryOf(reference) != [] ==> r[1] == DietaryQuery(reference, limit)
  {
    [CategoryQuery(reference, limit)]
    + (if DietaryOf(reference) != [] then [DietaryQuery(reference, limit)] else [])
    + [PriceQuery(reference, limit)]
  }

  /** The three lookup results with excluded ids removed, or `None` when a lookup raises.
      A skipped dietary lookup contributes the empty list. */
  function Kept(reference: Product, store: Store, exclude: seq<Option<Id>>, limit: nat): (r: Option<Lists>)
    ensures r.None? <==>
      || store.search(CategoryQuery(reference, limit)).None?
      || (DietaryOf(reference) != [] && store.search(DietaryQuery(reference, limit)).None?)
      || store.search(PriceQuery(reference, limit)).None?
    ensures r.Some? && DietaryOf(reference) == [] ==> r.value.dietary == []
  {
    var category := store.search(CategoryQuery(reference, limit));
    var dietary := if DietaryOf(reference) != [] then store.search(DietaryQuery(reference, limit)) else Some([]);
    var price := store.search(PriceQuery(reference, limit));
    if category.None? || dietary.None? || price.None? then None
    else Some(Lists(
      WithoutExcluded(category.value, exclude),
      WithoutExcluded(dietary.value, exclude),
      WithoutExcluded(price.value, exclude)))
  }

  /** The merged hits of the main path, or `None` when it raises: a lookup
      fails, or a kept record has no `product_id` (KeyError in the merge loops). */
  function MainPath(reference: Product, store: Store, exclude: seq<Option<Id>>, limit: nat): (r: Option<seq<Hit>>)
    ensures r.Some? ==> Kept(reference, store, exclude, limit).Some?
    ensures r.Some? ==> var l := Kept(reference, store, exclude, limit).value;
      |r.value| == |l.category| + |l.dietary| + |l.price|
  {
    match Kept(reference, store, exclude, limit)
    case None => None
    case Some(l) =>
      if HasIds(l.category) && HasIds(l.dietary) && HasIds(l.price)
      then Some(Weigh(l.category, CATEGORY_WEIGHT) + Weigh(l.dietary, DIETARY_WEIGHT) + Weigh(l.price, PRICE_WEIGHT))
      else None
  }

  /** A candidate's final score: the weights of all its hits plus its bonus. */
  function TotalScore(reference: Product, ts: seq<Hit>, id: Id): (r: real)
    requires id in Ids(ts)
    ensures ScoreOf(ts, id) <= r <= ScoreOf(ts, id) + SPICE_WEIGHT + MOOD_WEIGHT
  {
    ScoreOf(ts, id) + Bonus(reference, FirstProduct(ts, id))
  }

  /** The accumulator's values after the bonus pass, in key order: one entry
      per key, holding its first record and its total score. */
  function Scored(reference: Product, ts: seq<Hit>): (r: seq<Candidate>)
    ensures |r| == |InsertionOrder(Ids(ts))|
  {
    var o := InsertionOrder(Ids(ts));
    seq(|o|, k requires 0 <= k < |o| => Candidate(FirstProduct(ts, o[k]), TotalScore(reference, ts, o[k])))
  }

  /** The accumulator's entries sorted by total score, highest first. */
  function Ranked(reference: Product, ts: seq<Hit>): (r: seq<Candidate>)
    ensures NonIncreasing(r) && multiset(r) == multiset(Scored(reference, ts))
  {
    SortByScore(Scored(reference, ts))
  }

  /** The except branch: up to `limit` popular products that are not excluded,
      or nothing when the popular lookup raises too. */
  function Fallback(store: Store, exclude: seq<Option<Id>>, limit: nat): (r: seq<Product>)
    ensures |r| <= limit
    ensures forall p :: p in r ==> p.id !in exclude
    ensures store.popular(2 * limit).Some? ==> forall p :: p in r ==> p in store.popular(2 * limit).value
    ensures store.popular(2 * limit).None? ==> r == []
    ensures store.popular(2 * limit).Some? && |r| < limit ==>
      forall p :: p in store.popular(2 * limit).value && p.id !in exclude ==> p in r
    ensures store.popular(2 * limit).Some? ==>
      var f := WithoutExcluded(store.popular(2 * limit).value, exclude);
      |r| <= |f| && r == f[..|r|] && |r| == (if limit <= |f| then limit else |f|)
  {
    match store.popular(2 * limit)
    case None => []
    case Some(ps) => Take(WithoutExcluded(ps, exclude), limit)
  }

  /** What `get_related_products(reference, db, exclude, limit)` returns. */
  function Related(reference: Product, store: Store, exclude: seq<Option<Id>>, limit: nat): (r: seq<Product>)
    ensures |r| <= limit
  {
    match MainPath(reference, store, exclude, limit)
    case None => Fallback(store, exclude, limit)
    case Some(ts) => Products(Take(Ranked(reference, ts), limit))
  }

  /** The routine as written: the lookups, the three merge loops, the bonus
      loop, the stable sort and the slice, with every exception going to the fallback. */
  method GetRelatedProducts(reference: Product, store: Store, exclude: seq<Option<Id>>, limit: nat)
    returns (r: seq<Product>)
    ensures r == Related(reference, store, exclude, limit)
    ensures |r| <= limit
    ensures forall p :: p in r ==> p.id !in exclude
  {
    RelatedExcludes(reference, store, exclude, limit);
    var category := store.search(CategoryQuery(reference, limit));
    if category.None? {
      LookupFailureFallsBack(reference, store, exclude, limit);
      return Fallback(store, exclude, limit);
    }
    var categoryKept := WithoutExcluded(category.value, exclude);
    var dietaryKept := [];
    if DietaryOf(reference) != [] {
      var dietary := store.search(DietaryQuery(reference, limit));
      if dietary.None? {
        LookupFailureFallsBack(reference, store, exclude, limit);
        return Fallback(store, exclude, limit);
      }
      dietaryKept := WithoutExcluded(dietary.value, exclude);
    }
    var price := store.search(PriceQuery(reference, limit));
    if price.None? {
      LookupFailureFallsBack(reference, store, exclude, limit);
      return Fallback(store, exclude, limit);
    }
    var priceKept := WithoutExcluded(price.value, exclude);
    ghost var l := Lists(categoryKept, dietaryKept, priceKept);
    assert Kept(reference, store, exclude, limit) == Some(l);

    var acc := Candidates([], map[]);
    assert acc == Reference([]);
    var merged := Merge(acc, [], categoryKept, CATEGORY_WEIGHT);
    if merged.None? {
      UnidentifiedFallsBack(reference, store, exclude, limit, l);
      return Fallback(store, exclude, limit);
    }
    ghost var ts := Weigh(categoryKept, CATEGORY_WEIGHT);
    assert [] + ts == ts;
    merged := Merge(merged.value, ts, dietaryKept, DIETARY_WEIGHT);
    if merged.None? {
      UnidentifiedFallsBack(reference, store, exclude, limit, l);
      return Fallback(store, exclude, limit);
    }
    ts := ts + Weigh(dietaryKept, DIETARY_WEIGHT);
    merged := Merge(merged.value, ts, priceKept, PRICE_WEIGHT);
    if merged.None? {
      UnidentifiedFallsBack(reference, store, exclude, limit, l);
      return Fallback(store, exclude, limit);
    }
    ts := ts + Weigh(priceKept, PRICE_WEIGHT);
    MainPathOfKept(reference, store, exclude, limit, l);

    var scored := AddBonuses(reference, merged.value);
    ScoredAfterBonuses(reference, ts, merged.value, scored);
    var ranked := SortByScore(Values(scored));
    r := Products(Take(ranked, limit));
  }

  /** When a kept list holds a record without an id, the routine falls back. */
  lemma UnidentifiedFallsBack(reference: Product, store: Store, exclude: seq<Option<Id>>, limit: nat, l: Lists)
    requires Kept(reference, store, exclude, limit) == Some(l)
    requires !(HasIds(l.category) && HasIds(l.dietary) && HasIds(l.price))
    ensures Related(reference, store, exclude, limit) == Fallback(store, exclude, limit)
  {
  }

  /** When every kept record has an id, the routine ranks the merged hits. */
  lemma MainPathOfKept(reference: Product, store: Store, exclude: seq<Option<Id>>, limit: nat, l: Lists)
    requires Kept(reference, store, exclude, limit) == Some(l)
    requires HasIds(l.category) && HasIds(l.dietary) && HasIds(l.price)
    ensures var ts := Weigh(l.category, CATEGORY_WEIGHT) + Weigh(l.dietary, DIETARY_WEIGHT) + Weigh(l.price, PRICE_WEIGHT);
      && MainPath(reference, store, exclude, limit) == Some(ts)
      && Related(reference, store, exclude, limit) == Products(Take(Ranked(reference, ts), limit))
  {
  }

  /** The bonus pass over the accumulator of `ts` yields the scored entries, in key order. */
  lemma ScoredAfterBonuses(reference: Product, ts: seq<Hit>, acc: Candidates, scored: Candidates)
    requires acc == Reference(ts)
    requires scored.order == acc.order && scored.table.Keys == acc.table.Keys
    requires forall id :: id in acc.table ==> scored.table[id] == WithBonus(reference, acc.table[id])
    ensures Valid(scored) && Values(scored) == Scored(reference, ts)
  {
    var o := acc.order;
    forall k | 0 <= k < |o|
      ensures Values(scored)[k] == Scored(reference, ts)[k]
    {
      assert o[k] in acc.table;
    }
  }

  // ---------------------------------------------------------------------------
  // Properties of the model

  /** The main path merges the three kept lists, in order, when they all carry ids. */
  lemma MainPathParts(reference: Product, store: Store, exclude: seq<Option<Id>>, limit: nat, ts: seq<Hit>) returns (l: Lists)
    requires MainPath(reference, store, exclude, limit) == Some(ts)
    ensures Kept(reference, store, exclude, limit) == Some(l)
    ensures HasIds(l.category) && HasIds(l.dietary) && HasIds(l.price)
    ensures ts == Weigh(l.category, CATEGORY_WEIGHT) + Weigh(l.dietary, DIETARY_WEIGHT) + Weigh(l.price, PRICE_WEIGHT)
  {
    l := Kept(reference, store, exclude, limit).value;
  }

  /** Every hit of the main path is a kept record: none is excluded. */
  lemma MainPathNotExcluded(reference: Product, store: Store, exclude: seq<Option<Id>>, limit: nat, ts: seq<Hit>)
    requires MainPath(reference, store, exclude, limit) == Some(ts)
    ensures WellFormed(ts)
    ensures forall k :: 0 <= k < |ts| ==> ts[k].product.id !in exclude
  {
    var l := MainPathParts(reference, store, exclude, limit, ts);
    HitsOfLists(ts, l);
  }

  /** The hits of three lists are well formed and each comes from one of the lists. */
  lemma HitsOfLists(ts: seq<Hit>, l: Lists)
    requires HasIds(l.category) && HasIds(l.dietary) && HasIds(l.price)
    requires ts == Weigh(l.category, CATEGORY_WEIGHT) + Weigh(l.dietary, DIETARY_WEIGHT) + Weigh(l.price, PRICE_WEIGHT)
    ensures WellFormed(ts)
    ensures forall k :: 0 <= k < |ts| ==> ts[k].product in l.category || ts[k].product in l.dietary || ts[k].product in l.price
  {
    var a, b, c := Weigh(l.category, CATEGORY_WEIGHT), Weigh(l.dietary, DIETARY_WEIGHT), Weigh(l.price, PRICE_WEIGHT);
    forall k | 0 <= k < |ts|
      ensures ts[k].product.id == Some(ts[k].id)
      ensures ts[k].product in l.category || ts[k].product in l.dietary || ts[k].product in l.price
    {
      if k < |a| {
        assert ts[k] == a[k] && a[k].product in l.category;
      } else if k < |a| + |b| {
        assert ts[k] == b[k - |a|] && b[k - |a|].product in l.dietary;
      } else {
        assert ts[k] == c[k - |a| - |b|] && c[k - |a| - |b|].product in l.price;
      }
    }
  }

  /** Each scored entry is the record stored for its id, with that id's total score,
      and no two entries share an id. */
  lemma ScoredEntries(reference: Product, ts: seq<Hit>)
    requires WellFormed(ts)
    ensures DistinctIds(Scored(reference, ts))
    ensures forall c :: c in Scored(reference, ts) ==>
      c.product.id.Some? && c.product.id.value in Ids(ts) &&
      c.product == FirstProduct(ts, c.product.id.value) &&
      c.score == TotalScore(reference, ts, c.product.id.value)
  {
    var o := InsertionOrder(Ids(ts));
    var s := Scored(reference, ts);
    forall k | 0 <= k < |s|
      ensures s[k].product.id == Some(o[k])
    {
      var x := FirstIndex(Ids(ts), o[k]);
      assert ts[x].id == o[k];
    }
  }

  /** Position of the candidate for `id` in a scored list. */
  lemma ScoredHas(reference: Product, ts: seq<Hit>, id: Id) returns (k: nat)
    requires WellFormed(ts) && id in Ids(ts)
    ensures k < |Scored(reference, ts)| && Scored(reference, ts)[k].product.id == Some(id)
  {
    ScoredEntries(reference, ts);
    var o := InsertionOrder(Ids(ts));
    k :| 0 <= k < |o| && o[k] == id;
    assert Scored(reference, ts)[k] in Scored(reference, ts);
  }

  /** Exclusion holds on both paths: no returned record carries an excluded id. */
  lemma RelatedExcludes(reference: Product, store: Store, exclude: seq<Option<Id>>, limit: nat)
    ensures forall p :: p in Related(reference, store, exclude, limit) ==> p.id !in exclude
  {
    match MainPath(reference, store, exclude, limit)
    case None =>
    case Some(ts) =>
      MainPathNotExcluded(reference, store, exclude, limit, ts);
      ScoredEntries(reference, ts);
      var s, r := Scored(reference, ts), Related(reference, store, exclude, limit);
      var t := Take(Ranked(reference, ts), limit);
      forall k | 0 <= k < |r|
        ensures r[k].id !in exclude
      {
        assert r[k] == t[k].product;
        InMultiset(Ranked(reference, ts), s, t[k]);
        var id := t[k].product.id.value;
        assert t[k].product == ts[FirstIndex(Ids(ts), id)].product;
      }
  }

  /** On the main path every returned record has an id and no id is returned twice. */
  lemma RelatedDistinctIds(reference: Product, store: Store, exclude: seq<Option<Id>>, limit: nat, ts: seq<Hit>)
    requires MainPath(reference, store, exclude, limit) == Some(ts)
    ensures var r := Related(reference, store, exclude, limit);
      forall i, j :: 0 <= i < j < |r| ==> r[i].id.Some? && r[i].id != r[j].id
  {
    MainPathNotExcluded(reference, store, exclude, limit, ts);
    ScoredEntries(reference, ts);
    var s, R := Scored(reference, ts), Ranked(reference, ts);
    var r, t := Related(reference, store, exclude, limit), Take(R, limit);
    forall i | 0 <= i < |r| ensures r[i].id.Some? {
      InMultiset(R, s, t[i]);
    }
    forall i, j | 0 <= i < j < |r| ensures r[i].id != r[j].id {
      assert r[i] == R[i].product && r[j] == R[j].product;
    }
  }

  /** On the main path the result is ordered by total score, highest first, and
      equal scores keep the order in which ids first entered the accumulator:
      the category list first, then ids new in the dietary list, then ids new
      in the price list. */
  lemma RelatedRanking(reference: Product, store: Store, exclude: seq<Option<Id>>, limit: nat, ts: seq<Hit>, i: nat, j: nat)
    requires MainPath(reference, store, exclude, limit) == Some(ts)
    requires i < j < |Related(reference, store, exclude, limit)|
    ensures var r := Related(reference, store, exclude, limit);
      && r[i].id.Some? && r[i].id.value in Ids(ts)
      && r[j].id.Some? && r[j].id.value in Ids(ts)
      && TotalScore(reference, ts, r[i].id.value) >= TotalScore(reference, ts, r[j].id.value)
      && (TotalScore(reference, ts, r[i].id.value) == TotalScore(reference, ts, r[j].id.value) ==>
            FirstIndex(Ids(ts), r[i].id.value) < FirstIndex(Ids(ts), r[j].id.value))
  {
    MainPathNotExcluded(reference, store, exclude, limit, ts);
    ScoredEntries(reference, ts);
    var s, R := Scored(reference, ts), Ranked(reference, ts);
    var r := Related(reference, store, exclude, limit);
    assert r[i] == R[i].product && r[j] == R[j].product;
    InMultiset(R, s, R[i]);
    InMultiset(R, s, R[j]);
    if R[i].score == R[j].score {
      var a, b :| 0 <= a < b < |s| && s[a] == R[i] && s[b] == R[j];
      var o := InsertionOrder(Ids(ts));
      assert s[a].product == FirstProduct(ts, o[a]) && s[b].product == FirstProduct(ts, o[b]);
      assert ts[FirstIndex(Ids(ts), o[a])].id == o[a];
      assert ts[FirstIndex(Ids(ts), o[b])].id == o[b];
      InsertionOrderFollowsFirstOccurrence(Ids(ts), a, b);
    }
  }

  /** On the main path the result holds `limit` candidates, or all of them when there are fewer. */
  lemma RelatedLength(reference: Product, store: Store, exclude: seq<Option<Id>>, limit: nat, ts: seq<Hit>)
    requires MainPath(reference, store, exclude, limit) == Some(ts)
    ensures var n := |InsertionOrder(Ids(ts))|;
      |Related(reference, store, exclude, limit)| == if limit <= n then limit else n
  {
  }

  /** The result is the top of the ranking: a candidate left out scores no more
      than any returned one, and is only ever left out of a full list. */
  lemma RelatedIsTop(reference: Product, store: Store, exclude: seq<Option<Id>>, limit: nat, ts: seq<Hit>, id: Id, k: nat)
    requires MainPath(reference, store, exclude, limit) == Some(ts)
    requires id in Ids(ts)
    requires forall m :: 0 <= m < |Related(reference, store, exclude, limit)| ==>
      Related(reference, store, exclude, limit)[m].id != Some(id)
    requires k < |Related(reference, store, exclude, limit)|
    ensures |Related(reference, store, exclude, limit)| == limit
    ensures var p := Related(reference, store, exclude, limit)[k];
      p.id.Some? && p.id.value in Ids(ts) &&
      TotalScore(reference, ts, p.id.value) >= TotalScore(reference, ts, id)
  {
    var R, r := Ranked(reference, ts), Related(reference, store, exclude, limit);
    RelatedOnMainPath(reference, store, exclude, limit, ts);
    var p := RankedAt(reference, store, exclude, limit, ts, id);
    forall m | 0 <= m < |R| && m < limit
      ensures R[m].product.id != R[p].product.id
    {
      assert r[m] == R[m].product;
    }
    LeftOutRanksBelow(R, limit, p, k);
    RankedEntry(reference, store, exclude, limit, ts, k);
  }

  /** Each ranked entry is a candidate with its total score. */
  lemma RankedEntry(reference: Product, store: Store, exclude: seq<Option<Id>>, limit: nat, ts: seq<Hit>, k: nat)
    requires MainPath(reference, store, exclude, limit) == Some(ts)
    requires k < |Ranked(reference, ts)|
    ensures var c := Ranked(reference, ts)[k];
      c.product.id.Some? && c.product.id.value in Ids(ts) && c.score == TotalScore(reference, ts, c.product.id.value)
  {
    MainPathNotExcluded(reference, store, exclude, limit, ts);
    ScoredEntries(reference, ts);
    InMultiset(Ranked(reference, ts), Scored(reference, ts), Ranked(reference, ts)[k]);
  }

  /** Where a candidate sits in the ranking, with its total score. */
  lemma RankedAt(reference: Product, store: Store, exclude: seq<Option<Id>>, limit: nat, ts: seq<Hit>, id: Id) returns (p: nat)
    requires MainPath(reference, store, exclude, limit) == Some(ts)
    requires id in Ids(ts)
    ensures p < |Ranked(reference, ts)| && Ranked(reference, ts)[p].product.id == Some(id)
    ensures Ranked(reference, ts)[p].score == TotalScore(reference, ts, id)
  {
    MainPathNotExcluded(reference, store, exclude, limit, ts);
    ScoredEntries(reference, ts);
    var s, R := Scored(reference, ts), Ranked(reference, ts);
    var q := ScoredHas(reference, ts, id);
    InMultiset(R, s, s[q]);
    p :| 0 <= p < |R| && R[p] == s[q];
  }

  /** In a ranking cut at `limit`, an entry whose id none of the first `limit`
      entries carries lies past the cut, the cut is full, and every returned
      entry scores at least as much. */
  lemma LeftOutRanksBelow(R: seq<Candidate>, limit: nat, p: nat, k: nat)
    requires NonIncreasing(R) && p < |R|
    requires forall m :: 0 <= m < |R| && m < limit ==> R[m].product.id != R[p].product.id
    requires k < |Products(Take(R, limit))|
    ensures |Products(Take(R, limit))| == limit <= p
    ensures Products(Take(R, limit))[k] == R[k].product && R[k].score >= R[p].score
  {
    var left := R[p].product.id;
    assert p < limit ==> left != left;
  }

  /** Before the bonus, a candidate scores 0.4 per occurrence in the category
      list, 0.3 per occurrence in the dietary list and 0.2 per occurrence in
      the price list, with no cap. */
  lemma BaseScoreIsWeightedCount(reference: Product, store: Store, exclude: seq<Option<Id>>, limit: nat, ts: seq<Hit>, id: Id)
    requires MainPath(reference, store, exclude, limit) == Some(ts)
    ensures var l := Kept(reference, store, exclude, limit).value;
      ScoreOf(ts, id) ==
        CATEGORY_WEIGHT * Count(l.category, id) as real
        + DIETARY_WEIGHT * Count(l.dietary, id) as real
        + PRICE_WEIGHT * Count(l.price, id) as real
  {
    var l := MainPathParts(reference, store, exclude, limit, ts);
    WeightedCountOfLists(ts, l, id);
  }

  /** The weighted count for the hits of three given lists. */
  lemma WeightedCountOfLists(ts: seq<Hit>, l: Lists, id: Id)
    requires HasIds(l.category) && HasIds(l.dietary) && HasIds(l.price)
    requires ts == Weigh(l.category, CATEGORY_WEIGHT) + Weigh(l.dietary, DIETARY_WEIGHT) + Weigh(l.price, PRICE_WEIGHT)
    ensures ScoreOf(ts, id) ==
      CATEGORY_WEIGHT * Count(l.category, id) as real
      + DIETARY_WEIGHT * Count(l.dietary, id) as real
      + PRICE_WEIGHT * Count(l.price, id) as real
  {
    ScoreOfThree(ts, l.category, CATEGORY_WEIGHT, l.dietary, DIETARY_WEIGHT, l.price, PRICE_WEIGHT, id);
  }

  /** A candidate that agrees with the reference on at least as many lookups,
      as often, and is at least as close in spice and mood, scores at least as high. */
  lemma AgreementNeverRanksLower(reference: Product, store: Store, exclude: seq<Option<Id>>, limit: nat, ts: seq<Hit>, a: Id, b: Id)
    requires MainPath(reference, store, exclude, limit) == Some(ts)
    requires a in Ids(ts) && b in Ids(ts)
    requires var l := Kept(reference, store, exclude, limit).value;
      && Count(l.category, a) >= Count(l.category, b)
      && Count(l.dietary, a) >= Count(l.dietary, b)
      && Count(l.price, a) >= Count(l.price, b)
    requires Bonus(reference, FirstProduct(ts, a)) >= Bonus(reference, FirstProduct(ts, b))
    ensures TotalScore(reference, ts, a) >= TotalScore(reference, ts, b)
  {
    BaseScoreIsWeightedCount(reference, store, exclude, limit, ts, a);
    BaseScoreIsWeightedCount(reference, store, exclude, limit, ts, b);
  }

  /** If a lookup raises, the routine answers with the fallback. */
  lemma LookupFailureFallsBack(reference: Product, store: Store, exclude: seq<Option<Id>>, limit: nat)
    requires || store.search(CategoryQuery(reference, limit)).None?
             || (DietaryOf(reference) != [] && store.search(DietaryQuery(reference, limit)).None?)
             || store.search(PriceQuery(reference, limit)).None?
    ensures Related(reference, store, exclude, limit) == Fallback(store, exclude, limit)
  {
  }

  /** A kept record without a `product_id` (KeyError in a merge loop) also leads to the fallback. */
  lemma MissingIdFallsBack(reference: Product, store: Store, exclude: seq<Option<Id>>, limit: nat, l: Lists, k: nat)
    requires Kept(reference, store, exclude, limit) == Some(l)
    requires k < |l.category + l.dietary + l.price| && (l.category + l.dietary + l.price)[k].id.None?
    ensures Related(reference, store, exclude, limit) == Fallback(store, exclude, limit)
  {
    var all := l.category + l.dietary + l.price;
    if k < |l.category| {
      assert all[k] == l.category[k];
    } else if k < |l.category| + |l.dietary| {
      assert all[k] == l.dietary[k - |l.category|];
    } else {
      assert all[k] == l.price[k - |l.category| - |l.dietary|];
    }
  }

  /** The issued lookups follow fixed rules: the reference's category; only
      the first two dietary tags; the window [max(0, price - 3), price + 3]
      around the price (10 when missing); twice `limit` items each. */
  lemma QueriesFollowReference(reference: Product, limit: nat)
    ensures forall q :: q in Issued(reference, limit) ==> q.limit == 2 * limit
    ensures CategoryQuery(reference, limit).category == reference.category
    ensures var tags := DietaryQuery(reference, limit).dietaryTags.value;
      |tags| <= 2 && tags == DietaryOf(reference)[..|tags|]
      && (|DietaryOf(reference)| >= 2 ==> |tags| == 2)
    ensures DietaryQuery(reference, limit) in Issued(reference, limit) <==> DietaryOf(reference) != []
    ensures var q, p := PriceQuery(reference, limit), PriceOf(reference);
      q.minPrice.Some? && q.maxPrice.Some?
      && q.minPrice.value >= 0.0 && q.maxPrice.value == p + 3.0
      && q.minPrice.value == (if p >= 3.0 then p - 3.0 else 0.0)
    ensures reference.price.None? ==>
      PriceQuery(reference, limit).minPrice == Some(7.0) && PriceQuery(reference, limit).maxPrice == Some(13.0)
  {
    var i := Issued(reference, limit);
    if DietaryOf(reference) == [] {
      assert i == [CategoryQuery(reference, limit), PriceQuery(reference, limit)];
    }
  }

  /** The result depends on the store only through the answers to the issued
      lookups and to the popular lookup; in particular a skipped dietary
      lookup contributes nothing. */
  lemma OnlyIssuedQueriesMatter(reference: Product, s1: Store, s2: Store, exclude: seq<Option<Id>>, limit: nat)
    requires forall q :: q in Issued(reference, limit) ==> s1.search(q) == s2.search(q)
    requires s1.popular(2 * limit) == s2.popular(2 * limit)
    ensures Related(reference, s1, exclude, limit) == Related(reference, s2, exclude, limit)
  {
    var i := Issued(reference, limit);
    assert i[0] == CategoryQuery(reference, limit) && i[|i| - 1] == PriceQuery(reference, limit);
    assert s1.search(CategoryQuery(reference, limit)) == s2.search(CategoryQuery(reference, limit));
    assert s1.search(PriceQuery(reference, limit)) == s2.search(PriceQuery(reference, limit));
    if DietaryOf(reference) != [] {
      assert i[1] == DietaryQuery(reference, limit);
      assert s1.search(DietaryQuery(reference, limit)) == s2.search(DietaryQuery(reference, limit));
    }
    assert Kept(reference, s1, exclude, limit) == Kept(reference, s2, exclude, limit);
    SameKeptSameResult(reference, s1, s2, exclude, limit);
  }

  /** The result is a function of the kept lists and the popular lookup. */
  lemma SameKeptSameResult(reference: Product, s1: Store, s2: Store, exclude: seq<Option<Id>>, limit: nat)
    requires Kept(reference, s1, exclude, limit) == Kept(reference, s2, exclude, limit)
    requires s1.popular(2 * limit) == s2.popular(2 * limit)
    ensures Related(reference, s1, exclude, limit) == Related(reference, s2, exclude, limit)
  {
    assert MainPath(reference, s1, exclude, limit) == MainPath(reference, s2, exclude, limit);
  }

  // A worked example: a reference burger and a second burger that agrees with
  // it on category, dietary tag, price window, spice level and mood, with a
  // store whose every lookup answers just the second burger.

  const ExampleReference := Product(Some("b1"), Some("Veggie Burger"), Some("Burgers"), Some(8.0),
                                    Some(["vegetarian"]), Some(["comfort"]), Some(2))
  const ExampleBurger := Product(Some("b2"), Some("Garden Burger"), Some("Burgers"), Some(8.5),
                                 Some(["vegetarian", "gluten-free"]), Some(["comfort"]), Some(2))
  const ExampleStore := Store(q => Some([ExampleBurger]), n => Some([]))
  const ExampleHits := [Hit("b2", ExampleBurger, CATEGORY_WEIGHT), Hit("b2", ExampleBurger, DIETARY_WEIGHT),
                        Hit("b2", ExampleBurger, PRICE_WEIGHT)]

  /** In the example each lookup contributes one hit on the second burger. */
  lemma ExampleMainPath()
    ensures MainPath(ExampleReference, ExampleStore, [Some("b1")], 4) == Some(ExampleHits)
  {
    var burger := ExampleBurger;
    var exclude := [Some("b1")];
    assert WithoutExcluded([burger], exclude) == [burger];
    assert Kept(ExampleReference, ExampleStore, exclude, 4) == Some(Lists([burger], [burger], [burger]));
    var h1, h2, h3 := ExampleHits[0], ExampleHits[1], ExampleHits[2];
    assert Weigh([burger], CATEGORY_WEIGHT) == [h1];
    assert Weigh([burger], DIETARY_WEIGHT) == [h2];
    assert Weigh([burger], PRICE_WEIGHT) == [h3];
    assert [h1] + [h2] + [h3] == ExampleHits;
  }

  /** The second burger scores 0.4 + 0.3 + 0.2 + 0.1 + 0.1 = 1.1. */
  lemma ExampleScore()
    ensures "b2" in Ids(ExampleHits)
    ensures TotalScore(ExampleReference, ExampleHits, "b2") == 1.1
  {
    var ts := ExampleHits;
    var h1, h2, h3 := ts[0], ts[1], ts[2];
    assert Ids(ts) == ["b2", "b2", "b2"];
    assert ts[..2] == [h1, h2] && ts[..2][..1] == [h1] && [h1][..0] == [];
    assert ScoreOf([h1], "b2") == 0.4;
    assert ScoreOf([h1, h2], "b2") == 0.7;
    assert ScoreOf(ts, "b2") == 0.9;
    assert FirstProduct(ts, "b2") == ExampleBurger;
    assert MoodsOf(ExampleReference) == {"comfort"} && MoodsOf(ExampleBurger) == {"comfort"};
    assert Bonus(ExampleReference, ExampleBurger) == 0.2;
  }

  /** In the example the accumulator has the one key "b2". */
  lemma ExampleOrder()
    ensures InsertionOrder(Ids(ExampleHits)) == ["b2"]
  {
    assert Ids(ExampleHits) == ["b2", "b2", "b2"];
    assert ["b2", "b2", "b2"][..2] == ["b2", "b2"] && ["b2", "b2"][..1] == ["b2"] && ["b2"][..0] == [];
  }

  /** In the example the ranking holds the second burger alone. */
  lemma ExampleRanking()
    ensures Ranked(ExampleReference, ExampleHits) == [Candidate(ExampleBurger, 1.1)]
    ensures Products(Take(Ranked(ExampleReference, ExampleHits), 4)) == [ExampleBurger]
  {
    ExampleScore();
    ExampleOrder();
    var ts := ExampleHits;
    var c := Candidate(ExampleBurger, 1.1);
    assert Scored(ExampleReference, ts) == [c];
    assert SortByScore([c]) == [c];
    TopOfSingleton(c, 4);
  }

  /** A ranking of one candidate yields its record for any positive limit. */
  lemma TopOfSingleton(c: Candidate, limit: nat)
    requires limit > 0
    ensures Products(Take([c], limit)) == [c.product]
  {
  }

  /** The second burger is recommended alone, with score 1.1. */
  lemma FullAgreementExample()
    ensures Related(ExampleReference, ExampleStore, [Some("b1")], 4) == [ExampleBurger]
  {
    ExampleMainPath();
    ExampleRanking();
    RelatedOnMainPath(ExampleReference, ExampleStore, [Some("b1")], 4, ExampleHits);
  }

  lemma RelatedOnMainPath(reference: Product, store: Store, exclude: seq<Option<Id>>, limit: nat, ts: seq<Hit>)
    requires MainPath(reference, store, exclude, limit) == Some(ts)
    ensures Related(reference, store, exclude, limit) == Products(Take(Ranked(reference, ts), limit))
  {
  }
}
