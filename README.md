# Related products for the FoodieBot catalog

This project models `get_related_products` from `enhanced_streamlit_app.py`,
the routine that picks up to `limit` catalog products related to a
reference product. It leaves out products whose ids are in `exclude_ids`.

The routine works in these steps:

1. It asks the catalog store for three lists of `2 * limit` products:
   - the same category;
   - the first two dietary tags, only when the reference has any;
   - the price window `[max(0, price - 3), price + 3]`, with a missing price read as 10.
2. It drops excluded ids from each list.
3. It merges the lists into an insertion-ordered dictionary keyed by
   `product_id`. Each occurrence adds 0.4, 0.3 or 0.2 to the entry's score.
4. It adds a spice-closeness bonus and a Jaccard mood-tag bonus to every
   entry. Each bonus is weighted 0.1.
5. It sorts the entries by score, descending and stably, and keeps the first `limit`.
6. Any exception leads to a fallback. A lookup that raises is one case. A
   record without `product_id` is another: it raises KeyError in the merge.
   The fallback returns up to `limit` popular products that are not
   excluded. If the popular lookup raises too, the result is empty.

The modules follow these steps:

- `Catalog`: product records, lookup queries and the store, the exclusion filter, `Take` (the slice `[:n]`).
- `Similarity`: the weights, the spice bonus, the Jaccard index and the mood bonus.
- `Ranking`: the stable descending sort.
- `Accumulation`: the dictionary. It has a reference definition (`Reference`)
  and the loops that build it (`Merge`) and refine it (`AddBonuses`). Both
  loops are proved against that definition.
- `Recommender`: the lookups and the whole routine. `Related` is the function
  giving what the routine returns. `GetRelatedProducts` computes it step by
  step, as the source does. The properties of the result are lemmas about `Related`.

The store is a pair of functions: what each `search_products` query and each
`get_popular_products` call would answer. `None` stands for a call that
raises. A key the record lacks is `None` in `Product`. The defaults the code
uses for missing keys follow the code: price 10, spice level 0, tags empty.

A missing reference price defaults to 10 (`enhanced_streamlit_app.py:63`).
In the full-agreement example the score is 0.4 + 0.3 + 0.2 + 0.1 + 0.1 = 1.1
(`Recommender.ExampleScore`).

## Model

| member | source | states |
|---|---|---|
| Catalog.WithoutExcluded | enhanced_streamlit_app.py:44-47 | the filtered list holds exactly the records of the input whose `product_id` (None when missing) is not excluded, and is no longer than the input |
| Catalog.WithoutExcludedConcat | enhanced_streamlit_app.py:44-47 | filtering distributes over concatenation, so it keeps the relative order of the kept records |
| Catalog.WithoutExcludedNoop | enhanced_streamlit_app.py:44-47 | a list none of whose ids is excluded passes the filter unchanged |
| Catalog.PriceOf | enhanced_streamlit_app.py:63 | `reference_product.get('price', 10)`: the price, or 10 when the key is missing |
| Catalog.SpiceOf | enhanced_streamlit_app.py:115-116 | `.get('spice_level', 0)`: the spice level, or 0 when the key is missing |
| Catalog.DietaryOf | enhanced_streamlit_app.py:50 | `.get('dietary_tags', [])`: the tags, or none when the key is missing |
| Catalog.MoodsOf | enhanced_streamlit_app.py:122-123 | `set(.get('mood_tags', []))`: exactly the listed tags, or the empty set when the key is missing |
| Catalog.Take | enhanced_streamlit_app.py:136 | the slice `[:n]` is a prefix of length `n`, or the whole list when it is shorter |
| Similarity.SpiceSimilarity | enhanced_streamlit_app.py:115-118 | spice similarity lies in [0, 1]; it is 1 exactly for equal levels and 0 exactly when the levels differ by 10 or more |
| Similarity.SpiceBonus | enhanced_streamlit_app.py:115-119 | the spice bonus lies in [0, 0.1]; it is 0.1 exactly for equal levels and 0 exactly at a difference of 10 or more |
| Similarity.SpiceBonusLinear | enhanced_streamlit_app.py:117-119 | up to a difference of 10 the bonus falls by 0.01 per level of difference |
| Similarity.SpiceBonusMonotone | enhanced_streamlit_app.py:117-119 | a closer spice level never earns a smaller bonus |
| Similarity.Jaccard | enhanced_streamlit_app.py:124-126 | the overlap ratio of two tag sets, not both empty, lies in [0, 1]; it is 1 exactly for equal sets and 0 exactly for disjoint sets |
| Similarity.MoodBonus | enhanced_streamlit_app.py:122-127 | the mood bonus lies in [0, 0.1]; it is 0.1 for identical non-empty sets, and 0 exactly when the sets share no tag, in particular when both are empty |
| Similarity.Bonus | enhanced_streamlit_app.py:111-127 | one entry's refinement adds between 0 and 0.2 to its score |
| Ranking.SortByScore | enhanced_streamlit_app.py:130-134 | the sorted list is non-increasing in score and a permutation of the input; entries with equal scores keep their input order; distinct ids stay distinct |
| Ranking.Products | enhanced_streamlit_app.py:136 | `[item['product'] for item in ...]` keeps the length and picks each entry's record |
| Accumulation.Weigh | enhanced_streamlit_app.py:78-79 | each record of a lookup list contributes one hit, in list order, with its own id and the lookup's weight |
| Accumulation.FirstIndex | enhanced_streamlit_app.py:80 | the position of the first occurrence of an id, before which the id does not occur |
| Accumulation.InsertionOrder | enhanced_streamlit_app.py:75-108 | the dictionary's keys are exactly the ids of the hits, each listed once |
| Accumulation.InsertionOrderFollowsFirstOccurrence | enhanced_streamlit_app.py:75-108 | keys are ordered by the first occurrence of their id among the merged lists |
| Accumulation.ScoreOf | enhanced_streamlit_app.py:80-86 | an id's score is the sum of the weights of its hits (a definition; its properties are the lemmas below) |
| Accumulation.ScoreOfAbsent | enhanced_streamlit_app.py:80-84 | an id that no hit carries has score 0 |
| Accumulation.FirstProduct | enhanced_streamlit_app.py:80-84 | the record kept for an id is that of its first hit, and carries the id |
| Accumulation.ScoreOfConcat | enhanced_streamlit_app.py:78-108 | the score of an id over consecutive lists is the sum of its scores over each list |
| Accumulation.ScoreOfWeigh | enhanced_streamlit_app.py:78-86 | one lookup adds its weight once per record carrying the id |
| Accumulation.ScoreOfThree | enhanced_streamlit_app.py:78-108 | after the three merge loops an id scores 0.4, 0.3 and 0.2 times its occurrences in the three lists, summed |
| Accumulation.Reference | enhanced_streamlit_app.py:75-108 | the dictionary after merging a list of hits is well formed: every key is listed exactly once in its order |
| Accumulation.ReferenceStepNew | enhanced_streamlit_app.py:80-84 | merging a hit with a new id appends the key with the hit's record and weight and changes nothing else |
| Accumulation.ReferenceStepKnown | enhanced_streamlit_app.py:85-86 | merging a hit with a known id adds its weight to that entry only; keys, their order and the stored record stay |
| Accumulation.Bumped | enhanced_streamlit_app.py:86 | `score += w` on one entry raises that entry's score by `w` and leaves its record and every other entry alone |
| Accumulation.Merge | enhanced_streamlit_app.py:78-108 | one merge loop fails, as the KeyError does, exactly when a record lacks `product_id`; otherwise it yields the reference dictionary of all hits so far |
| Accumulation.WithBonus | enhanced_streamlit_app.py:119-127 | refining an entry keeps its record and raises its score by at most 0.2 |
| Accumulation.Refined | enhanced_streamlit_app.py:119-127 | refining one entry leaves the keys and every other entry unchanged |
| Accumulation.AddBonuses | enhanced_streamlit_app.py:111-127 | the refinement loop keeps keys and their order, and gives every entry its bonus |
| Accumulation.Values | enhanced_streamlit_app.py:131 | `all_candidates.values()` lists the entries in key order |
| Recommender.FirstTwo | enhanced_streamlit_app.py:54 | `tags[:2]` is a prefix of at most two tags, all of them when there are fewer |
| Recommender.CategoryQuery | enhanced_streamlit_app.py:38-41 | the category lookup filters on the reference's category only and asks for `2 * limit` items |
| Recommender.DietaryQuery | enhanced_streamlit_app.py:53-56 | the dietary lookup filters on the first two dietary tags only (all of them when fewer) and asks for `2 * limit` items |
| Recommender.PriceQuery | enhanced_streamlit_app.py:63-68 | the price lookup filters on the window `[max(0, p - 3), p + 3]` only and asks for `2 * limit` items |
| Recommender.Issued | enhanced_streamlit_app.py:38-68 | the lookups issued, in order: category, then dietary only when the reference has tags, then price |
| Recommender.Kept | enhanced_streamlit_app.py:38-72 | the kept lists are missing exactly when an issued lookup raises; a skipped dietary lookup keeps nothing |
| Recommender.MainPath | enhanced_streamlit_app.py:36-108 | the merged hits exist only when every issued lookup succeeded, and hold one hit per kept record |
| Recommender.TotalScore | enhanced_streamlit_app.py:111-127 | a candidate's final score is its base score plus a bonus of at most 0.2 |
| Recommender.Scored | enhanced_streamlit_app.py:111-131 | the refined dictionary's values hold one entry per distinct candidate id |
| Recommender.Ranked | enhanced_streamlit_app.py:130-134 | the ranking is non-increasing in score and a permutation of the refined entries |
| Recommender.QueriesFollowReference | enhanced_streamlit_app.py:38-68 | every lookup asks for `2 * limit` items; the category lookup uses the reference's category; the dietary lookup gets the first two tags and is issued exactly when the reference has tags; the price window is `[max(0, p - 3), p + 3]`, or [7, 13] without a price |
| Recommender.OnlyIssuedQueriesMatter | enhanced_streamlit_app.py:38-68 | the result depends on the store only through the issued lookups and the popular lookup, so a skipped dietary lookup contributes nothing |
| Recommender.Fallback | enhanced_streamlit_app.py:138-148 | the fallback returns the first `limit` popular products that are not excluded, in their order, or all of them when there are fewer; none is excluded; it is empty when the popular lookup raises |
| Recommender.Related | enhanced_streamlit_app.py:31-148 | the routine never returns more than `limit` products |
| Recommender.GetRelatedProducts | enhanced_streamlit_app.py:31-148 | the step-by-step routine returns `Related`, at most `limit` products, none of them excluded |
| Recommender.MainPathParts | enhanced_streamlit_app.py:36-108 | on the main path the hits are the three kept lists, weighted and in order, all records carrying ids |
| Recommender.MainPathNotExcluded | enhanced_streamlit_app.py:44-108 | every hit of the main path is well formed and carries no excluded id |
| Recommender.ScoredEntries | enhanced_streamlit_app.py:111-131 | each refined entry is the first record seen for its id, with that id's total score, and no two entries share an id |
| Recommender.ScoredAfterBonuses | enhanced_streamlit_app.py:111-131 | the refinement loop's dictionary lists the refined entries in key order |
| Recommender.RelatedExcludes | enhanced_streamlit_app.py:44-72 | on both paths no returned product carries an excluded id |
| Recommender.RelatedDistinctIds | enhanced_streamlit_app.py:75-136 | on the main path every returned product has an id and no id is returned twice |
| Recommender.RelatedRanking | enhanced_streamlit_app.py:130-136 | on the main path total scores do not increase down the result, and equal scores keep first-occurrence order: category list first, then new dietary ids, then new price ids |
| Recommender.RelatedLength | enhanced_streamlit_app.py:136 | on the main path the result has `limit` products, or one per distinct candidate when there are fewer |
| Recommender.RelatedIsTop | enhanced_streamlit_app.py:130-136 | a candidate left out of the main-path result implies the result is full, and every returned product scores at least as much as it |
| Recommender.RankedAt | enhanced_streamlit_app.py:130-134 | every candidate appears in the ranking with its total score |
| Recommender.RankedEntry | enhanced_streamlit_app.py:130-134 | every ranked entry is a candidate with its total score |
| Recommender.BaseScoreIsWeightedCount | enhanced_streamlit_app.py:78-108 | before the bonus a candidate scores 0.4, 0.3 and 0.2 per occurrence in the kept category, dietary and price lists, with no cap |
| Recommender.WeightedCountOfLists | enhanced_streamlit_app.py:78-108 | the same weighted count, for the hits of any three lists |
| Recommender.AgreementNeverRanksLower | enhanced_streamlit_app.py:78-127 | a candidate occurring at least as often in each list, with at least the bonus of another, scores at least as much |
| Recommender.LookupFailureFallsBack | enhanced_streamlit_app.py:138-146 | when a lookup raises, the result is the fallback |
| Recommender.MissingIdFallsBack | enhanced_streamlit_app.py:79-101 | when a kept record has no `product_id`, the KeyError gives the fallback |
| Recommender.UnidentifiedFallsBack | enhanced_streamlit_app.py:79-101 | when any kept list has a record without an id, the result is the fallback |
| Recommender.MainPathOfKept | enhanced_streamlit_app.py:75-136 | when every kept record has an id, the result is the top of the ranking of the merged hits |
| Recommender.RelatedOnMainPath | enhanced_streamlit_app.py:130-136 | on the main path the result is the records of the first `limit` ranked entries |
| Recommender.LeftOutRanksBelow | enhanced_streamlit_app.py:130-136 | an entry past the cut of a ranking scores no more than any entry before it, and the cut is full |
| Recommender.TopOfSingleton | enhanced_streamlit_app.py:136 | a ranking of one entry yields that entry's record for any positive limit |
| Recommender.ExampleMainPath | enhanced_streamlit_app.py:36-108 | in the worked example each lookup contributes one hit on the matching burger |
| Recommender.ExampleScore | enhanced_streamlit_app.py:75-127 | the matching burger scores 0.4 + 0.3 + 0.2 + 0.1 + 0.1 = 1.1 |
| Recommender.ExampleOrder | enhanced_streamlit_app.py:75-108 | the example dictionary has the single key of the matching burger |
| Recommender.ExampleRanking | enhanced_streamlit_app.py:130-136 | the example ranking holds the matching burger alone |
| Recommender.FullAgreementExample | enhanced_streamlit_app.py:31-136 | with the reference's own id excluded, the matching burger is recommended alone |

## Left out

- The MongoDB calls `search_products` and `get_popular_products` (lines 38, 53, 64, 142). They are calls into a module that is not part of this model. The store gives their answers as inputs.
- Python float arithmetic. Scores and the Jaccard ratio are exact reals, so orderings of near ties under float rounding are not modelled.
- The `print` of the error message (line 139). It is output only.
- A negative `limit`. It is a `nat`, because Python's slices with negative bounds count from the end and every caller passes 4.
- The `exclude_ids=None` default (lines 33-34). Callers pass a list, and an empty one stands for the default.
- A key that is present but holds `None` or a value of another type, such as a string spice level or a tags field that is not a list. The model reads a key as missing or as a value of the expected type.
- Other exceptions inside the main path, such as a `TypeError` from mixing types. Only the failing lookups and the KeyError on `product_id` are modelled.
- The Streamlit interface (lines 150 onward) and `update_api_key.py`. They are user interface, configuration and network glue.
- Recommender.Related: its own contract states only the length bound. Exclusion, distinct ids, ordering and the fallback cases are the separate lemmas listed above.
