/** Product records as the catalog store hands them out, the store's two lookups,
    and the exclusion filter that the recommender applies to every lookup result. */
module Catalog {

  datatype Option<T> = None | Some(value: T) {
    /** The value, or `default` when there is none (Python's `dict.get(key, default)`). */
    function GetOr(default: T): T {
      if Some? then value else default
    }
  }

  type Id = string

  /** A product record. A key the record lacks is `None`; the recommender only
      reads the fields listed here and hands the record back unchanged. */
  datatype Product = Product(
    id: Option<Id>,
    name: Option<string>,
    category: Option<string>,
    price: Option<real>,
    dietaryTags: Option<seq<string>>,
    moodTags: Option<seq<string>>,
    spiceLevel: Option<int>)

  /** The keyword arguments of one `search_products` call; `None` leaves a filter out. */
  datatype Query = Query(
    category: Option<string>,
    dietaryTags: Option<seq<string>>,
    minPrice: Option<real>,
    maxPrice: Option<real>,
    limit: int)

  /** The catalog store as the recommender sees it: what each lookup would
      answer. `None` stands for a lookup that raises. */
  datatype Store = Store(
    search: Query -> Option<seq<Product>>,
    popular: int -> Option<seq<Product>>)

  /** Reading a record with the defaults the recommender uses for missing keys. */
  function PriceOf(p: Product): (r: real)
    ensures p.price.Some? ==> r == p.price.value
    ensures p.price.None? ==> r == 10.0
  {
    p.price.GetOr(10.0)
  }

  function SpiceOf(p: Product): (r: int)
    ensures p.spiceLevel.Some? ==> r == p.spiceLevel.value
    ensures p.spiceLevel.None? ==> r == 0
  {
    p.spiceLevel.GetOr(0)
  }

  function DietaryOf(p: Product): (r: seq<string>)
    ensures p.dietaryTags.Some? ==> r == p.dietaryTags.value
    ensures p.dietaryTags.None? ==> r == []
  {
    p.dietaryTags.GetOr([])
  }

  /** `set(p.get('mood_tags', []))`: the distinct tags, with order and repeats dropped. */
  function MoodsOf(p: Product): (r: set<string>)
    ensures p.moodTags.Some? ==> forall t :: t in r <==> t in p.moodTags.value
    ensures p.moodTags.None? ==> r == {}
  {
    set t | t in p.moodTags.GetOr([])
  }

  /** The list comprehension that drops every record whose `product_id`
      (`None` when the key is missing) is a member of `exclude`. */
  function WithoutExcluded(ps: seq<Product>, exclude: seq<Option<Id>>): (r: seq<Product>)
    ensures |r| <= |ps|
    ensures forall p :: p in r <==> p in ps && p.id !in exclude
    decreases |ps|
  {
    if ps == [] then []
    else
      var rest := WithoutExcluded(ps[1..], exclude);
      assert forall p :: p in ps <==> p == ps[0] || p in ps[1..];
      if ps[0].id in exclude then rest else [ps[0]] + rest
  }

  /** Filtering keeps the order of the records it keeps: it distributes over concatenation. */
  lemma {:induction false} WithoutExcludedConcat(ps: seq<Product>, qs: seq<Product>, exclude: seq<Option<Id>>)
    ensures WithoutExcluded(ps + qs, exclude) == WithoutExcluded(ps, exclude) + WithoutExcluded(qs, exclude)
    decreases |ps|
  {
    if ps != [] {
      assert (ps + qs)[1..] == ps[1..] + qs;
      WithoutExcludedConcat(ps[1..], qs, exclude);
    } else {
      assert ps + qs == qs;
    }
  }

  /** Filtering leaves alone a list none of whose ids is excluded. */
  lemma {:induction false} WithoutExcludedNoop(ps: seq<Product>, exclude: seq<Option<Id>>)
    requires forall i :: 0 <= i < |ps| ==> ps[i].id !in exclude
    ensures WithoutExcluded(ps, exclude) == ps
    decreases |ps|
  {
    if ps != [] {
      WithoutExcludedNoop(ps[1..], exclude);
    }
  }

  /** True when every record carries a `product_id`; a record without one makes
      `product['product_id']` raise KeyError. */
  predicate HasIds(ps: seq<Product>) {
    forall i :: 0 <= i < |ps| ==> ps[i].id.Some?
  }

  /** How many records of `ps` carry the id `id`. */
  function Count(ps: seq<Product>, id: Id): nat
    decreases |ps|
  {
    if ps == [] then 0
    else Count(ps[..|ps| - 1], id) + (if ps[|ps| - 1].id == Some(id) then 1 else 0)
  }

  /** The first (at most) `n` elements, as the slice `s[:n]` does for `n >= 0`. */
  function Take<T>(s: seq<T>, n: nat): (r: seq<T>)
    ensures |r| <= n && |r| <= |s|
    ensures |r| == n || |r| == |s|
    ensures r == s[..|r|]
  {
    if n <= |s| then s[..n] else s
  }
}
