/** The candidate accumulator `all_candidates`: a dictionary keyed by product id
    whose iteration order is insertion order. It is built by three merge loops,
    one per lookup, and then every entry gets its similarity bonus.
    `Reference` says what the accumulator holds after merging a list of hits,
    independently of how the loops build it. */
module Accumulation {
  import opened Catalog
  import opened Similarity
  import opened Ranking

  /** One occurrence of a record in one lookup, with that lookup's weight. */
  datatype Hit = Hit(id: Id, product: Product, weight: real)

  /** The dictionary: its keys in insertion order, and its entries. */
  datatype Candidates = Candidates(order: seq<Id>, table: map<Id, Candidate>)

  predicate Distinct(s: seq<Id>) {
    forall i, j :: 0 <= i < j < |s| ==> s[i] != s[j]
  }

  /** The order lists every key exactly once. */
  predicate Valid(acc: Candidates) {
    && Distinct(acc.order)
    && (forall id :: id in acc.table ==> id in acc.order)
    && (forall k :: 0 <= k < |acc.order| ==> acc.order[k] in acc.table)
  }

  /** Every hit belongs to the record it was taken from. */
  predicate WellFormed(ts: seq<Hit>) {
    forall k :: 0 <= k < |ts| ==> ts[k].product.id == Some(ts[k].id)
  }

  /** The hits one filtered lookup contributes, in list order. */
  function Weigh(ps: seq<Product>, w: real): (r: seq<Hit>)
    requires HasIds(ps)
    ensures |r| == |ps| && WellFormed(r)
    ensures forall k :: 0 <= k < |ps| ==> r[k].product == ps[k] && r[k].weight == w
  {
    seq(|ps|, k requires 0 <= k < |ps| => Hit(ps[k].id.value, ps[k], w))
  }

  function Ids(ts: seq<Hit>): (r: seq<Id>)
    ensures |r| == |ts| && forall k :: 0 <= k < |ts| ==> r[k] == ts[k].id
  {
    seq(|ts|, k requires 0 <= k < |ts| => ts[k].id)
  }

  /** Position of the first occurrence of `x` in `s`. */
  function FirstIndex(s: seq<Id>, x: Id): (k: nat)
    requires x in s
    ensures k < |s| && s[k] == x
    ensures forall m :: 0 <= m < k ==> s[m] != x
    decreases |s|
  {
    if s[0] == x then 0 else 1 + FirstIndex(s[1..], x)
  }

  /** Appending never moves the first occurrence of an id already present. */
  lemma FirstIndexExtend(s: seq<Id>, t: seq<Id>, x: Id)
    requires x in s
    ensures FirstIndex(s + t, x) == FirstIndex(s, x)
  {
    var k0, k1 := FirstIndex(s, x), FirstIndex(s + t, x);
    assert (s + t)[k0] == x;
  }

  /** The distinct ids of `ids`, each where it first occurs: the order in which
      a dictionary that is only ever inserted into lists its keys. */
  function InsertionOrder(ids: seq<Id>): (o: seq<Id>)
    ensures forall x :: x in o <==> x in ids
    ensures Distinct(o)
    decreases |ids|
  {
    if ids == [] then []
    else
      var last := ids[|ids| - 1];
      var o := InsertionOrder(ids[..|ids| - 1]);
      assert ids == ids[..|ids| - 1] + [last];
      if last in o then o else o + [last]
  }

  /** Keys come out ordered by where their id first occurs in the merged lists. */
  lemma {:induction false} InsertionOrderFollowsFirstOccurrence(ids: seq<Id>, i: nat, j: nat)
    requires i < j < |InsertionOrder(ids)|
    ensures FirstIndex(ids, InsertionOrder(ids)[i]) < FirstIndex(ids, InsertionOrder(ids)[j])
    decreases |ids|
  {
    var n := |ids|;
    var init, last := ids[..n - 1], ids[n - 1];
    var o, o' := InsertionOrder(ids), InsertionOrder(init);
    assert ids == init + [last];
    if j < |o'| {
      InsertionOrderFollowsFirstOccurrence(init, i, j);
      assert o[i] == o'[i] && o[j] == o'[j];
      FirstIndexExtend(init, [last], o[i]);
      FirstIndexExtend(init, [last], o[j]);
    } else {
      assert o == o' + [last] && o[j] == last && last !in init;
      assert o[i] == o'[i] && o[i] in init;
      FirstIndexExtend(init, [last], o[i]);
    }
  }

  /** The total weight of the hits carrying `id`. */
  function ScoreOf(ts: seq<Hit>, id: Id): real
    decreases |ts|
  {
    if ts == [] then 0.0
    else ScoreOf(ts[..|ts| - 1], id) + (if ts[|ts| - 1].id == id then ts[|ts| - 1].weight else 0.0)
  }

  lemma {:induction false} ScoreOfAbsent(ts: seq<Hit>, id: Id)
    requires id !in Ids(ts)
    ensures ScoreOf(ts, id) == 0.0
    decreases |ts|
  {
    if ts != [] {
      assert Ids(ts[..|ts| - 1]) == Ids(ts)[..|ts| - 1];
      ScoreOfAbsent(ts[..|ts| - 1], id);
    }
  }

  lemma {:induction false} ScoreOfConcat(ts: seq<Hit>, us: seq<Hit>, id: Id)
    ensures ScoreOf(ts + us, id) == ScoreOf(ts, id) + ScoreOf(us, id)
    decreases |us|
  {
    if us != [] {
      var n := |us|;
      assert (ts + us)[..|ts + us| - 1] == ts + us[..n - 1];
      ScoreOfConcat(ts, us[..n - 1], id);
    } else {
      assert ts + us == ts;
    }
  }

  /** A lookup contributes its weight once per record carrying the id. */
  lemma {:induction false} ScoreOfWeigh(ps: seq<Product>, w: real, id: Id)
    requires HasIds(ps)
    ensures ScoreOf(Weigh(ps, w), id) == w * Count(ps, id) as real
    decreases |ps|
  {
    if ps != [] {
      var n := |ps|;
      assert Weigh(ps, w)[..n - 1] == Weigh(ps[..n - 1], w);
      ScoreOfWeigh(ps[..n - 1], w, id);
    }
  }

  /** Three merged lookups score each id by their weights times its occurrences. */
  lemma ScoreOfThree(ts: seq<Hit>, a: seq<Product>, wa: real, b: seq<Product>, wb: real, c: seq<Product>, wc: real, id: Id)
    requires HasIds(a) && HasIds(b) && HasIds(c)
    requires ts == Weigh(a, wa) + Weigh(b, wb) + Weigh(c, wc)
    ensures ScoreOf(ts, id) ==
      wa * Count(a, id) as real + wb * Count(b, id) as real + wc * Count(c, id) as real
  {
    ScoreOfConcat(Weigh(a, wa) + Weigh(b, wb), Weigh(c, wc), id);
    ScoreOfConcat(Weigh(a, wa), Weigh(b, wb), id);
    ScoreOfWeigh(a, wa, id);
    ScoreOfWeigh(b, wb, id);
    ScoreOfWeigh(c, wc, id);
  }

  /** The record stored for `id`: the one of its first hit. */
  function FirstProduct(ts: seq<Hit>, id: Id): (r: Product)
    requires id in Ids(ts)
    ensures WellFormed(ts) ==> r.id == Some(id)
  {
    ts[FirstIndex(Ids(ts), id)].product
  }

  /** What the dictionary holds after the hits `ts` were merged in, in order:
      one entry per distinct id, keyed in order of first occurrence, with the
      record of the first hit and the sum of all hits' weights. */
  function Reference(ts: seq<Hit>): (acc: Candidates)
    ensures Valid(acc)
  {
    Candidates(
      InsertionOrder(Ids(ts)),
      map id | id in Ids(ts) :: Candidate(FirstProduct(ts, id), ScoreOf(ts, id)))
  }

  lemma IdsSnoc(ts: seq<Hit>, h: Hit)
    ensures Ids(ts + [h]) == Ids(ts) + [h.id]
  {
  }

  /** Merging one more hit adds its weight to its own id only. */
  lemma ScoreOfSnoc(ts: seq<Hit>, h: Hit, id: Id)
    ensures ScoreOf(ts + [h], id) == ScoreOf(ts, id) + (if h.id == id then h.weight else 0.0)
  {
    assert (ts + [h])[..|ts|] == ts;
  }

  /** Merging one more hit keeps the stored record of every id already present. */
  lemma FirstProductSnoc(ts: seq<Hit>, h: Hit, id: Id)
    requires id in Ids(ts + [h])
    ensures FirstProduct(ts + [h], id) == if id in Ids(ts) then FirstProduct(ts, id) else h.product
  {
    IdsSnoc(ts, h);
    if id in Ids(ts) {
      FirstIndexExtend(Ids(ts), [h.id], id);
    } else {
      assert FirstIndex(Ids(ts) + [h.id], id) == |ts|;
    }
  }

  /** The entry for one id after one more hit. */
  lemma TableSnoc(ts: seq<Hit>, h: Hit, k: Id)
    requires k in Ids(ts + [h])
    ensures k in Reference(ts + [h]).table
    ensures Reference(ts + [h]).table[k] ==
      if k in Ids(ts) then
        Candidate(FirstProduct(ts, k), ScoreOf(ts, k) + (if h.id == k then h.weight else 0.0))
      else Candidate(h.product, h.weight)
  {
    ScoreOfSnoc(ts, h, k);
    FirstProductSnoc(ts, h, k);
    IdsSnoc(ts, h);
    if k !in Ids(ts) {
      ScoreOfAbsent(ts, k);
    }
  }

  /** The key order after one more hit. */
  lemma OrderSnoc(ts: seq<Hit>, h: Hit)
    ensures Reference(ts + [h]).order ==
      if h.id in Ids(ts) then Reference(ts).order else Reference(ts).order + [h.id]
  {
    IdsSnoc(ts, h);
    assert (Ids(ts) + [h.id])[..|ts|] == Ids(ts);
  }

  lemma MapExt(m: map<Id, Candidate>, m': map<Id, Candidate>)
    requires m.Keys == m'.Keys
    requires forall k :: k in m ==> m[k] == m'[k]
    ensures m == m'
  {
  }

  /** A merge step on an id not yet in the dictionary appends it with the hit's weight. */
  lemma ReferenceStepNew(ts: seq<Hit>, h: Hit)
    requires h.id !in Ids(ts)
    ensures Reference(ts + [h]) ==
      Candidates(Reference(ts).order + [h.id], Reference(ts).table[h.id := Candidate(h.product, h.weight)])
  {
    var t, t' := Reference(ts).table, Reference(ts + [h]).table;
    var e := t[h.id := Candidate(h.product, h.weight)];
    IdsSnoc(ts, h);
    assert t'.Keys == e.Keys;
    forall k | k in t'
      ensures t'[k] == e[k]
    {
      TableSnoc(ts, h, k);
    }
    MapExt(t', e);
    OrderSnoc(ts, h);
  }

  /** `all_candidates[id]['score'] += w`. */
  function Bumped(t: map<Id, Candidate>, id: Id, w: real): (r: map<Id, Candidate>)
    requires id in t
    ensures r.Keys == t.Keys && r[id].product == t[id].product && r[id].score == t[id].score + w
    ensures forall k :: k in t && k != id ==> r[k] == t[k]
  {
    t[id := Candidate(t[id].product, t[id].score + w)]
  }

  /** The entry for one id after a merge step on an id already present. */
  lemma KnownAt(ts: seq<Hit>, h: Hit, k: Id)
    requires h.id in Ids(ts)
    requires k in Reference(ts + [h]).table
    ensures k in Bumped(Reference(ts).table, h.id, h.weight)
    ensures Reference(ts + [h]).table[k] == Bumped(Reference(ts).table, h.id, h.weight)[k]
  {
    IdsSnoc(ts, h);
    TableSnoc(ts, h, k);
  }

  /** A merge step on an id already in the dictionary adds the hit's weight to its score. */
  lemma ReferenceStepKnown(ts: seq<Hit>, h: Hit)
    requires h.id in Ids(ts)
    ensures Reference(ts + [h]) == Candidates(Reference(ts).order, Bumped(Reference(ts).table, h.id, h.weight))
  {
    var t, t' := Reference(ts).table, Reference(ts + [h]).table;
    var e := Bumped(t, h.id, h.weight);
    IdsSnoc(ts, h);
    assert t'.Keys == e.Keys;
    forall k | k in t'
      ensures t'[k] == e[k]
    {
      KnownAt(ts, h, k);
    }
    MapExt(t', e);
    OrderSnoc(ts, h);
  }

  /** Weighing one more record appends its hit. */
  lemma WeighSnoc(ps: seq<Product>, i: nat, w: real)
    requires i < |ps| && HasIds(ps[..i]) && ps[i].id.Some?
    ensures HasIds(ps[..i + 1])
    ensures Weigh(ps[..i + 1], w) == Weigh(ps[..i], w) + [Hit(ps[i].id.value, ps[i], w)]
  {
    assert ps[..i + 1] == ps[..i] + [ps[i]];
  }

  /** One of the three merge loops: every record of `ps` either enters the
      dictionary with weight `w` or adds `w` to its entry. A record without a
      `product_id` raises KeyError, which answers `None`. */
  method Merge(acc: Candidates, ghost ts: seq<Hit>, ps: seq<Product>, w: real) returns (r: Option<Candidates>)
    requires acc == Reference(ts)
    ensures r.Some? <==> HasIds(ps)
    ensures r.Some? ==> r.value == Reference(ts + Weigh(ps, w))
  {
    var order, table := acc.order, acc.table;
    ghost var done := ts;
    var i := 0;
    while i < |ps|
      invariant 0 <= i <= |ps|
      invariant HasIds(ps[..i])
      invariant done == ts + Weigh(ps[..i], w)
      invariant Candidates(order, table) == Reference(done)
    {
      var p := ps[i];
      if p.id.None? {
        return None;
      }
      var id := p.id.value;
      ghost var h := Hit(id, p, w);
      if id !in table {
        ReferenceStepNew(done, h);
        order := order + [id];
        table := table[id := Candidate(p, w)];
      } else {
        ReferenceStepKnown(done, h);
        table := Bumped(table, id, w);
      }
      WeighSnoc(ps, i, w);
      done := done + [h];
      i := i + 1;
    }
    assert ps[..i] == ps;
    r := Some(Candidates(order, table));
  }

  /** The candidate with the refinement bonus added to its score. */
  function WithBonus(reference: Product, c: Candidate): (r: Candidate)
    ensures r.product == c.product
    ensures c.score <= r.score <= c.score + SPICE_WEIGHT + MOOD_WEIGHT
  {
    c.(score := c.score + Bonus(reference, c.product))
  }

  /** `all_candidates[id]['score'] += bonus` for one entry. */
  function Refined(reference: Product, t: map<Id, Candidate>, id: Id): (r: map<Id, Candidate>)
    requires id in t
    ensures r.Keys == t.Keys
    ensures r[id] == WithBonus(reference, t[id])
    ensures forall k :: k in t && k != id ==> r[k] == t[k]
  {
    t[id := WithBonus(reference, t[id])]
  }

  /** The refinement loop: every entry, in dictionary order, gets its spice and
      mood bonus; the keys and their order stay as they are. */
  method AddBonuses(reference: Product, acc: Candidates) returns (r: Candidates)
    requires Valid(acc)
    ensures r.order == acc.order && r.table.Keys == acc.table.Keys
    ensures forall id :: id in acc.table ==> r.table[id] == WithBonus(reference, acc.table[id])
  {
    var table := acc.table;
    var i := 0;
    while i < |acc.order|
      invariant 0 <= i <= |acc.order|
      invariant table.Keys == acc.table.Keys
      invariant forall k :: 0 <= k < i ==> table[acc.order[k]] == WithBonus(reference, acc.table[acc.order[k]])
      invariant forall k :: i <= k < |acc.order| ==> table[acc.order[k]] == acc.table[acc.order[k]]
    {
      var id := acc.order[i];
      assert forall k :: 0 <= k < |acc.order| && k != i ==> acc.order[k] != id;
      table := Refined(reference, table, id);
      i := i + 1;
    }
    r := Candidates(acc.order, table);
  }

  /** `all_candidates.values()`: the entries in key order. */
  function Values(acc: Candidates): (r: seq<Candidate>)
    requires Valid(acc)
    ensures |r| == |acc.order|
    ensures forall k :: 0 <= k < |r| ==> r[k] == acc.table[acc.order[k]]
  {
    seq(|acc.order|, k requires 0 <= k < |acc.order| => acc.table[acc.order[k]])
  }
}
