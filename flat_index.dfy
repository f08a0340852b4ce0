/**
 * Exact nearest-neighbour search under squared Euclidean distance, the
 * behaviour of `faiss.IndexFlatL2` that app/search_engine/semantic_search.py
 * relies on. Distances are exact reals; float32 rounding is not modelled.
 */
module Knn {

  /** One search result: a row of the index and its squared distance to the query. */
  datatype Hit = Hit(id: nat, distance: real)

  /** All vectors have `d` components. */
  predicate Uniform(vs: seq<seq<real>>, d: nat)
  {
    forall i :: 0 <= i < |vs| ==> |vs[i]| == d
  }

  /** Squared Euclidean distance. */
  function SqDist(a: seq<real>, b: seq<real>): (r: real)
    requires |a| == |b|
    ensures r >= 0.0
  {
    if a == [] then 0.0
    else (a[0] - b[0]) * (a[0] - b[0]) + SqDist(a[1..], b[1..])
  }

  /**
   * A product of two reals of the same sign plus a non-negative rest is
   * positive. The factors are separate parameters: called with one term for
   * both, it gives a nonzero square plus a rest.
   */
  lemma ProductPlusPositive(x: real, y: real, t: real)
    requires ((x > 0.0 && y > 0.0) || (x < 0.0 && y < 0.0)) && t >= 0.0
    ensures x * y + t > 0.0
  {
  }

  /** The distance is zero exactly between equal vectors. */
  lemma {:induction false} SqDistZero(a: seq<real>, b: seq<real>)
    requires |a| == |b|
    ensures SqDist(a, b) == 0.0 <==> a == b
  {
    if a != [] {
      SqDistZero(a[1..], b[1..]);
      if a[0] != b[0] {
        ProductPlusPositive(a[0] - b[0], a[0] - b[0], SqDist(a[1..], b[1..]));
      } else {
        assert a == [a[0]] + a[1..] && b == [b[0]] + b[1..];
      }
    }
  }

  lemma {:induction false} SqDistSymmetric(a: seq<real>, b: seq<real>)
    requires |a| == |b|
    ensures SqDist(a, b) == SqDist(b, a)
  {
    if a != [] {
      SqDistSymmetric(a[1..], b[1..]);
      assert (a[0] - b[0]) * (a[0] - b[0]) == (b[0] - a[0]) * (b[0] - a[0]);
    }
  }

  predicate SortedByDistance(hs: seq<Hit>)
  {
    forall i, j :: 0 <= i < j < |hs| ==> hs[i].distance <= hs[j].distance
  }

  predicate DistinctIds(hs: seq<Hit>)
  {
    forall i, j :: 0 <= i < j < |hs| ==> hs[i].id != hs[j].id
  }

  /** Row `row` is not among the hits. */
  predicate Excludes(hs: seq<Hit>, row: nat)
  {
    forall i :: 0 <= i < |hs| ==> hs[i].id != row
  }

  /** A hit no farther than any of an ascending list can go in front of it. */
  lemma SortedCons(h: Hit, s: seq<Hit>)
    requires SortedByDistance(s) && forall x :: x in s ==> h.distance <= x.distance
    ensures SortedByDistance([h] + s)
  {
    var r := [h] + s;
    forall i, j | 0 <= i < j < |r| ensures r[i].distance <= r[j].distance {
      assert r[j] == s[j - 1] && s[j - 1] in s;
      if i > 0 { assert r[i] == s[i - 1]; }
    }
  }

  /** A hit for a row not among the hits can go in front of them. */
  lemma DistinctIdsCons(h: Hit, s: seq<Hit>)
    requires DistinctIds(s) && Excludes(s, h.id)
    ensures DistinctIds([h] + s)
  {
    var r := [h] + s;
    forall i, j | 0 <= i < j < |r| ensures r[i].id != r[j].id {
      assert r[j] == s[j - 1];
      if i > 0 { assert r[i] == s[i - 1]; }
    }
  }

  /**
   * `hits` is an exact answer to a k-nearest-neighbour query for `q` over the
   * rows `vs`: k different rows, each with its own squared distance, in
   * ascending distance, and no row left out is nearer than any row returned.
   * Among rows at equal distance any choice and order is allowed.
   */
  ghost predicate IsKnn(vs: seq<seq<real>>, q: seq<real>, k: nat, hits: seq<Hit>)
  {
    Uniform(vs, |q|) && |hits| == k &&
    (forall i :: 0 <= i < k ==>
      hits[i].id < |vs| && hits[i].distance == SqDist(q, vs[hits[i].id])) &&
    DistinctIds(hits) && SortedByDistance(hits) &&
    forall row :: 0 <= row < |vs| && Excludes(hits, row) ==>
      forall i :: 0 <= i < k ==> hits[i].distance <= SqDist(q, vs[row])
  }

  /** Querying with a stored vector finds a row at distance zero first. */
  lemma KnnSelfMatch(vs: seq<seq<real>>, q: seq<real>, k: nat, hits: seq<Hit>, row: nat)
    requires IsKnn(vs, q, k, hits) && 1 <= k && row < |vs| && vs[row] == q
    ensures hits[0].distance == 0.0
    ensures (forall i, j :: 0 <= i < j < |vs| ==> vs[i] != vs[j]) ==> hits[0].id == row
  {
    SqDistZero(q, vs[row]);
    if !Excludes(hits, row) {
      var i :| 0 <= i < k && hits[i].id == row;
      assert hits[0].distance <= hits[i].distance;
    }
    SqDistZero(q, vs[hits[0].id]);
  }

  /**
   * Inserts `h` after every hit that is no farther than it: the result gains
   * exactly `h`.
   */
  function Insert(s: seq<Hit>, h: Hit): (r: seq<Hit>)
    ensures |r| == |s| + 1
    ensures multiset(r) == multiset(s) + multiset{h}
    ensures forall x :: x in r <==> x in s || x == h
  {
    if s == [] || h.distance < s[0].distance then [h] + s
    else
      assert s == [s[0]] + s[1..];
      [s[0]] + Insert(s[1..], h)
  }

  /** Insertion keeps a list in ascending distance. */
  lemma {:induction false} InsertSorted(s: seq<Hit>, h: Hit)
    requires SortedByDistance(s)
    ensures SortedByDistance(Insert(s, h))
  {
    if s == [] || h.distance < s[0].distance {
      forall x | x in s ensures h.distance <= x.distance {
        var m :| 0 <= m < |s| && s[m] == x;
      }
      SortedCons(h, s);
    } else {
      var tail := s[1..];
      assert SortedByDistance(tail);
      InsertSorted(tail, h);
      forall x | x in Insert(tail, h) ensures s[0].distance <= x.distance {
        if x != h {
          var m :| 0 <= m < |tail| && tail[m] == x;
          assert s[m + 1] == x;
        }
      }
      SortedCons(s[0], Insert(tail, h));
    }
  }

  /** Inserting a hit for a row not yet listed keeps the rows different. */
  lemma {:induction false} InsertDistinct(s: seq<Hit>, h: Hit)
    requires DistinctIds(s) && Excludes(s, h.id)
    ensures DistinctIds(Insert(s, h))
  {
    if s == [] || h.distance < s[0].distance {
      DistinctIdsCons(h, s);
    } else {
      var tail := s[1..];
      assert DistinctIds(tail) && Excludes(tail, h.id);
      InsertDistinct(tail, h);
      var rest := Insert(tail, h);
      forall i | 0 <= i < |rest| ensures rest[i].id != s[0].id {
        assert rest[i] in rest;
        if rest[i] != h {
          var m :| 0 <= m < |tail| && tail[m] == rest[i];
          assert s[m + 1] == rest[i];
        }
      }
      DistinctIdsCons(s[0], rest);
    }
  }

  /**
   * `ranked` lists every row of `vs` once, with its distance to `q`, in
   * ascending distance.
   */
  ghost predicate Ranking(vs: seq<seq<real>>, q: seq<real>, ranked: seq<Hit>)
  {
    Uniform(vs, |q|) && SortedByDistance(ranked) && DistinctIds(ranked) &&
    (forall h :: h in ranked ==> h.id < |vs| && h.distance == SqDist(q, vs[h.id])) &&
    (forall j :: 0 <= j < |vs| ==> Hit(j, SqDist(q, vs[j])) in ranked)
  }

  /** The first `k` entries of a full ranking answer a `k`-nearest-neighbour query. */
  lemma RankingPrefix(vs: seq<seq<real>>, q: seq<real>, ranked: seq<Hit>, k: nat)
    requires Ranking(vs, q, ranked) && k <= |ranked|
    ensures IsKnn(vs, q, k, ranked[..k])
  {
    var hits := ranked[..k];
    forall i | 0 <= i < k
      ensures hits[i].id < |vs| && hits[i].distance == SqDist(q, vs[hits[i].id])
    {
      assert hits[i] == ranked[i] && ranked[i] in ranked;
    }
    forall row | 0 <= row < |vs| && Excludes(hits, row)
      ensures forall i :: 0 <= i < k ==> hits[i].distance <= SqDist(q, vs[row])
    {
      var p :| 0 <= p < |ranked| && ranked[p] == Hit(row, SqDist(q, vs[row]));
      assert forall i :: 0 <= i < k ==> ranked[i].id != row;
      assert k <= p;
    }
  }

  /**
   * `faiss.IndexFlatL2`: a flat store of `d`-dimensional vectors searched by
   * brute force.
   */
  class FlatL2Index {
    /** The dimension fixed at construction. */
    const d: nat
    /** The stored vectors; a vector's id is its position. */
    var vectors: seq<seq<real>>

    ghost predicate Valid()
      reads this
    {
      Uniform(vectors, d)
    }

    constructor (d: nat)
      ensures this.d == d && vectors == [] && Valid()
    {
      this.d := d;
      vectors := [];
    }

    /** `index.ntotal`: the number of stored vectors. */
    function NTotal(): nat
      reads this
    {
      |vectors|
    }

    /** `index.add(xs)`: appends the rows of `xs`, labelled after the ones already stored. */
    method Add(xs: seq<seq<real>>)
      requires Valid() && Uniform(xs, d)
      modifies this
      ensures Valid() && vectors == old(vectors) + xs
      ensures NTotal() == old(NTotal()) + |xs|
    {
      vectors := vectors + xs;
    }

    /**
     * `index.search(q, k)`: one scan over the stored rows that inserts each
     * row with its distance into a list kept in ascending distance; the
     * first `k` entries are the answer.
     */
    method Search(q: seq<real>, k: nat) returns (hits: seq<Hit>)
      requires Valid() && |q| == d && 1 <= k <= NTotal()
      ensures IsKnn(vectors, q, k, hits)
    {
      var ranked: seq<Hit> := [];
      for row := 0 to |vectors|
        invariant |ranked| == row
        invariant SortedByDistance(ranked) && DistinctIds(ranked)
        invariant forall h :: h in ranked ==> h.id < row && h.distance == SqDist(q, vectors[h.id])
        invariant forall j :: 0 <= j < row ==> Hit(j, SqDist(q, vectors[j])) in ranked
      {
        forall i | 0 <= i < |ranked| ensures ranked[i].id != row {
          assert ranked[i] in ranked;
        }
        InsertSorted(ranked, Hit(row, SqDist(q, vectors[row])));
        InsertDistinct(ranked, Hit(row, SqDist(q, vectors[row])));
        ranked := Insert(ranked, Hit(row, SqDist(q, vectors[row])));
      }
      RankingPrefix(vectors, q, ranked, k);
      hits := ranked[..k];
    }
  }
}
