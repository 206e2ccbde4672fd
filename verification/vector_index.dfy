/** The dense index: a flat inner-product vector index together with the
    list `chunk_ids` that maps each stored vector's position to its chunk.
    The two lists are kept parallel by adding, removing and searching. */
module VectorIndex {
  import opened Text
  import opened Sorting

  type Vector = seq<real>

  /** The embedding model; it is not part of this model. */
  type Embedder = string -> Vector

  datatype Index = Index(chunkIds: seq<string>, vectors: seq<Vector>)

  /** Position `i` of `chunk_ids` names the chunk of vector `i`. */
  predicate InSync(ix: Index) { |ix.chunkIds| == |ix.vectors| }

  /** A freshly created, empty index. */
  const Empty: Index := Index([], [])

  /** The (chunk id, vector) pairs of an index in sync. */
  function Entries(ix: Index): (r: seq<(string, Vector)>)
    requires InSync(ix)
    ensures |r| == |ix.chunkIds|
    ensures forall i :: 0 <= i < |r| ==> r[i] == (ix.chunkIds[i], ix.vectors[i])
  {
    seq(|ix.chunkIds|, i requires 0 <= i < |ix.chunkIds| => (ix.chunkIds[i], ix.vectors[i]))
  }

  /** The index holding the given pairs, in order. */
  function FromEntries(es: seq<(string, Vector)>): (r: Index)
    ensures InSync(r) && Entries(r) == es
  {
    Index(seq(|es|, i requires 0 <= i < |es| => es[i].0), seq(|es|, i requires 0 <= i < |es| => es[i].1))
  }

  function Embed(embed: Embedder, contents: seq<string>): (r: seq<Vector>)
    ensures |r| == |contents|
    ensures forall i :: 0 <= i < |r| ==> r[i] == embed(contents[i])
  {
    seq(|contents|, i requires 0 <= i < |contents| => embed(contents[i]))
  }

  // ---------------------------------------------------------------------------
  // add_chunks

  /** `add_chunks`: one vector per content and the ids, both appended. The
      lists stay parallel exactly when as many ids as contents are given. */
  function AddChunks(ix: Index, ids: seq<string>, contents: seq<string>, embed: Embedder): (r: Index)
    ensures ids == [] || contents == [] ==> r == ix
    ensures ids != [] && contents != [] ==>
              |r.chunkIds| == |ix.chunkIds| + |ids| && |r.vectors| == |ix.vectors| + |contents|
              && r.chunkIds[..|ix.chunkIds|] == ix.chunkIds && r.chunkIds[|ix.chunkIds|..] == ids
              && r.vectors[..|ix.vectors|] == ix.vectors
              && forall i :: 0 <= i < |contents| ==> r.vectors[|ix.vectors| + i] == embed(contents[i])
    ensures InSync(ix) && ids != [] && contents != [] ==> (InSync(r) <==> |ids| == |contents|)
  {
    if ids == [] || contents == [] then ix
    else Index(ix.chunkIds + ids, ix.vectors + Embed(embed, contents))
  }

  /** Adding to an index in sync pairs each new id with its content's
      vector, after the existing entries. */
  lemma AddChunksEntries(ix: Index, ids: seq<string>, contents: seq<string>, embed: Embedder)
    requires InSync(ix) && |ids| == |contents|
    ensures var r := AddChunks(ix, ids, contents, embed);
            InSync(r) && Entries(r)[..|ix.chunkIds|] == Entries(ix)
            && forall i :: 0 <= i < |ids| ==> Entries(r)[|ix.chunkIds| + i] == (ids[i], embed(contents[i]))
  {
    var r := AddChunks(ix, ids, contents, embed);
    if ids != [] {
      assert forall i :: 0 <= i < |ids| ==> r.chunkIds[|ix.chunkIds| + i] == ids[i];
    }
  }

  // ---------------------------------------------------------------------------
  // remove_chunks

  function KeptBy(toRemove: seq<string>): ((string, Vector)) -> bool {
    (e: (string, Vector)) => e.0 !in toRemove
  }

  lemma {:induction false} FilterFull<T>(p: T -> bool, s: seq<T>)
    requires |Filter(p, s)| == |s|
    ensures Filter(p, s) == s
    decreases |s|
  {
    if |s| > 0 {
      FilterFull(p, s[1..]);
      assert s == [s[0]] + s[1..];
    }
  }

  /** `remove_chunks`: the index rebuilt from the entries whose id is not
      being removed, in their original order, each still with its vector;
      the index is left as it is when nothing matches. */
  function RemoveChunks(ix: Index, toRemove: seq<string>): (r: Index)
    requires InSync(ix)
    ensures InSync(r)
    ensures Entries(r) == Filter(KeptBy(toRemove), Entries(ix))
    ensures forall i :: 0 <= i < |r.chunkIds| ==> r.chunkIds[i] !in toRemove
  {
    var keep := Filter(KeptBy(toRemove), Entries(ix));
    if |keep| == |ix.chunkIds| then
      FilterFull(KeptBy(toRemove), Entries(ix));
      ix
    else if keep == [] then Empty
    else FromEntries(keep)
  }

  /** Removing ids the index does not hold changes nothing. */
  lemma RemoveNothing(ix: Index, toRemove: seq<string>)
    requires InSync(ix)
    requires forall i :: 0 <= i < |ix.chunkIds| ==> ix.chunkIds[i] !in toRemove
    ensures RemoveChunks(ix, toRemove) == ix
  {
    FilterAll(KeptBy(toRemove), Entries(ix));
  }

  /** Removing every id leaves the empty index. */
  lemma RemoveEverything(ix: Index, toRemove: seq<string>)
    requires InSync(ix)
    requires forall i :: 0 <= i < |ix.chunkIds| ==> ix.chunkIds[i] in toRemove
    ensures RemoveChunks(ix, toRemove) == Empty
  {
    FilterNone(KeptBy(toRemove), Entries(ix));
  }

  /** An id survives removal exactly when it is not being removed. */
  lemma RemoveKeepsOthers(ix: Index, toRemove: seq<string>, i: nat)
    requires InSync(ix) && i < |ix.chunkIds|
    ensures var r := RemoveChunks(ix, toRemove);
            (ix.chunkIds[i], ix.vectors[i]) in Entries(r) <==> ix.chunkIds[i] !in toRemove
  {
    var es := Entries(ix);
    FilterExact(KeptBy(toRemove), es);
    assert es[i] == (ix.chunkIds[i], ix.vectors[i]);
    if ix.chunkIds[i] !in toRemove {
      assert multiset(es)[es[i]] > 0;
    }
  }

  // ---------------------------------------------------------------------------
  // search

  /** Inner product over the common length. */
  function Dot(a: Vector, b: Vector): real
    decreases |a|
  {
    if |a| == 0 || |b| == 0 then 0.0 else a[0] * b[0] + Dot(a[1..], b[1..])
  }

  function Positions(n: nat): (r: seq<nat>)
    ensures |r| == n
    ensures forall i :: 0 <= i < n ==> r[i] == i
  {
    seq(n, i requires 0 <= i < n => i)
  }

  function ScoreOf(ix: Index, query: Vector): nat -> real {
    (p: nat) => if p < |ix.vectors| then Dot(ix.vectors[p], query) else 0.0
  }

  /** The flat index's search: the `min(k, n)` positions with the highest
      inner product with the query, best first (equal scores in position
      order); no position left out scores above one returned. */
  function TopPositions(ix: Index, query: Vector, k: int): (r: seq<nat>)
    ensures |r| <= k || k < 0
    ensures k >= 0 ==> |r| == Min(k, |ix.vectors|)
    ensures forall i :: 0 <= i < |r| ==> r[i] < |ix.vectors|
    ensures SortedDesc(r, ScoreOf(ix, query))
    ensures NoDuplicates(r)
    ensures forall p: nat, i :: p < |ix.vectors| && p !in r && 0 <= i < |r| ==>
              Dot(ix.vectors[r[i]], query) >= Dot(ix.vectors[p], query)
  {
    var ps := Positions(|ix.vectors|);
    DistinctOfNoDuplicates(ps);
    var r := TopDistinct(ps, ScoreOf(ix, query), k);
    TopOfPositions(ix, query, k);
    r
  }

  lemma TopOfPositions(ix: Index, query: Vector, k: int)
    ensures var r := TopDistinct(Positions(|ix.vectors|), ScoreOf(ix, query), k);
            forall p: nat, i :: p < |ix.vectors| && p !in r && 0 <= i < |r| ==>
              Dot(ix.vectors[r[i]], query) >= Dot(ix.vectors[p], query)
  {
    var ps := Positions(|ix.vectors|);
    var r := TopDistinct(ps, ScoreOf(ix, query), k);
    forall p: nat, i | p < |ix.vectors| && p !in r && 0 <= i < |r|
      ensures Dot(ix.vectors[r[i]], query) >= Dot(ix.vectors[p], query)
    {
      assert ps[p] == p;
      TopDistinctIsTop(ps, ScoreOf(ix, query), k, p, i);
    }
  }

  function Min(a: int, b: int): int { if a <= b then a else b }

  /** The hits for the given positions, skipping positions with no id. In
      an index in sync every position has one, and hit `i` is position
      `ps[i]`'s id and score; the hits keep the positions' score order. */
  function Hits(ix: Index, query: Vector, ps: seq<nat>): (r: seq<(string, real)>)
    ensures |r| <= |ps|
    ensures forall h | h in r :: exists p :: p in ps && p < |ix.chunkIds| && p < |ix.vectors|
                                        && h == (ix.chunkIds[p], Dot(ix.vectors[p], query))
    ensures InSync(ix) && (forall j :: 0 <= j < |ps| ==> ps[j] < |ix.vectors|) ==>
              && |r| == |ps|
              && forall i :: 0 <= i < |r| ==> r[i] == (ix.chunkIds[ps[i]], Dot(ix.vectors[ps[i]], query))
    ensures SortedDesc(ps, ScoreOf(ix, query)) ==> forall i, j :: 0 <= i < j < |r| ==> r[i].1 >= r[j].1
    decreases |ps|
  {
    if |ps| == 0 then []
    else
      var rest := Hits(ix, query, ps[1..]);
      assert forall p :: p in ps[1..] ==> p in ps;
      assert forall i :: 1 <= i < |ps| ==> ps[i] == ps[1..][i - 1];
      if ps[0] < |ix.chunkIds| && ps[0] < |ix.vectors| then
        var h := (ix.chunkIds[ps[0]], Dot(ix.vectors[ps[0]], query));
        HeadScoresHighest(ix, query, ps, rest);
        [h] + rest
      else rest
  }

  /** The first of descending positions scores at least as high as any hit
      of the others. */
  lemma HeadScoresHighest(ix: Index, query: Vector, ps: seq<nat>, rest: seq<(string, real)>)
    requires |ps| > 0 && ps[0] < |ix.vectors|
    requires forall h | h in rest :: exists p :: p in ps[1..] && p < |ix.chunkIds| && p < |ix.vectors|
                                          && h == (ix.chunkIds[p], Dot(ix.vectors[p], query))
    ensures SortedDesc(ps, ScoreOf(ix, query)) ==>
              forall j :: 0 <= j < |rest| ==> Dot(ix.vectors[ps[0]], query) >= rest[j].1
  {
    forall j | 0 <= j < |rest| && SortedDesc(ps, ScoreOf(ix, query)) ensures Dot(ix.vectors[ps[0]], query) >= rest[j].1 {
      assert rest[j] in rest;
      var p :| p in ps[1..] && p < |ix.chunkIds| && p < |ix.vectors|
               && rest[j] == (ix.chunkIds[p], Dot(ix.vectors[p], query));
      var m :| 0 <= m < |ps[1..]| && ps[1..][m] == p;
      assert ScoreOf(ix, query)(ps[0]) >= ScoreOf(ix, query)(ps[m + 1]);
    }
  }

  /** `search`: (chunk id, score) for the best `min(top_k, ntotal)`
      positions that have an id, best first. FAISS needs `k >= 1`, so a
      search of a non-empty index needs `top_k >= 1`. */
  function Search(ix: Index, query: Vector, topK: int): (r: seq<(string, real)>)
    requires |ix.vectors| == 0 || topK >= 1
    ensures |ix.vectors| == 0 ==> r == []
    ensures |ix.vectors| > 0 ==> |r| <= Min(topK, |ix.vectors|)
    ensures InSync(ix) ==> |r| == Min(topK, |ix.vectors|) || |ix.vectors| == 0
    ensures forall h | h in r :: exists p :: 0 <= p < |ix.chunkIds| && p < |ix.vectors|
                                     && h == (ix.chunkIds[p], Dot(ix.vectors[p], query))
    ensures forall i, j :: 0 <= i < j < |r| ==> r[i].1 >= r[j].1
  {
    if |ix.vectors| == 0 then []
    else
      var k := Min(topK, |ix.vectors|);
      var ps := TopPositions(ix, query, k);
      Hits(ix, query, ps)
  }

  /** In an index in sync, no vector whose hit the search leaves out scores
      above a returned hit. */
  lemma SearchIsTop(ix: Index, query: Vector, topK: int, p: nat)
    ensures InSync(ix) && topK >= 1 && p < |ix.vectors|
            && (ix.chunkIds[p], Dot(ix.vectors[p], query)) !in Search(ix, query, topK) ==>
              forall i :: 0 <= i < |Search(ix, query, topK)| ==> Search(ix, query, topK)[i].1 >= Dot(ix.vectors[p], query)
  {
    if InSync(ix) && topK >= 1 && p < |ix.vectors| {
      var ps := TopPositions(ix, query, Min(topK, |ix.vectors|));
      var r := Search(ix, query, topK);
      assert r == Hits(ix, query, ps);
    }
  }
}
