/**
 * The per-workspace vector store (backend/app/rag/retriever.py, class `VectorStore`).
 *
 * The FAISS `IndexFlatIP` is modelled by `FlatIndex`: its dimension and the vectors
 * added so far, in order. Scoring is abstract: `sim(query, v)` stands for the inner
 * product of the L2-normalised query and stored vector, so normalisation is inside
 * `sim`. The two files `<path>.index` and `<path>.meta` are the two maps of a `Disk`,
 * both keyed by the storage path.
 */
module Retriever {
  import opened Wrappers
  import Chunker

  type Vector = seq<real>

  /** A value in a chunk's metadata dictionary: a string or a (non-negative) integer. */
  datatype Value = Str(s: string) | Num(n: nat)

  /** One metadata dictionary. */
  type Meta = map<string, Value>

  /** `meta.get(key, default)`. */
  function Get(meta: Meta, key: string, default: Value): Value {
    if key in meta then meta[key] else default
  }

  /** An `IndexFlatIP` of dimension `d` holding `vectors` (its `ntotal` is `|vectors|`). */
  datatype FlatIndex = FlatIndex(d: nat, vectors: seq<Vector>) {
    predicate WellFormed() {
      forall i :: 0 <= i < |vectors| ==> |vectors[i]| == d
    }
  }

  /** The pickled `{'metadata': ..., 'dimension': ...}` dictionary of the `.meta` file. */
  datatype MetaBundle = MetaBundle(metadata: seq<Meta>, dimension: Option<nat>)

  /** A `.index` file and a `.meta` file written together by `save`. */
  predicate Consistent(ix: FlatIndex, bundle: MetaBundle) {
    ix.WellFormed() && bundle.dimension == Some(ix.d)
  }

  /** The file system, reduced to the two kinds of files the store writes. */
  class Disk {
    var indexFiles: map<string, FlatIndex>
    var metaFiles: map<string, MetaBundle>

    /** Every pair of files present under one path was written by one `save`. */
    ghost predicate Valid()
      reads this
    {
      forall p :: p in indexFiles && p in metaFiles ==> Consistent(indexFiles[p], metaFiles[p])
    }

    constructor()
      ensures indexFiles == map[] && metaFiles == map[]
      ensures Valid()
    {
      indexFiles := map[];
      metaFiles := map[];
    }
  }

  /** `np.array(vectors)` builds a two-dimensional array: all rows have one length. */
  predicate SameLength(vectors: seq<Vector>) {
    forall i, j :: 0 <= i < |vectors| && 0 <= j < |vectors| ==> |vectors[i]| == |vectors[j]|
  }

  datatype AddError = RaggedBatch | DimensionMismatch

  /**
   * How `add` ends: an empty batch returns at once, a ragged batch makes `np.array`
   * raise, a batch of the wrong width makes `index.add` raise, and otherwise the
   * vectors are added.
   */
  datatype AddOutcome = Ignored | Added | Rejected(error: AddError)

  function AddOutcomeOf(index: Option<FlatIndex>, vectors: seq<Vector>): AddOutcome {
    if vectors == [] then Ignored
    else if !SameLength(vectors) then Rejected(RaggedBatch)
    else if index.Some? && |vectors[0]| != index.value.d then Rejected(DimensionMismatch)
    else Added
  }

  /** The vectors of an index that may be absent. */
  function Entries(index: Option<FlatIndex>): seq<Vector> {
    if index.None? then [] else index.value.vectors
  }

  /** The index after a successful `add`: created with the batch's width on first use. */
  function Extend(index: Option<FlatIndex>, vectors: seq<Vector>): FlatIndex
    requires vectors != []
  {
    match index
    case None => FlatIndex(|vectors[0]|, vectors)
    case Some(ix) => FlatIndex(ix.d, ix.vectors + vectors)
  }

  /**
   * A successful `add` appends: the entries become the old entries followed by the
   * batch, an existing dimension is kept, a new index takes the batch's width, and the
   * result is well formed again.
   */
  lemma ExtendAppends(index: Option<FlatIndex>, vectors: seq<Vector>)
    requires index.Some? ==> index.value.WellFormed()
    requires AddOutcomeOf(index, vectors) == Added
    ensures Extend(index, vectors).vectors == Entries(index) + vectors
    ensures |Extend(index, vectors).vectors| == |Entries(index)| + |vectors|
    ensures index.Some? ==> Extend(index, vectors).d == index.value.d
    ensures index.None? ==> Extend(index, vectors).d == |vectors[0]|
    ensures Extend(index, vectors).WellFormed()
  {
    var ix := Extend(index, vectors);
    forall i | 0 <= i < |ix.vectors| ensures |ix.vectors[i]| == ix.d {
      if i >= |Entries(index)| {
        assert ix.vectors[i] == vectors[i - |Entries(index)|];
      }
    }
  }

  /** An `add` that does not succeed leaves no trace, so a rejected batch is lost. */
  lemma AddFailsOnlyOnBadBatch(index: Option<FlatIndex>, vectors: seq<Vector>)
    ensures AddOutcomeOf(index, vectors) == Ignored <==> vectors == []
    ensures AddOutcomeOf(index, vectors).Rejected? <==>
              vectors != [] && (!SameLength(vectors) || (index.Some? && |vectors[0]| != index.value.d))
  {
  }

  /* ---------------- ranking: what `IndexFlatIP.search` returns ---------------- */

  /** Scores of the stored vectors against the query. */
  function Scores(vectors: seq<Vector>, query: Vector, sim: (Vector, Vector) -> real): (r: seq<real>)
    ensures |r| == |vectors|
  {
    seq(|vectors|, i requires 0 <= i < |vectors| => sim(query, vectors[i]))
  }

  predicate InRange(order: seq<nat>, n: nat) {
    forall p :: 0 <= p < |order| ==> order[p] < n
  }

  predicate Distinct(order: seq<nat>) {
    forall p, q :: 0 <= p < q < |order| ==> order[p] != order[q]
  }

  /** Indices listed from the highest score to the lowest. */
  predicate Descending(order: seq<nat>, scores: seq<real>)
    requires InRange(order, |scores|)
  {
    forall p, q :: 0 <= p < q < |order| ==> scores[order[q]] <= scores[order[p]]
  }

  /** Inserts index `i` after every index whose score is at least that of `i`. */
  function Insert(order: seq<nat>, i: nat, scores: seq<real>): (r: seq<nat>)
    requires InRange(order, |scores|) && i < |scores|
    ensures |r| == |order| + 1 && InRange(r, |scores|)
  {
    if order == [] || scores[order[0]] < scores[i] then [i] + order
    else
      assert order == [order[0]] + order[1..];
      [order[0]] + Insert(order[1..], i, scores)
  }

  /**
   * The order in which the exhaustive index reports the first `n` entries: by
   * descending score, earlier entries first among equal scores.
   */
  function Ranking(scores: seq<real>, n: nat): (r: seq<nat>)
    requires n <= |scores|
    ensures |r| == n && InRange(r, |scores|)
  {
    if n == 0 then [] else Insert(Ranking(scores, n - 1), n - 1, scores)
  }

  /** Inserting adds `i` and keeps every listed index. */
  lemma {:induction false} InsertMembers(order: seq<nat>, i: nat, scores: seq<real>)
    requires InRange(order, |scores|) && i < |scores|
    ensures forall x :: x in Insert(order, i, scores) <==> x == i || x in order
    decreases order
  {
    if order != [] && scores[i] <= scores[order[0]] {
      InsertMembers(order[1..], i, scores);
      assert order == [order[0]] + order[1..];
      assert Insert(order, i, scores) == [order[0]] + Insert(order[1..], i, scores);
    }
  }

  lemma {:induction false} InsertDescending(order: seq<nat>, i: nat, scores: seq<real>)
    requires InRange(order, |scores|) && i < |scores|
    requires Descending(order, scores)
    ensures Descending(Insert(order, i, scores), scores)
    decreases order
  {
    if order != [] && scores[i] <= scores[order[0]] {
      var rest := Insert(order[1..], i, scores);
      InsertDescending(order[1..], i, scores);
      InsertMembers(order[1..], i, scores);
      var r := Insert(order, i, scores);
      assert r == [order[0]] + rest;
      forall p, q | 0 <= p < q < |r| ensures scores[r[q]] <= scores[r[p]] {
        assert r[q] == rest[q - 1];
        if p == 0 {
          if r[q] != i {
            assert r[q] in rest;
            assert r[q] in order[1..];
            var k :| 0 <= k < |order| - 1 && order[1..][k] == r[q];
            assert order[k + 1] == r[q];
          }
        } else {
          assert r[p] == rest[p - 1];
        }
      }
    }
  }

  lemma {:induction false} InsertDistinct(order: seq<nat>, i: nat, scores: seq<real>)
    requires InRange(order, |scores|) && i < |scores|
    requires Distinct(order) && i !in order
    ensures Distinct(Insert(order, i, scores))
    decreases order
  {
    if order != [] && scores[i] <= scores[order[0]] {
      var rest := Insert(order[1..], i, scores);
      assert Distinct(order[1..]) by {
        forall p, q | 0 <= p < q < |order| - 1 ensures order[1..][p] != order[1..][q] {
          assert order[1..][p] == order[p + 1] && order[1..][q] == order[q + 1];
        }
      }
      InsertDistinct(order[1..], i, scores);
      assert order[0] !in order[1..] by {
        forall k | 0 <= k < |order| - 1 ensures order[1..][k] != order[0] {
          assert order[1..][k] == order[k + 1];
        }
      }
      InsertMembers(order[1..], i, scores);
      assert order[0] !in rest;
      assert Insert(order, i, scores) == [order[0]] + rest;
    }
  }

  /** `Ranking` lists each of the first `n` entries exactly once. */
  lemma {:induction false} RankingIsPermutation(scores: seq<real>, n: nat)
    requires n <= |scores|
    ensures forall m: nat :: m in Ranking(scores, n) <==> m < n
    ensures Distinct(Ranking(scores, n))
  {
    if 0 < n {
      var prev := Ranking(scores, n - 1);
      RankingIsPermutation(scores, n - 1);
      InsertDistinct(prev, n - 1, scores);
      InsertMembers(prev, n - 1, scores);
    }
  }

  /** `Ranking` lists the entries from the highest score to the lowest. */
  lemma {:induction false} RankingIsSorted(scores: seq<real>, n: nat)
    requires n <= |scores|
    ensures Descending(Ranking(scores, n), scores)
  {
    if 0 < n {
      var prev := Ranking(scores, n - 1);
      RankingIsSorted(scores, n - 1);
      InsertDescending(prev, n - 1, scores);
      assert Ranking(scores, n) == Insert(prev, n - 1, scores);
    }
  }

  /** One hit of an index search: an entry number and its score. */
  datatype Hit = Hit(idx: nat, score: real)

  /** `index.search(query, k)` on an exhaustive inner-product index: the `k` best hits. */
  function FlatSearch(ix: FlatIndex, query: Vector, k: nat, sim: (Vector, Vector) -> real): (hits: seq<Hit>)
    requires k <= |ix.vectors|
    ensures |hits| == k
  {
    var scores := Scores(ix.vectors, query, sim);
    var order := Ranking(scores, |scores|);
    seq(k, p requires 0 <= p < k => Hit(order[p], scores[order[p]]))
  }

  predicate HitsDescending(hits: seq<Hit>) {
    forall p, q :: 0 <= p < q < |hits| ==> hits[q].score <= hits[p].score
  }

  /** Entry `m` is not among the hits. */
  predicate Omitted(hits: seq<Hit>, m: nat) {
    forall q :: 0 <= q < |hits| ==> hits[q].idx != m
  }

  /**
   * The search returns distinct entries of the index with their own scores, best
   * first.
   */
  lemma FlatSearchSorted(ix: FlatIndex, query: Vector, k: nat, sim: (Vector, Vector) -> real)
    requires k <= |ix.vectors|
    ensures HitsDescending(FlatSearch(ix, query, k, sim))
    ensures var hits := FlatSearch(ix, query, k, sim);
      && (forall p :: 0 <= p < k ==> hits[p].idx < |ix.vectors| && hits[p].score == sim(query, ix.vectors[hits[p].idx]))
      && (forall p, q :: 0 <= p < q < k ==> hits[p].idx != hits[q].idx)
  {
    var scores := Scores(ix.vectors, query, sim);
    RankingIsPermutation(scores, |scores|);
    RankingIsSorted(scores, |scores|);
  }

  /**
   * The search returns the `k` best entries: no entry left out scores higher than
   * any entry returned.
   */
  lemma FlatSearchIsTopK(ix: FlatIndex, query: Vector, k: nat, sim: (Vector, Vector) -> real, m: nat)
    requires k <= |ix.vectors| && m < |ix.vectors|
    requires Omitted(FlatSearch(ix, query, k, sim), m)
    ensures forall p :: 0 <= p < k ==> sim(query, ix.vectors[m]) <= FlatSearch(ix, query, k, sim)[p].score
  {
    var scores := Scores(ix.vectors, query, sim);
    var order := Ranking(scores, |scores|);
    var hits := FlatSearch(ix, query, k, sim);
    RankingIsPermutation(scores, |scores|);
    RankingIsSorted(scores, |scores|);
    assert m in order;
    var j :| 0 <= j < |order| && order[j] == m;
    assert forall q :: 0 <= q < k ==> hits[q].idx == order[q];
    forall p | 0 <= p < k ensures scores[m] <= hits[p].score {
      assert p < j;
      assert scores[order[j]] <= scores[order[p]];
    }
  }

  /* ---------------- the results loop of `search` ---------------- */

  /** The hits whose entry has a metadata record, paired with that record (in order). */
  function Resolve(hits: seq<Hit>, metadata: seq<Meta>): seq<(Meta, real)> {
    if hits == [] then []
    else
      var last := hits[|hits| - 1];
      Resolve(hits[..|hits| - 1], metadata)
        + (if last.idx < |metadata| then [(metadata[last.idx], last.score)] else [])
  }

  /**
   * Resolving keeps at most one result per hit, each result being a metadata record.
   */
  lemma {:induction false} ResolveBounded(hits: seq<Hit>, metadata: seq<Meta>)
    ensures |Resolve(hits, metadata)| <= |hits|
    ensures forall x :: x in Resolve(hits, metadata) ==> x.0 in metadata
  {
    if hits != [] {
      ResolveBounded(hits[..|hits| - 1], metadata);
    }
  }

  /** When every hit has a record, resolving keeps all of them, in order, with their scores. */
  lemma {:induction false} ResolveComplete(hits: seq<Hit>, metadata: seq<Meta>)
    requires forall p :: 0 <= p < |hits| ==> hits[p].idx < |metadata|
    ensures |Resolve(hits, metadata)| == |hits|
    ensures forall p :: 0 <= p < |hits| ==> Resolve(hits, metadata)[p] == (metadata[hits[p].idx], hits[p].score)
  {
    if hits != [] {
      var init := hits[..|hits| - 1];
      assert forall p :: 0 <= p < |init| ==> init[p] == hits[p];
      ResolveComplete(init, metadata);
    }
  }

  /** A result's score is at least `t` when every hit's score is. */
  lemma {:induction false} ResolveScoresAbove(hits: seq<Hit>, metadata: seq<Meta>, t: real)
    requires forall p :: 0 <= p < |hits| ==> t <= hits[p].score
    ensures forall x :: x in Resolve(hits, metadata) ==> t <= x.1
  {
    if hits != [] {
      ResolveScoresAbove(hits[..|hits| - 1], metadata, t);
    }
  }

  predicate ResultsDescending(r: seq<(Meta, real)>) {
    forall p, q :: 0 <= p < q < |r| ==> r[q].1 <= r[p].1
  }

  /** Resolving hits listed best first yields results listed best first. */
  lemma {:induction false} ResolveDescending(hits: seq<Hit>, metadata: seq<Meta>)
    requires HitsDescending(hits)
    ensures ResultsDescending(Resolve(hits, metadata))
  {
    if hits != [] {
      var init, last := hits[..|hits| - 1], hits[|hits| - 1];
      ResolveDescending(init, metadata);
      ResolveScoresAbove(init, metadata, last.score);
      var r, r0 := Resolve(hits, metadata), Resolve(init, metadata);
      assert hits[..|hits| - 1] == init;
      assert r == r0 + (if last.idx < |metadata| then [(metadata[last.idx], last.score)] else []);
      forall p, q | 0 <= p < q < |r| ensures r[q].1 <= r[p].1 {
        if |r0| <= q {
          assert r[q].1 == last.score;
          assert r[p] == r0[p];
          assert r0[p] in r0;
          assert last.score <= r0[p].1;
        } else {
          assert r[p] == r0[p] && r[q] == r0[q];
          assert r0[q].1 <= r0[p].1;
        }
      }
    }
  }

  /**
   * What `search(query, topK)` returns: nothing from an absent or empty index, and
   * otherwise the `min(topK, ntotal)` best hits that have a metadata record.
   */
  function SearchSpec(index: Option<FlatIndex>, metadata: seq<Meta>, query: Vector, topK: nat,
                      sim: (Vector, Vector) -> real): seq<(Meta, real)>
  {
    if index.None? || |index.value.vectors| == 0 then []
    else Resolve(FlatSearch(index.value, query, Chunker.Min(topK, |index.value.vectors|), sim), metadata)
  }

  /**
   * The search can be handed to the index: an absent or empty index is never searched,
   * and otherwise FAISS's `search` raises unless the query has the index's width and
   * the number of hits asked for, `min(topK, ntotal)`, is positive.
   */
  predicate SearchFits(index: Option<FlatIndex>, query: Vector, topK: nat) {
    index.None? || |index.value.vectors| == 0 || (|query| == index.value.d && topK > 0)
  }

  /**
   * The promises of `search`: no results from an absent or empty index, at most
   * `min(topK, ntotal)` results, best first, each carrying a stored metadata record.
   */
  lemma SearchResults(index: Option<FlatIndex>, metadata: seq<Meta>, query: Vector, topK: nat,
                      sim: (Vector, Vector) -> real)
    ensures |Entries(index)| == 0 ==> SearchSpec(index, metadata, query, topK, sim) == []
    ensures |SearchSpec(index, metadata, query, topK, sim)| <= Chunker.Min(topK, |Entries(index)|)
    ensures var r := SearchSpec(index, metadata, query, topK, sim);
      && ResultsDescending(r)
      && (forall x :: x in r ==> x.0 in metadata)
  {
    if index.Some? && 0 < |index.value.vectors| {
      var ix := index.value;
      var k := Chunker.Min(topK, |ix.vectors|);
      var hits := FlatSearch(ix, query, k, sim);
      FlatSearchSorted(ix, query, k, sim);
      ResolveBounded(hits, metadata);
      ResolveDescending(hits, metadata);
    }
  }

  /**
   * When every entry has a metadata record, `search` returns exactly
   * `min(topK, ntotal)` results, each the record of an entry with that entry's score.
   */
  lemma SearchComplete(index: Option<FlatIndex>, metadata: seq<Meta>, query: Vector, topK: nat,
                       sim: (Vector, Vector) -> real)
    requires |Entries(index)| <= |metadata|
    ensures |SearchSpec(index, metadata, query, topK, sim)| == Chunker.Min(topK, |Entries(index)|)
    ensures var r := SearchSpec(index, metadata, query, topK, sim);
      forall p :: 0 <= p < |r| ==>
        exists m :: 0 <= m < |Entries(index)| && r[p] == (metadata[m], sim(query, Entries(index)[m]))
  {
    if index.Some? && 0 < |index.value.vectors| {
      var ix := index.value;
      var k := Chunker.Min(topK, |ix.vectors|);
      var hits := FlatSearch(ix, query, k, sim);
      FlatSearchSorted(ix, query, k, sim);
      ResolveComplete(hits, metadata);
      var r := Resolve(hits, metadata);
      forall p | 0 <= p < |r|
        ensures exists m :: 0 <= m < |ix.vectors| && r[p] == (metadata[m], sim(query, ix.vectors[m]))
      {
        assert r[p] == (metadata[hits[p].idx], hits[p].score);
      }
    }
  }

  /** The store of one workspace: the index, one metadata record per entry, and the width. */
  class VectorStore {
    const storagePath: string
    const disk: Disk
    var index: Option<FlatIndex>
    var metadata: seq<Meta>
    var dimension: Option<nat>

    /**
     * The index is absent exactly while nothing was added or loaded, and then there is
     * no metadata and no dimension; once present, `dimension` is its width and every
     * stored vector has that width.
     */
    ghost predicate Valid()
      reads this, disk
    {
      && disk.Valid()
      && match index
         case None => metadata == [] && dimension == None
         case Some(ix) => ix.WellFormed() && dimension == Some(ix.d)
    }

    /** A pair of files is present under this store's path. */
    ghost predicate Persisted()
      reads this, disk
    {
      storagePath in disk.indexFiles && storagePath in disk.metaFiles
    }

    /** Starts empty and loads the persisted pair when both files exist. */
    constructor(storagePath: string, disk: Disk)
      requires disk.Valid()
      ensures this.storagePath == storagePath && this.disk == disk
      ensures Valid()
      ensures Persisted() ==>
                && index == Some(disk.indexFiles[storagePath])
                && metadata == disk.metaFiles[storagePath].metadata
                && dimension == disk.metaFiles[storagePath].dimension
      ensures !Persisted() ==> index == None && metadata == [] && dimension == None
    {
      this.storagePath := storagePath;
      this.disk := disk;
      index := None;
      metadata := [];
      dimension := None;
      new;
      Load();
    }

    /**
     * Adds a batch. An empty or rejected batch changes nothing (and writes nothing);
     * a successful one appends the vectors and the metadata, keeps an existing
     * dimension, and saves, so the files then hold the new state.
     */
    method Add(vectors: seq<Vector>, meta: seq<Meta>) returns (outcome: AddOutcome)
      requires Valid()
      modifies this, disk
      ensures Valid()
      ensures outcome == AddOutcomeOf(old(index), vectors)
      ensures outcome != Added ==> unchanged(this) && unchanged(disk)
      ensures outcome == Added ==>
                && index == Some(Extend(old(index), vectors))
                && metadata == old(metadata) + meta
                && (old(dimension).Some? ==> dimension == old(dimension))
                && disk.indexFiles == old(disk.indexFiles)[storagePath := index.value]
                && disk.metaFiles == old(disk.metaFiles)[storagePath := MetaBundle(metadata, dimension)]
    {
      if vectors == [] {
        return Ignored;
      }
      if !SameLength(vectors) {
        return Rejected(RaggedBatch);
      }
      var ix: FlatIndex;
      if index.None? {
        ix := FlatIndex(|vectors[0]|, []);
        dimension := Some(ix.d);
      } else {
        ix := index.value;
        if |vectors[0]| != ix.d {
          return Rejected(DimensionMismatch);
        }
      }
      ExtendAppends(index, vectors);
      index := Some(FlatIndex(ix.d, ix.vectors + vectors));
      metadata := metadata + meta;
      Save();
      outcome := Added;
    }

    /**
     * Runs the results loop of `search` over the hits of the index search. `None`
     * stands for the exception FAISS raises for a query of another width than the
     * index, or for a request of no hits at all.
     */
    method Search(query: Vector, topK: nat, sim: (Vector, Vector) -> real)
      returns (results: Option<seq<(Meta, real)>>)
      requires Valid()
      ensures results.None? <==> !SearchFits(index, query, topK)
      ensures results.Some? ==> results.value == SearchSpec(index, metadata, query, topK, sim)
    {
      if index.None? || |index.value.vectors| == 0 {
        return Some([]);
      }
      if |query| != index.value.d || topK == 0 {
        return None;
      }
      var k := Chunker.Min(topK, |index.value.vectors|);
      var hits := FlatSearch(index.value, query, k, sim);
      var found := [];
      var p := 0;
      while p < |hits|
        invariant 0 <= p <= |hits|
        invariant found == Resolve(hits[..p], metadata)
      {
        var hit := hits[p];
        assert hits[..p + 1][..p] == hits[..p];
        if hit.idx < |metadata| {
          found := found + [(metadata[hit.idx], hit.score)];
        }
        p := p + 1;
      }
      assert hits[..p] == hits;
      results := Some(found);
    }

    /** Writes both files when there is an index; otherwise writes nothing. */
    method Save()
      requires Valid()
      modifies disk
      ensures Valid()
      ensures index.None? ==> unchanged(disk)
      ensures index.Some? ==>
                && disk.indexFiles == old(disk.indexFiles)[storagePath := index.value]
                && disk.metaFiles == old(disk.metaFiles)[storagePath := MetaBundle(metadata, dimension)]
    {
      if index.Some? {
        disk.indexFiles := disk.indexFiles[storagePath := index.value];
        disk.metaFiles := disk.metaFiles[storagePath := MetaBundle(metadata, dimension)];
      }
    }

    /** Restores the persisted pair when both files exist, and otherwise changes nothing. */
    method Load()
      requires Valid()
      modifies this
      ensures Valid()
      ensures Persisted() ==>
                && index == Some(disk.indexFiles[storagePath])
                && metadata == disk.metaFiles[storagePath].metadata
                && dimension == disk.metaFiles[storagePath].dimension
      ensures !Persisted() ==> unchanged(this)
    {
      if storagePath in disk.indexFiles && storagePath in disk.metaFiles {
        index := Some(disk.indexFiles[storagePath]);
        var bundle := disk.metaFiles[storagePath];
        metadata := bundle.metadata;
        dimension := bundle.dimension;
      }
    }
  }

  /**
   * Persistence round trip: after a store at `path` takes a batch, a store opened
   * afresh at the same path holds the same index, metadata and dimension, whether
   * the batch was added, ignored or rejected.
   */
  method ReopenAfterAdd(path: string, disk: Disk, vectors: seq<Vector>, meta: seq<Meta>)
    returns (first: VectorStore, second: VectorStore)
    requires disk.Valid()
    modifies disk
    ensures first.index == second.index
    ensures first.metadata == second.metadata
    ensures first.dimension == second.dimension
  {
    first := new VectorStore(path, disk);
    var _ := first.Add(vectors, meta);
    second := new VectorStore(path, disk);
  }

  /** Saving and then loading an open store with an index reproduces its state. */
  method SaveThenLoad(store: VectorStore)
    requires store.Valid() && store.index.Some?
    modifies store, store.disk
    ensures store.index == old(store.index)
    ensures store.metadata == old(store.metadata)
    ensures store.dimension == old(store.dimension)
  {
    store.Save();
    assert store.Persisted();
    store.Load();
  }
}
