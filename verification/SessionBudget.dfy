/** Cutting clusters of objects into sessions, and keeping the best of them. */
module SessionBudget {
  import opened StableSorting
  import opened SurfaceBudget

  /** The objects a set of threads shares, in the order they were found. */
  datatype Cluster = Cluster(threads: set<int>, objects: seq<int>)

  datatype Chunk = Chunk(threads: set<int>, objects: seq<int>, score: int)

  function ScoreSum(s: Surface, ids: seq<int>): int {
    if ids == [] then 0 else ScoreSum(s, ids[..|ids| - 1]) + Priority(s, ids[|ids| - 1])
  }

  function MakeChunk(s: Surface, threads: set<int>, ids: seq<int>): Chunk {
    Chunk(threads, ids, ScoreSum(s, ids) - 3 * |threads|)
  }

  function Least(a: nat, b: nat): nat {
    if a <= b then a else b
  }

  /** Consecutive slices of `size`, the last one possibly shorter. */
  function Sliced(s: Surface, threads: set<int>, ids: seq<int>, size: nat): seq<Chunk>
    requires size > 0
  {
    if ids == [] then []
    else
      var n := Least(size, |ids|);
      [MakeChunk(s, threads, ids[..n])] + Sliced(s, threads, ids[n..], size)
  }

  /** All clusters, each ranked by priority and sliced. */
  function AllChunks(s: Surface, clusters: seq<Cluster>, size: nat): seq<Chunk>
    requires size > 0
  {
    if clusters == [] then []
    else
      var c := clusters[|clusters| - 1];
      AllChunks(s, clusters[..|clusters| - 1], size) + Sliced(s, c.threads, StableOrder(s, c.objects), size)
  }

  /** Higher score first, then more objects, then fewer threads. */
  predicate ChunkBefore(a: Chunk, b: Chunk) {
    if a.score != b.score then a.score > b.score
    else if |a.objects| != |b.objects| then |a.objects| > |b.objects|
    else |a.threads| < |b.threads|
  }

  function ByScore(): Order<Chunk> {
    (a, b) => ChunkBefore(a, b)
  }

  // ---- Every clustered object is in exactly one chunk ----

  /** How often object id is listed in ids. */
  function Times(ids: seq<int>, id: int): nat {
    multiset(ids)[id]
  }

  /** How often object id is listed under a thread-set. */
  function InClusters(clusters: seq<Cluster>, threads: set<int>, id: int): nat {
    if clusters == [] then 0
    else
      var c := clusters[|clusters| - 1];
      InClusters(clusters[..|clusters| - 1], threads, id) + (if c.threads == threads then Times(c.objects, id) else 0)
  }

  function InChunk(c: Chunk, threads: set<int>, id: int): nat {
    if c.threads == threads then Times(c.objects, id) else 0
  }

  function InChunks(chunks: seq<Chunk>, threads: set<int>, id: int): nat {
    if chunks == [] then 0
    else InChunks(chunks[..|chunks| - 1], threads, id) + InChunk(chunks[|chunks| - 1], threads, id)
  }

  lemma {:induction false} InChunksConcat(a: seq<Chunk>, b: seq<Chunk>, threads: set<int>, id: int)
    ensures InChunks(a + b, threads, id) == InChunks(a, threads, id) + InChunks(b, threads, id)
  {
    hide InChunk;
    if b == [] {
      assert a + b == a;
    } else {
      var n := |b| - 1;
      assert (a + b)[..|a + b| - 1] == a + b[..n];
      InChunksConcat(a, b[..n], threads, id);
    }
  }

  lemma InOneChunk(c: Chunk, threads: set<int>, id: int)
    ensures InChunks([c], threads, id) == InChunk(c, threads, id)
  {
    hide InChunk;
    assert [c][..0] == [];
  }

  lemma TimesConcat(a: seq<int>, b: seq<int>, id: int)
    ensures Times(a + b, id) == Times(a, id) + Times(b, id)
  {
  }

  lemma SlicedFirst(s: Surface, threads: set<int>, ids: seq<int>, size: nat)
    requires size > 0 && ids != []
    ensures var n := Least(size, |ids|);
            Sliced(s, threads, ids, size) == [MakeChunk(s, threads, ids[..n])] + Sliced(s, threads, ids[n..], size)
  {
  }

  lemma {:induction false} SlicedPartition(s: Surface, owner: set<int>, ids: seq<int>, size: nat, threads: set<int>,
                                           id: int)
    requires size > 0
    ensures InChunks(Sliced(s, owner, ids, size), threads, id) == if owner == threads then Times(ids, id) else 0
  {
    if ids != [] {
      hide Times, InChunks, Sliced, ScoreSum;
      var n := Least(size, |ids|);
      var c := MakeChunk(s, owner, ids[..n]);
      SlicedPartition(s, owner, ids[n..], size, threads, id);
      SlicedFirst(s, owner, ids, size);
      InOneChunk(c, threads, id);
      InChunksConcat([c], Sliced(s, owner, ids[n..], size), threads, id);
      TimesConcat(ids[..n], ids[n..], id);
      assert ids == ids[..n] + ids[n..];
    }
  }

  /** The chunks partition what is clustered: nothing lost, nothing doubled, nothing moved to other threads. */
  lemma {:induction false} ChunksPartition(s: Surface, clusters: seq<Cluster>, size: nat, threads: set<int>, id: int)
    requires size > 0
    ensures InChunks(AllChunks(s, clusters, size), threads, id) == InClusters(clusters, threads, id)
  {
    if clusters != [] {
      hide InChunks, Sliced;
      var n := |clusters| - 1;
      var c := clusters[n];
      ChunksPartition(s, clusters[..n], size, threads, id);
      SlicedPartition(s, c.threads, StableOrder(s, c.objects), size, threads, id);
      SortKeepsAll(ByPriority(s), c.objects);
      InChunksConcat(AllChunks(s, clusters[..n], size), Sliced(s, c.threads, StableOrder(s, c.objects), size),
        threads, id);
    }
  }

  lemma {:induction false} InsertedChunk(before: Order<Chunk>, xs: seq<Chunk>, x: Chunk, threads: set<int>, id: int)
    ensures InChunks(Insert(before, xs, x), threads, id) == InChunks(xs, threads, id) + InChunk(x, threads, id)
  {
    hide InChunk;
    var n := |xs| - 1;
    if xs == [] || !before(x, xs[n]) {
      InChunksConcat(xs, [x], threads, id);
      InOneChunk(x, threads, id);
    } else {
      InsertedChunk(before, xs[..n], x, threads, id);
      InChunksConcat(Insert(before, xs[..n], x), [xs[n]], threads, id);
      InOneChunk(xs[n], threads, id);
    }
  }

  lemma {:induction false} SortedChunks(before: Order<Chunk>, xs: seq<Chunk>, threads: set<int>, id: int)
    ensures InChunks(Sorted(before, xs), threads, id) == InChunks(xs, threads, id)
  {
    hide InChunk, Insert;
    if xs != [] {
      var n := |xs| - 1;
      SortedChunks(before, xs[..n], threads, id);
      InsertedChunk(before, Sorted(before, xs[..n]), xs[n], threads, id);
    }
  }

  // ---- What the cap keeps ----

  /** The cap is converted to an unsigned size: a negative one never cuts. */
  function Limit(chunks: nat, cap: int, enabled: bool): (n: nat)
    ensures n <= chunks
  {
    if enabled && 0 <= cap < chunks then cap else chunks
  }

  /** The sessions: the chunks of highest rank, up to the limit. */
  function Sessions(s: Surface, clusters: seq<Cluster>, size: nat, cap: int, enabled: bool): seq<Chunk>
    requires size > 0
  {
    var ranked := Sorted(ByScore(), AllChunks(s, clusters, size));
    ranked[..Limit(|ranked|, cap, enabled)]
  }

  lemma ByScoreIsStrictWeak()
    ensures StrictWeak(ByScore())
  {
  }

  ghost predicate Fits(s: Surface, c: Chunk, size: nat) {
    1 <= |c.objects| <= size && c.score == ScoreSum(s, c.objects) - 3 * |c.threads|
  }

  lemma {:induction false} AllFit(s: Surface, clusters: seq<Cluster>, size: nat)
    requires size > 0
    ensures forall c :: c in AllChunks(s, clusters, size) ==> Fits(s, c, size)
  {
    if clusters != [] {
      var c := clusters[|clusters| - 1];
      AllFit(s, clusters[..|clusters| - 1], size);
      SlicesFit(s, c.threads, StableOrder(s, c.objects), size);
      hide StableOrder, Sliced;
    }
  }

  /** The score of a chunk is the sum of its objects' priorities. */
  lemma {:induction false} ScoreSumConcat(s: Surface, a: seq<int>, b: seq<int>)
    ensures ScoreSum(s, []) == 0 && forall x :: ScoreSum(s, [x]) == Priority(s, x)
    ensures ScoreSum(s, a + b) == ScoreSum(s, a) + ScoreSum(s, b)
  {
    forall x
      ensures ScoreSum(s, [x]) == Priority(s, x)
    {
      assert [x][..0] == [];
    }
    if b == [] {
      assert a + b == a;
    } else {
      var n := |b| - 1;
      assert (a + b)[..|a + b| - 1] == a + b[..n];
      ScoreSumConcat(s, a, b[..n]);
    }
  }

  /** Every session has 1..size objects. */
  lemma {:induction false} SlicesFit(s: Surface, threads: set<int>, ids: seq<int>, size: nat)
    requires size > 0
    ensures forall c :: c in Sliced(s, threads, ids, size) ==>
      1 <= |c.objects| <= size && c == MakeChunk(s, threads, c.objects)
  {
    if ids != [] {
      SlicesFit(s, threads, ids[Least(size, |ids|)..], size);
    }
  }

  ghost function Joined(chunks: seq<Chunk>): seq<int> {
    if chunks == [] then [] else chunks[0].objects + Joined(chunks[1..])
  }

  /** Read one after the other the slices are the objects in their order, and only the last may be shorter. */
  lemma {:induction false} SlicesInOrder(s: Surface, threads: set<int>, ids: seq<int>, size: nat)
    requires size > 0
    ensures var slices := Sliced(s, threads, ids, size);
            && Joined(slices) == ids
            && (forall k :: 0 <= k < |slices| - 1 ==> |slices[k].objects| == size)
            && (forall c :: c in slices ==> c.threads == threads)
  {
    if ids != [] {
      var n := Least(size, |ids|);
      var c, rest := MakeChunk(s, threads, ids[..n]), Sliced(s, threads, ids[n..], size);
      SlicesInOrder(s, threads, ids[n..], size);
      SlicedFirst(s, threads, ids, size);
      assert ([c] + rest)[1..] == rest && ids == ids[..n] + ids[n..];
      if n < size {
        assert ids[n..] == [] && rest == [];
      }
    }
  }

  /** a has no lower score than b, no fewer objects at the same score, and no more threads at the same size. */
  predicate NoWorse(a: Chunk, b: Chunk) {
    && b.score <= a.score
    && (a.score == b.score ==> |b.objects| <= |a.objects|)
    && (a.score == b.score && |a.objects| == |b.objects| ==> |a.threads| <= |b.threads|)
  }

  lemma RankedChunks(s: Surface, clusters: seq<Cluster>, size: nat)
    requires size > 0
    ensures var ranked := Sorted(ByScore(), AllChunks(s, clusters, size));
            && (forall i, j :: 0 <= i < j < |ranked| ==> NoWorse(ranked[i], ranked[j]))
            && (forall c :: c in ranked ==> Fits(s, c, size))
  {
    hide AllChunks, Fits, StrictWeak;
    var chunks := AllChunks(s, clusters, size);
    ByScoreIsStrictWeak();
    var at := SortIsStable(ByScore(), chunks);
    StableIsAscending(ByScore(), chunks, at, Sorted(ByScore(), chunks));
    SortKeepsAll(ByScore(), chunks);
    AllFit(s, clusters, size);
    forall c | c in Sorted(ByScore(), chunks)
      ensures Fits(s, c, size)
    {
      assert c in multiset(Sorted(ByScore(), chunks)) && c in multiset(chunks);
    }
  }

  lemma ChunksConserved(s: Surface, clusters: seq<Cluster>, size: nat, n: nat, t: set<int>, id: int)
    requires size > 0 && n <= |Sorted(ByScore(), AllChunks(s, clusters, size))|
    ensures var ranked := Sorted(ByScore(), AllChunks(s, clusters, size));
            InChunks(ranked[..n], t, id) + InChunks(ranked[n..], t, id) == InClusters(clusters, t, id)
  {
    hide InChunks, InClusters, AllChunks;
    var chunks := AllChunks(s, clusters, size);
    var ranked := Sorted(ByScore(), chunks);
    assert ranked == ranked[..n] + ranked[n..];
    SortedChunks(ByScore(), chunks, t, id);
    ChunksPartition(s, clusters, size, t, id);
    InChunksConcat(ranked[..n], ranked[n..], t, id);
  }

  /** Whatever the cap drops, kept and dropped together are exactly what was clustered, cut into chunks of at most
      `size` objects; the chunks kept descend, and none dropped is better than one kept. */
  lemma SessionsConserve(s: Surface, clusters: seq<Cluster>, size: nat, cap: int, enabled: bool)
    returns (dropped: seq<Chunk>)
    requires size > 0
    ensures var kept := Sessions(s, clusters, size, cap, enabled);
            && (forall t, id :: InChunks(kept, t, id) + InChunks(dropped, t, id) == InClusters(clusters, t, id))
            && (forall c :: c in kept || c in dropped ==> Fits(s, c, size))
            && (forall i, j :: 0 <= i < j < |kept| ==> NoWorse(kept[i], kept[j]))
            && (forall k, d :: k in kept && d in dropped ==> NoWorse(k, d))
            && (!enabled || cap < 0 ==> dropped == [])
            && (enabled && cap >= 0 ==> |kept| <= cap && (dropped != [] ==> |kept| == cap))
  {
    hide InChunks, InClusters, AllChunks, Sorted, Fits, NoWorse;
    var ranked := Sorted(ByScore(), AllChunks(s, clusters, size));
    var n := Limit(|ranked|, cap, enabled);
    dropped := ranked[n..];
    RankedChunks(s, clusters, size);
    forall t, id
      ensures InChunks(ranked[..n], t, id) + InChunks(dropped, t, id) == InClusters(clusters, t, id)
    {
      ChunksConserved(s, clusters, size, n, t, id);
    }
  }

  // ---- The loops ----

  method ScoreOf(s: Surface, threads: set<int>, ids: seq<int>) returns (score: int)
    ensures score == ScoreSum(s, ids) - 3 * |threads|
  {
    score := 0;
    for i := 0 to |ids|
      invariant score == ScoreSum(s, ids[..i])
    {
      assert ids[..i + 1][..i] == ids[..i];
      score := score + Priority(s, ids[i]);
    }
    assert ids[..|ids|] == ids;
    score := score - 3 * |threads|;
  }

  method SliceCluster(s: Surface, c: Cluster, size: nat, chunks0: seq<Chunk>) returns (chunks: seq<Chunk>)
    requires size > 0
    ensures chunks == chunks0 + Sliced(s, c.threads, StableOrder(s, c.objects), size)
  {
    hide MakeChunk, StableOrder;
    var sorted := StableOrder(s, c.objects);
    chunks := chunks0;
    var i := 0;
    ghost var all := chunks0 + Sliced(s, c.threads, sorted, size);
    assert sorted[0..] == sorted;
    while i < |sorted|
      invariant 0 <= i
      invariant all == chunks + Sliced(s, c.threads, sorted[Least(i, |sorted|)..], size)
    {
      var end := Least(|sorted|, i + size);
      var score := ScoreOf(s, c.threads, sorted[i..end]);
      NextSlice(s, c.threads, sorted, size, i, chunks);
      chunks := chunks + [Chunk(c.threads, sorted[i..end], score)];
      i := i + size;
    }
    assert sorted[|sorted|..] == [];
  }

  lemma NextSlice(s: Surface, threads: set<int>, ids: seq<int>, size: nat, i: nat, chunks: seq<Chunk>)
    requires size > 0 && i < |ids|
    ensures var end := Least(|ids|, i + size);
            chunks + Sliced(s, threads, ids[i..], size) ==
            chunks + [Chunk(threads, ids[i..end], ScoreSum(s, ids[i..end]) - 3 * |threads|)]
              + Sliced(s, threads, ids[end..], size)
  {
    var end := Least(|ids|, i + size);
    assert ids[i..][..end - i] == ids[i..end] && ids[i..][end - i..] == ids[end..];
  }

  method BuildBudgetedSessions(s: Surface, clusters: seq<Cluster>, size: nat, cap: int, enabled: bool)
    returns (sessions: seq<Chunk>)
    requires size > 0
    ensures sessions == Sessions(s, clusters, size, cap, enabled)
  {
    hide Sliced, StableOrder;
    var chunks: seq<Chunk> := [];
    for i := 0 to |clusters|
      invariant chunks == AllChunks(s, clusters[..i], size)
    {
      assert clusters[..i + 1][..i] == clusters[..i];
      chunks := SliceCluster(s, clusters[i], size, chunks);
    }
    assert clusters[..|clusters|] == clusters;
    var ranked := Sorted(ByScore(), chunks);
    sessions := [];
    for i := 0 to Limit(|ranked|, cap, enabled)
      invariant sessions == ranked[..i]
    {
      sessions := sessions + [ranked[i]];
    }
  }
}
