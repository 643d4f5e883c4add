/** The cluster row, the join and create updates of the clustering engine, its argmax match,
    and the geometry of the running centroid over exact reals. */
module Clusters {
  import Reals
  import opened Vectors
  import opened Options

  /** Dimension of an embedding; lists of another length are skipped by the match. */
  const DIM: nat := 384
  const SIM_THRESHOLD: real := 0.75
  const MAX_SOURCES: nat := 10

  /** The text of a UUID. */
  type Id = string
  type Time = real

  /** What the clustering worker receives about one article (`source` is the host name of its URL). */
  datatype Payload = Payload(urlHash: string, title: string, source: string, embedding: Vec)

  /** A row of the clusters table, which is also the JSON object in the cache. The status is
      always active in this pipeline; the fields that no update changes are not represented. */
  datatype Row = Row(id: Id, title: string, centroid: Vec, articleCount: nat,
                     lastActivity: Time, topSources: seq<string>, version: nat)

  predicate ValidEmbedding(e: Vec) {
    |e| == DIM && !IsZero(e)
  }

  // ---- updates -----------------------------------------------------------------------------

  /** `centroid * count + embedding`. */
  function WeightedCentroid(row: Row, e: Vec): (s: Vec)
    requires |row.centroid| == |e|
  {
    Add(Scale(row.articleCount as real, row.centroid), e)
  }

  function Average(row: Row, e: Vec): Vec
    requires |row.centroid| == |e|
  {
    Scale(1.0 / (row.articleCount + 1) as real, WeightedCentroid(row, e))
  }

  /** The average can be normalised; otherwise the new centroid is NaN and PostgreSQL refuses it. */
  predicate Joinable(norm: Vec -> real, row: Row, p: Payload) {
    |row.centroid| == |p.embedding| && norm(Average(row, p.embedding)) != 0.0
  }

  function AddSource(sources: seq<string>, source: string): seq<string> {
    if source in sources then sources
    else
      var s := sources + [source];
      if |s| > MAX_SOURCES then s[..MAX_SOURCES] else s
  }

  function Join(norm: Vec -> real, row: Row, p: Payload, now: Time): Row
    requires Joinable(norm, row, p)
  {
    row.(version := row.version + 1,
         articleCount := row.articleCount + 1,
         centroid := L2Normalize(norm, Average(row, p.embedding)),
         lastActivity := now,
         topSources := AddSource(row.topSources, p.source))
  }

  function Create(norm: Vec -> real, id: Id, p: Payload, now: Time): Row
    requires norm(p.embedding) != 0.0
  {
    Row(id, p.title, L2Normalize(norm, p.embedding), 1, now, [p.source], 1)
  }

  // ---- match -------------------------------------------------------------------------------

  predicate Candidate(row: Row) {
    |row.centroid| == DIM
  }

  function Similarity(norm: Vec -> real, row: Row, e: Vec): real
    requires Candidate(row) && |e| == DIM
  {
    Cosine(norm, e, row.centroid)
  }

  function Score(norm: Vec -> real, rows: seq<Row>, best: Option<nat>, e: Vec): real
    requires |e| == DIM
    requires best.Some? ==> best.value < |rows| && Candidate(rows[best.value])
  {
    if best.Some? then Similarity(norm, rows[best.value], e) else -1.0
  }

  /** Index of the winning row after the whole list was scanned. */
  function Best(norm: Vec -> real, rows: seq<Row>, e: Vec): (best: Option<nat>)
    requires |e| == DIM
    ensures best.Some? ==> best.value < |rows| && Candidate(rows[best.value])
  {
    if rows == [] then None
    else
      var n := |rows| - 1;
      var b := Best(norm, rows[..n], e);
      if Candidate(rows[n]) && Similarity(norm, rows[n], e) > Score(norm, rows[..n], b, e) then Some(n) else b
  }

  /** The winner is the first of the rows of greatest similarity; there is none when every
      candidate points exactly away from the article. */
  lemma {:induction false} BestIsFirstMaximum(norm: Vec -> real, rows: seq<Row>, e: Vec)
    requires |e| == DIM
    ensures var best := Best(norm, rows, e);
      && (forall i :: 0 <= i < |rows| && Candidate(rows[i])
            ==> Similarity(norm, rows[i], e) <= Score(norm, rows, best, e))
      && (best.Some? ==> Score(norm, rows, best, e) > -1.0)
      && (forall i :: best.Some? && 0 <= i < best.value && Candidate(rows[i])
            ==> Similarity(norm, rows[i], e) < Score(norm, rows, best, e))
  {
    if rows != [] {
      var n := |rows| - 1;
      BestIsFirstMaximum(norm, rows[..n], e);
      assert forall i :: 0 <= i < n ==> rows[..n][i] == rows[i];
    }
  }

  /** The cluster an article asks to join: the winner, if it is similar enough. */
  function Choose(norm: Vec -> real, rows: seq<Row>, e: Vec): Option<Id>
    requires |e| == DIM
  {
    var best := Best(norm, rows, e);
    if best.Some? && Score(norm, rows, best, e) >= SIM_THRESHOLD then Some(rows[best.value].id) else None
  }

  /** Row `i` is the one to join: a row of dimension 384 and similarity at least 0.75, no row more similar,
      and no earlier one as similar. */
  predicate ToJoin(norm: Vec -> real, rows: seq<Row>, e: Vec, i: int)
    requires |e| == DIM
  {
    && 0 <= i < |rows| && |rows[i].centroid| == 384 && Cosine(norm, e, rows[i].centroid) >= 0.75
    && (forall j :: 0 <= j < |rows| && |rows[j].centroid| == 384 ==>
          Cosine(norm, e, rows[j].centroid) <= Cosine(norm, e, rows[i].centroid))
    && (forall j :: 0 <= j < i && |rows[j].centroid| == 384 ==>
          Cosine(norm, e, rows[j].centroid) < Cosine(norm, e, rows[i].centroid))
  }

  predicate NothingNear(norm: Vec -> real, rows: seq<Row>, e: Vec)
    requires |e| == DIM
  {
    forall i :: 0 <= i < |rows| && |rows[i].centroid| == 384 ==> Cosine(norm, e, rows[i].centroid) < 0.75
  }

  /** An article asks to join a cluster exactly when that is the id of the row to join, and none exactly
      when all rows are too far. */
  lemma ChoosesExactly(norm: Vec -> real, rows: seq<Row>, e: Vec)
    requires |e| == DIM
    ensures forall id :: Choose(norm, rows, e) == Some(id) <==> exists i :: ToJoin(norm, rows, e, i) && rows[i].id == id
    ensures Choose(norm, rows, e) == None <==> NothingNear(norm, rows, e)
  {
    BestIsFirstMaximum(norm, rows, e);
    var best := Best(norm, rows, e);
    if best.Some? && Score(norm, rows, best, e) >= SIM_THRESHOLD {
      assert ToJoin(norm, rows, e, best.value);
      forall i | ToJoin(norm, rows, e, i) ensures i == best.value {
        assert Similarity(norm, rows[i], e) == Cosine(norm, e, rows[i].centroid);
      }
    } else {
      forall i | 0 <= i < |rows| && |rows[i].centroid| == 384 ensures Cosine(norm, e, rows[i].centroid) < 0.75 {
        assert Similarity(norm, rows[i], e) == Cosine(norm, e, rows[i].centroid);
      }
    }
  }

  /** The scan loop of the service. */
  method BestMatch(norm: Vec -> real, rows: seq<Row>, e: Vec) returns (choice: Option<Id>, bestScore: real)
    requires |e| == DIM
    ensures forall id :: choice == Some(id) <==> exists i :: ToJoin(norm, rows, e, i) && rows[i].id == id
    ensures choice == None <==> NothingNear(norm, rows, e)
    ensures choice == Choose(norm, rows, e)
    ensures bestScore == Score(norm, rows, Best(norm, rows, e), e)
  {
    ChoosesExactly(norm, rows, e);
    var best: Option<nat> := None;
    bestScore := -1.0;
    for i := 0 to |rows|
      invariant best == Best(norm, rows[..i], e)
      invariant bestScore == Score(norm, rows[..i], best, e)
    {
      assert rows[..i + 1][..i] == rows[..i];
      if Candidate(rows[i]) {
        var sim := Similarity(norm, rows[i], e);
        if sim > bestScore {
          bestScore := sim;
          best := Some(i);
        }
      }
    }
    assert rows[..|rows|] == rows;
    choice := if best.Some? && bestScore >= SIM_THRESHOLD then Some(rows[best.value].id) else None;
  }

  // ---- what an update writes ---------------------------------------------------------------

  /** A join, column by column: every coordinate of the new centroid is that of `centroid * count + embedding`
      divided by `count + 1` and by the length of that average; the counters go up by one, and id and title
      stay. */
  lemma JoinWrites(norm: Vec -> real, row: Row, p: Payload, now: Time)
    requires Joinable(norm, row, p)
    ensures var t := Join(norm, row, p, now);
      && t.id == row.id && t.title == row.title && t.lastActivity == now
      && t.version == row.version + 1 && t.articleCount == row.articleCount + 1
      && |t.centroid| == |row.centroid|
    ensures norm(Mean(row, p.embedding)) != 0.0
    ensures forall i :: 0 <= i < |row.centroid| ==>
      Join(norm, row, p, now).centroid[i] == 1.0 / norm(Mean(row, p.embedding)) * Mean(row, p.embedding)[i]
  {
    CombinedIsScaledSum(1.0 / (row.articleCount + 1) as real, row.articleCount as real, row.centroid, p.embedding);
  }

  /** The running mean, coordinate by coordinate. */
  function Mean(row: Row, e: Vec): Vec
    requires |row.centroid| == |e|
  {
    Combined(1.0 / (row.articleCount + 1) as real, row.articleCount as real, row.centroid, e)
  }

  function Combined(q: real, k: real, c: Vec, e: Vec): Vec
    requires |c| == |e|
  {
    seq(|e|, i requires 0 <= i < |e| => q * (k * c[i] + e[i]))
  }

  lemma CombinedIsScaledSum(q: real, k: real, c: Vec, e: Vec)
    requires |c| == |e|
    ensures Scale(q, Add(Scale(k, c), e)) == Combined(q, k, c, e)
  {
    forall i | 0 <= i < |e| ensures Scale(q, Add(Scale(k, c), e))[i] == Combined(q, k, c, e)[i] {
      assert Add(Scale(k, c), e)[i] == k * c[i] + e[i];
    }
  }

  /** A new cluster, column by column. */
  lemma CreateWrites(norm: Vec -> real, id: Id, p: Payload, now: Time)
    requires norm(p.embedding) != 0.0
    ensures var t := Create(norm, id, p, now);
      && t.id == id && t.title == p.title && t.lastActivity == now && t.topSources == [p.source]
      && t.version == 1 && t.articleCount == 1 && |t.centroid| == |p.embedding|
      && forall i :: 0 <= i < |p.embedding| ==> t.centroid[i] == 1.0 / norm(p.embedding) * p.embedding[i]
  {
  }

  /** The domain object: `process_article` edits its fields in place before saving it. */
  class Cluster {
    const id: Id
    const title: string
    var centroid: Vec
    var articleCount: nat
    var lastActivity: Time
    var topSources: seq<string>
    var version: nat

    function ToRow(): Row
      reads this
    {
      Row(id, title, centroid, articleCount, lastActivity, topSources, version)
    }

    constructor FromRow(row: Row)
      ensures ToRow() == row
    {
      id, title, centroid, articleCount := row.id, row.title, row.centroid, row.articleCount;
      lastActivity, topSources, version := row.lastActivity, row.topSources, row.version;
    }

    constructor New(norm: Vec -> real, newId: Id, p: Payload, now: Time)
      requires norm(p.embedding) != 0.0
      ensures ToRow() == Create(norm, newId, p, now)
    {
      id, title, centroid, articleCount := newId, p.title, L2Normalize(norm, p.embedding), 1;
      lastActivity, topSources, version := now, [p.source], 1;
    }

    /** Field by field, in the order of the service. When the average has no direction the
        service stores NaN, which the database refuses; here the call reports it. */
    method Absorb(norm: Vec -> real, p: Payload, now: Time) returns (finite: bool)
      requires |centroid| == |p.embedding|
      modifies this
      ensures finite == Joinable(norm, old(ToRow()), p)
      ensures finite ==> ToRow() == Join(norm, old(ToRow()), p, now)
    {
      version := version + 1;
      articleCount := articleCount + 1;
      var oldCount := articleCount - 1;
      var weighted := Scale(oldCount as real, centroid);
      var sum := Add(weighted, p.embedding);
      var avg := Scale(1.0 / articleCount as real, sum);
      finite := norm(avg) != 0.0;
      if finite {
        centroid := L2Normalize(norm, avg);
        lastActivity := now;
        if p.source !in topSources {
          topSources := topSources + [p.source];
          if |topSources| > MAX_SOURCES { topSources := topSources[..MAX_SOURCES]; }
        }
      }
    }
  }

  // ---- geometry ----------------------------------------------------------------------------

  /** Dividing by the count before normalising has no effect. */
  lemma AverageHasSameDirection(norm: Vec -> real, row: Row, e: Vec)
    requires IsNorm(norm) && |row.centroid| == |e|
    ensures norm(Average(row, e)) != 0.0 <==> norm(WeightedCentroid(row, e)) != 0.0
    ensures norm(Average(row, e)) != 0.0
        ==> L2Normalize(norm, Average(row, e)) == L2Normalize(norm, WeightedCentroid(row, e))
  {
    var s := WeightedCentroid(row, e);
    var k := 1.0 / (row.articleCount + 1) as real;
    Reals.Reciprocal((row.articleCount + 1) as real);
    ScaleKeepsDirection(norm, k, s);
  }

  lemma ScaleKeepsDirection(norm: Vec -> real, k: real, s: Vec)
    requires IsNorm(norm) && k > 0.0
    ensures norm(Scale(k, s)) != 0.0 <==> norm(s) != 0.0
    ensures norm(s) != 0.0 ==> norm(Scale(k, s)) != 0.0 && L2Normalize(norm, Scale(k, s)) == L2Normalize(norm, s)
  {
    NormScale(norm, k, s);
    NormZero(norm, s);
    var n, m := norm(s), norm(Scale(k, s));
    Reals.SignOfProduct(k, n, m);
    if m != 0.0 {
      var a, b := L2Normalize(norm, Scale(k, s)), L2Normalize(norm, s);
      forall i | 0 <= i < |s| ensures a[i] == b[i] {
        Reals.CancelScale(k, n, s[i]);
      }
    }
  }

  /** Exactly one article cannot be joined: the one that cancels the cluster's mass. */
  lemma JoinableExactly(norm: Vec -> real, row: Row, p: Payload)
    requires IsNorm(norm) && |row.centroid| == |p.embedding|
    ensures Joinable(norm, row, p) <==> p.embedding != Scale(-(row.articleCount as real), row.centroid)
  {
    var e, k := p.embedding, row.articleCount as real;
    var s := WeightedCentroid(row, e);
    AverageHasSameDirection(norm, row, e);
    NormZero(norm, s);
    ZeroSum(k, row.centroid, e, s);
  }

  lemma ZeroSum(k: real, c: Vec, e: Vec, s: Vec)
    requires |c| == |e| && s == Add(Scale(k, c), e)
    ensures IsZero(s) <==> e == Scale(-k, c)
  {
    var t := Scale(-k, c);
    forall i | 0 <= i < |e| ensures s[i] == 0.0 <==> e[i] == t[i] {
      assert -k * c[i] == -(k * c[i]);
    }
  }

  /** A join after a successful match never normalises a zero vector: a positive cosine is enough. */
  lemma MatchIsJoinable(norm: Vec -> real, row: Row, p: Payload)
    requires IsNorm(norm) && Candidate(row) && ValidEmbedding(p.embedding)
    requires norm(row.centroid) == 1.0
    requires Similarity(norm, row, p.embedding) > 0.0
    ensures Joinable(norm, row, p)
  {
    var e, c, k := p.embedding, row.centroid, row.articleCount as real;
    var s := WeightedCentroid(row, e);
    NormZero(norm, c);
    NormZero(norm, e);
    CosineIsQuotient(norm, e, c);
    DotSym(e, c);
    var cc, ce, ee, cs, es, ss := WeightedSum(k, c, e, s);
    SquareZero(e);
    Reals.SignOfProduct(Cosine(norm, e, c), norm(e) * norm(c), Dot(e, c));
    Reals.MulNonNeg(k, ce);
    assert es > 0.0;
    DotSym(e, s);
    if IsZero(s) { DotWithZero(s, e); }
    NormZero(norm, s);
    AverageHasSameDirection(norm, row, e);
  }

  /** A centroid stays a unit vector through every update. */
  lemma UpdatesAreUnit(norm: Vec -> real, row: Row, p: Payload, now: Time, id: Id)
    requires IsNorm(norm)
    ensures Joinable(norm, row, p) ==> norm(Join(norm, row, p, now).centroid) == 1.0
    ensures norm(p.embedding) != 0.0 ==> norm(Create(norm, id, p, now).centroid) == 1.0
  {
    if Joinable(norm, row, p) { NormalizeIsUnit(norm, Average(row, p.embedding)); }
    if norm(p.embedding) != 0.0 { NormalizeIsUnit(norm, p.embedding); }
  }

  /** Joining pulls the centroid towards the article: its similarity never goes down, whatever
      the two vectors and the count are. */
  lemma JoinPullsCentroid(norm: Vec -> real, row: Row, p: Payload, now: Time)
    requires IsNorm(norm) && !IsZero(p.embedding) && norm(row.centroid) == 1.0
    requires Joinable(norm, row, p)
    ensures Cosine(norm, p.embedding, Join(norm, row, p, now).centroid)
         >= Cosine(norm, p.embedding, row.centroid)
  {
    var e, s := p.embedding, WeightedCentroid(row, p.embedding);
    AverageHasSameDirection(norm, row, e);
    NormZero(norm, s);
    var u := L2Normalize(norm, s);
    assert Join(norm, row, p, now).centroid == u;
    NormalizeIsUnit(norm, s);
    CosineWithUnit(norm, e, row.centroid);
    CosineWithUnit(norm, e, u);
    DotOrder(norm, row, e);
    Reals.CompareQuotients(Cosine(norm, e, row.centroid), Cosine(norm, e, u), norm(e),
                           Dot(e, row.centroid), Dot(e, u));
  }

  lemma CosineWithUnit(norm: Vec -> real, e: Vec, u: Vec)
    requires IsNorm(norm) && |e| == |u| && !IsZero(e) && norm(u) == 1.0
    ensures norm(e) > 0.0 && Cosine(norm, e, u) * norm(e) == Dot(e, u)
  {
    NormZero(norm, e);
    NormZero(norm, u);
    CosineIsQuotient(norm, e, u);
    assert norm(e) * norm(u) == norm(e);
  }

  lemma DotOrder(norm: Vec -> real, row: Row, e: Vec)
    requires IsNorm(norm) && |row.centroid| == |e| && norm(row.centroid) == 1.0
    requires norm(WeightedCentroid(row, e)) > 0.0
    ensures Dot(e, row.centroid) <= Dot(e, L2Normalize(norm, WeightedCentroid(row, e)))
  {
    var d, es, n := PulledDots(norm, row, e);
    NormalizedDot(norm, WeightedCentroid(row, e), e, n, es);
    DotSym(e, row.centroid);
  }

  lemma PulledDots(norm: Vec -> real, row: Row, e: Vec) returns (d: real, es: real, n: real)
    requires IsNorm(norm) && |row.centroid| == |e| && norm(row.centroid) == 1.0
    requires norm(WeightedCentroid(row, e)) > 0.0
    ensures d == Dot(row.centroid, e) && es == Dot(e, WeightedCentroid(row, e))
    ensures n == norm(WeightedCentroid(row, e)) && 1.0 / n * es >= d
  {
    var k, s := row.articleCount as real, WeightedCentroid(row, e);
    var ee, cs, ss, nn, dd;
    d, ee, cs, es, ss, dd := WeightedDots(norm, k, row.centroid, e, s);
    n, nn := SquaredNorm(norm, s);
    Reals.PullQuotient(k, d, ee, cs, es, n, nn, dd);
  }

  lemma NormalizedDot(norm: Vec -> real, s: Vec, e: Vec, n: real, es: real)
    requires |s| == |e| && norm(s) == n != 0.0 && Dot(e, s) == es
    ensures Dot(e, L2Normalize(norm, s)) == 1.0 / n * es
  {
    DotSym(e, L2Normalize(norm, s));
    DotSym(e, s);
    DotScale(1.0 / n, s, e);
  }

  /** The products that the pull needs, as plain numbers: c.e, e.e, c.s, e.s, s.s, (c.e)^2. */
  lemma WeightedDots(norm: Vec -> real, k: real, c: Vec, e: Vec, s: Vec)
    returns (d: real, ee: real, cs: real, es: real, ss: real, dd: real)
    requires IsNorm(norm) && |c| == |e| && norm(c) == 1.0 && s == Add(Scale(k, c), e)
    ensures d == Dot(c, e) && es == Dot(e, s) && ss == Dot(s, s) && dd == d * d && dd <= ee
    ensures cs == k + d && es == k * d + ee && ss == k * cs + es
  {
    UnitSquare(norm, c);
    d, ee, cs, es, ss := UnitWeightedSum(k, c, e, s);
    dd := UnitCauchy(c, e, d);
  }

  lemma SquaredNorm(norm: Vec -> real, s: Vec) returns (n: real, nn: real)
    requires IsNorm(norm)
    ensures n == norm(s) >= 0.0 && nn == n * n && nn == Dot(s, s)
  {
    n := norm(s);
    nn := n * n;
  }

  lemma UnitWeightedSum(k: real, c: Vec, e: Vec, s: Vec) returns (d: real, ee: real, cs: real, es: real, ss: real)
    requires |c| == |e| && s == Add(Scale(k, c), e) && Dot(c, c) == 1.0
    ensures d == Dot(c, e) && ee == Dot(e, e) && cs == Dot(c, s) && es == Dot(e, s) && ss == Dot(s, s)
    ensures cs == k + d && es == k * d + ee && ss == k * cs + es
  {
    var cc;
    cc, d, ee, cs, es, ss := WeightedSum(k, c, e, s);
    Reals.OneSum(k, cc, d, cs);
  }

  lemma UnitSquare(norm: Vec -> real, c: Vec)
    requires IsNorm(norm) && norm(c) == 1.0
    ensures Dot(c, c) == 1.0
  {
    assert norm(c) * norm(c) == Dot(c, c);
  }

  lemma UnitCauchy(c: Vec, e: Vec, d: real) returns (dd: real)
    requires |c| == |e| && Dot(c, c) == 1.0 && d == Dot(c, e)
    ensures dd == d * d && dd <= Dot(e, e)
  {
    CauchySchwarz(c, e);
    dd := d * d;
  }
}
