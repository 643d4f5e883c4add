/** The article tables: version-guarded saves keyed by url hash, in Postgres and in memory, and the
    cluster binding that such a save rejects. */
module Articles {
  import opened Options

  /** `content` stands for the remaining columns that an update replaces. */
  datatype Article = Article(id: string, urlHash: string, version: nat, clusterId: Option<string>, content: string,
                             createdAt: real)

  // ---- the in-memory store -----------------------------------------------------------------

  datatype Store = Store(byId: map<string, Article>, byUrlHash: map<string, Article>)

  const EMPTY := Store(map[], map[])

  predicate Rejects(byUrlHash: map<string, Article>, a: Article) {
    a.urlHash in byUrlHash && a.version <= byUrlHash[a.urlHash].version
  }

  /** A stored row with another id gives up its id to the new row. */
  function Put(s: Store, a: Article): Store {
    if Rejects(s.byUrlHash, a) then s
    else
      var ids := if a.urlHash in s.byUrlHash && s.byUrlHash[a.urlHash].id != a.id
                 then s.byId - {s.byUrlHash[a.urlHash].id} else s.byId;
      Store(ids[a.id := a], s.byUrlHash[a.urlHash := a])
  }

  function PutAll(s: Store, saved: seq<Article>): Store {
    if saved == [] then s else Put(PutAll(s, saved[..|saved| - 1]), saved[|saved| - 1])
  }

  /** How many of the saves change the store. */
  function Changes(s: Store, saved: seq<Article>): nat {
    if saved == [] then 0
    else
      var n := |saved| - 1;
      var before := PutAll(s, saved[..n]);
      Changes(s, saved[..n]) + if Put(before, saved[n]) != before then 1 else 0
  }

  lemma PutChanges(s: Store, a: Article)
    ensures Put(s, a) == s <==> Rejects(s.byUrlHash, a)
  {
    if !Rejects(s.byUrlHash, a) {
      assert Put(s, a).byUrlHash[a.urlHash] == a;
    }
  }

  class FakeArticleRepository {
    var byId: map<string, Article>
    var byUrlHash: map<string, Article>

    ghost function Contents(): Store
      reads this
    {
      Store(byId, byUrlHash)
    }

    constructor ()
      ensures Contents() == EMPTY
    {
      byId, byUrlHash := map[], map[];
    }

    method Save(a: Article) returns (stored: Article)
      modifies this
      ensures Contents() == Put(old(Contents()), a)
      ensures a.urlHash in byUrlHash && stored == byUrlHash[a.urlHash]
    {
      if a.urlHash in byUrlHash {
        var existing := byUrlHash[a.urlHash];
        if a.version <= existing.version { return existing; }
        if existing.id != a.id { byId := byId - {existing.id}; }
      }
      byId := byId[a.id := a];
      byUrlHash := byUrlHash[a.urlHash := a];
      return a;
    }

    /** A batch is the same saves one after another; its count is that of the rows it changed. */
    method SaveBatch(saved: seq<Article>) returns (count: nat)
      modifies this
      ensures Contents() == PutAll(old(Contents()), saved)
      ensures count == Changes(old(Contents()), saved)
    {
      count := 0;
      ghost var start := Contents();
      for i := 0 to |saved|
        invariant Contents() == PutAll(start, saved[..i])
        invariant count == Changes(start, saved[..i])
      {
        var a := saved[i];
        assert saved[..i + 1][..i] == saved[..i];
        PutChanges(Contents(), a);
        if a.urlHash in byUrlHash {
          var existing := byUrlHash[a.urlHash];
          if a.version <= existing.version { continue; }
          if existing.id != a.id { byId := byId - {existing.id}; }
        }
        byId := byId[a.id := a];
        byUrlHash := byUrlHash[a.urlHash := a];
        count := count + 1;
      }
      assert saved[..|saved|] == saved;
    }
  }

  // ---- what is stored ----------------------------------------------------------------------

  /** Position i holds the first-arrived save of the greatest version for its url hash. */
  predicate Wins(saved: seq<Article>, i: nat) {
    && i < |saved|
    && (forall j :: 0 <= j < |saved| && saved[j].urlHash == saved[i].urlHash ==> saved[j].version <= saved[i].version)
    && (forall j :: 0 <= j < i && saved[j].urlHash == saved[i].urlHash ==> saved[j].version < saved[i].version)
  }

  predicate Saved(saved: seq<Article>, urlHash: string) {
    exists i :: 0 <= i < |saved| && saved[i].urlHash == urlHash
  }

  lemma {:induction false} StoredWins(saved: seq<Article>, urlHash: string) returns (i: nat)
    ensures urlHash in PutAll(EMPTY, saved).byUrlHash <==> Saved(saved, urlHash)
    ensures Saved(saved, urlHash) ==>
      Wins(saved, i) && saved[i].urlHash == urlHash && PutAll(EMPTY, saved).byUrlHash[urlHash] == saved[i]
  {
    if saved == [] { return 0; }
    var n := |saved| - 1;
    assert saved == saved[..n] + [saved[n]];
    i := StoredWins(saved[..n], urlHash);
    SavedBefore(saved, urlHash);
    assert PutAll(EMPTY, saved) == Put(PutAll(EMPTY, saved[..n]), saved[n]);
    if Saved(saved[..n], urlHash) {
      i := WinnerAfter(saved, i);
    } else if saved[n].urlHash == urlHash {
      assert forall j :: 0 <= j < n ==> saved[..n][j].urlHash != urlHash;
      i := n;
    }
  }

  /** The store holds a row exactly when it is the first-arrived save of the greatest version for
      its url hash. */
  lemma StoredExactly(saved: seq<Article>, a: Article)
    ensures Holds(PutAll(EMPTY, saved).byUrlHash, a) <==> exists i: nat :: Wins(saved, i) && saved[i] == a
  {
    var i := StoredWins(saved, a.urlHash);
    if j: nat :| Wins(saved, j) && saved[j] == a {
      assert Saved(saved, a.urlHash);
      assert i == j;
    }
  }

  predicate Holds(rows: map<string, Article>, a: Article) {
    a.urlHash in rows && rows[a.urlHash] == a
  }

  /** Saving again what was saved before, in any order and any number of times, changes nothing. */
  lemma {:induction false} ReplayChangesNothing(saved: seq<Article>, again: seq<Article>)
    requires forall a <- again :: a in saved
    ensures PutAll(PutAll(EMPTY, saved), again) == PutAll(EMPTY, saved)
    ensures Changes(PutAll(EMPTY, saved), again) == 0
  {
    if again != [] {
      var n := |again| - 1;
      ReplayChangesNothing(saved, again[..n]);
      var a := again[n];
      assert a in again;
      var k :| 0 <= k < |saved| && saved[k] == a;
      assert Saved(saved, a.urlHash);
      var i := StoredWins(saved, a.urlHash);
    }
  }

  /** When no two rows share a url hash and a version, the contents do not depend on the order or
      the repetition of the saves. */
  lemma OrderDoesNotMatter(saved: seq<Article>, other: seq<Article>)
    requires forall a :: a in saved <==> a in other
    requires forall a, b :: a in saved && b in saved && a.urlHash == b.urlHash && a.version == b.version ==> a == b
    ensures PutAll(EMPTY, saved).byUrlHash == PutAll(EMPTY, other).byUrlHash
  {
    var s, t := PutAll(EMPTY, saved).byUrlHash, PutAll(EMPTY, other).byUrlHash;
    forall h ensures h in s <==> h in t
      ensures h in s ==> s[h] == t[h]
    {
      var i := StoredWins(saved, h);
      var j := StoredWins(other, h);
      SavedEither(saved, other, h);
      if Saved(saved, h) {
        assert saved[i] in other && other[j] in saved;
        var k :| 0 <= k < |other| && other[k] == saved[i];
        var l :| 0 <= l < |saved| && saved[l] == other[j];
      }
    }
  }

  lemma SavedEither(saved: seq<Article>, other: seq<Article>, h: string)
    requires forall a :: a in saved <==> a in other
    ensures Saved(saved, h) <==> Saved(other, h)
  {
    if i :| 0 <= i < |saved| && saved[i].urlHash == h {
      assert saved[i] in other;
      var k :| 0 <= k < |other| && other[k] == saved[i];
    }
    if i :| 0 <= i < |other| && other[i].urlHash == h {
      assert other[i] in saved;
      var k :| 0 <= k < |saved| && saved[k] == other[i];
    }
  }

  // ---- the two indices ---------------------------------------------------------------------

  /** Every row is found under its id and under its url hash. */
  predicate Bijection(s: Store) {
    (forall h <- s.byUrlHash :: FoundById(s, h)) && (forall id <- s.byId :: FoundByHash(s, id))
  }

  predicate FoundById(s: Store, h: string) {
    h in s.byUrlHash && s.byUrlHash[h].urlHash == h && s.byUrlHash[h].id in s.byId
    && s.byId[s.byUrlHash[h].id] == s.byUrlHash[h]
  }

  predicate FoundByHash(s: Store, id: string) {
    id in s.byId && s.byId[id].id == id && s.byId[id].urlHash in s.byUrlHash
    && s.byUrlHash[s.byId[id].urlHash] == s.byId[id]
  }

  predicate IdElsewhere(s: Store, a: Article) {
    a.id in s.byId && s.byId[a.id].urlHash != a.urlHash
  }

  /** A save keeps the two indices in step unless it brings in an id that another url hash holds. */
  lemma BijectionKeptExactly(s: Store, a: Article)
    requires Bijection(s)
    ensures Bijection(Put(s, a)) <==> Rejects(s.byUrlHash, a) || !IdElsewhere(s, a)
  {
    var t := Put(s, a);
    if !Rejects(s.byUrlHash, a) {
      if IdElsewhere(s, a) {
        var h := s.byId[a.id].urlHash;
        assert FoundByHash(s, a.id);
        assert t.byUrlHash[h].id == a.id && t.byId[a.id] == a;
        assert !FoundById(t, h);
      } else {
        PutKeepsHashes(s, a);
        PutKeepsIds(s, a);
      }
    }
  }

  lemma PutKeepsHashes(s: Store, a: Article)
    requires Bijection(s) && !Rejects(s.byUrlHash, a) && !IdElsewhere(s, a)
    ensures forall h <- Put(s, a).byUrlHash :: FoundById(Put(s, a), h)
  {
    var t := Put(s, a);
    forall h <- t.byUrlHash ensures FoundById(t, h) {
      assert h in s.byUrlHash ==> FoundById(s, h);
      assert a.urlHash in s.byUrlHash ==> FoundById(s, a.urlHash);
    }
  }

  lemma PutKeepsIds(s: Store, a: Article)
    requires Bijection(s) && !Rejects(s.byUrlHash, a) && !IdElsewhere(s, a)
    ensures forall id <- Put(s, a).byId :: FoundByHash(Put(s, a), id)
  {
    var t := Put(s, a);
    forall id <- t.byId ensures FoundByHash(t, id) {
      assert id in s.byId ==> FoundByHash(s, id);
      assert a.urlHash in s.byUrlHash ==> FoundById(s, a.urlHash);
    }
  }

  predicate NoSharedId(saved: seq<Article>) {
    forall i, j :: 0 <= i < |saved| && 0 <= j < |saved| && saved[i].id == saved[j].id ==> saved[i].urlHash == saved[j].urlHash
  }

  /** Over any run in which no id is used with two url hashes, the two indices stay in step. */
  lemma {:induction false} IndicesStayInStep(saved: seq<Article>)
    requires NoSharedId(saved)
    ensures Bijection(PutAll(EMPTY, saved))
  {
    if saved != [] {
      var n := |saved| - 1;
      IndicesStayInStep(saved[..n]);
      var s := PutAll(EMPTY, saved[..n]);
      BijectionKeptExactly(s, saved[n]);
      if saved[n].id in s.byId {
        assert FoundByHash(s, saved[n].id);
        var i := StoredWins(saved[..n], s.byId[saved[n].id].urlHash);
        assert saved[i].id == saved[n].id;
      }
    }
  }

  // ---- Postgres ----------------------------------------------------------------------------

  type Rows = map<string, Article>

  predicate IdTaken(rows: Rows, a: Article) {
    exists h :: h in rows && h != a.urlHash && rows[h].id == a.id
  }

  /** A duplicate primary key. */
  predicate Fails(rows: Rows, a: Article) {
    a.urlHash !in rows && IdTaken(rows, a)
  }

  /** The row under a save's url hash afterwards; the id and the creation time are not among the
      updated columns. */
  function Merged(rows: Rows, a: Article): Article {
    if a.urlHash !in rows then a
    else if rows[a.urlHash].version < a.version then
      a.(id := rows[a.urlHash].id, createdAt := rows[a.urlHash].createdAt)
    else rows[a.urlHash]
  }

  /** The upsert. */
  function Upsert(rows: Rows, a: Article): Rows {
    if Fails(rows, a) then rows else rows[a.urlHash := Merged(rows, a)]
  }

  function UpsertAll(rows: Rows, saved: seq<Article>): Rows {
    if saved == [] then rows else Upsert(UpsertAll(rows, saved[..|saved| - 1]), saved[|saved| - 1])
  }

  predicate First(saved: seq<Article>, i: nat) {
    i < |saved| && forall j :: 0 <= j < i ==> saved[j].urlHash != saved[i].urlHash
  }

  /** Without shared ids Postgres stores the winning save under the id and creation time of the first. */
  lemma {:induction false} PostgresKeepsFirstId(saved: seq<Article>, urlHash: string) returns (i: nat, f: nat)
    requires NoSharedId(saved)
    ensures urlHash in UpsertAll(map[], saved) <==> Saved(saved, urlHash)
    ensures Saved(saved, urlHash) ==>
      && Wins(saved, i) && First(saved, f) && saved[i].urlHash == saved[f].urlHash == urlHash
      && UpsertAll(map[], saved)[urlHash] == saved[i].(id := saved[f].id, createdAt := saved[f].createdAt)
  {
    if saved == [] { return 0, 0; }
    var n := |saved| - 1;
    var a, before := saved[n], UpsertAll(map[], saved[..n]);
    assert saved == saved[..n] + [a];
    i, f := PostgresKeepsFirstId(saved[..n], urlHash);
    SavedBefore(saved, urlHash);
    assert UpsertAll(map[], saved) == Upsert(before, a);
    UpsertAt(before, a, urlHash);
    if a.urlHash == urlHash {
      NeverFails(saved);
      if !Saved(saved[..n], urlHash) {
        assert forall j :: 0 <= j < n ==> saved[..n][j].urlHash != urlHash;
        i, f := n, n;
      } else {
        i := WinnerAfter(saved, i);
        FirstStays(saved, f);
      }
    } else if Saved(saved, urlHash) {
      i := WinnerAfter(saved, i);
      FirstStays(saved, f);
    }
  }

  lemma UpsertAt(rows: Rows, a: Article, h: string)
    ensures h != a.urlHash ==> (h in Upsert(rows, a) <==> h in rows) && (h in rows ==> Upsert(rows, a)[h] == rows[h])
    ensures h == a.urlHash && !Fails(rows, a) ==> h in Upsert(rows, a) && Upsert(rows, a)[h] == Merged(rows, a)
  {
  }

  /** The winner of a hash when one more save comes. */
  lemma WinnerAfter(saved: seq<Article>, i: nat) returns (j: nat)
    requires saved != [] && Wins(saved[..|saved| - 1], i)
    ensures Wins(saved, j) && saved[j].urlHash == saved[i].urlHash
    ensures var a := saved[|saved| - 1];
      j == if a.urlHash == saved[i].urlHash && saved[i].version < a.version then |saved| - 1 else i
  {
    var n := |saved| - 1;
    var a := saved[n];
    assert forall k :: 0 <= k < n ==> saved[..n][k] == saved[k];
    j := if a.urlHash == saved[i].urlHash && saved[i].version < a.version then n else i;
  }

  lemma FirstStays(saved: seq<Article>, f: nat)
    requires saved != [] && First(saved[..|saved| - 1], f)
    ensures First(saved, f)
  {
    assert forall k :: 0 <= k < |saved| - 1 ==> saved[..|saved| - 1][k] == saved[k];
  }

  lemma SavedBefore(saved: seq<Article>, urlHash: string)
    requires saved != []
    ensures Saved(saved, urlHash) <==> Saved(saved[..|saved| - 1], urlHash) || saved[|saved| - 1].urlHash == urlHash
  {
    var n := |saved| - 1;
    if j :| 0 <= j < |saved| && saved[j].urlHash == urlHash && j < n {
      assert saved[..n][j].urlHash == urlHash;
    }
    if saved[n].urlHash == urlHash { assert Saved(saved, urlHash); }
  }

  lemma {:induction false} NeverFails(saved: seq<Article>)
    requires NoSharedId(saved) && saved != []
    ensures !Fails(UpsertAll(map[], saved[..|saved| - 1]), saved[|saved| - 1])
  {
    var n := |saved| - 1;
    var rows := UpsertAll(map[], saved[..n]);
    forall h | h in rows && rows[h].id == saved[n].id ensures h == saved[n].urlHash {
      IdComesFrom(saved[..n], h);
    }
  }

  /** Every stored id was saved with its url hash. */
  lemma {:induction false} IdComesFrom(saved: seq<Article>, h: string)
    requires h in UpsertAll(map[], saved)
    ensures exists k :: 0 <= k < |saved| && saved[k].urlHash == h && saved[k].id == UpsertAll(map[], saved)[h].id
    decreases |saved|
  {
    var n := |saved| - 1;
    if h in UpsertAll(map[], saved[..n]) && UpsertAll(map[], saved[..n])[h].id == UpsertAll(map[], saved)[h].id {
      IdComesFrom(saved[..n], h);
      var k :| 0 <= k < n && saved[..n][k].urlHash == h && saved[..n][k].id == UpsertAll(map[], saved)[h].id;
      assert saved[k].urlHash == h;
    }
  }

  predicate SameOrigin(saved: seq<Article>, i: nat, f: nat)
    requires i < |saved| && f < |saved|
  {
    saved[i].id == saved[f].id && saved[i].createdAt == saved[f].createdAt
  }

  /** The two stores hold the same row for a url hash exactly when its winning save carries the id
      and creation time of its first save. */
  lemma StoresAgreeExactly(saved: seq<Article>, i: nat, f: nat)
    requires NoSharedId(saved)
    requires Wins(saved, i) && First(saved, f) && saved[i].urlHash == saved[f].urlHash
    ensures var h := saved[i].urlHash;
      && h in PutAll(EMPTY, saved).byUrlHash && h in UpsertAll(map[], saved)
      && (PutAll(EMPTY, saved).byUrlHash[h] == UpsertAll(map[], saved)[h] <==> SameOrigin(saved, i, f))
  {
    var h := saved[i].urlHash;
    assert Saved(saved, h);
    var j := StoredWins(saved, h);
    var k, g := PostgresKeepsFirstId(saved, h);
    assert j == i && k == i && g == f;
  }

  /** On stores that agree so far, Postgres refuses a save with a duplicate key exactly when the url
      hash is new and the in-memory store would let its indices fall out of step. */
  lemma DuplicateKeyExactly(s: Store, a: Article)
    requires Bijection(s)
    ensures Fails(s.byUrlHash, a) <==> a.urlHash !in s.byUrlHash && !Bijection(Put(s, a))
  {
    BijectionKeptExactly(s, a);
    if IdElsewhere(s, a) {
      var h := s.byId[a.id].urlHash;
      assert FoundByHash(s, a.id);
    }
  }

  // ---- binding an article to its cluster -----------------------------------------------------

  /** A save of a new article, or of a copy of the row as it stood after `readAt` operations, with its
      cluster filled in. */
  datatype Op = Insert(article: Article) | Bind(urlHash: string, cluster: string, readAt: nat)

  /** The table after the operations; a bind of a row that was not there does nothing. */
  function Table(ops: seq<Op>): Rows
    decreases |ops|
  {
    if ops == [] then map[]
    else
      var n := |ops| - 1;
      var rows := Table(ops[..n]);
      match ops[n]
      case Insert(article) => Upsert(rows, article)
      case Bind(h, cluster, readAt) =>
        if readAt <= n && h in Table(ops[..readAt])
        then Upsert(rows, Table(ops[..readAt])[h].(clusterId := Some(cluster)))
        else rows
  }

  lemma {:induction false} VersionsNeverFall(ops: seq<Op>, k: nat, h: string)
    requires k <= |ops| && h in Table(ops[..k])
    ensures h in Table(ops) && Table(ops[..k])[h].version <= Table(ops)[h].version
  {
    if k == |ops| {
      assert ops[..k] == ops;
    } else {
      var n := |ops| - 1;
      assert ops[..n][..k] == ops[..k];
      VersionsNeverFall(ops[..n], k, h);
    }
  }

  lemma {:induction false} KeyedByHash(ops: seq<Op>)
    ensures forall h <- Table(ops) :: Table(ops)[h].urlHash == h
  {
    if ops != [] {
      var n := |ops| - 1;
      KeyedByHash(ops[..n]);
      if ops[n].Bind? && ops[n].readAt <= n { KeyedByHash(ops[..ops[n].readAt]); }
    }
  }

  /** Binding does not bump the version, so in any run no row of the table ever carries a cluster
      unless an article was first saved with one. */
  lemma {:induction false} BindNeverPersists(ops: seq<Op>)
    requires forall op <- ops :: op.Insert? ==> op.article.clusterId == None
    ensures forall h <- Table(ops) :: Table(ops)[h].clusterId == None
  {
    if ops != [] {
      var n := |ops| - 1;
      BindNeverPersists(ops[..n]);
      if ops[n].Bind? && ops[n].readAt <= n && ops[n].urlHash in Table(ops[..ops[n].readAt]) {
        var k, h := ops[n].readAt, ops[n].urlHash;
        assert ops[..n][..k] == ops[..k];
        VersionsNeverFall(ops[..n], k, h);
        KeyedByHash(ops[..k]);
      }
    }
  }
}
