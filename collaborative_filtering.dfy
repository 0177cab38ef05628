/** Item-item collaborative filtering
    (`project5/recommendation-service/src/models/collaborative_filtering.py`).
    Training pivots the rating log into a user x product matrix (mean rating
    per cell, 0 where a pair has no rating), derives an item x item similarity
    matrix from its columns and indexes the product columns. A user is then
    scored by similarity x own ratings with already-rated items forced to -1,
    and the best items are returned; neighbours of a product are its most
    similar other products; unknown users fall back to interaction counts. */
module CollaborativeFiltering {
  import opened Seqs
  import opened Ranking
  import opened Popularity

  /** A document of the `interactions` collection as this model reads it. */
  datatype RatedInteraction = RatedInteraction(userId: string, productId: string, rating: real)

  /** One entry of a result list: a product id with its score (for
      `find_similar`, its similarity). */
  datatype Scored = Scored(productId: string, score: real)

  /** A call that returns a value or raises. */
  datatype Result<T> = Ok(value: T) | Err(message: string)

  // ---------------------------------------------------------------------
  // Training: the pivot table, the similarity matrix and the column index
  // ---------------------------------------------------------------------

  /** The `userId` field of a rated row. */
  function RatedUserId(row: RatedInteraction): string
  {
    row.userId
  }

  /** The `productId` field of a rated row. */
  function RatedProductId(row: RatedInteraction): string
  {
    row.productId
  }

  /** Row labels of the pivot table: every user with a rating, once each. */
  function Users(db: seq<RatedInteraction>): seq<string>
  {
    Dedup(TableColumn(db, RatedUserId))
  }

  /** Column labels of the pivot table: every rated product, once each. */
  function Products(db: seq<RatedInteraction>): seq<string>
  {
    Dedup(TableColumn(db, RatedProductId))
  }

  /** Number of ratings the log holds for the pair. */
  function PairCount(db: seq<RatedInteraction>, u: string, p: string): nat
  {
    if db == [] then 0
    else (if db[0].userId == u && db[0].productId == p then 1 else 0) + PairCount(db[1..], u, p)
  }

  /** Sum of the ratings the log holds for the pair. */
  function PairSum(db: seq<RatedInteraction>, u: string, p: string): real
  {
    if db == [] then 0.0
    else (if db[0].userId == u && db[0].productId == p then db[0].rating else 0.0) + PairSum(db[1..], u, p)
  }

  /** A cell of `pivot_table(values='rating')` (whose default aggregate is the
      mean) after `fillna(0)`. */
  function Cell(db: seq<RatedInteraction>, u: string, p: string): real
  {
    var c := PairCount(db, u, p);
    if c == 0 then 0.0 else PairSum(db, u, p) / (c as real)
  }

  ghost predicate IsMatrix(m: seq<seq<real>>, rows: nat, cols: nat)
  {
    |m| == rows && forall i :: 0 <= i < rows ==> |m[i]| == cols
  }

  /** The user x product rating matrix. */
  function RatingMatrix(db: seq<RatedInteraction>, users: seq<string>, products: seq<string>): (m: seq<seq<real>>)
    ensures IsMatrix(m, |users|, |products|)
    ensures forall i, j :: 0 <= i < |users| && 0 <= j < |products| ==>
              m[i][j] == Cell(db, users[i], products[j])
  {
    seq(|users|, i requires 0 <= i < |users| =>
      seq(|products|, j requires 0 <= j < |products| => Cell(db, users[i], products[j])))
  }

  /** Column `j` of a matrix: the vector of one item across all users. */
  function Column(m: seq<seq<real>>, cols: nat, j: nat): seq<real>
    requires IsMatrix(m, |m|, cols) && j < cols
  {
    seq(|m|, u requires 0 <= u < |m| => m[u][j])
  }

  /** `cosine_similarity(M.T)`: the measure applied to every pair of item
      columns. The measure itself is a parameter of the model. */
  function SimilarityMatrix(cosine: (seq<real>, seq<real>) -> real, m: seq<seq<real>>, cols: nat)
    : (s: seq<seq<real>>)
    requires IsMatrix(m, |m|, cols)
    ensures IsMatrix(s, cols, cols)
  {
    seq(cols, i requires 0 <= i < cols =>
      seq(cols, j requires 0 <= j < cols => cosine(Column(m, cols, i), Column(m, cols, j))))
  }

  /** `{product_id: i for i, product_id in enumerate(columns)}`: a bijection
      between the column labels and `0 .. #columns-1`. */
  function IndexMap(products: seq<string>): (m: map<string, nat>)
    requires Distinct(products)
    ensures m.Keys == set p | p in products
    ensures forall p :: p in m ==> m[p] < |products| && products[m[p]] == p
    ensures forall i :: 0 <= i < |products| ==> m[products[i]] == i
  {
    map i | 0 <= i < |products| :: products[i] := i
  }

  /** When every rating of a pair equals `x`, the ratings sum to `x` times
      their number. */
  lemma {:induction false} PairSumUniform(db: seq<RatedInteraction>, u: string, p: string, x: real)
    requires forall i :: 0 <= i < |db| && db[i].userId == u && db[i].productId == p ==> db[i].rating == x
    ensures PairSum(db, u, p) == PairCount(db, u, p) as real * x
  {
    if db != [] {
      var t := db[1..];
      forall i | 0 <= i < |t| && t[i].userId == u && t[i].productId == p ensures t[i].rating == x {
        assert t[i] == db[i + 1];
      }
      PairSumUniform(t, u, p, x);
    }
  }

  /** Every pair of the log has a cell; a pair with no rating reads 0, and a
      pair whose ratings all equal `x` (a single rating, say) reads `x`. */
  lemma CellMeaning(db: seq<RatedInteraction>, u: string, p: string, x: real)
    ensures PairCount(db, u, p) == 0 ==> Cell(db, u, p) == 0.0
    ensures (forall row :: row in db && row.userId == u && row.productId == p ==> row.rating == x) ==>
              PairSum(db, u, p) == PairCount(db, u, p) as real * x
    ensures PairCount(db, u, p) > 0 &&
            (forall row :: row in db && row.userId == u && row.productId == p ==> row.rating == x) ==>
              Cell(db, u, p) == x
  {
    if forall row :: row in db && row.userId == u && row.productId == p ==> row.rating == x {
      forall i | 0 <= i < |db| && db[i].userId == u && db[i].productId == p ensures db[i].rating == x {
        assert db[i] in db;
      }
      PairSumUniform(db, u, p, x);
      var c := PairCount(db, u, p) as real;
      if c > 0.0 {
        assert PairSum(db, u, p) / c == x;
      }
    }
  }

  /** A pair occurs in the log exactly when it has a rating. */
  lemma {:induction false} PairCountPositive(db: seq<RatedInteraction>, u: string, p: string)
    ensures PairCount(db, u, p) > 0 <==> exists row :: row in db && row.userId == u && row.productId == p
  {
    if db != [] {
      PairCountPositive(db[1..], u, p);
      assert forall row :: row in db ==> row == db[0] || row in db[1..];
      assert db[0] in db;
      assert forall row :: row in db[1..] ==> row in db;
    }
  }

  /** Row labels are the users of the log and column labels its products,
      each exactly once. */
  lemma PivotLabels(db: seq<RatedInteraction>)
    ensures Distinct(Users(db)) && Distinct(Products(db))
    ensures forall u :: u in Users(db) <==> exists row :: row in db && row.userId == u
    ensures forall p :: p in Products(db) <==> exists row :: row in db && row.productId == p
  {
    forall u ensures u in Users(db) <==> exists row :: row in db && row.userId == u {
      if u in Users(db) {
        var k :| 0 <= k < |db| && TableColumn(db, RatedUserId)[k] == u;
        assert db[k] in db;
      }
      if exists row :: row in db && row.userId == u {
        var row :| row in db && row.userId == u;
        var k :| 0 <= k < |db| && db[k] == row;
        assert TableColumn(db, RatedUserId)[k] == u;
      }
    }
    forall p ensures p in Products(db) <==> exists row :: row in db && row.productId == p {
      if p in Products(db) {
        var k :| 0 <= k < |db| && TableColumn(db, RatedProductId)[k] == p;
        assert db[k] in db;
      }
      if exists row :: row in db && row.productId == p {
        var row :| row in db && row.productId == p;
        var k :| 0 <= k < |db| && db[k] == row;
        assert TableColumn(db, RatedProductId)[k] == p;
      }
    }
  }

  /** `fillna(0)`: the cell of a user and a product that never met is 0. */
  lemma PivotMissingPairIsZero(db: seq<RatedInteraction>, i: nat, j: nat)
    requires i < |Users(db)| && j < |Products(db)|
    requires forall row :: row in db ==> !(row.userId == Users(db)[i] && row.productId == Products(db)[j])
    ensures RatingMatrix(db, Users(db), Products(db))[i][j] == 0.0
  {
    PairCountPositive(db, Users(db)[i], Products(db)[j]);
    CellMeaning(db, Users(db)[i], Products(db)[j], 0.0);
  }

  /** The interactions of the model's unit test. */
  const TestLog: seq<RatedInteraction> := [
    RatedInteraction("user1", "product1", 5.0),
    RatedInteraction("user1", "product2", 3.0),
    RatedInteraction("user1", "product3", 4.0),
    RatedInteraction("user2", "product1", 3.0),
    RatedInteraction("user2", "product3", 5.0),
    RatedInteraction("user3", "product2", 4.0),
    RatedInteraction("user3", "product3", 3.0)
  ]

  /** A column whose values are three different labels yields three labels. */
  lemma ThreeLabels(col: seq<string>, a: string, b: string, c: string)
    requires a != b && a != c && b != c
    requires forall x :: x in col <==> x == a || x == b || x == c
    ensures |Dedup(col)| == 3
  {
    assert (set x | x in Dedup(col)) == {a, b, c};
    DistinctCardinality(Dedup(col));
  }

  /** The test log has three users and three products. */
  lemma TestLogLabels()
    ensures |Users(TestLog)| == 3 && |Products(TestLog)| == 3
  {
    TestLogUserCount();
    TestLogProductCount();
  }

  lemma TestLogUserCount()
    ensures |Users(TestLog)| == 3
  {
    var u1, u2, u3 := "user1", "user2", "user3";
    assert u1 != u2 && u1 != u3 && u2 != u3 by {
      assert u1[4] != u2[4] && u1[4] != u3[4] && u2[4] != u3[4];
    }
    assert TableColumn(TestLog, RatedUserId) == [u1, u1, u1, u2, u2, u3, u3];
    ThreeLabels(TableColumn(TestLog, RatedUserId), u1, u2, u3);
  }

  lemma TestLogProductCount()
    ensures |Products(TestLog)| == 3
  {
    var p1, p2, p3 := "product1", "product2", "product3";
    assert p1 != p2 && p1 != p3 && p2 != p3 by {
      assert p1[7] != p2[7] && p1[7] != p3[7] && p2[7] != p3[7];
    }
    assert TableColumn(TestLog, RatedProductId) == [p1, p2, p3, p1, p3, p2, p3];
    ThreeLabels(TableColumn(TestLog, RatedProductId), p1, p2, p3);
  }

  /** With the test log both the rating matrix and the similarity matrix are 3 x 3. */
  lemma TestLogShape(cosine: (seq<real>, seq<real>) -> real)
    ensures IsMatrix(RatingMatrix(TestLog, Users(TestLog), Products(TestLog)), 3, 3)
    ensures IsMatrix(SimilarityMatrix(cosine, RatingMatrix(TestLog, Users(TestLog), Products(TestLog)), 3), 3, 3)
  {
    TestLogLabels();
  }

  // ---------------------------------------------------------------------
  // Ranking positions of a score vector (numpy `argsort` and slicing)
  // ---------------------------------------------------------------------

  /** Each position of `scores` paired with its score. */
  function Indexed(scores: seq<real>): (r: seq<Ranked<nat>>)
    ensures |r| == |scores|
    ensures forall i :: 0 <= i < |scores| ==> r[i] == Ranked(i, scores[i])
  {
    seq(|scores|, i requires 0 <= i < |scores| => Ranked(i, scores[i]))
  }

  lemma ArgsortDescFacts(scores: seq<real>)
    ensures var d := Keys(SortDesc(Indexed(scores)));
            |d| == |scores| &&
            (forall k :: 0 <= k < |d| ==> d[k] < |scores|) &&
            Distinct(d) &&
            (forall i :: 0 <= i < |scores| ==> i in d) &&
            (forall a, b :: 0 <= a < b < |d| ==> scores[d[a]] >= scores[d[b]])
  {
    var ix: seq<Ranked<nat>> := Indexed(scores);
    var r: seq<Ranked<nat>> := SortDesc(ix);
    var d := Keys(r);
    forall m | 0 <= m < |r| ensures r[m].key < |scores| && r[m].score == scores[r[m].key] {
      SortDescFrom(ix, m);
      var j :| 0 <= j < |ix| && ix[j] == r[m];
    }
    assert Distinct(Keys(ix)) by {
      forall a, b | 0 <= a < b < |ix| ensures Keys(ix)[a] != Keys(ix)[b] {
        assert Keys(ix)[a] == a && Keys(ix)[b] == b;
      }
    }
    SortDescKeys(ix);
    forall i | 0 <= i < |scores| ensures i in d {
      assert Keys(ix)[i] == i;
      assert Keys(ix)[i] in Keys(ix);
    }
    forall a, b | 0 <= a < b < |d| ensures scores[d[a]] >= scores[d[b]] {
      assert d[a] == r[a].key && d[b] == r[b].key;
    }
  }

  /** The positions of `scores` from the highest score to the lowest: an
      `argsort` read backwards. Tied positions come in no particular order. */
  function ArgsortDesc(scores: seq<real>): (d: seq<nat>)
    ensures |d| == |scores|
    ensures forall k :: 0 <= k < |d| ==> d[k] < |scores|
    ensures Distinct(d)
    ensures forall i :: 0 <= i < |scores| ==> i in d
    ensures forall a, b :: 0 <= a < b < |d| ==> scores[d[a]] >= scores[d[b]]
  {
    ArgsortDescFacts(scores);
    Keys(SortDesc(Indexed(scores)))
  }

  /** `scores.argsort()[-limit:][::-1]`: the last `limit` positions of the
      ascending order, read backwards. Python's slice rules apply to the bound
      `-limit`, so a zero limit keeps every position and a negative one drops
      the `-limit` worst. */
  function TopIndices(scores: seq<real>, limit: int): (t: seq<nat>)
    ensures limit >= 1 ==> |t| == Min(limit, |scores|)
    ensures limit == 0 ==> |t| == |scores|
    ensures limit < 0 ==> |t| == |scores| - Min(-limit, |scores|)
    ensures t == ArgsortDesc(scores)[..|t|]
    ensures forall k :: 0 <= k < |t| ==> t[k] < |scores|
  {
    var d := ArgsortDesc(scores);
    var start := PySliceIndex(-limit, |d|);
    ReverseSuffixOfReverse(d, start);
    Reverse(Reverse(d)[start..])
  }

  /** A prefix of the descending order is a true top list: no position left
      out scores more than the last one kept, and the whole order holds every
      position. */
  lemma PrefixIsTop(scores: seq<real>, k: nat)
    requires k <= |scores|
    ensures var t := ArgsortDesc(scores)[..k];
            (forall i :: 0 <= i < |scores| && i !in t && k > 0 ==> scores[i] <= scores[t[k - 1]]) &&
            (k == |scores| ==> forall i :: 0 <= i < |scores| ==> i in t)
  {
    var d := ArgsortDesc(scores);
    var t := d[..k];
    forall i | 0 <= i < |scores| && i !in t && k > 0 ensures scores[i] <= scores[t[k - 1]] {
      assert i in d;
      var m :| 0 <= m < |d| && d[m] == i;
      NotInPrefix(d, k, m);
      assert t[k - 1] == d[k - 1];
    }
    if k == |scores| {
      assert t == d;
    }
  }

  /** The top list for any limit holds distinct positions, best first, and
      nothing outside it beats it; when it is as long as `scores` it holds
      every position. */
  lemma TopIndicesSpec(scores: seq<real>, limit: int)
    ensures var t := TopIndices(scores, limit);
            Distinct(t) &&
            (forall a, b :: 0 <= a < b < |t| ==> scores[t[a]] >= scores[t[b]]) &&
            (forall i :: 0 <= i < |scores| && i !in t && |t| > 0 ==> scores[i] <= scores[t[|t| - 1]]) &&
            (|t| == |scores| ==> forall i :: 0 <= i < |scores| ==> i in t)
  {
    var t := TopIndices(scores, limit);
    var d := ArgsortDesc(scores);
    PrefixIsTop(scores, |t|);
    assert forall a :: 0 <= a < |t| ==> t[a] == d[a];
  }

  /** Position `k` of a top list scores at least as much as any position that
      is neither kept before it nor kept at all. */
  lemma TopEntryBeats(scores: seq<real>, limit: int, k: nat, j: nat)
    requires k < |TopIndices(scores, limit)| && j < |scores|
    requires j !in TopIndices(scores, limit)[..k]
    ensures scores[j] <= scores[TopIndices(scores, limit)[k]]
  {
    var t := TopIndices(scores, limit);
    TopIndicesSpec(scores, limit);
    if j in t {
      var m :| 0 <= m < |t| && t[m] == j;
      NotInPrefix(t, k, m);
    }
  }

  /** If at least `limit` positions score zero or more, the top `limit` never
      include a negative score. */
  lemma TopIndicesAvoidNegatives(scores: seq<real>, limit: int, good: set<nat>)
    requires limit >= 1
    requires forall i :: i in good ==> i < |scores| && scores[i] >= 0.0
    requires |good| >= limit
    ensures forall k :: 0 <= k < |TopIndices(scores, limit)| ==> scores[TopIndices(scores, limit)[k]] >= 0.0
  {
    var t := TopIndices(scores, limit);
    forall k | 0 <= k < |t| ensures scores[t[k]] >= 0.0 {
      var before := set x | x in t[..k];
      CardinalityOfElements(t[..k]);
      DifferenceCardinality(good, before);
      var j :| j in good - before;
      TopEntryBeats(scores, limit, k, j);
    }
  }

  // ---------------------------------------------------------------------
  // Scoring a user
  // ---------------------------------------------------------------------

  /** `np.dot` of two vectors of the same length. */
  function Dot(a: seq<real>, b: seq<real>): real
    requires |a| == |b|
  {
    if a == [] then 0.0 else a[0] * b[0] + Dot(a[1..], b[1..])
  }

  /** Non-negative vectors have a non-negative product. */
  lemma {:induction false} DotNonNegative(a: seq<real>, b: seq<real>)
    requires |a| == |b|
    requires forall i :: 0 <= i < |a| ==> a[i] >= 0.0 && b[i] >= 0.0
    ensures Dot(a, b) >= 0.0
  {
    if a != [] {
      DotNonNegative(a[1..], b[1..]);
      assert a[0] * b[0] >= 0.0;
    }
  }

  /** The predicted ratings: row `i` of the similarity matrix times the
      user's ratings, except that every item the user rated (a non-zero cell)
      reads -1. */
  function Predicted(sim: seq<seq<real>>, ratings: seq<real>): (p: seq<real>)
    requires IsMatrix(sim, |ratings|, |ratings|)
    ensures |p| == |ratings|
    ensures forall i :: 0 <= i < |ratings| && ratings[i] != 0.0 ==> p[i] == -1.0
    ensures forall i :: 0 <= i < |ratings| && ratings[i] == 0.0 ==> p[i] == Dot(sim[i], ratings)
  {
    seq(|ratings|, i requires 0 <= i < |ratings| =>
      if ratings[i] != 0.0 then -1.0 else Dot(sim[i], ratings))
  }

  /** Every rated item reads -1; with non-negative similarities and ratings
      an item reads below zero exactly when the user rated it. */
  lemma PredictedSign(sim: seq<seq<real>>, ratings: seq<real>)
    requires IsMatrix(sim, |ratings|, |ratings|)
    requires forall i, j :: 0 <= i < |ratings| && 0 <= j < |ratings| ==> sim[i][j] >= 0.0
    requires forall j :: 0 <= j < |ratings| ==> ratings[j] >= 0.0
    ensures forall i :: 0 <= i < |ratings| && ratings[i] != 0.0 ==> Predicted(sim, ratings)[i] == -1.0
    ensures forall i :: 0 <= i < |ratings| ==> (Predicted(sim, ratings)[i] < 0.0 <==> ratings[i] != 0.0)
  {
    forall i | 0 <= i < |ratings| ensures Predicted(sim, ratings)[i] < 0.0 <==> ratings[i] != 0.0 {
      DotNonNegative(sim[i], ratings);
    }
  }

  /** The ids of a result list. */
  function ScoredIds(r: seq<Scored>): (ids: seq<string>)
    ensures |ids| == |r|
    ensures forall k :: 0 <= k < |r| ==> ids[k] == r[k].productId
  {
    seq(|r|, k requires 0 <= k < |r| => r[k].productId)
  }

  /** The product label and score of each position in `idxs`. */
  function Labelled(products: seq<string>, idxs: seq<nat>, scores: seq<real>): (r: seq<Scored>)
    requires forall k :: 0 <= k < |idxs| ==> idxs[k] < |products| && idxs[k] < |scores|
    ensures |r| == |idxs|
    ensures forall k :: 0 <= k < |idxs| ==> r[k] == Scored(products[idxs[k]], scores[idxs[k]])
  {
    seq(|idxs|, k requires 0 <= k < |idxs| => Scored(products[idxs[k]], scores[idxs[k]]))
  }

  /** What `recommend_for_user` returns for a known user whose matrix row is
      `ratings`. */
  function UserRecommendations(products: seq<string>, sim: seq<seq<real>>, ratings: seq<real>, limit: int)
    : (r: seq<Scored>)
    requires |products| == |ratings| && IsMatrix(sim, |ratings|, |ratings|)
    ensures limit >= 1 ==> |r| == Min(limit, |products|)
  {
    var p := Predicted(sim, ratings);
    Labelled(products, TopIndices(p, limit), p)
  }

  /** Entry `k` of a known user's list is the product at the `k`-th best
      position with its predicted rating. */
  lemma UserEntry(products: seq<string>, sim: seq<seq<real>>, ratings: seq<real>, limit: int, k: nat)
    requires |products| == |ratings| && IsMatrix(sim, |ratings|, |ratings|)
    requires k < |UserRecommendations(products, sim, ratings, limit)|
    ensures var t := TopIndices(Predicted(sim, ratings), limit);
            k < |t| && t[k] < |products| &&
            UserRecommendations(products, sim, ratings, limit)[k]
              == Scored(products[t[k]], Predicted(sim, ratings)[t[k]])
  {
  }

  /** A known user gets `min(limit, #products)` entries (for `limit >= 1`),
      each a product with its predicted rating, best first. */
  lemma UserRecommendationsShape(products: seq<string>, sim: seq<seq<real>>, ratings: seq<real>, limit: int)
    requires |products| == |ratings| && IsMatrix(sim, |ratings|, |ratings|)
    ensures var r := UserRecommendations(products, sim, ratings, limit);
            var p := Predicted(sim, ratings);
            (limit >= 1 ==> |r| == Min(limit, |products|)) &&
            (forall k :: 0 <= k < |r| ==> exists i :: 0 <= i < |products| && r[k] == Scored(products[i], p[i])) &&
            (forall a, b :: 0 <= a < b < |r| ==> r[a].score >= r[b].score)
  {
    var r := UserRecommendations(products, sim, ratings, limit);
    var p := Predicted(sim, ratings);
    var t := TopIndices(p, limit);
    TopIndicesSpec(p, limit);
    forall k | 0 <= k < |r| ensures exists i :: 0 <= i < |products| && r[k] == Scored(products[i], p[i]) {
      UserEntry(products, sim, ratings, limit, k);
    }
    forall a, b | 0 <= a < b < |r| ensures r[a].score >= r[b].score {
      UserEntry(products, sim, ratings, limit, a);
      UserEntry(products, sim, ratings, limit, b);
    }
  }

  /** A product left out of a known user's list has a predicted rating no
      higher than the last entry. */
  lemma UserRecommendationsTop(products: seq<string>, sim: seq<seq<real>>, ratings: seq<real>, limit: int, i: nat)
    requires |products| == |ratings| && IsMatrix(sim, |ratings|, |ratings|)
    requires i < |products| && products[i] !in ScoredIds(UserRecommendations(products, sim, ratings, limit))
    requires |UserRecommendations(products, sim, ratings, limit)| > 0
    ensures var r := UserRecommendations(products, sim, ratings, limit);
            Predicted(sim, ratings)[i] <= r[|r| - 1].score
  {
    var r := UserRecommendations(products, sim, ratings, limit);
    var p := Predicted(sim, ratings);
    var t := TopIndices(p, limit);
    TopIndicesSpec(p, limit);
    forall k | 0 <= k < |t| ensures t[k] != i {
      UserEntry(products, sim, ratings, limit, k);
      assert ScoredIds(r)[k] == products[t[k]];
    }
    UserEntry(products, sim, ratings, limit, |r| - 1);
  }

  /** With distinct column labels no product appears twice in a known user's list. */
  lemma UserRecommendationsDistinct(products: seq<string>, sim: seq<seq<real>>, ratings: seq<real>, limit: int)
    requires |products| == |ratings| && IsMatrix(sim, |ratings|, |ratings|)
    requires Distinct(products)
    ensures Distinct(ScoredIds(UserRecommendations(products, sim, ratings, limit)))
  {
    var r := UserRecommendations(products, sim, ratings, limit);
    var p := Predicted(sim, ratings);
    TopIndicesSpec(p, limit);
    forall a, b | 0 <= a < b < |r| ensures ScoredIds(r)[a] != ScoredIds(r)[b] {
      UserEntry(products, sim, ratings, limit, a);
      UserEntry(products, sim, ratings, limit, b);
    }
  }

  /** With non-negative similarities and ratings, and at least `limit` items
      the user has not rated, no item the user rated is recommended: every
      entry has a non-negative predicted rating, and its column reads 0. */
  lemma RatedNeverRecommended(products: seq<string>, sim: seq<seq<real>>, ratings: seq<real>, limit: int)
    requires |products| == |ratings| && IsMatrix(sim, |ratings|, |ratings|)
    requires forall i, j :: 0 <= i < |ratings| && 0 <= j < |ratings| ==> sim[i][j] >= 0.0
    requires forall j :: 0 <= j < |ratings| ==> ratings[j] >= 0.0
    requires limit >= 1 && |set i | 0 <= i < |ratings| && ratings[i] == 0.0| >= limit
    ensures var r := UserRecommendations(products, sim, ratings, limit);
            forall k :: 0 <= k < |r| ==> r[k].score >= 0.0
    ensures var t := TopIndices(Predicted(sim, ratings), limit);
            forall k :: 0 <= k < |t| ==> ratings[t[k]] == 0.0
  {
    var p := Predicted(sim, ratings);
    var unrated := set i | 0 <= i < |ratings| && ratings[i] == 0.0;
    forall i | i in unrated ensures i < |p| && p[i] >= 0.0 {
      DotNonNegative(sim[i], ratings);
    }
    TopIndicesAvoidNegatives(p, limit, unrated);
  }

  // ---------------------------------------------------------------------
  // Neighbours of a product
  // ---------------------------------------------------------------------

  /** Keeps every position but `idx` (`similar_indices != idx`). */
  function Except(idx: nat): nat -> bool
  {
    (j: nat) => j != idx
  }

  /** `argsort()[-limit-1:][::-1]` on the product's similarity row, then the
      product's own position removed and the rest cut with `[:limit]`. */
  function SimilarIndices(row: seq<real>, idx: nat, limit: int): (s: seq<nat>)
    ensures forall k :: 0 <= k < |s| ==> s[k] < |row| && s[k] != idx
  {
    var others := Others(row, idx, limit);
    var s := others[..PySliceIndex(limit, |others|)];
    assert forall k :: 0 <= k < |s| ==> s[k] in others;
    s
  }

  /** The candidates of a neighbour query with the product's own position removed. */
  function Others(row: seq<real>, idx: nat, limit: int): (o: seq<nat>)
    ensures forall k :: 0 <= k < |o| ==> o[k] < |row| && o[k] != idx
  {
    var candidates := TopIndices(row, limit + 1);
    var o := Filter(Except(idx), candidates);
    assert forall k :: 0 <= k < |o| ==> o[k] in candidates && Except(idx)(o[k]);
    o
  }

  /** Higher-or-equal similarity between two positions of `row`. */
  function AtLeastAsSimilar(row: seq<real>): (nat, nat) -> bool
  {
    (a: nat, b: nat) => a < |row| && b < |row| && row[a] >= row[b]
  }

  /** The neighbour positions are a prefix of the remaining candidates, which
      keep the candidates' order and have no duplicates. */
  lemma OthersFacts(row: seq<real>, idx: nat, limit: int)
    ensures var others := Others(row, idx, limit);
            var s := SimilarIndices(row, idx, limit);
            s == others[..|s|] && Distinct(others) &&
            (forall a, b :: 0 <= a < b < |others| ==> AtLeastAsSimilar(row)(others[a], others[b]))
  {
    var candidates := TopIndices(row, limit + 1);
    TopIndicesSpec(row, limit + 1);
    FilterDistinct(Except(idx), candidates);
    FilterKeepsOrder(Except(idx), candidates, AtLeastAsSimilar(row));
  }

  /** Removing the product's own position shortens the candidates by one
      exactly when it was among them. */
  lemma OthersLength(row: seq<real>, idx: nat, limit: int)
    ensures var candidates := TopIndices(row, limit + 1);
            |Others(row, idx, limit)| == if idx in candidates then |candidates| - 1 else |candidates|
  {
    var candidates := TopIndices(row, limit + 1);
    TopIndicesSpec(row, limit + 1);
    FilterOutOne(Except(idx), candidates, idx);
  }

  /** For `limit >= 1` a product gets `min(limit, #products - 1)` neighbours. */
  lemma SimilarIndicesLength(row: seq<real>, idx: nat, limit: int)
    requires idx < |row| && limit >= 1
    ensures |SimilarIndices(row, idx, limit)| == Min(limit, |row| - 1)
  {
    var candidates := TopIndices(row, limit + 1);
    TopIndicesSpec(row, limit + 1);
    OthersLength(row, idx, limit);
    assert |candidates| == |row| ==> idx in candidates;
  }

  /** The neighbours are distinct positions, most similar first. */
  lemma SimilarIndicesOrder(row: seq<real>, idx: nat, limit: int)
    ensures var s := SimilarIndices(row, idx, limit);
            Distinct(s) && (forall a, b :: 0 <= a < b < |s| ==> row[s[a]] >= row[s[b]])
  {
    var others := Others(row, idx, limit);
    var s := SimilarIndices(row, idx, limit);
    OthersFacts(row, idx, limit);
    forall a, b | 0 <= a < b < |s| ensures s[a] != s[b] && row[s[a]] >= row[s[b]] {
      assert s[a] == others[a] && s[b] == others[b];
      assert AtLeastAsSimilar(row)(others[a], others[b]);
    }
  }

  /** No other position left out of the neighbours is more similar than the
      last one kept. */
  lemma SimilarIndicesTop(row: seq<real>, idx: nat, limit: int, j: nat)
    requires idx < |row| && limit >= 1
    requires j < |row| && j != idx && j !in SimilarIndices(row, idx, limit)
    requires |SimilarIndices(row, idx, limit)| > 0
    ensures var s := SimilarIndices(row, idx, limit);
            row[j] <= row[s[|s| - 1]]
  {
    var candidates := TopIndices(row, limit + 1);
    var others := Others(row, idx, limit);
    var s := SimilarIndices(row, idx, limit);
    if j in candidates {
      assert j in others;
      var m :| 0 <= m < |others| && others[m] == j;
      OthersFacts(row, idx, limit);
      NotInPrefix(others, |s|, m);
      LaterCandidateNoBetter(row, idx, limit, m);
    } else {
      NonCandidateNoBetter(row, idx, limit, j);
    }
  }

  /** A remaining candidate after the neighbours is no more similar than the last neighbour. */
  lemma LaterCandidateNoBetter(row: seq<real>, idx: nat, limit: int, m: nat)
    requires 0 < |SimilarIndices(row, idx, limit)| <= m < |Others(row, idx, limit)|
    ensures var s := SimilarIndices(row, idx, limit);
            row[Others(row, idx, limit)[m]] <= row[s[|s| - 1]]
  {
    var others := Others(row, idx, limit);
    var s := SimilarIndices(row, idx, limit);
    OthersFacts(row, idx, limit);
    assert s[|s| - 1] == others[|s| - 1];
    assert AtLeastAsSimilar(row)(others[|s| - 1], others[m]);
  }

  /** A position that is not even a candidate is no more similar than any neighbour. */
  lemma NonCandidateNoBetter(row: seq<real>, idx: nat, limit: int, j: nat)
    requires j < |row| && j !in TopIndices(row, limit + 1)
    requires |SimilarIndices(row, idx, limit)| > 0
    ensures var s := SimilarIndices(row, idx, limit);
            row[j] <= row[s[|s| - 1]]
  {
    var candidates := TopIndices(row, limit + 1);
    var others := Others(row, idx, limit);
    var s := SimilarIndices(row, idx, limit);
    TopIndicesSpec(row, limit + 1);
    OthersFacts(row, idx, limit);
    var lastKept := s[|s| - 1];
    assert lastKept == others[|s| - 1] && lastKept in others;
    assert lastKept in candidates;
    var last :| 0 <= last < |candidates| && candidates[last] == lastKept;
    assert row[j] <= row[candidates[|candidates| - 1]];
    assert last == |candidates| - 1 || row[candidates[last]] >= row[candidates[|candidates| - 1]];
  }

  /** What `find_similar` returns for a product at column `idx` whose row of
      the similarity matrix is `row`. */
  function SimilarProducts(products: seq<string>, row: seq<real>, idx: nat, limit: int): (r: seq<Scored>)
    requires |products| == |row|
    ensures forall k :: 0 <= k < |r| ==> exists j :: 0 <= j < |row| && j != idx && r[k] == Scored(products[j], row[j])
  {
    Labelled(products, SimilarIndices(row, idx, limit), row)
  }

  /** With distinct column labels the neighbours never include the product
      itself and never repeat; there are `min(limit, #products - 1)` of them,
      each with its similarity, most similar first. */
  lemma SimilarProductsSpec(products: seq<string>, row: seq<real>, idx: nat, limit: int)
    requires |products| == |row| && idx < |row| && limit >= 1
    requires Distinct(products)
    ensures var r := SimilarProducts(products, row, idx, limit);
            |r| == Min(limit, |products| - 1) &&
            products[idx] !in ScoredIds(r) &&
            Distinct(ScoredIds(r)) &&
            (forall k :: 0 <= k < |r| ==> exists j :: 0 <= j < |row| && j != idx && r[k] == Scored(products[j], row[j])) &&
            (forall a, b :: 0 <= a < b < |r| ==> r[a].score >= r[b].score)
  {
    var r := SimilarProducts(products, row, idx, limit);
    var s := SimilarIndices(row, idx, limit);
    SimilarIndicesLength(row, idx, limit);
    SimilarIndicesOrder(row, idx, limit);
    forall k | 0 <= k < |r| ensures ScoredIds(r)[k] != products[idx] {
      assert ScoredIds(r)[k] == products[s[k]];
    }
    forall a, b | 0 <= a < b < |r| ensures ScoredIds(r)[a] != ScoredIds(r)[b] {
      assert s[a] != s[b];
    }
    forall k | 0 <= k < |r| ensures exists j :: 0 <= j < |row| && j != idx && r[k] == Scored(products[j], row[j]) {
      assert r[k] == Scored(products[s[k]], row[s[k]]);
    }
  }

  // ---------------------------------------------------------------------
  // Popular items (the aggregation pipeline)
  // ---------------------------------------------------------------------

  function AsScored(t: seq<Ranked<string>>): (r: seq<Scored>)
    ensures |r| == |t|
    ensures forall i :: 0 <= i < |t| ==> r[i] == Scored(t[i].key, t[i].score)
  {
    seq(|t|, i requires 0 <= i < |t| => Scored(t[i].key, t[i].score))
  }

  /** `$group` by product with a count, `$sort` by count descending, `$limit`.
      MongoDB rejects a `$limit` that is not positive. */
  function PopularItems(db: seq<RatedInteraction>, limit: int): (r: Result<seq<Scored>>)
    ensures r.Err? <==> limit <= 0
    ensures r.Ok? ==> |r.value| <= limit
  {
    if limit <= 0 then Err("the $limit stage requires a positive integer")
    else Ok(AsScored(MostFrequent(TableColumn(db, RatedProductId), limit)))
  }

  /** A non-positive limit fails; otherwise the `min(limit, #products)` most
      interacted-with products come back once each, each with its number of
      interactions, most first, and a product left out has no more
      interactions than the last one listed. */
  lemma PopularItemsSpec(db: seq<RatedInteraction>, limit: int)
    ensures limit <= 0 <==> PopularItems(db, limit).Err?
    ensures limit >= 1 ==>
              var r := PopularItems(db, limit).value;
              var col := TableColumn(db, RatedProductId);
              |r| == Min(limit, |Products(db)|) &&
              Distinct(ScoredIds(r)) &&
              (forall i :: 0 <= i < |r| ==> r[i].productId in col && r[i].score == Count(col, r[i].productId) as real) &&
              (forall a, b :: 0 <= a < b < |r| ==> r[a].score >= r[b].score) &&
              (forall q :: q in col && q !in ScoredIds(r) ==> |r| == limit && Count(col, q) as real <= r[limit - 1].score)
  {
    if limit >= 1 {
      var col := TableColumn(db, RatedProductId);
      var m := MostFrequent(col, limit);
      var r := PopularItems(db, limit).value;
      MostFrequentSpec(col, limit);
      assert ScoredIds(r) == Keys(m);
    }
  }

  /** The product with strictly the most interactions is listed first. */
  lemma UniqueFavouriteFirst(db: seq<RatedInteraction>, limit: int, p: string)
    requires limit >= 1 && p in TableColumn(db, RatedProductId)
    requires forall q :: q in TableColumn(db, RatedProductId) && q != p ==> Count(TableColumn(db, RatedProductId), q) < Count(TableColumn(db, RatedProductId), p)
    ensures PopularItems(db, limit).Ok?
    ensures |PopularItems(db, limit).value| >= 1 && PopularItems(db, limit).value[0].productId == p
  {
    var col := TableColumn(db, RatedProductId);
    var r := PopularItems(db, limit).value;
    PopularItemsSpec(db, limit);
    assert p in Products(db);
    assert r[0].score >= Count(col, p) as real by {
      if p in ScoredIds(r) {
        var k :| 0 <= k < |r| && ScoredIds(r)[k] == p;
        assert r[k].productId == p;
      }
    }
  }

  // ---------------------------------------------------------------------
  // Reverse mapping and the model-level guarantee
  // ---------------------------------------------------------------------

  /** `{v: k for k, v in product_indices.items()}` for a mapping that never
      gives two labels the same position. */
  function Inverse(m: map<string, nat>): (inv: map<nat, string>)
    requires forall a, b :: a in m && b in m && m[a] == m[b] ==> a == b
    ensures forall a :: a in m ==> m[a] in inv && inv[m[a]] == a
  {
    map a | a in m :: m[a] := a
  }

  /** Reading the column index backwards gives back the column labels. */
  lemma InverseIndexMap(products: seq<string>)
    requires Distinct(products)
    ensures forall a, b :: (a in IndexMap(products) && b in IndexMap(products) &&
              IndexMap(products)[a] == IndexMap(products)[b]) ==> a == b
    ensures forall i :: 0 <= i < |products| ==>
              i in Inverse(IndexMap(products)) && Inverse(IndexMap(products))[i] == products[i]
  {
    var m := IndexMap(products);
    forall i | 0 <= i < |products| ensures i in Inverse(m) && Inverse(m)[i] == products[i] {
      assert products[i] in m && m[products[i]] == i;
    }
  }

  /** The list comprehensions of both queries: each position through
      `reverse_mapping`, with its score. */
  function Relabelled(names: map<nat, string>, idxs: seq<nat>, scores: seq<real>): (r: seq<Scored>)
    requires forall k :: 0 <= k < |idxs| ==> idxs[k] in names && idxs[k] < |scores|
    ensures |r| == |idxs|
    ensures forall k :: 0 <= k < |idxs| ==> r[k].productId in names.Values && r[k].score == scores[idxs[k]]
  {
    seq(|idxs|, k requires 0 <= k < |idxs| => Scored(names[idxs[k]], scores[idxs[k]]))
  }

  /** Going through the reverse of the column index labels each position
      with its own column. */
  lemma RelabelledByInverse(products: seq<string>, idxs: seq<nat>, scores: seq<real>)
    requires Distinct(products)
    requires forall k :: 0 <= k < |idxs| ==> idxs[k] < |products| && idxs[k] < |scores|
    ensures forall a, b :: (a in IndexMap(products) && b in IndexMap(products) &&
              IndexMap(products)[a] == IndexMap(products)[b]) ==> a == b
    ensures forall k :: 0 <= k < |idxs| ==> idxs[k] in Inverse(IndexMap(products))
    ensures Relabelled(Inverse(IndexMap(products)), idxs, scores) == Labelled(products, idxs, scores)
  {
    InverseIndexMap(products);
  }

  /** With non-negative ratings every cell of the pivot is non-negative. */
  lemma {:induction false} CellNonNegative(db: seq<RatedInteraction>, u: string, p: string)
    requires forall row :: row in db ==> row.rating >= 0.0
    ensures PairSum(db, u, p) >= 0.0
    ensures Cell(db, u, p) >= 0.0
  {
    if db != [] {
      assert forall row :: row in db[1..] ==> row in db;
      CellNonNegative(db[1..], u, p);
      assert db[0] in db;
    }
  }

  /** No entry of `v` is negative. */
  predicate NonNegativeVector(v: seq<real>)
  {
    forall i :: 0 <= i < |v| ==> v[i] >= 0.0
  }

  /** For a known user, with non-negative ratings and a similarity measure
      that is non-negative on non-negative vectors (as cosine similarity is), and
      at least `limit` products the user has no rating for: every product
      recommended has a zero cell for the user, that is, the user never rated
      it (or rated it 0). */
  lemma KnownUserNeverGetsRatedProduct(db: seq<RatedInteraction>, cosine: (seq<real>, seq<real>) -> real,
                                       u: string, limit: int)
    requires u in Users(db)
    requires forall row :: row in db ==> row.rating >= 0.0
    requires forall a, b :: NonNegativeVector(a) && NonNegativeVector(b) ==> cosine(a, b) >= 0.0
    requires limit >= 1
    requires |set j | 0 <= j < |Products(db)| && Cell(db, u, Products(db)[j]) == 0.0| >= limit
    ensures var users := Users(db);
            var products := Products(db);
            var m := RatingMatrix(db, users, products);
            var r := UserRecommendations(products, SimilarityMatrix(cosine, m, |products|), m[IndexOf(users, u)], limit);
            forall k :: 0 <= k < |r| ==> Cell(db, u, r[k].productId) == 0.0
  {
    var users := Users(db);
    var products := Products(db);
    var m := RatingMatrix(db, users, products);
    var sim := SimilarityMatrix(cosine, m, |products|);
    var ratings := m[IndexOf(users, u)];
    assert |ratings| == |products| && IsMatrix(sim, |ratings|, |ratings|);
    forall j | 0 <= j < |ratings| ensures ratings[j] == Cell(db, u, products[j]) && ratings[j] >= 0.0 {
      CellNonNegative(db, u, products[j]);
    }
    forall i, j | 0 <= i < |users| && 0 <= j < |products| ensures m[i][j] >= 0.0 {
      CellNonNegative(db, users[i], products[j]);
    }
    forall i, j | 0 <= i < |ratings| && 0 <= j < |ratings| ensures sim[i][j] >= 0.0 {
      var a, b := Column(m, |products|, i), Column(m, |products|, j);
      assert NonNegativeVector(a) && NonNegativeVector(b);
      assert sim[i][j] == cosine(a, b);
    }
    assert (set j | 0 <= j < |ratings| && ratings[j] == 0.0)
        == (set j | 0 <= j < |products| && Cell(db, u, products[j]) == 0.0);
    RatedNeverRecommended(products, sim, ratings, limit);
    var r := UserRecommendations(products, sim, ratings, limit);
    forall k | 0 <= k < |r| ensures Cell(db, u, r[k].productId) == 0.0 {
      UserEntry(products, sim, ratings, limit, k);
    }
  }

  // ---------------------------------------------------------------------
  // The model object
  // ---------------------------------------------------------------------

  /** `CollaborativeFilteringModel`: the interaction collection it reads and
      the similarity measure it applies are fixed when it is built; training
      fills in the matrices and the column index. */
  class CollaborativeFilteringModel {
    const db: seq<RatedInteraction>
    const cosine: (seq<real>, seq<real>) -> real
    var users: seq<string>
    var products: seq<string>
    var userItemMatrix: seq<seq<real>>
    var itemSimilarityMatrix: seq<seq<real>>
    var productIndices: map<string, nat>
    var trained: bool

    /** Once trained, the fields hold what training computes from the collection. */
    ghost predicate Valid()
      reads this
    {
      trained ==>
        users == Users(db) && products == Products(db) &&
        userItemMatrix == RatingMatrix(db, users, products) &&
        itemSimilarityMatrix == SimilarityMatrix(cosine, userItemMatrix, |products|) &&
        productIndices == IndexMap(products)
    }

    constructor (db: seq<RatedInteraction>, cosine: (seq<real>, seq<real>) -> real)
      ensures this.db == db && this.cosine == cosine
      ensures !trained && Valid()
    {
      this.db := db;
      this.cosine := cosine;
      users := [];
      products := [];
      userItemMatrix := [];
      itemSimilarityMatrix := [];
      productIndices := map[];
      trained := false;
    }

    /** `train`: pivot, similarity matrix, column index. */
    method Train()
      modifies this
      ensures trained && Valid()
      ensures users == Users(db) && products == Products(db)
    {
      var interactions := db;
      users := Users(interactions);
      products := Products(interactions);
      userItemMatrix := RatingMatrix(interactions, users, products);
      itemSimilarityMatrix := SimilarityMatrix(cosine, userItemMatrix, |products|);
      productIndices := IndexMap(products);
      trained := true;
    }

    /** `recommend_for_user`: trains on first use; an unknown user gets the
        popular items; a known user gets the products with the highest
        predicted ratings, rated ones forced to -1 first. */
    method RecommendForUser(userId: string, limit: int) returns (recommendations: Result<seq<Scored>>)
      requires Valid()
      modifies this
      ensures trained && Valid()
      ensures userId !in users ==> recommendations == PopularItems(db, limit)
      ensures userId in users ==>
                recommendations == Ok(UserRecommendations(products, itemSimilarityMatrix,
                                                          userItemMatrix[IndexOf(users, userId)], limit))
    {
      if !trained {
        Train();
      }
      if userId !in users {
        recommendations := PopularItems(db, limit);
        return;
      }
      var n := |products|;
      var userRatings := userItemMatrix[IndexOf(users, userId)];
      assert |userRatings| == n && IsMatrix(itemSimilarityMatrix, n, n);
      var predictedRatings := new real[n];
      forall i | 0 <= i < n {
        predictedRatings[i] := Dot(itemSimilarityMatrix[i], userRatings);
      }
      forall i | 0 <= i < n && userRatings[i] != 0.0 {
        predictedRatings[i] := -1.0;
      }
      var scores := predictedRatings[..];
      assert scores == Predicted(itemSimilarityMatrix, userRatings);
      var recIndices := TopIndices(scores, limit);
      RelabelledByInverse(products, recIndices, scores);
      var reverseMapping := Inverse(productIndices);
      recommendations := Ok(Relabelled(reverseMapping, recIndices, scores));
    }

    /** `find_similar`: trains on first use; an unknown product gets nothing;
        otherwise its most similar other products. */
    method FindSimilar(productId: string, limit: int) returns (similarProducts: seq<Scored>)
      requires Valid()
      modifies this
      ensures trained && Valid()
      ensures productId !in productIndices ==> similarProducts == []
      ensures productId in productIndices ==>
                productIndices[productId] < |products| &&
                similarProducts == SimilarProducts(products, itemSimilarityMatrix[productIndices[productId]],
                                                   productIndices[productId], limit)
    {
      if !trained {
        Train();
      }
      if productId !in productIndices {
        return [];
      }
      var idx := productIndices[productId];
      var similarityScores := itemSimilarityMatrix[idx];
      var similarIndices := SimilarIndices(similarityScores, idx, limit);
      RelabelledByInverse(products, similarIndices, similarityScores);
      var reverseMapping := Inverse(productIndices);
      similarProducts := Relabelled(reverseMapping, similarIndices, similarityScores);
    }
  }

  // ---------------------------------------------------------------------
  // The model's unit-test scenario
  // ---------------------------------------------------------------------

  /** The columns of the test log and the distinctness of its labels. */
  lemma TestLogFacts()
    ensures TableColumn(TestLog, RatedUserId) == ["user1", "user1", "user1", "user2", "user2", "user3", "user3"]
    ensures TableColumn(TestLog, RatedProductId) == ["product1", "product2", "product3", "product1", "product3", "product2", "product3"]
    ensures "product1" != "product2" && "product1" != "product3" && "product2" != "product3"
    ensures "user1" != "user2" && "user1" != "user3" && "user2" != "user3"
  {
    var p1, p2, p3 := "product1", "product2", "product3";
    assert p1 != p2 && p1 != p3 && p2 != p3 by {
      assert p1[7] != p2[7] && p1[7] != p3[7] && p2[7] != p3[7];
    }
    var u1, u2, u3 := "user1", "user2", "user3";
    assert u1 != u2 && u1 != u3 && u2 != u3 by {
      assert u1[4] != u2[4] && u1[4] != u3[4] && u2[4] != u3[4];
    }
  }

  /** How often a value occurs in a column reading `a b c a c b c`. */
  lemma PatternCount(a: string, b: string, c: string, q: string)
    requires a != b && a != c && b != c
    ensures Count([a, b, c, a, c, b, c], q)
         == (if q == a then 2 else 0) + (if q == b then 2 else 0) + (if q == c then 3 else 0)
  {
    var s6 := [c];
    var s5 := [b] + s6;
    var s4 := [c] + s5;
    var s3 := [a] + s4;
    var s2 := [c] + s3;
    var s1 := [b] + s2;
    var s0 := [a] + s1;
    assert s0 == [a, b, c, a, c, b, c];
    assert [c] + [] == s6;
    CountCons(c, [], q);
    CountCons(b, s6, q);
    CountCons(c, s5, q);
    CountCons(a, s4, q);
    CountCons(c, s3, q);
    CountCons(b, s2, q);
    CountCons(a, s1, q);
  }

  /** In a product column reading `a b c a c b c`, `c` is the unique
      favourite. */
  lemma FavouriteOfThree(col: seq<string>, a: string, b: string, c: string)
    requires a != b && a != c && b != c
    requires col == [a, b, c, a, c, b, c]
    ensures c in col
    ensures forall q :: q in col && q != c ==> Count(col, q) < Count(col, c)
  {
    assert col[2] == c;
    PatternCount(a, b, c, c);
    forall q | q in col && q != c ensures Count(col, q) < Count(col, c) {
      PatternCount(a, b, c, q);
    }
  }

  /** With a unique favourite and at least two products, two popular items
      come back, the favourite first. */
  lemma TwoPopularFavouriteFirst(db: seq<RatedInteraction>, p: string)
    requires p in TableColumn(db, RatedProductId) && |Products(db)| >= 2
    requires forall q :: q in TableColumn(db, RatedProductId) && q != p ==> Count(TableColumn(db, RatedProductId), q) < Count(TableColumn(db, RatedProductId), p)
    ensures PopularItems(db, 2).Ok?
    ensures |PopularItems(db, 2).value| == 2
    ensures PopularItems(db, 2).value[0].productId == p
  {
    UniqueFavouriteFirst(db, 2, p);
    PopularItemsSpec(db, 2);
  }

  /** An unknown user of the test log gets two popular items, `product3`
      (three interactions) first. */
  lemma TestNewUserGetsProduct3First()
    ensures PopularItems(TestLog, 2).Ok?
    ensures |PopularItems(TestLog, 2).value| == 2
    ensures PopularItems(TestLog, 2).value[0].productId == "product3"
  {
    TestLogFacts();
    FavouriteOfThree(TableColumn(TestLog, RatedProductId), "product1", "product2", "product3");
    TestLogProductCount();
    TwoPopularFavouriteFirst(TestLog, "product3");
  }

  /** A user who rated every column gets only -1 scores: the rated products
      come back after all when nothing else is left to fill the list. */
  lemma EverythingRatedComesBack(products: seq<string>, sim: seq<seq<real>>, ratings: seq<real>, limit: int)
    requires |products| == |ratings| && IsMatrix(sim, |ratings|, |ratings|)
    requires forall j :: 0 <= j < |ratings| ==> ratings[j] != 0.0
    ensures var r := UserRecommendations(products, sim, ratings, limit);
            forall k :: 0 <= k < |r| ==>
              r[k].score == -1.0 && exists j :: 0 <= j < |ratings| && ratings[j] != 0.0 && r[k].productId == products[j]
  {
    var r := UserRecommendations(products, sim, ratings, limit);
    forall k | 0 <= k < |r| ensures r[k].score == -1.0 &&
      exists j :: 0 <= j < |ratings| && ratings[j] != 0.0 && r[k].productId == products[j]
    {
      UserEntry(products, sim, ratings, limit, k);
    }
  }

  /** `user1` has a non-zero cell for each of the test log's products. */
  lemma UserOneRated(p: string)
    requires p == "product1" || p == "product2" || p == "product3"
    ensures Cell(TestLog, "user1", p) != 0.0
  {
    TestLogFacts();
    var x := if p == "product1" then 5.0 else if p == "product2" then 3.0 else 4.0;
    var i := if p == "product1" then 0 else if p == "product2" then 1 else 2;
    assert TestLog[i].userId == "user1" && TestLog[i].productId == p && TestLog[i].rating == x;
    forall r | r in TestLog && r.userId == "user1" && r.productId == p ensures r.rating == x {
    }
    PairCountPositive(TestLog, "user1", p);
    CellMeaning(TestLog, "user1", p, x);
  }

  /** `user1` is a known user of the test log and its row has no zero. */
  lemma TestUser1Row()
    ensures "user1" in Users(TestLog)
    ensures forall j :: 0 <= j < |Products(TestLog)| ==> Cell(TestLog, "user1", Products(TestLog)[j]) != 0.0
  {
    TestLogFacts();
    assert TableColumn(TestLog, RatedUserId)[0] == "user1";
    forall j | 0 <= j < |Products(TestLog)| ensures Cell(TestLog, "user1", Products(TestLog)[j]) != 0.0 {
      var p := Products(TestLog)[j];
      assert p in TableColumn(TestLog, RatedProductId);
      UserOneRated(p);
    }
  }

  /** A known user with a non-zero cell for every product gets `limit`
      products back (for `1 <= limit <= #products`), all of them rated by that
      user and scored -1. */
  lemma AllRatedUserGetsRatedProducts(db: seq<RatedInteraction>, cosine: (seq<real>, seq<real>) -> real,
                                      u: string, limit: int)
    requires u in Users(db)
    requires forall j :: 0 <= j < |Products(db)| ==> Cell(db, u, Products(db)[j]) != 0.0
    requires 1 <= limit <= |Products(db)|
    ensures var users := Users(db);
            var products := Products(db);
            var m := RatingMatrix(db, users, products);
            var r := UserRecommendations(products, SimilarityMatrix(cosine, m, |products|), m[IndexOf(users, u)], limit);
            |r| == limit && forall k :: 0 <= k < |r| ==> r[k].score == -1.0 && Cell(db, u, r[k].productId) != 0.0
  {
    var users := Users(db);
    var products := Products(db);
    var m := RatingMatrix(db, users, products);
    var sim := SimilarityMatrix(cosine, m, |products|);
    var ratings := m[IndexOf(users, u)];
    assert forall j :: 0 <= j < |ratings| ==> ratings[j] == Cell(db, u, products[j]);
    EverythingRatedComesBack(products, sim, ratings, limit);
    UserRecommendationsShape(products, sim, ratings, limit);
  }

  /** In the test log `user1` rated all three products, so both of the two
      products recommended to `user1` are ones `user1` already rated, each
      scored -1. */
  lemma TestUser1GetsRatedProducts(cosine: (seq<real>, seq<real>) -> real)
    ensures "user1" in Users(TestLog)
    ensures var users := Users(TestLog);
            var products := Products(TestLog);
            var m := RatingMatrix(TestLog, users, products);
            var r := UserRecommendations(products, SimilarityMatrix(cosine, m, |products|), m[IndexOf(users, "user1")], 2);
            |r| == 2 && forall k :: 0 <= k < |r| ==> r[k].score == -1.0 && Cell(TestLog, "user1", r[k].productId) != 0.0
  {
    TestUser1Row();
    TestLogProductCount();
    AllRatedUserGetsRatedProducts(TestLog, cosine, "user1", 2);
  }

  /** The unit tests ask for a user the test log does not have. */
  lemma TestLogHasNoNewUser()
    ensures "new_user" !in Users(TestLog)
  {
    TestLogFacts();
    var col := TableColumn(TestLog, RatedUserId);
    forall y | y in col ensures y != "new_user" {
      assert y[0] == 'u';
    }
  }

  /** The unit tests ask for a product the test log has and one it does not. */
  lemma TestLogProductNames()
    ensures "product1" in Products(TestLog) && "nonexistent" !in Products(TestLog)
  {
    TestLogFacts();
    var col := TableColumn(TestLog, RatedProductId);
    assert col[0] == "product1";
    forall y | y in col ensures y != "nonexistent" {
      assert y[0] == 'p';
    }
  }

  /** The model's unit tests, run on any log with the test log's shape:
      training yields 3 x 3 matrices; `user1` gets two entries; an unknown
      user gets two popular items, `product3` first; `product1` has two
      neighbours; an unknown product has none. */
  method UnitTests(db: seq<RatedInteraction>, cosine: (seq<real>, seq<real>) -> real)
    returns (ratingShape: (nat, nat), similarityShape: (nat, nat), existing: Result<seq<Scored>>,
             newcomer: Result<seq<Scored>>,
             similar: seq<Scored>, none: seq<Scored>)
    requires |Users(db)| == 3 && |Products(db)| == 3
    requires "user1" in Users(db)
    requires forall j :: 0 <= j < |Products(db)| ==> Cell(db, "user1", Products(db)[j]) != 0.0
    requires "new_user" !in Users(db)
    requires "product3" in TableColumn(db, RatedProductId)
    requires forall q :: q in TableColumn(db, RatedProductId) && q != "product3" ==> Count(TableColumn(db, RatedProductId), q) < Count(TableColumn(db, RatedProductId), "product3")
    requires "product1" in Products(db) && "nonexistent" !in Products(db)
    ensures ratingShape == (3, 3) && similarityShape == (3, 3)
    ensures existing.Ok? && |existing.value| == 2
    ensures forall k :: 0 <= k < |existing.value| ==> Cell(db, "user1", existing.value[k].productId) != 0.0
    ensures newcomer.Ok? && |newcomer.value| == 2 && newcomer.value[0].productId == "product3"
    ensures |similar| == 2
    ensures none == []
  {
    var model := new CollaborativeFilteringModel(db, cosine);
    model.Train();
    assert model.trained && IsMatrix(model.userItemMatrix, 3, 3) && IsMatrix(model.itemSimilarityMatrix, 3, 3);
    ratingShape := (|model.userItemMatrix|, |model.userItemMatrix[0]|);
    similarityShape := (|model.itemSimilarityMatrix|, |model.itemSimilarityMatrix[0]|);

    existing := model.RecommendForUser("user1", 2);
    AllRatedUserGetsRatedProducts(db, cosine, "user1", 2);
    assert existing.Ok? && |existing.value| == 2;

    newcomer := model.RecommendForUser("new_user", 2);
    TwoPopularFavouriteFirst(db, "product3");
    assert newcomer.Ok? && |newcomer.value| == 2 && newcomer.value[0].productId == "product3";

    assert "product1" in model.productIndices;
    similar := model.FindSimilar("product1", 2);
    var idx := model.productIndices["product1"];
    SimilarProductsSpec(model.products, model.itemSimilarityMatrix[idx], idx, 2);
    assert |similar| == 2;

    assert "nonexistent" !in model.productIndices;
    none := model.FindSimilar("nonexistent", 2);
  }

  /** The unit tests on the test log itself. */
  method TestScenario(cosine: (seq<real>, seq<real>) -> real)
    returns (ratingShape: (nat, nat), similarityShape: (nat, nat), existing: Result<seq<Scored>>,
             newcomer: Result<seq<Scored>>,
             similar: seq<Scored>, none: seq<Scored>)
    ensures ratingShape == (3, 3) && similarityShape == (3, 3)
    ensures existing.Ok? && |existing.value| == 2
    ensures newcomer.Ok? && |newcomer.value| == 2 && newcomer.value[0].productId == "product3"
    ensures |similar| == 2
    ensures none == []
  {
    TestLogLabels();
    TestUser1Row();
    TestLogHasNoNewUser();
    TestLogProductNames();
    TestLogFacts();
    FavouriteOfThree(TableColumn(TestLog, RatedProductId), "product1", "product2", "product3");
    ratingShape, similarityShape, existing, newcomer, similar, none := UnitTests(TestLog, cosine);
  }
}
