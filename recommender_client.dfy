/** The co-occurrence rule of `api/recommender_client.py`: among the products
    a user has never interacted with, offer the (up to) five that occur in the
    most rows of the interaction log. */
module RecommenderClient {
  import opened Seqs
  import opened Ranking
  import opened Popularity
  import opened Records

  /** How many products are offered at most (`head(5)`). */
  const TopN: nat := 5

  /** Product ids of the user's own rows (`seen_products`). */
  function SeenProducts(df: seq<Interaction>, userId: string): seq<string>
  {
    TableColumn(RowsOf(df, userId), ProductId)
  }

  /** The rows whose product the user has not seen. */
  function UnseenRows(df: seq<Interaction>, seen: seq<string>): seq<Interaction>
  {
    Filter((row: Interaction) => row.productId !in seen, df)
  }

  function RecommendByUserHistory(df: seq<Interaction>, userId: string): (r: seq<string>)
    ensures |r| <= TopN
    ensures SeenProducts(df, userId) == [] ==> r == []
  {
    var seen := SeenProducts(df, userId);
    if seen == [] then []
    else Keys(MostFrequent(TableColumn(UnseenRows(df, seen), ProductId), TopN))
  }

  /** Dropping the rows of seen products leaves the row count of every unseen
      product unchanged. */
  lemma {:induction false} UnseenCountsKept(df: seq<Interaction>, seen: seq<string>, p: string)
    requires p !in seen
    ensures Count(TableColumn(UnseenRows(df, seen), ProductId), p) == Count(TableColumn(df, ProductId), p)
  {
    if df != [] {
      UnseenCountsKept(df[1..], seen, p);
      var kept := if df[0].productId !in seen then [df[0]] else [];
      var rest := UnseenRows(df[1..], seen);
      assert UnseenRows(df, seen) == kept + rest;
      TableColumnConcat(kept, rest, ProductId);
      CountConcat(TableColumn(kept, ProductId), TableColumn(rest, ProductId), p);
      assert df == [df[0]] + df[1..];
      TableColumnConcat([df[0]], df[1..], ProductId);
      CountConcat(TableColumn([df[0]], ProductId), TableColumn(df[1..], ProductId), p);
    }
  }

  /** A user without rows gets nothing. */
  lemma NoHistoryNoRecommendations(df: seq<Interaction>, userId: string)
    requires forall row :: row in df ==> row.userId != userId
    ensures RecommendByUserHistory(df, userId) == []
  {
    FilterNone((row: Interaction) => row.userId == userId, df);
  }

  /** The `i`-th offered product with the count it was ranked by. */
  lemma OfferedEntry(df: seq<Interaction>, userId: string, i: nat)
    requires i < |RecommendByUserHistory(df, userId)|
    ensures var seen := SeenProducts(df, userId);
            var r := RecommendByUserHistory(df, userId);
            var top := MostFrequent(TableColumn(UnseenRows(df, seen), ProductId), TopN);
            seen != [] && r[i] == top[i].key && r[i] !in seen && r[i] in TableColumn(df, ProductId) &&
            top[i].score == Count(TableColumn(df, ProductId), r[i]) as real
  {
    var seen := SeenProducts(df, userId);
    var unseen := UnseenRows(df, seen);
    MostFrequentEntries(TableColumn(unseen, ProductId), TopN, i);
    var p := MostFrequent(TableColumn(unseen, ProductId), TopN)[i].key;
    ProductIdMembership(unseen, p);
    ProductIdMembership(df, p);
    UnseenCountsKept(df, seen, p);
  }

  /** At most five products are offered, each once; every one occurs in the
      log and is a product the user has not seen. */
  lemma RecommendByUserHistoryBounds(df: seq<Interaction>, userId: string)
    ensures |RecommendByUserHistory(df, userId)| <= Min(TopN, |df|)
    ensures Distinct(RecommendByUserHistory(df, userId))
    ensures forall p :: p in RecommendByUserHistory(df, userId) ==>
              p in TableColumn(df, ProductId) && p !in SeenProducts(df, userId)
  {
    var seen := SeenProducts(df, userId);
    var r := RecommendByUserHistory(df, userId);
    if seen != [] {
      var ids := TableColumn(UnseenRows(df, seen), ProductId);
      MostFrequentShape(ids, TopN);
      forall p | p in r ensures p in TableColumn(df, ProductId) && p !in seen {
        var i :| 0 <= i < |r| && r[i] == p;
        OfferedEntry(df, userId, i);
      }
    }
  }

  /** Offered products come in non-increasing order of their row counts. */
  lemma RecommendByUserHistoryOrder(df: seq<Interaction>, userId: string)
    ensures var r := RecommendByUserHistory(df, userId);
            forall i, j :: 0 <= i < j < |r| ==>
              Count(TableColumn(df, ProductId), r[i]) >= Count(TableColumn(df, ProductId), r[j])
  {
    var seen := SeenProducts(df, userId);
    var r := RecommendByUserHistory(df, userId);
    if seen != [] {
      var ids := TableColumn(UnseenRows(df, seen), ProductId);
      MostFrequentShape(ids, TopN);
      forall i, j | 0 <= i < j < |r|
        ensures Count(TableColumn(df, ProductId), r[i]) >= Count(TableColumn(df, ProductId), r[j])
      {
        OfferedEntry(df, userId, i);
        OfferedEntry(df, userId, j);
      }
    }
  }

  /** A true top five: an unseen product of the log that is not offered only
      misses the cut, so five are offered and it is no more frequent than the
      fifth. */
  lemma RecommendByUserHistoryTop(df: seq<Interaction>, userId: string, p: string)
    requires SeenProducts(df, userId) != []
    requires p in TableColumn(df, ProductId) && p !in SeenProducts(df, userId)
    requires p !in RecommendByUserHistory(df, userId)
    ensures |RecommendByUserHistory(df, userId)| == 5
    ensures Count(TableColumn(df, ProductId), p) <= Count(TableColumn(df, ProductId), RecommendByUserHistory(df, userId)[4])
  {
    var seen := SeenProducts(df, userId);
    var unseen := UnseenRows(df, seen);
    var ids := TableColumn(unseen, ProductId);
    ProductIdMembership(df, p);
    var row :| row in df && row.productId == p;
    assert row in unseen;
    ProductIdMembership(unseen, p);
    MostFrequentLeftOut(ids, TopN, p);
    UnseenCountsKept(df, seen, p);
    OfferedEntry(df, userId, 4);
  }

  /** The log of the client's unit test: u1 is offered p2 or p3, never p1. */
  lemma UnitTestExample()
    ensures var df := [Interaction("u1", "p1", "purchase"), Interaction("u2", "p2", "click"),
                       Interaction("u3", "p2", "click"), Interaction("u4", "p3", "click")];
            var r := RecommendByUserHistory(df, "u1");
            "p2" in r && "p1" !in r
  {
    var df := [Interaction("u1", "p1", "purchase"), Interaction("u2", "p2", "click"),
               Interaction("u3", "p2", "click"), Interaction("u4", "p3", "click")];
    assert RowsOf(df, "u1") == [df[0]];
    assert SeenProducts(df, "u1") == ["p1"];
    RecommendByUserHistoryBounds(df, "u1");
    var r := RecommendByUserHistory(df, "u1");
    assert TableColumn(df, ProductId)[1] == "p2";
    assert "p2" !in r ==> |r| == 5 by {
      if "p2" !in r {
        RecommendByUserHistoryTop(df, "u1", "p2");
      }
    }
  }
}
