/** The history rule of `recommender/model.py`: a known user is offered the
    last two products of their own rows, anyone else a fixed default pair. */
module RecommenderModel {
  import opened Seqs
  import opened Records

  /** Offered to users the log does not know. */
  const DefaultPair: seq<string> := ["p1", "p2"]

  /** The last `k` elements of `s`, or all of it when shorter (pandas `tail(k)`). */
  function Last<T>(s: seq<T>, k: nat): (r: seq<T>)
    ensures |r| == Min(k, |s|)
    ensures r == s[|s| - |r|..]
  {
    if k < |s| then s[|s| - k..] else s
  }

  /** Whatever `tail(k)` keeps was in the sequence. */
  lemma LastWithin<T>(s: seq<T>, k: nat, x: T)
    requires x in Last(s, k)
    ensures x in s
  {
    var r := Last(s, k);
    var i :| 0 <= i < |r| && r[i] == x;
    assert s[|s| - |r| + i] == x;
  }

  function RecommendByUserHistory(df: seq<Interaction>, userId: string): (r: seq<string>)
    ensures |r| <= 2
    ensures userId !in TableColumn(df, UserId) ==> r == DefaultPair
  {
    if userId in TableColumn(df, UserId) then Last(TableColumn(RowsOf(df, userId), ProductId), 2)
    else DefaultPair
  }

  /** A user with no row in the log gets exactly the default pair. */
  lemma UnknownUserGetsDefaultPair(df: seq<Interaction>, userId: string)
    requires forall row :: row in df ==> row.userId != userId
    ensures RecommendByUserHistory(df, userId) == ["p1", "p2"]
  {
    forall i | 0 <= i < |df| ensures TableColumn(df, UserId)[i] != userId {
      assert df[i] in df;
    }
  }

  /** A known user gets the product ids of their last `min(2, #rows)` rows, in
      log order; each is a product that user interacted with. */
  lemma KnownUserGetsLastTwo(df: seq<Interaction>, userId: string, row: Interaction)
    requires row in df && row.userId == userId
    ensures var mine := TableColumn(RowsOf(df, userId), ProductId);
            var r := RecommendByUserHistory(df, userId);
            |r| == Min(2, |RowsOf(df, userId)|) &&
            r == mine[|mine| - |r|..]
    ensures forall p :: p in RecommendByUserHistory(df, userId) ==>
              exists mineRow :: mineRow in df && mineRow.userId == userId && mineRow.productId == p
  {
    var i :| 0 <= i < |df| && df[i] == row;
    var known := TableColumn(df, UserId);
    assert known[i] == userId;
    var mine := RowsOf(df, userId);
    var ids := TableColumn(mine, ProductId);
    var r := Last(ids, 2);
    assert RecommendByUserHistory(df, userId) == r;
    forall p | p in r
      ensures exists mineRow :: mineRow in df && mineRow.userId == userId && mineRow.productId == p
    {
      LastWithin(ids, 2, p);
      ProductIdMembership(mine, p);
    }
  }

  /** No de-duplication: when the last two rows name the same product, it is
      offered twice. */
  lemma RepeatedLastProductIsOfferedTwice()
    ensures RecommendByUserHistory(
              [Interaction("u1", "p1", "view"), Interaction("u1", "p3", "view"),
               Interaction("u2", "p2", "click"), Interaction("u1", "p3", "purchase")],
              "u1") == ["p3", "p3"]
  {
    var df := [Interaction("u1", "p1", "view"), Interaction("u1", "p3", "view"),
               Interaction("u2", "p2", "click"), Interaction("u1", "p3", "purchase")];
    assert TableColumn(df, UserId)[0] == "u1";
    assert RowsOf(df, "u1") == [df[0], df[1], df[3]];
  }
}
