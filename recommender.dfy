/** `get_recommendations` of `recommender/recommender.py`: the products a user
    interacted with come first, in catalogue order; the list is padded with
    products the user has not interacted with; a user with no interactions
    gets the head of the catalogue; database failures fall back to that head
    and then to nothing. */
module Recommender {
  import opened Seqs
  import opened Records

  /** A catalogue document; only `_id` takes part in the selection. */
  datatype Product = Product(id: string, name: string, category: string)

  /** pymongo's `cursor.limit(k)`: 0 means no limit, and a negative `k` returns
      at most `-k` documents (in a single batch). */
  function MongoLimit<T>(s: seq<T>, k: int): (r: seq<T>)
    ensures r <= s
    ensures k != 0 ==> |r| == Min(if k < 0 then -k else k, |s|)
    ensures k == 0 ==> r == s
  {
    if k == 0 then s else Take(s, if k < 0 then -k else k)
  }

  /** `{'_id': {'$in': ids}}`: catalogue products whose id is in `ids`, in catalogue order. */
  function WithIdIn(catalogue: seq<Product>, ids: seq<string>): seq<Product>
  {
    Filter((p: Product) => p.id in ids, catalogue)
  }

  /** `{'_id': {'$nin': ids}}`: catalogue products whose id is not in `ids`. */
  function WithIdNotIn(catalogue: seq<Product>, ids: seq<string>): seq<Product>
  {
    Filter((p: Product) => p.id !in ids, catalogue)
  }

  /** What the call returns. `primaryOk` says whether the queries inside the
      `try` block succeed; `fallbackOk` whether the fallback query in the
      `except` block does. */
  function Recommendations(catalogue: seq<Product>, log: seq<Interaction>, userId: string,
                           n: int, primaryOk: bool, fallbackOk: bool): (r: seq<Product>)
    ensures n >= 1 ==> |r| <= n
    ensures forall p :: p in r ==> p in catalogue
  {
    if !primaryOk then
      (if fallbackOk then MongoLimit(catalogue, n) else [])
    else
      var ids := TableColumn(RowsOf(log, userId), ProductId);
      if ids == [] then MongoLimit(catalogue, n)
      else
        var lead := MongoLimit(WithIdIn(catalogue, ids), n);
        if |lead| < n then lead + MongoLimit(WithIdNotIn(catalogue, ids), n - |lead|)
        else lead
  }

  /** The call itself: the interacted products are fetched and, when there
      are fewer than `n`, the list is extended with padding. */
  method GetRecommendations(catalogue: seq<Product>, log: seq<Interaction>, userId: string,
                            n: int, primaryOk: bool, fallbackOk: bool)
    returns (recommendations: seq<Product>)
    ensures recommendations == Recommendations(catalogue, log, userId, n, primaryOk, fallbackOk)
  {
    if !primaryOk {
      if fallbackOk {
        recommendations := MongoLimit(catalogue, n);
      } else {
        recommendations := [];
      }
      return;
    }
    var interactions := RowsOf(log, userId);
    if interactions == [] {
      recommendations := MongoLimit(catalogue, n);
      return;
    }
    var productIds := TableColumn(interactions, ProductId);
    recommendations := MongoLimit(WithIdIn(catalogue, productIds), n);
    if |recommendations| < n {
      var popularProducts := MongoLimit(WithIdNotIn(catalogue, productIds), n - |recommendations|);
      recommendations := recommendations + popularProducts;
    }
  }

  /** A user with no interactions gets exactly the first `n` catalogue products. */
  lemma NoHistoryGivesCatalogueHead(catalogue: seq<Product>, log: seq<Interaction>,
                                    userId: string, n: int, fallbackOk: bool)
    requires n >= 1
    requires forall row :: row in log ==> row.userId != userId
    ensures Recommendations(catalogue, log, userId, n, true, fallbackOk) == Take(catalogue, n)
  {
    FilterNone((row: Interaction) => row.userId == userId, log);
  }

  lemma HasInteractedIds(log: seq<Interaction>, userId: string, row: Interaction)
    requires row in log && row.userId == userId
    ensures TableColumn(RowsOf(log, userId), ProductId) != []
  {
    assert row in RowsOf(log, userId);
  }

  /** The result starts with the catalogue products the user interacted with,
      at most `n` of them; everything after them is a catalogue product the
      user never interacted with. */
  lemma InteractedFirstThenPadding(catalogue: seq<Product>, log: seq<Interaction>,
                                   userId: string, n: int, fallbackOk: bool, row: Interaction)
    requires n >= 1
    requires row in log && row.userId == userId
    ensures var ids := TableColumn(RowsOf(log, userId), ProductId);
            var r := Recommendations(catalogue, log, userId, n, true, fallbackOk);
            var k := Min(n, |WithIdIn(catalogue, ids)|);
            k <= |r| && r[..k] == Take(WithIdIn(catalogue, ids), n) &&
            (forall i :: 0 <= i < k ==> r[i] in catalogue && r[i].id in ids) &&
            (forall i :: k <= i < |r| ==> r[i] in catalogue && r[i].id !in ids)
  {
    HasInteractedIds(log, userId, row);
    var ids := TableColumn(RowsOf(log, userId), ProductId);
    var r := Recommendations(catalogue, log, userId, n, true, fallbackOk);
    var inIds := WithIdIn(catalogue, ids);
    var k := Min(n, |inIds|);
    forall i | 0 <= i < k ensures r[i] in catalogue && r[i].id in ids {
      assert r[i] == inIds[i] && inIds[i] in inIds;
    }
  }

  /** The interacted products keep their catalogue order. */
  lemma InteractedKeepCatalogueOrder(catalogue: seq<Product>, log: seq<Interaction>,
                                     userId: string, n: int, fallbackOk: bool, row: Interaction)
    requires n >= 1
    requires row in log && row.userId == userId
    ensures var ids := TableColumn(RowsOf(log, userId), ProductId);
            var r := Recommendations(catalogue, log, userId, n, true, fallbackOk);
            var k := Min(n, |WithIdIn(catalogue, ids)|);
            OrderedWithin(r[..k], catalogue)
  {
    InteractedFirstThenPadding(catalogue, log, userId, n, fallbackOk, row);
    var ids := TableColumn(RowsOf(log, userId), ProductId);
    var r := Recommendations(catalogue, log, userId, n, true, fallbackOk);
    var inIds := WithIdIn(catalogue, ids);
    var k := Min(n, |inIds|);
    FilterOrderedWithin((p: Product) => p.id in ids, catalogue, k);
    assert r[..k] == inIds[..k];
  }

  /** For `n >= 1` the result has at most `n` products; when padding happens
      it has `min(n, |catalogue|)`. */
  lemma LengthBound(catalogue: seq<Product>, log: seq<Interaction>, userId: string,
                    n: int, primaryOk: bool, fallbackOk: bool)
    requires n >= 1
    ensures |Recommendations(catalogue, log, userId, n, primaryOk, fallbackOk)| <= n
    ensures var ids := TableColumn(RowsOf(log, userId), ProductId);
            primaryOk && ids != [] && |WithIdIn(catalogue, ids)| < n ==>
              |Recommendations(catalogue, log, userId, n, primaryOk, fallbackOk)| == Min(n, |catalogue|)
  {
    var ids := TableColumn(RowsOf(log, userId), ProductId);
    FilterPartition((p: Product) => p.id in ids, (p: Product) => p.id !in ids, catalogue);
  }

  /** No two products share an `_id`. */
  ghost predicate UniqueIds(products: seq<Product>)
  {
    forall i, j :: 0 <= i < j < |products| ==> products[i].id != products[j].id
  }

  /** With unique catalogue ids the result never lists a product twice: the
      `$in` and `$nin` queries split the catalogue. */
  lemma NoDuplicates(catalogue: seq<Product>, log: seq<Interaction>, userId: string,
                     n: int, primaryOk: bool, fallbackOk: bool)
    requires UniqueIds(catalogue)
    ensures UniqueIds(Recommendations(catalogue, log, userId, n, primaryOk, fallbackOk))
  {
    var ids := TableColumn(RowsOf(log, userId), ProductId);
    var inIds := WithIdIn(catalogue, ids);
    var notInIds := WithIdNotIn(catalogue, ids);
    var differ := (a: Product, b: Product) => a.id != b.id;
    FilterKeepsOrder((p: Product) => p.id in ids, catalogue, differ);
    FilterKeepsOrder((p: Product) => p.id !in ids, catalogue, differ);
    var r := Recommendations(catalogue, log, userId, n, primaryOk, fallbackOk);
    if primaryOk && ids != [] {
      var lead := MongoLimit(inIds, n);
      if |lead| < n {
        var pad := MongoLimit(notInIds, n - |lead|);
        assert r == lead + pad;
        forall i, j | 0 <= i < j < |r| ensures r[i].id != r[j].id {
          if j < |lead| {
            assert r[i] == inIds[i] && r[j] == inIds[j];
          } else if i >= |lead| {
            assert r[i] == notInIds[i - |lead|] && r[j] == notInIds[j - |lead|];
          } else {
            assert r[i] == inIds[i] && inIds[i] in inIds;
            assert r[j] == pad[j - |lead|] && pad[j - |lead|] in notInIds;
          }
        }
      }
    }
  }

  /** When the primary path fails the result is the first `n` catalogue
      products, or nothing when that query fails too. */
  lemma FailureFallsBack(catalogue: seq<Product>, log: seq<Interaction>, userId: string,
                         n: int, fallbackOk: bool)
    requires n >= 1
    ensures Recommendations(catalogue, log, userId, n, false, fallbackOk)
         == if fallbackOk then Take(catalogue, n) else []
  {
  }
}
