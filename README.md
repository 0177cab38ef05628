# Recommendation routines, modelled in Dafny

This project models the five recommendation routines of the e-commerce
recommendation system. Each one becomes a ranking, selection or filter rule
once the database is replaced by in-memory sequences of records.

- **Item-item collaborative filtering** (`CollaborativeFilteringModel`, module
  `CollaborativeFiltering`). The model is a class with the fields of the
  source (`db`, `trained`, `userItemMatrix`, `itemSimilarityMatrix`,
  `productIndices`), plus `users` and `products` for the matrix's row and
  column labels (a pandas index in the source) and `cosine`, the similarity
  measure the source imports from `sklearn`:
  - `Train` builds three things from the interaction log: the user x product
    rating matrix (the mean rating of each pair, 0 where a pair has no rating),
    the item-item similarity matrix, and the column index `productIndices`.
  - `RecommendForUser` and `FindSimilar` train lazily. `RecommendForUser`
    scores a known user with `similarity x ratings`, fills a `real` array and
    overwrites every rated item with -1. It keeps the `limit` best positions
    (`argsort()[-limit:][::-1]`) and maps them back through the reversed
    column index.
  - An unknown user gets the popularity list of the aggregation pipeline
    (`$group` / `$sort` / `$limit`). A non-positive `$limit` is an error there.
  - `FindSimilar` keeps the `limit + 1` most similar positions, removes the
    product's own position and cuts to `limit`.
  - The similarity measure is a parameter of the model (`cosine`).
- **History with padding** (`get_recommendations`, module `Recommender`).
  - The catalogue products the user interacted with come first, in catalogue
    order. The list is padded with products the user has not interacted with.
  - A user without history gets the head of the catalogue.
  - Failures fall back to the head of the catalogue, then to nothing.
- **Unseen co-occurrence popularity** (`recommend_by_user_history` in
  `api/recommender_client.py`, module `RecommenderClient`). The client offers
  the five products with the most log rows among the products the user has
  never seen.
- **Last two items** (`recommend_by_user_history` in `recommender/model.py`,
  module `RecommenderModel`). A known user gets the products of their last two
  rows. Anyone else gets `["p1", "p2"]`.
- **Accessory lookup** (`make_recommendations`, module `AccessoryService`).
  The accessories of each preference are concatenated and the list is cut to
  six.

The shared helpers are:
- `Seqs`: prefixes, filters, first-appearance de-duplication, counts, and
  Python's slice-bound normalisation;
- `Ranking`: a descending insertion sort whose order among equal scores is left
  open;
- `Popularity`: group-by-count, then sort, then head;
- `Records`: interaction rows with `user_id`, `product_id` and `action`.

Three consequences of the code as written are proved, not assumed:
- **Rated products can still come back.** `recommend_for_user` only lowers
  rated items to -1. A user with fewer than `limit` unrated products still gets
  `limit` entries, and the rated ones fill the gap with score -1
  (`EverythingRatedComesBack`). The `user1` unit test relies on this: `user1`
  rated all three products and still receives two (`TestUser1GetsRatedProducts`).
  With non-negative ratings, a similarity measure that is non-negative on
  non-negative vectors (as cosine similarity is) and at least `limit` unrated
  products, no rated product is returned (`KnownUserNeverGetsRatedProduct`).
- **A product rated 0 counts as unrated**, because only non-zero cells are
  lowered to -1: its prediction is the plain dot product (`Predicted`,
  `PredictedSign`).
- **A limit of 0 means "all items".** `argsort()[-0:]` is the whole order, so
  `recommend_for_user` with `limit == 0` returns every product for a known
  user; an unknown user gets the popularity list, whose `$limit` stage
  refuses 0. A negative limit drops positions from the end (`TopIndices`).

## Model

| member | source | states |
|---|---|---|
| CollaborativeFiltering.CollaborativeFilteringModel.constructor | project5/recommendation-service/src/models/collaborative_filtering.py:7-11 | the model keeps its log and similarity measure and starts untrained |
| CollaborativeFiltering.CollaborativeFilteringModel.Train | project5/recommendation-service/src/models/collaborative_filtering.py:13-38 | afterwards the model is trained; its row and column labels are the log's users and products; the rating matrix, similarity matrix and column index are those of the log (`Valid`) |
| CollaborativeFiltering.CollaborativeFilteringModel.RecommendForUser | project5/recommendation-service/src/models/collaborative_filtering.py:40-75 | trains if needed; an unknown user gets the popularity list of the pipeline; a known user gets `UserRecommendations` of their matrix row, built by overwriting rated cells of the prediction array with -1 and reading positions back through the reversed column index |
| CollaborativeFiltering.CollaborativeFilteringModel.FindSimilar | project5/recommendation-service/src/models/collaborative_filtering.py:77-108 | trains if needed; an unknown product gets `[]`; a known one gets `SimilarProducts` of its similarity row at its own column |
| CollaborativeFiltering.RatingMatrix | project5/recommendation-service/src/models/collaborative_filtering.py:22-26 | the matrix is #users x #products and cell (i, j) is the pair's pivot cell (mean rating, 0 when absent) |
| CollaborativeFiltering.CellMeaning | project5/recommendation-service/src/models/collaborative_filtering.py:22-26 | a pair without a rating reads 0; a pair whose ratings all equal `x` reads `x` |
| CollaborativeFiltering.PairSumUniform | project5/recommendation-service/src/models/collaborative_filtering.py:22-26 | when all of a pair's ratings equal `x`, they sum to `x` times their number |
| CollaborativeFiltering.PairCountPositive | project5/recommendation-service/src/models/collaborative_filtering.py:22-26 | a pair has ratings exactly when some row of the log holds it |
| CollaborativeFiltering.PivotLabels | project5/recommendation-service/src/models/collaborative_filtering.py:22-26 | row labels are exactly the log's users and column labels exactly its products, each once |
| CollaborativeFiltering.PivotMissingPairIsZero | project5/recommendation-service/src/models/collaborative_filtering.py:26 | `fillna(0)`: a user and product that never met have cell 0 |
| CollaborativeFiltering.CellNonNegative | project5/recommendation-service/src/models/collaborative_filtering.py:22-26 | non-negative ratings give non-negative cells |
| CollaborativeFiltering.SimilarityMatrix | project5/recommendation-service/src/models/collaborative_filtering.py:29 | one similarity per pair of item columns: a #products x #products matrix |
| CollaborativeFiltering.IndexMap | project5/recommendation-service/src/models/collaborative_filtering.py:32-35 | the column index is a bijection between the column labels and `0 .. #products-1`, each label to its own column |
| CollaborativeFiltering.InverseIndexMap | project5/recommendation-service/src/models/collaborative_filtering.py:66 | the index is injective and its reverse maps each column back to its label |
| CollaborativeFiltering.Inverse | project5/recommendation-service/src/models/collaborative_filtering.py:66 | the reversed mapping takes each value back to its key |
| CollaborativeFiltering.Relabelled | project5/recommendation-service/src/models/collaborative_filtering.py:66-73 | one entry per position, named by the reversed index and carrying that position's score; the same comprehension at lines 99-106 |
| CollaborativeFiltering.RelabelledByInverse | project5/recommendation-service/src/models/collaborative_filtering.py:66-73 | labelling positions through the reversed index is labelling them with their own column |
| CollaborativeFiltering.ArgsortDesc | project5/recommendation-service/src/models/collaborative_filtering.py:63 | `argsort()[::-1]`: a permutation of the positions, scores non-increasing |
| CollaborativeFiltering.ArgsortDescFacts | project5/recommendation-service/src/models/collaborative_filtering.py:63 | the sorted keys of the indexed scores are a permutation of the positions, best first |
| CollaborativeFiltering.TopIndices | project5/recommendation-service/src/models/collaborative_filtering.py:63 | `argsort()[-limit:][::-1]` is a prefix of the descending order: `min(limit, n)` long for `limit >= 1`, all `n` for `limit == 0`, `n - min(-limit, n)` for negative limits |
| CollaborativeFiltering.PrefixIsTop | project5/recommendation-service/src/models/collaborative_filtering.py:63 | no position outside a prefix of the descending order beats its last entry; the full-length prefix holds every position |
| CollaborativeFiltering.TopIndicesSpec | project5/recommendation-service/src/models/collaborative_filtering.py:63 | the top list is distinct, best first, and any position left out scores no more than its last entry |
| CollaborativeFiltering.TopEntryBeats | project5/recommendation-service/src/models/collaborative_filtering.py:63 | entry `k` scores at least as much as every position not listed before it |
| CollaborativeFiltering.TopIndicesAvoidNegatives | project5/recommendation-service/src/models/collaborative_filtering.py:60-63 | with at least `limit` positions scoring zero or more, no negative score is in the top `limit` |
| CollaborativeFiltering.DotNonNegative | project5/recommendation-service/src/models/collaborative_filtering.py:54 | the dot product of non-negative vectors is non-negative |
| CollaborativeFiltering.Predicted | project5/recommendation-service/src/models/collaborative_filtering.py:54-60 | one prediction per product: every rated product reads -1, and every product rated 0 reads the dot product of its similarity row with the user's ratings |
| CollaborativeFiltering.UserRecommendations | project5/recommendation-service/src/models/collaborative_filtering.py:63-73 | for `limit >= 1`, exactly `min(limit, #products)` entries |
| CollaborativeFiltering.SimilarProducts | project5/recommendation-service/src/models/collaborative_filtering.py:92-107 | every entry is some other product paired with its similarity to this one |
| CollaborativeFiltering.AsScored | project5/recommendation-service/src/models/collaborative_filtering.py:121-127 | one entry per aggregated group, its `_id` as product id and its count as score, in the pipeline's order |
| CollaborativeFiltering.PopularItems | project5/recommendation-service/src/models/collaborative_filtering.py:110-127 | fails exactly when `limit <= 0`; otherwise at most `limit` entries |
| CollaborativeFiltering.PredictedSign | project5/recommendation-service/src/models/collaborative_filtering.py:54-60 | every rated item reads -1; with non-negative inputs a prediction is negative exactly when the item is rated |
| CollaborativeFiltering.UserEntry | project5/recommendation-service/src/models/collaborative_filtering.py:63-73 | entry `k` is the product at the `k`-th best position with its predicted rating |
| CollaborativeFiltering.UserRecommendationsShape | project5/recommendation-service/src/models/collaborative_filtering.py:63-73 | `min(limit, #products)` entries for `limit >= 1`, each a product with its predicted rating, scores non-increasing |
| CollaborativeFiltering.UserRecommendationsTop | project5/recommendation-service/src/models/collaborative_filtering.py:63 | a product left out scores no more than the last entry |
| CollaborativeFiltering.UserRecommendationsDistinct | project5/recommendation-service/src/models/collaborative_filtering.py:63-73 | no product is listed twice |
| CollaborativeFiltering.RatedNeverRecommended | project5/recommendation-service/src/models/collaborative_filtering.py:57-63 | with non-negative similarities and ratings and at least `limit` unrated items, every entry scores >= 0 and is unrated |
| CollaborativeFiltering.KnownUserNeverGetsRatedProduct | project5/recommendation-service/src/models/collaborative_filtering.py:46-73 | the same guarantee stated on the trained log, for non-negative ratings and a measure that is non-negative on non-negative vectors: every product recommended to a known user has a zero cell for that user |
| CollaborativeFiltering.EverythingRatedComesBack | project5/recommendation-service/src/models/collaborative_filtering.py:57-63 | a user who rated every item still gets entries, all rated products scored -1 |
| CollaborativeFiltering.AllRatedUserGetsRatedProducts | project5/recommendation-service/src/models/collaborative_filtering.py:46-73 | a known user with no zero cell gets `limit` products (for `1 <= limit <= #products`), all rated by them and scored -1 |
| CollaborativeFiltering.SimilarIndices | project5/recommendation-service/src/models/collaborative_filtering.py:93-96 | every neighbour is a valid position other than the product's own |
| CollaborativeFiltering.Others | project5/recommendation-service/src/models/collaborative_filtering.py:93-96 | the `limit + 1` best candidates with the mask `!= idx` applied: every one is a column of the row other than the product itself |
| CollaborativeFiltering.OthersFacts | project5/recommendation-service/src/models/collaborative_filtering.py:93-96 | the neighbours are a prefix of the candidates minus the product, which are distinct and ordered by similarity |
| CollaborativeFiltering.OthersLength | project5/recommendation-service/src/models/collaborative_filtering.py:96 | removing the product shortens the candidates by one exactly when it is among them |
| CollaborativeFiltering.SimilarIndicesLength | project5/recommendation-service/src/models/collaborative_filtering.py:93-96 | a product gets `min(limit, #products - 1)` neighbours for `limit >= 1` |
| CollaborativeFiltering.SimilarIndicesOrder | project5/recommendation-service/src/models/collaborative_filtering.py:93-96 | neighbours are distinct, most similar first |
| CollaborativeFiltering.SimilarIndicesTop | project5/recommendation-service/src/models/collaborative_filtering.py:93-96 | another product left out is no more similar than the last neighbour |
| CollaborativeFiltering.LaterCandidateNoBetter | project5/recommendation-service/src/models/collaborative_filtering.py:96 | a candidate cut by `[:limit]` is no more similar than the last neighbour |
| CollaborativeFiltering.NonCandidateNoBetter | project5/recommendation-service/src/models/collaborative_filtering.py:93 | a position outside `argsort()[-limit-1:]` is no more similar than the last neighbour |
| CollaborativeFiltering.SimilarProductsSpec | project5/recommendation-service/src/models/collaborative_filtering.py:83-108 | `min(limit, #products - 1)` entries, never the product itself, no repeats, each another product with its similarity, most similar first |
| CollaborativeFiltering.PopularItemsSpec | project5/recommendation-service/src/models/collaborative_filtering.py:110-127 | a non-positive limit fails; otherwise `min(limit, #products)` distinct products, each with its number of interactions, most first, and any product left out has no more interactions than the last |
| CollaborativeFiltering.UniqueFavouriteFirst | project5/recommendation-service/src/models/collaborative_filtering.py:113-119 | the product with strictly the most interactions is listed first |
| CollaborativeFiltering.TwoPopularFavouriteFirst | project5/recommendation-service/src/models/collaborative_filtering.py:113-119 | with a unique favourite and two or more products, two entries come back, the favourite first |
| CollaborativeFiltering.TestLogShape | project5/recommendation-service/tests/test_collaborative_filtering.py:37-53 | on the test log both matrices are 3 x 3 |
| CollaborativeFiltering.TestLogLabels | project5/recommendation-service/tests/test_collaborative_filtering.py:15-23 | the test log has three users and three products |
| CollaborativeFiltering.ThreeLabels | project5/recommendation-service/tests/test_collaborative_filtering.py:15-23 | a column of three distinct values yields three labels |
| CollaborativeFiltering.PatternCount | project5/recommendation-service/tests/test_collaborative_filtering.py:15-23 | the product column of the test log holds two of the first product, two of the second, three of the third |
| CollaborativeFiltering.FavouriteOfThree | project5/recommendation-service/tests/test_collaborative_filtering.py:15-23 | in that column the third product is the unique favourite |
| CollaborativeFiltering.TestNewUserGetsProduct3First | project5/recommendation-service/tests/test_collaborative_filtering.py:68-78 | an unknown user of the test log gets two items, `product3` first. This holds for the real `$group`/`$sort`/`$limit` pipeline; the test's aggregate mock (lines 29-33) ignores `$limit` and returns three rows, so against the mock the length assertion at line 77 does not hold |
| CollaborativeFiltering.TestUser1Row | project5/recommendation-service/tests/test_collaborative_filtering.py:55-64 | `user1` is known and has no zero cell |
| CollaborativeFiltering.UserOneRated | project5/recommendation-service/tests/test_collaborative_filtering.py:16-18 | `user1` rated each of the three products |
| CollaborativeFiltering.TestUser1GetsRatedProducts | project5/recommendation-service/tests/test_collaborative_filtering.py:55-64 | `user1` gets two entries, both rated products scored -1 |
| CollaborativeFiltering.TestLogHasNoNewUser | project5/recommendation-service/tests/test_collaborative_filtering.py:74 | `new_user` is not a row label of the test log |
| CollaborativeFiltering.UnitTests | project5/recommendation-service/tests/test_collaborative_filtering.py:37-102 | on any log shaped like the fixture, the five tests' assertions hold: 3 x 3 rating and similarity matrices, two entries for `user1` (all rated by them), two popular items for `new_user` with `product3` first, two neighbours of `product1`, and `[]` for `nonexistent` |
| CollaborativeFiltering.TestScenario | project5/recommendation-service/tests/test_collaborative_filtering.py:15-102 | the same five assertions on the fixture log itself |
| CollaborativeFiltering.TestLogProductNames | project5/recommendation-service/tests/test_collaborative_filtering.py:86-99 | `product1` is a column label and `nonexistent` is not |
| Recommender.Recommendations | recommender/recommender.py:15-50 | at most `n` products for `n >= 1`, each one from the catalogue |
| Recommender.GetRecommendations | recommender/recommender.py:15-50 | the result of the call is `Recommendations` of the catalogue and the log |
| Recommender.MongoLimit | recommender/recommender.py:25 | `limit(k)` keeps a prefix, of length `min(|k|, n)` for `k != 0`, and `limit(0)` keeps everything |
| Recommender.NoHistoryGivesCatalogueHead | recommender/recommender.py:21-26 | a user without interactions gets exactly the first `n` catalogue products |
| Recommender.HasInteractedIds | recommender/recommender.py:31 | a user with a row has a non-empty id list |
| Recommender.InteractedFirstThenPadding | recommender/recommender.py:31-37 | the first `min(n, #interacted)` entries are the interacted catalogue products; every later entry is a catalogue product the user never interacted with |
| Recommender.InteractedKeepCatalogueOrder | recommender/recommender.py:32 | the interacted products keep catalogue order |
| Recommender.LengthBound | recommender/recommender.py:32-37 | at most `n` entries for `n >= 1`, exactly `min(n, |catalogue|)` when padding happens |
| Recommender.NoDuplicates | recommender/recommender.py:32-37 | with unique catalogue ids the result has no duplicate id |
| Recommender.FailureFallsBack | recommender/recommender.py:42-50 | a failed primary path gives the first `n` catalogue products, or `[]` when that query fails too |
| RecommenderClient.RecommendByUserHistory | api/recommender_client.py:12-24 | at most five products; a user with no rows gets `[]` |
| RecommenderClient.UnseenCountsKept | api/recommender_client.py:17-19 | removing the rows of seen products keeps every unseen product's row count |
| RecommenderClient.NoHistoryNoRecommendations | api/recommender_client.py:13-15 | a user with no rows gets `[]` |
| RecommenderClient.OfferedEntry | api/recommender_client.py:16-24 | every offered product is unseen, occurs in the log, and is ranked by its row count in the whole log |
| RecommenderClient.RecommendByUserHistoryBounds | api/recommender_client.py:16-24 | at most five products, none twice, each in the log and unseen by the user |
| RecommenderClient.RecommendByUserHistoryOrder | api/recommender_client.py:18-20 | offered products come in non-increasing order of row count |
| RecommenderClient.RecommendByUserHistoryTop | api/recommender_client.py:18-21 | an unseen product that is not offered only missed the cut: five are offered and it has no more rows than the fifth |
| RecommenderClient.UnitTestExample | api/test_recommender_client.py:11-22 | on the client's test log `u1` is offered `p2` and never `p1` |
| Popularity.MostFrequentSpec | api/recommender_client.py:18-21 | group-by-size, descending sort and head(k) list distinct values with their exact counts, most first, and any value left out is no more frequent than the last |
| RecommenderModel.RecommendByUserHistory | recommender/model.py:1-12 | at most two products; an unknown user gets `["p1", "p2"]` |
| RecommenderModel.Last | recommender/model.py:9 | `tail(k)` is the suffix of length `min(k, n)` |
| RecommenderModel.UnknownUserGetsDefaultPair | recommender/model.py:7-12 | an unknown user gets exactly `["p1", "p2"]` |
| RecommenderModel.KnownUserGetsLastTwo | recommender/model.py:7-10 | a known user gets the products of their last `min(2, #rows)` rows in row order, each one they interacted with |
| RecommenderModel.RepeatedLastProductIsOfferedTwice | recommender/model.py:9 | no de-duplication: two last rows naming one product offer it twice |
| AccessoryService.Accessories | recommendation-service/src/services.py:8-10 | each preference contributes at most its two table entries |
| AccessoryService.MakeRecommendations | recommendation-service/src/services.py:1-11 | the loop builds the concatenation of the table's accessories over the preferences; the result is its first six, at most six long |
| AccessoryService.AccessoriesConcat | recommendation-service/src/services.py:9-10 | the accessories of two preference lists back to back are theirs concatenated |
| AccessoryService.UnknownPreferenceIgnored | recommendation-service/src/services.py:10 | a preference outside the table can be dropped without changing the result |
| AccessoryService.AccessoriesFromTable | recommendation-service/src/services.py:2-10 | every accessory offered is a value of the table |
| AccessoryService.NoPreferencesNoAccessories | recommendation-service/src/services.py:8-11 | no preferences give `[]` |
| AccessoryService.RepeatedPreferenceRepeats | recommendation-service/src/services.py:9-11 | a repeated preference repeats its accessories, and the cut to six drops what follows |

## Left out

- Default arguments: `limit=10` of `recommend_for_user`, `find_similar` and `_get_popular_items` (project5/recommendation-service/src/models/collaborative_filtering.py:40, 77, 110) and `n_recommendations=5` of `get_recommendations` (recommender/recommender.py:15) are not modelled; every call takes its limit explicitly.
- Database and transport: MongoDB queries become sequences (the log, the catalogue). Connection set-up, `load_interaction_data`, the import-time connection and log call in `recommendation-service/src/services.py` and the HTTP services around the routines are not part of this model.
- Cosine similarity: `sklearn`'s `cosine_similarity` is the model's `cosine` parameter, applied to every pair of item columns. Its value is not computed; where a lemma needs a sign, it assumes only that the measure is non-negative on non-negative vectors, which cosine similarity is.
- Floating point: ratings, predictions and similarities are `real`, with no rounding and no NaN.
- Tie order: numpy `argsort`, pandas `sort_values` and Mongo `$sort` leave equal scores in an order the model does not fix. The model uses an insertion sort and states only what holds for every tie order.
- Label order: pandas sorts the pivot table's row and column labels. The model keeps them in order of first appearance. Only the column index and tie order depend on label order, and no contract relies on it.
- Empty log: pandas raises on `pivot_table` of an empty frame. The model builds empty matrices instead.
- Missing fields and mixed types in interaction documents are not modelled. Every row has a user, a product and a rating.
- `Series.nonzero()`: the model uses the positions of non-zero cells. That method is gone from current pandas, where the call raises.
- `_get_popular_items`: the pipeline's count is an integer in the source; the model carries it as a `real` score. The collection is read once per call, and concurrent changes between `train` and a query are not modelled.
- Logging and `print` calls are left out.
- `get_recommendations`: which statement inside the `try` block raises is not modelled. Two booleans say whether the primary path and the fallback query succeed.
- Python-side dictionaries: results carry the product id and score as a `Scored` value rather than a dictionary with `product_id` and `score` or `similarity` keys.
- CollaborativeFiltering.CollaborativeFilteringModel.RecommendForUser: for a known user with `limit <= 0` the result follows the slice rules (`TopIndices`), but the length and ordering lemmas are stated for `limit >= 1`.
- CollaborativeFiltering.SimilarProductsSpec: stated for `limit >= 1`; `SimilarIndices` gives the shape for other limits without a separate length lemma.
