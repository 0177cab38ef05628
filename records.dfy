/** Interaction rows as the pandas- and Mongo-based routines read them: one
    row per user/product event, with the columns `user_id`, `product_id` and
    `action`. */
module Records {
  import opened Seqs

  datatype Interaction = Interaction(userId: string, productId: string, action: string)

  /** The `product_id` field of a row. */
  function ProductId(row: Interaction): string
  {
    row.productId
  }

  /** The `user_id` field of a row. */
  function UserId(row: Interaction): string
  {
    row.userId
  }

  /** The rows of one user, in log order (`df[df["user_id"] == user_id]`). */
  function RowsOf(rows: seq<Interaction>, userId: string): (mine: seq<Interaction>)
    ensures forall row :: row in mine <==> row in rows && row.userId == userId
  {
    Filter((row: Interaction) => row.userId == userId, rows)
  }

  lemma ProductIdMembership(rows: seq<Interaction>, p: string)
    ensures p in TableColumn(rows, ProductId) <==> exists row :: row in rows && row.productId == p
  {
    if p in TableColumn(rows, ProductId) {
      var i :| 0 <= i < |rows| && TableColumn(rows, ProductId)[i] == p;
      assert rows[i] in rows;
    }
  }
}
