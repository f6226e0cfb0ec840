/** The three mapped tables of the review schema (`customers`, `items`,
    `reviews`) as immutable rows, and the in-memory store that holds them.
    Nullable columns are `Option`s; the two foreign keys of a stored review
    are plain integers because the table declares them NOT NULL. */
module Schema {
  import opened Wrappers

  /** The `Float` price column. The model only ever copies it. */
  type Price = real

  /** A row of `customers`: integer primary key and a nullable name. */
  datatype Customer = Customer(id: int, name: Option<string>)

  /** A row of `items`: integer primary key, nullable name and price. */
  datatype Item = Item(id: int, name: Option<string>, price: Option<Price>)

  /** A row of `reviews`. `customerId` and `itemId` are the NOT NULL foreign
      keys to `customers.id` and `items.id`; `comment` is a nullable string. */
  datatype Review = Review(id: int, comment: Option<string>, customerId: int, itemId: int)

  /** A `Review` object that has been created but not flushed yet: it has no
      primary key, and either foreign key may still be unset. Its comment is
      `None` until assigned, and assignment goes through the validator. */
  datatype Draft = Draft(comment: Option<string>, customerId: Option<int>, itemId: Option<int>)

  /** The contents of the three tables, each in storage order. */
  datatype Store = Store(customers: seq<Customer>, items: seq<Item>, reviews: seq<Review>)

  /** No two rows of `rows` share a primary key. */
  predicate UniqueIds<T>(rows: seq<T>, idOf: T -> int) {
    forall i, j :: 0 <= i < j < |rows| ==> idOf(rows[i]) != idOf(rows[j])
  }

  function CustomerKey(c: Customer): int { c.id }
  function ItemKey(i: Item): int { i.id }
  function ReviewKey(r: Review): int { r.id }

  /** The primary-key constraint of every table holds. */
  predicate Valid(db: Store) {
    && UniqueIds(db.customers, CustomerKey)
    && UniqueIds(db.items, ItemKey)
    && UniqueIds(db.reviews, ReviewKey)
  }

  /** Every review's foreign keys name rows that exist. */
  predicate ReferentiallyIntact(db: Store) {
    forall r :: r in db.reviews ==>
      (exists c :: c in db.customers && c.id == r.customerId) &&
      (exists i :: i in db.items && i.id == r.itemId)
  }
}
