# Customer / item / review schema, modelled in Dafny

The repository defines three mapped models on one database: `Customer`
(`customers`), `Item` (`items`) and `Review` (`reviews`). A review belongs to
one customer and one item through two NOT NULL foreign keys. `Review` carries
a validator on its `comment` attribute and a class-level query
`find_by_customer`. Each model has a hand-written `to_dict` serialiser, and
`Review` has a `__repr__`. `Customer.items` is an association proxy through
`Customer.reviews`.

This project models that logic with immutable values and pure functions:

- `wrappers.dfy` (`Wrappers`): `Option` for nullable columns and missing
  related objects, `Result` for operations that raise.
- `seqs.dfy` (`Seqs`): an order-preserving filter. It gives the semantics of
  a `filter_by(...).all()` query over a table read in storage order.
- `schema.dfy` (`Schema`): one row datatype per table. A `Draft` is a review
  that has not been flushed yet. The `Store` holds the three tables. `Valid`
  is the primary-key constraint and `ReferentiallyIntact` says every foreign
  key names an existing row.
- `validation.dfy` (`Validation`): `validate_comment`, and assigning a
  comment through it.
- `relationships.dfy` (`Relationships`): `find_by_customer`. The two
  directions of each relationship are loads over the store: `Customer.reviews`
  and `Item.reviews` filter by foreign key, while `Review.customer` and
  `Review.item` look up the primary key. `Customer.items` is the proxy. The
  `back_populates` pairing is proved as a property of a valid store.
- `session.dfy` (`Session`): inserting a new review. The NOT NULL check on
  both foreign keys is the only way into the `reviews` table, which is why
  every stored review has both keys.
- `serialize.dfy` (`Serialize`): the three `to_dict` methods. They produce a
  JSON-like `Value` with a fixed key set. Dict keys are a small `Key`
  datatype, and `KeyText` gives the Python string of each key (distinct keys
  have distinct strings). Decoders read the columns back, so the serialisers
  can be stated as round trips.
- `repr.dfy` (`Repr`): `Review.__repr__`, with integers rendered the way
  Python's `str(int)` renders them.

Characters are Dafny's Unicode scalar values. So for every string made of
such characters `|s|` counts what Python's `len` counts, and the
255-character bound is in the same unit.

## Model

| member | source | states |
|---|---|---|
| `Validation.ValidateComment` | server/models.py:56-60 | Succeeds iff the comment is present and has between 1 and 255 characters inclusive. On success it returns the comment unchanged. Otherwise it raises `ValueError` with the fixed message. |
| `Validation.AssignComment` | server/models.py:56-60 | Assigning a comment succeeds under exactly the validator's condition. On success the attribute holds the given comment and no other field changes. On failure the error is the validator's. |
| `Validation.AssignCommentAdmissible` | server/models.py:56-60 | After a successful assignment the attribute holds a value the validator accepts. |
| `Validation.ValidateCommentIdempotent` | server/models.py:58-60 | A validated comment passes validation again with the same result. |
| `Validation.CommentBoundaries` | server/models.py:58-59 | `None` and `""` are rejected. Comments of 1 and 255 characters are accepted. A comment of 256 characters is rejected. |
| `Relationships.Lookup` | server/models.py:53-54 | The primary-key lookup behind `review.customer` and `review.item`. It finds a row of the table with that key, and it gives `None` exactly when no row has the key. |
| `Relationships.CustomerOf` | server/models.py:53 | `review.customer` is a stored customer whose key is the review's `customer_id`. It is `None` exactly when no stored customer has that key. |
| `Relationships.ItemOf` | server/models.py:54 | `review.item` is a stored item whose key is the review's `item_id`. It is `None` exactly when no stored item has that key. |
| `Relationships.LookupUnique` | server/models.py:53-54 | When primary keys are unique, looking up a stored row's own key returns that row. |
| `Relationships.FindByCustomer` | server/models.py:62-64 | A review is in the result iff it is stored and its `customer_id` equals the argument. The result is never longer than the table. |
| `Relationships.FindByCustomerAppend` | server/models.py:62-64 | The query keeps storage order. On a table split in two, it returns the first part's matches followed by the second part's. |
| `Relationships.FindByCustomerMultiplicity` | server/models.py:62-64 | Each matching review is returned as many times as it is stored. Every non-matching review is returned zero times. |
| `Relationships.CustomerReviews` | server/models.py:19 | `customer.reviews` holds exactly the stored reviews whose `customer_id` is the customer's key. It is never longer than the table. |
| `Relationships.ItemReviews` | server/models.py:36 | `item.reviews` holds exactly the stored reviews whose `item_id` is the item's key. It is never longer than the table. |
| `Relationships.CustomerItems` | server/models.py:20 | `customer.items` has one entry per review in `customer.reviews`. Its k-th entry is the `item` of the k-th review. |
| `Relationships.CustomerBackPopulates` | server/models.py:19 | In a store with unique customer keys, a stored review is in a stored customer's `reviews` iff that customer is the review's `customer`. |
| `Relationships.ItemBackPopulates` | server/models.py:36 | In a store with unique item keys, a stored review is in a stored item's `reviews` iff that item is the review's `item`. |
| `Relationships.CustomerReviewsByRelationship` | server/models.py:19 | Two selections give the same list in the same order: the stored reviews whose `customer` object is `c`, and the reviews found through the `customer_id` foreign key. |
| `Relationships.ProxyItems` | server/models.py:20 | The association proxy has one entry per review. Its k-th entry is the `item` of the k-th review, and it is `None` when that item is absent. |
| `Relationships.CustomerItemsConsistent` | server/models.py:20 | `customer.items` has the same length as `customer.reviews`. In a store whose keys are unique and whose foreign keys resolve, the k-th entry is a stored item. That item's own `reviews` contain the k-th review, and that review's `customer` is the customer. |
| `Session.Flush` | server/models.py:50-51 | Inserting a review whose `id` is left to the database fails exactly when a foreign key is unset. It reports `customer_id` before `item_id`. On success it appends one review with the draft's comment and foreign keys and a key no stored review has. The customers, the items and the earlier reviews are unchanged. |
| `Session.NextReviewId` | server/models.py:48 | A new review's key is greater than every stored key. It is 1 for an empty table and otherwise one more than the largest stored key. |
| `Session.FlushPreservesValid` | server/models.py:48-51 | An insert keeps every table's primary keys unique. |
| `Session.FlushKeepsCommentsValidated` | server/models.py:49-60 | A review's comment is `None` or went through the validator. So after an insert, every stored comment is `None` or has between 1 and 255 characters. |
| `Serialize.ReviewToDict` | server/models.py:66-74 | The dict has exactly the keys `id`, `comment`, `customer_id`, `item_id`, `customer` and `item`. `customer` holds the related customer's name when there is one and `None` when there is none. `item` works the same way. |
| `Serialize.KeyTextInjective` | server/models.py:22-27 | Distinct dict keys stand for distinct strings, so keying the records by `Key` loses nothing. |
| `Serialize.ReviewDicts` | server/models.py:26 | The list comprehension has the same length and order as the reviews. Its k-th entry is the k-th review's dict. |
| `Serialize.CustomerToDict` | server/models.py:22-27 | The dict has exactly the keys `id`, `name` and `reviews`. `reviews` is a list as long as `customer.reviews`, and its k-th entry is `to_dict` of the k-th review. |
| `Serialize.ItemToDict` | server/models.py:38-44 | The dict has exactly the keys `id`, `name`, `price` and `reviews`. `reviews` is a list as long as `item.reviews`, and its k-th entry is `to_dict` of the k-th review. |
| `Serialize.ReviewDictRoundTrip` | server/models.py:66-71 | The dict copies every column exactly: reading `id`, `comment`, `customer_id` and `item_id` back gives the review. |
| `Serialize.ReviewDictsRoundTrip` | server/models.py:26 | Reading a serialised review list back gives the same reviews in the same order. |
| `Serialize.CustomerDictRoundTrip` | server/models.py:22-27 | The customer's `id` and `name` read back unchanged. The nested list reads back as exactly `customer.reviews`, in order. |
| `Serialize.ItemDictRoundTrip` | server/models.py:38-44 | The item's `id`, `name` and `price` read back unchanged, and `price` is copied unchanged. The nested list reads back as exactly `item.reviews`, in order. |
| `Serialize.CustomerDictNamesCustomer` | server/models.py:72 | In a valid store, every review nested in a customer's dict has that customer's name under `customer`. |
| `Serialize.ItemDictNamesItem` | server/models.py:73 | In a valid store, every review nested in an item's dict has that item's name under `item`. |
| `Repr.NatToDecimal` | server/models.py:77 | A natural number renders as a non-empty string of decimal digits with no leading zero. |
| `Repr.IntDecimalShape` | server/models.py:77 | `IntToDecimal`, Python's `str` of an integer, gives a non-empty string. It starts with `-` exactly when the integer is negative, and every other character is a decimal digit. |
| `Repr.IntDecimalRoundTrip` | server/models.py:77 | Parsing the rendering of any integer, negative ones included, gives the integer back. |
| `Repr.ReviewRepr` | server/models.py:76-77 | The repr starts with `<Review(id=` and ends with `)>`. |
| `Repr.ReprDeterminesFields` | server/models.py:76-77 | Two reviews with the same repr have the same key, the same foreign keys and the same comment text, whatever characters the comment contains. |
| `Repr.ReprConflatesNoneComment` | server/models.py:77 | A missing comment and the comment `"None"` render alike. This is the only information the repr loses. |

## Left out

- Database and ORM set-up is not modelled (server/models.py:1-11). This covers the SQLAlchemy instance, the foreign-key naming convention in `MetaData` and `SerializerMixin`. It is library configuration with no logic in the repository.
- Query execution, sessions, identity maps and lazy loading are not modelled. A query or relationship load is the filter or lookup it denotes over the store.
- The order of relationship lists is modelled as storage order. The mappings declare no `order_by`, so the database chooses the real order.
- `ondelete='CASCADE'` is not modelled, and deletion in general is not modelled. Cascading is enforced by the database engine, not by repository code.
- Foreign-key existence is not enforced on insert. Whether it is enforced depends on the engine. `ReferentiallyIntact` is instead a hypothesis of the lemmas that need it.
- Inserting customers and items is not modelled, because the repository has no logic for it. Unique primary keys (`Valid`) are a hypothesis, and `Flush` keeps them.
- Setting a relationship object (`review.customer = c`) is not modelled separately. At flush it amounts to setting the foreign key to the related object's key, which `Draft` models directly.
- Key assignment follows the integer row-id rule (one more than the largest key, or 1). A database may choose keys differently; the property the model relies on is only that the key is fresh.
- `Item.price` is a `Float` column. It is modelled as an opaque `real` that is only copied. No floating-point behaviour is modelled.
- The validator assumes `comment` is a string or `None`. Python truthiness of other types is not modelled.
- A related customer or item whose `name` is `None` and a missing relationship both serialise `customer`/`item` as `None`. The contract states both cases but no way to tell them apart, because the source has none either.
- `Repr.ReviewRepr`: defined for stored reviews only. A review that has not been flushed has `id` `None`, and possibly an unset foreign key, so its repr shows `None` in those places. The model does not render such reviews.
- `Serialize.ReviewToDict`: defined for stored reviews only. A review that has not been flushed serialises `'id': None`, and possibly a `None` foreign key. The model does not serialise such reviews.
- `Session.Flush`: covers only reviews whose `id` is left to the database. A caller-chosen key (`Review(id=…)`) and the UNIQUE violation a duplicate key causes are not modelled, because `Draft` has no `id`.
- `Session.Flush`: integers are unbounded in the model. The `Integer` columns are bounded in the database (64-bit in SQLite, 32-bit in some other engines). An out-of-range `customer_id`, `item_id` or generated key makes the insert fail, and the model does not represent that failure.
- `Relationships.FindByCustomer`: the argument is an integer. The source also accepts `None`, which becomes `IS NULL` and returns `[]` because `customer_id` is non-null. An integer outside the column's range makes the driver raise. Neither case is modelled.
- A string holding a lone surrogate (U+D800 to U+DFFF) is a valid Python `str` but has no Dafny `char` counterpart. Such comments and names are not modelled.
- The `Draft` type also admits values no program can build, such as a comment `""`, because in the source every comment assignment goes through the validator. `Session.FlushKeepsCommentsValidated` therefore assumes the draft's comment is admissible, and `Validation.AssignCommentAdmissible` shows that assignment always leaves it so.
