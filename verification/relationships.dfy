/** The relationships of the schema as loads over the store.
    `Customer.reviews` and `Item.reviews` select the reviews whose foreign key
    is the owner's primary key, in storage order; `Review.customer` and
    `Review.item` look the owner up by primary key; `Customer.items` is the
    association proxy that maps `review.item` over `customer.reviews`. The
    `back_populates` pairing of the two directions is a property of a store
    whose primary keys are unique, proved below rather than assumed. */
module Relationships {
  import opened Wrappers
  import opened Schema
  import Seqs

  /** A row of `rows` whose primary key is `id`, or `None` when there is no
      such row. */
  function Lookup<T(!new)>(rows: seq<T>, idOf: T -> int, id: int): (found: Option<T>)
    ensures found.Some? ==> found.value in rows && idOf(found.value) == id
    ensures found.None? <==> forall x :: x in rows ==> idOf(x) != id
  {
    if |rows| == 0 then None
    else if idOf(rows[0]) == id then Some(rows[0])
    else Lookup(rows[1..], idOf, id)
  }

  /** When primary keys are unique, looking up a row's own key finds that row. */
  lemma LookupUnique<T(!new)>(rows: seq<T>, idOf: T -> int, x: T)
    requires UniqueIds(rows, idOf)
    requires x in rows
    ensures Lookup(rows, idOf, idOf(x)) == Some(x)
  {
    // The row found has `x`'s key, and only one row has it.
    var found := Lookup(rows, idOf, idOf(x)).value;
    var i :| 0 <= i < |rows| && rows[i] == found;
    var j :| 0 <= j < |rows| && rows[j] == x;
    assert i == j;
  }

  /** `Review.find_by_customer(customer_id)`: the stored reviews whose
      `customer_id` equals the argument, in storage order. */
  function FindByCustomer(reviews: seq<Review>, customerId: int): (found: seq<Review>)
    ensures forall r :: r in found <==> r in reviews && r.customerId == customerId
    ensures |found| <= |reviews|
  {
    Seqs.Filter(reviews, (r: Review) => r.customerId == customerId)
  }

  /** `customer.reviews`: loaded through the `customer_id` foreign key. */
  function CustomerReviews(db: Store, c: Customer): (reviews: seq<Review>)
    ensures forall r :: r in reviews <==> r in db.reviews && r.customerId == c.id
    ensures |reviews| <= |db.reviews|
  {
    FindByCustomer(db.reviews, c.id)
  }

  /** `item.reviews`: loaded through the `item_id` foreign key. */
  function ItemReviews(db: Store, i: Item): (reviews: seq<Review>)
    ensures forall r :: r in reviews <==> r in db.reviews && r.itemId == i.id
    ensures |reviews| <= |db.reviews|
  {
    Seqs.Filter(db.reviews, (r: Review) => r.itemId == i.id)
  }

  /** `review.customer`: the customer whose primary key is `customer_id`. */
  function CustomerOf(db: Store, r: Review): (customer: Option<Customer>)
    ensures customer.Some? ==> customer.value in db.customers && customer.value.id == r.customerId
    ensures customer.None? <==> forall c :: c in db.customers ==> c.id != r.customerId
  {
    Lookup(db.customers, CustomerKey, r.customerId)
  }

  /** `review.item`: the item whose primary key is `item_id`. */
  function ItemOf(db: Store, r: Review): (item: Option<Item>)
    ensures item.Some? ==> item.value in db.items && item.value.id == r.itemId
    ensures item.None? <==> forall i :: i in db.items ==> i.id != r.itemId
  {
    Lookup(db.items, ItemKey, r.itemId)
  }

  /** The association proxy over a list of reviews: `review.item` of each. */
  function ProxyItems(db: Store, reviews: seq<Review>): (items: seq<Option<Item>>)
    ensures |items| == |reviews|
    ensures forall k :: 0 <= k < |reviews| ==> items[k] == ItemOf(db, reviews[k])
  {
    if |reviews| == 0 then [] else [ItemOf(db, reviews[0])] + ProxyItems(db, reviews[1..])
  }

  /** `customer.items`: the proxy over `customer.reviews`. */
  function CustomerItems(db: Store, c: Customer): (items: seq<Option<Item>>)
    ensures |items| == |CustomerReviews(db, c)|
    ensures forall k :: 0 <= k < |items| ==> items[k] == ItemOf(db, CustomerReviews(db, c)[k])
  {
    ProxyItems(db, CustomerReviews(db, c))
  }

  /** `find_by_customer` keeps storage order: querying a store split in two
      yields the first part's matches followed by the second part's. */
  lemma FindByCustomerAppend(a: seq<Review>, b: seq<Review>, customerId: int)
    ensures FindByCustomer(a + b, customerId) == FindByCustomer(a, customerId) + FindByCustomer(b, customerId)
  {
    Seqs.FilterAppend(a, b, (r: Review) => r.customerId == customerId);
  }

  /** `find_by_customer` returns each matching review as many times as it is
      stored, and nothing else. */
  lemma FindByCustomerMultiplicity(reviews: seq<Review>, customerId: int, r: Review)
    ensures multiset(FindByCustomer(reviews, customerId))[r]
         == if r.customerId == customerId then multiset(reviews)[r] else 0
  {
    Seqs.FilterMultiplicity(reviews, (x: Review) => x.customerId == customerId, r);
  }

  /** `back_populates` between `Customer.reviews` and `Review.customer`: in a
      store with unique customer keys, a stored review is among a stored
      customer's reviews exactly when that customer is the review's customer. */
  lemma CustomerBackPopulates(db: Store, c: Customer, r: Review)
    requires Valid(db)
    requires c in db.customers && r in db.reviews
    ensures r in CustomerReviews(db, c) <==> CustomerOf(db, r) == Some(c)
  {
    if r.customerId == c.id {
      LookupUnique(db.customers, CustomerKey, c);
    }
  }

  /** `back_populates` between `Item.reviews` and `Review.item`. */
  lemma ItemBackPopulates(db: Store, i: Item, r: Review)
    requires Valid(db)
    requires i in db.items && r in db.reviews
    ensures r in ItemReviews(db, i) <==> ItemOf(db, r) == Some(i)
  {
    if r.itemId == i.id {
      LookupUnique(db.items, ItemKey, i);
    }
  }

  /** `customer.reviews` loaded through the relationship object equals the
      foreign-key filter: selecting the reviews whose `customer` is `c`
      gives the same list, in the same order. */
  lemma CustomerReviewsByRelationship(db: Store, c: Customer)
    requires Valid(db)
    requires c in db.customers
    ensures Seqs.Filter(db.reviews, (r: Review) => CustomerOf(db, r) == Some(c)) == CustomerReviews(db, c)
  {
    forall r | r in db.reviews
      ensures (CustomerOf(db, r) == Some(c)) == (r.customerId == c.id)
    {
      CustomerBackPopulates(db, c, r);
    }
    Seqs.FilterCongruent(db.reviews, (r: Review) => CustomerOf(db, r) == Some(c), (r: Review) => r.customerId == c.id);
  }

  /** Every entry of `customer.items` is the item of the review in the same
      position of `customer.reviews`; when foreign keys are intact each entry
      is a stored item, and that review is among the item's own reviews and
      was written by the customer. */
  lemma CustomerItemsConsistent(db: Store, c: Customer)
    requires Valid(db) && ReferentiallyIntact(db)
    requires c in db.customers
    ensures |CustomerItems(db, c)| == |CustomerReviews(db, c)|
    ensures forall k :: 0 <= k < |CustomerItems(db, c)| ==>
      var r := CustomerReviews(db, c)[k];
      && CustomerItems(db, c)[k].Some?
      && CustomerItems(db, c)[k].value in db.items
      && r in ItemReviews(db, CustomerItems(db, c)[k].value)
      && CustomerOf(db, r) == Some(c)
  {
    var rs := CustomerReviews(db, c);
    var items := CustomerItems(db, c);
    forall k | 0 <= k < |items|
      ensures items[k].Some? && items[k].value in db.items
      ensures rs[k] in ItemReviews(db, items[k].value) && CustomerOf(db, rs[k]) == Some(c)
    {
      var r := rs[k];
      assert r in rs;
      assert r in db.reviews && r.customerId == c.id;
      var i :| i in db.items && i.id == r.itemId;
      LookupUnique(db.items, ItemKey, i);
      assert items[k] == Some(i);
      ItemBackPopulates(db, i, r);
      CustomerBackPopulates(db, c, r);
    }
  }
}
