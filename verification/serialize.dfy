/** The hand-written `to_dict` serialisers of the three models, producing
    JSON-like values with a fixed key set, and the decoders that read the
    column values back out of them. */
module Serialize {
  import opened Wrappers
  import opened Schema
  import opened Relationships

  /** The keys the serialisers use. */
  datatype Key =
    | KeyId | KeyName | KeyPrice | KeyReviews
    | KeyComment | KeyCustomerId | KeyItemId | KeyCustomer | KeyItem

  /** The string each key stands for in the Python dict. */
  function KeyText(k: Key): string {
    match k
    case KeyId => "id"
    case KeyName => "name"
    case KeyPrice => "price"
    case KeyReviews => "reviews"
    case KeyComment => "comment"
    case KeyCustomerId => "customer_id"
    case KeyItemId => "item_id"
    case KeyCustomer => "customer"
    case KeyItem => "item"
  }

  /** A JSON-like Python value: `None`, an `int`, a `str`, a `float`, a list
      or a dict. */
  datatype Value =
    | Null
    | Int(i: int)
    | Str(s: string)
    | Float(f: Price)
    | List(elems: seq<Value>)
    | Dict(fields: map<Key, Value>)

  /** Distinct keys stand for distinct strings, so a dict keyed by `Key` is
      the same dict keyed by the strings. */
  lemma KeyTextInjective(a: Key, b: Key)
    requires KeyText(a) == KeyText(b)
    ensures a == b
  {
  }

  /** A nullable string column as a value. */
  function StrOrNull(s: Option<string>): Value {
    match s
    case Some(v) => Str(v)
    case None => Null
  }

  /** A nullable float column as a value. */
  function FloatOrNull(p: Option<Price>): Value {
    match p
    case Some(v) => Float(v)
    case None => Null
  }

  /** The name of a related object, or `None` when there is no such object. */
  function NameOrNull(name: Option<Option<string>>): Value {
    match name
    case Some(n) => StrOrNull(n)
    case None => Null
  }

  /** `Review.to_dict`: the four columns, and the names of the related
      customer and item (`None` when the relationship is empty). */
  function ReviewToDict(db: Store, r: Review): (d: Value)
    ensures d.Dict?
    ensures d.fields.Keys == {KeyId, KeyComment, KeyCustomerId, KeyItemId, KeyCustomer, KeyItem}
    ensures CustomerOf(db, r).None? ==> d.fields[KeyCustomer] == Null
    ensures CustomerOf(db, r).Some? ==> d.fields[KeyCustomer] == StrOrNull(CustomerOf(db, r).value.name)
    ensures ItemOf(db, r).None? ==> d.fields[KeyItem] == Null
    ensures ItemOf(db, r).Some? ==> d.fields[KeyItem] == StrOrNull(ItemOf(db, r).value.name)
  {
    var customer := CustomerOf(db, r);
    var item := ItemOf(db, r);
    Dict(map[
      KeyId := Int(r.id),
      KeyComment := StrOrNull(r.comment),
      KeyCustomerId := Int(r.customerId),
      KeyItemId := Int(r.itemId),
      KeyCustomer := NameOrNull(if customer.Some? then Some(customer.value.name) else None),
      KeyItem := NameOrNull(if item.Some? then Some(item.value.name) else None)
    ])
  }

  /** The list comprehension `[review.to_dict() for review in reviews]`. */
  function ReviewDicts(db: Store, reviews: seq<Review>): (ds: seq<Value>)
    ensures |ds| == |reviews|
    ensures forall k :: 0 <= k < |reviews| ==> ds[k] == ReviewToDict(db, reviews[k])
  {
    if |reviews| == 0 then [] else [ReviewToDict(db, reviews[0])] + ReviewDicts(db, reviews[1..])
  }

  /** The dict literal of `Customer.to_dict`, given the serialised reviews. */
  function CustomerRecord(c: Customer, reviews: seq<Value>): Value {
    Dict(map[KeyId := Int(c.id), KeyName := StrOrNull(c.name), KeyReviews := List(reviews)])
  }

  /** The dict literal of `Item.to_dict`, given the serialised reviews. */
  function ItemRecord(i: Item, reviews: seq<Value>): Value {
    Dict(map[KeyId := Int(i.id), KeyName := StrOrNull(i.name), KeyPrice := FloatOrNull(i.price),
             KeyReviews := List(reviews)])
  }

  /** `Customer.to_dict`: id, name and the serialised `customer.reviews`. */
  function CustomerToDict(db: Store, c: Customer): (d: Value)
    ensures d.Dict?
    ensures d.fields.Keys == {KeyId, KeyName, KeyReviews}
    ensures d.fields[KeyReviews].List?
    ensures |d.fields[KeyReviews].elems| == |CustomerReviews(db, c)|
    ensures forall k :: 0 <= k < |CustomerReviews(db, c)| ==>
      d.fields[KeyReviews].elems[k] == ReviewToDict(db, CustomerReviews(db, c)[k])
  {
    CustomerRecord(c, ReviewDicts(db, CustomerReviews(db, c)))
  }

  /** `Item.to_dict`: id, name, price and the serialised `item.reviews`. */
  function ItemToDict(db: Store, i: Item): (d: Value)
    ensures d.Dict?
    ensures d.fields.Keys == {KeyId, KeyName, KeyPrice, KeyReviews}
    ensures d.fields[KeyReviews].List?
    ensures |d.fields[KeyReviews].elems| == |ItemReviews(db, i)|
    ensures forall k :: 0 <= k < |ItemReviews(db, i)| ==>
      d.fields[KeyReviews].elems[k] == ReviewToDict(db, ItemReviews(db, i)[k])
  {
    ItemRecord(i, ReviewDicts(db, ItemReviews(db, i)))
  }

  // Decoders: reading the column values back out of serialised records.

  function DecodeInt(v: Value): Option<int> {
    if v.Int? then Some(v.i) else None
  }

  /** A nullable string: `Some(None)` for a null, `None` for a malformed value. */
  function DecodeStrOrNull(v: Value): Option<Option<string>> {
    match v
    case Null => Some(None)
    case Str(s) => Some(Some(s))
    case _ => None
  }

  function DecodeFloatOrNull(v: Value): Option<Option<Price>> {
    match v
    case Null => Some(None)
    case Float(p) => Some(Some(p))
    case _ => None
  }

  /** The review whose columns a serialised review records. */
  function ReviewFromDict(v: Value): Option<Review> {
    if !v.Dict? || !({KeyId, KeyComment, KeyCustomerId, KeyItemId} <= v.fields.Keys) then None
    else
      match (DecodeInt(v.fields[KeyId]), DecodeStrOrNull(v.fields[KeyComment]),
             DecodeInt(v.fields[KeyCustomerId]), DecodeInt(v.fields[KeyItemId]))
      case (Some(id), Some(comment), Some(cid), Some(iid)) => Some(Review(id, comment, cid, iid))
      case _ => None
  }

  /** The reviews a serialised list records, or `None` if any entry is
      malformed. */
  function ReviewsFromList(vs: seq<Value>): Option<seq<Review>> {
    if |vs| == 0 then Some([])
    else
      match (ReviewFromDict(vs[0]), ReviewsFromList(vs[1..]))
      case (Some(r), Some(rest)) => Some([r] + rest)
      case _ => None
  }

  /** The customer whose columns a serialised customer records. */
  function CustomerFromDict(v: Value): Option<Customer> {
    if !v.Dict? || !({KeyId, KeyName} <= v.fields.Keys) then None
    else
      match (DecodeInt(v.fields[KeyId]), DecodeStrOrNull(v.fields[KeyName]))
      case (Some(id), Some(name)) => Some(Customer(id, name))
      case _ => None
  }

  /** The item whose columns a serialised item records. */
  function ItemFromDict(v: Value): Option<Item> {
    if !v.Dict? || !({KeyId, KeyName, KeyPrice} <= v.fields.Keys) then None
    else
      match (DecodeInt(v.fields[KeyId]), DecodeStrOrNull(v.fields[KeyName]), DecodeFloatOrNull(v.fields[KeyPrice]))
      case (Some(id), Some(name), Some(price)) => Some(Item(id, name, price))
      case _ => None
  }

  /** `Review.to_dict` copies every column exactly: reading them back gives
      the review itself. */
  lemma ReviewDictRoundTrip(db: Store, r: Review)
    ensures ReviewFromDict(ReviewToDict(db, r)) == Some(r)
  {
    var d := ReviewToDict(db, r);
    assert d.fields[KeyId] == Int(r.id);
    assert d.fields[KeyComment] == StrOrNull(r.comment);
    assert d.fields[KeyCustomerId] == Int(r.customerId);
    assert d.fields[KeyItemId] == Int(r.itemId);
    assert DecodeStrOrNull(StrOrNull(r.comment)) == Some(r.comment);
  }

  /** A serialised list of reviews reads back as the same reviews, in the same
      order. */
  lemma {:induction false} ReviewDictsRoundTrip(db: Store, reviews: seq<Review>)
    ensures ReviewsFromList(ReviewDicts(db, reviews)) == Some(reviews)
  {
    if |reviews| > 0 {
      var ds := ReviewDicts(db, reviews);
      assert ds[1..] == ReviewDicts(db, reviews[1..]);
      ReviewDictRoundTrip(db, reviews[0]);
      ReviewDictsRoundTrip(db, reviews[1..]);
      assert [reviews[0]] + reviews[1..] == reviews;
    }
  }

  lemma CustomerRecordRoundTrip(c: Customer, reviews: seq<Value>)
    ensures CustomerFromDict(CustomerRecord(c, reviews)) == Some(c)
    ensures CustomerRecord(c, reviews).fields[KeyReviews] == List(reviews)
  {
    var d := CustomerRecord(c, reviews);
    assert DecodeStrOrNull(d.fields[KeyName]) == Some(c.name);
  }

  lemma ItemRecordRoundTrip(i: Item, reviews: seq<Value>)
    ensures ItemFromDict(ItemRecord(i, reviews)) == Some(i)
    ensures ItemRecord(i, reviews).fields[KeyPrice] == FloatOrNull(i.price)
    ensures ItemRecord(i, reviews).fields[KeyReviews] == List(reviews)
  {
    var d := ItemRecord(i, reviews);
    assert DecodeStrOrNull(d.fields[KeyName]) == Some(i.name);
    assert DecodeFloatOrNull(d.fields[KeyPrice]) == Some(i.price);
  }

  /** `Customer.to_dict` records the customer's columns and, under `reviews`,
      exactly `customer.reviews` in relationship order. */
  lemma CustomerDictRoundTrip(db: Store, c: Customer)
    ensures CustomerFromDict(CustomerToDict(db, c)) == Some(c)
    ensures ReviewsFromList(CustomerToDict(db, c).fields[KeyReviews].elems) == Some(CustomerReviews(db, c))
  {
    var rs := CustomerReviews(db, c);
    CustomerRecordRoundTrip(c, ReviewDicts(db, rs));
    ReviewDictsRoundTrip(db, rs);
  }

  /** `Item.to_dict` records the item's columns, the price copied unchanged,
      and, under `reviews`, exactly `item.reviews` in relationship order. */
  lemma ItemDictRoundTrip(db: Store, i: Item)
    ensures ItemFromDict(ItemToDict(db, i)) == Some(i)
    ensures ItemToDict(db, i).fields[KeyPrice] == FloatOrNull(i.price)
    ensures ReviewsFromList(ItemToDict(db, i).fields[KeyReviews].elems) == Some(ItemReviews(db, i))
  {
    var rs := ItemReviews(db, i);
    ItemRecordRoundTrip(i, ReviewDicts(db, rs));
    ReviewDictsRoundTrip(db, rs);
  }

  /** Every review nested in a stored customer's dict names that customer:
      under `back_populates`, the `customer` key of each nested review is the
      customer's own name. */
  lemma CustomerDictNamesCustomer(db: Store, c: Customer)
    requires Valid(db)
    requires c in db.customers
    ensures forall k :: 0 <= k < |CustomerToDict(db, c).fields[KeyReviews].elems| ==>
      CustomerToDict(db, c).fields[KeyReviews].elems[k].fields[KeyCustomer] == StrOrNull(c.name)
  {
    var rs := CustomerReviews(db, c);
    var ds := CustomerToDict(db, c).fields[KeyReviews].elems;
    assert ds == ReviewDicts(db, rs);
    forall k | 0 <= k < |ds|
      ensures ds[k].fields[KeyCustomer] == StrOrNull(c.name)
    {
      assert rs[k] in rs;
      CustomerBackPopulates(db, c, rs[k]);
    }
  }

  /** Every review nested in a stored item's dict names that item. */
  lemma ItemDictNamesItem(db: Store, i: Item)
    requires Valid(db)
    requires i in db.items
    ensures forall k :: 0 <= k < |ItemToDict(db, i).fields[KeyReviews].elems| ==>
      ItemToDict(db, i).fields[KeyReviews].elems[k].fields[KeyItem] == StrOrNull(i.name)
  {
    var rs := ItemReviews(db, i);
    var ds := ItemToDict(db, i).fields[KeyReviews].elems;
    assert ds == ReviewDicts(db, rs);
    forall k | 0 <= k < |ds|
      ensures ds[k].fields[KeyItem] == StrOrNull(i.name)
    {
      assert rs[k] in rs;
      ItemBackPopulates(db, i, rs[k]);
    }
  }
}
