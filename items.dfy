/**
 * The item routes: body validation, the document stored on create, the partial update
 * built by PUT, and the status decisions of GET/POST/PUT/DELETE over the item
 * collection, modelled as a map from object id to document.
 *
 * Every signed-in user may create, update and delete every item: the routes check only
 * that a session exists, and store no owner on an item.
 */
module Items {
  import opened Wrappers
  import opened Js
  import opened Http
  import Text

  /** A stored item document, without its `_id` (the collection's key). */
  type Doc = map<string, Value>

  /*
   * Helpers
   */

  predicate IsLowerHex(c: char) {
    '0' <= c <= '9' || 'a' <= c <= 'f'
  }

  /**
   * `isValidObjectId`: `ObjectId.isValid(id)` holds and `id` is the canonical string of
   * the id it denotes, which is exactly 24 lower-case hexadecimal digits.
   */
  predicate IsValidObjectId(id: string) {
    |id| == 24 && forall i :: 0 <= i < |id| ==> IsLowerHex(id[i])
  }

  /**
   * An accepted id is its own canonical string: lower-casing it changes nothing, so the
   * comparison with `String(new ObjectId(id))` holds.
   */
  lemma ValidObjectIdIsCanonical(id: string)
    requires IsValidObjectId(id)
    ensures Text.ToLower(id) == id
  {
    assert forall i :: 0 <= i < |id| ==> Text.ToLower(id)[i] == id[i];
  }

  /** `normalizeId`: the document as sent to clients, with `_id` in string form. */
  function NormalizeId(id: string, doc: Doc): (r: Value)
    ensures r.Object? && r.fields.Keys == doc.Keys + {"_id"}
    ensures r.fields["_id"] == Str(id)
    ensures forall k :: k in doc && k != "_id" ==> r.fields[k] == doc[k]
  {
    Object(doc["_id" := Str(id)])
  }

  /** `requireAuth`: `None` lets the request through; otherwise the response it ends with. */
  function RequireAuth(userId: Option<string>): (r: Option<Response>)
    ensures r.None? <==> SignedIn(userId)
    ensures r.Some? ==> r.value == ErrorResponse(401, "Unauthorized")
  {
    if userId.None? || userId.value == "" then Some(ErrorResponse(401, "Unauthorized")) else None
  }

  /*
   * Create: validation and the stored document
   */

  /** The verdict of `validateItemBody`. */
  datatype Check = Accepted | Rejected(message: string)

  /** A name that both create and update accept: a string of at least 2 characters once trimmed. */
  predicate ValidName(v: Option<Value>) {
    v.Some? && v.value.Str? && Text.Utf16Length(Text.Trim(v.value.s)) >= 2
  }

  /** A price that both create and update accept: a number that is not NaN. */
  predicate ValidPrice(v: Option<Value>) {
    v.Some? && v.value.Number? && v.value.n.Num?
  }

  /**
   * `validateItemBody`: a body is accepted exactly when it is an object with a valid
   * name and a valid price; the first failing check picks the message.
   */
  function ValidateItemBody(body: Option<Value>): (r: Check)
    ensures r.Accepted? <==> IsObjectLike(body) && ValidName(Prop(body, "name")) && ValidPrice(Prop(body, "price"))
    ensures !IsObjectLike(body) ==> r == Rejected("Body must be a JSON object.")
    ensures IsObjectLike(body) && !ValidName(Prop(body, "name")) ==>
      r == Rejected("Field 'name' is required (min 2 chars).")
    ensures IsObjectLike(body) && ValidName(Prop(body, "name")) && !ValidPrice(Prop(body, "price")) ==>
      r == Rejected("Field 'price' is required (number).")
  {
    if !IsObjectLike(body) then Rejected("Body must be a JSON object.")
    else if !ValidName(Prop(body, "name")) then Rejected("Field 'name' is required (min 2 chars).")
    else if !ValidPrice(Prop(body, "price")) then Rejected("Field 'price' is required (number).")
    else Accepted
  }

  /** The fields a created item has, whatever else the body carried. */
  const CreatedFields: set<string> := {"name", "price", "category", "inStock", "createdAt"}

  /** The stored category: a string category trimmed, anything else "general". */
  function CategoryOf(body: Option<Value>): (c: Value)
    ensures Prop(body, "category").Some? && Prop(body, "category").value.Str? ==>
      c == Str(Text.Trim(Prop(body, "category").value.s))
    ensures !(Prop(body, "category").Some? && Prop(body, "category").value.Str?) ==> c == Str("general")
  {
    var category := Prop(body, "category");
    if category.Some? && category.value.Str? then Str(Text.Trim(category.value.s)) else Str("general")
  }

  /** The stored stock flag: a boolean inStock as given, anything else true. */
  function InStockOf(body: Option<Value>): (b: Value)
    ensures Prop(body, "inStock").Some? && Prop(body, "inStock").value.Bool? ==> b == Prop(body, "inStock").value
    ensures !(Prop(body, "inStock").Some? && Prop(body, "inStock").value.Bool?) ==> b == Bool(true)
  {
    var inStock := Prop(body, "inStock");
    if inStock.Some? && inStock.value.Bool? then inStock.value else Bool(true)
  }

  /**
   * The document `POST /api/items` inserts: the trimmed name, the price, the trimmed
   * category or "general", the boolean inStock or true, and the creation time. No other
   * body field (brand, sku, an owner) is stored, and the document is itself a valid body.
   */
  function CreateDoc(body: Option<Value>, now: int): (doc: Doc)
    requires ValidateItemBody(body).Accepted?
    ensures doc.Keys == CreatedFields
    ensures doc["name"] == Str(Text.Trim(Prop(body, "name").value.s))
    ensures doc["price"] == Prop(body, "price").value
    ensures Prop(body, "category").Some? && Prop(body, "category").value.Str? ==>
      doc["category"] == Str(Text.Trim(Prop(body, "category").value.s))
    ensures !(Prop(body, "category").Some? && Prop(body, "category").value.Str?) ==> doc["category"] == Str("general")
    ensures Prop(body, "inStock").Some? && Prop(body, "inStock").value.Bool? ==> doc["inStock"] == Prop(body, "inStock").value
    ensures !(Prop(body, "inStock").Some? && Prop(body, "inStock").value.Bool?) ==> doc["inStock"] == Bool(true)
    ensures doc["createdAt"] == Date(now)
  {
    map[
      "name" := Str(Text.Trim(Prop(body, "name").value.s)),
      "price" := Prop(body, "price").value,
      "category" := CategoryOf(body),
      "inStock" := InStockOf(body),
      "createdAt" := Date(now)
    ]
  }

  /** A created document passes the same validation again: trimming keeps the name valid. */
  lemma CreatedDocIsValid(body: Option<Value>, now: int)
    requires ValidateItemBody(body).Accepted?
    ensures ValidateItemBody(Some(Object(CreateDoc(body, now)))).Accepted?
  {
    var doc := CreateDoc(body, now);
    Text.TrimIdempotent(Prop(body, "name").value.s);
    assert Prop(Some(Object(doc)), "name") == Some(Str(Text.Trim(Prop(body, "name").value.s)));
    assert Prop(Some(Object(doc)), "price") == Some(Prop(body, "price").value);
  }

  /*
   * Update: the partial document of PUT
   */

  /** The body fields PUT copies. */
  const UpdatableFields: set<string> := {"name", "price", "category", "inStock"}

  /** The per-field type check of PUT. */
  predicate FieldOk(field: string, v: Value) {
    if field == "name" then ValidName(Some(v))
    else if field == "price" then ValidPrice(Some(v))
    else if field == "category" then v.Str?
    else v.Bool?
  }

  /** The message PUT answers with when `field` fails its check. */
  function FieldMessage(field: string): string {
    if field == "name" then "Field 'name' must be min 2 chars"
    else if field == "price" then "Field 'price' must be a number"
    else if field == "category" then "Field 'category' must be a string"
    else "Field 'inStock' must be boolean"
  }

  /** The value PUT stores for a field that passed its check: strings are trimmed. */
  function StoredValue(field: string, v: Value): Value {
    if (field == "name" || field == "category") && v.Str? then Str(Text.Trim(v.s)) else v
  }

  /** PUT's body check: a non-empty object (or array). */
  predicate HasBody(body: Option<Value>) {
    IsObjectLike(body) && KeyCount(body.value) > 0
  }

  /** The body provides `field` (it is not `undefined`) and the value fails the field's check. */
  predicate Invalid(body: Option<Value>, field: string) {
    Prop(body, field).Some? && !FieldOk(field, Prop(body, field).value)
  }

  /** The first field, in the order name, price, category, inStock, that PUT refuses. */
  function FirstInvalid(body: Option<Value>): (r: Option<string>)
    ensures r.Some? ==> r.value in UpdatableFields && Invalid(body, r.value)
    ensures r.None? <==> forall f :: f in UpdatableFields ==> !Invalid(body, f)
    ensures r == Some("price") ==> !Invalid(body, "name")
    ensures r == Some("category") ==> !Invalid(body, "name") && !Invalid(body, "price")
    ensures r == Some("inStock") ==> !Invalid(body, "name") && !Invalid(body, "price") && !Invalid(body, "category")
  {
    if Invalid(body, "name") then Some("name")
    else if Invalid(body, "price") then Some("price")
    else if Invalid(body, "category") then Some("category")
    else if Invalid(body, "inStock") then Some("inStock")
    else None
  }

  /** `update[field] = ...` when the body provides `field`. */
  function Put(body: Option<Value>, field: string, update: Doc): Doc {
    if Prop(body, field).Some? then update[field := StoredValue(field, Prop(body, field).value)] else update
  }

  /** The provided updatable fields, as PUT stores them. */
  function Updates(body: Option<Value>): (u: Doc)
    ensures forall f :: f in u <==> f in UpdatableFields && Prop(body, f).Some?
    ensures forall f :: f in u ==> u[f] == StoredValue(f, Prop(body, f).value)
  {
    Put(body, "inStock", Put(body, "category", Put(body, "price", Put(body, "name", map[]))))
  }

  /**
   * The `$set` document PUT writes, or the message of the 400 it answers with: an empty
   * or non-object body, then the first invalid provided field, then a body with no
   * updatable field are refused; otherwise the provided fields (trimmed where strings)
   * and `updatedAt`.
   */
  function UpdateFor(body: Option<Value>, now: int): (r: Result<Doc, string>)
    ensures !HasBody(body) ==> r == Err("Body is required")
    ensures HasBody(body) && FirstInvalid(body).Some? ==> r == Err(FieldMessage(FirstInvalid(body).value))
    ensures HasBody(body) && FirstInvalid(body).None? && (forall f :: f in UpdatableFields ==> Prop(body, f).None?) ==>
      r == Err("No valid fields to update")
    ensures r.Ok? <==>
      && HasBody(body)
      && (forall f :: f in UpdatableFields ==> !Invalid(body, f))
      && (exists f :: f in UpdatableFields && Prop(body, f).Some?)
    ensures r.Ok? ==> forall f :: f in r.value <==> f == "updatedAt" || (f in UpdatableFields && Prop(body, f).Some?)
    ensures r.Ok? ==> "updatedAt" in r.value && r.value["updatedAt"] == Date(now)
    ensures r.Ok? ==> forall f :: f in UpdatableFields && Prop(body, f).Some? ==>
      FieldOk(f, Prop(body, f).value) && f in r.value && r.value[f] == StoredValue(f, Prop(body, f).value)
  {
    if !HasBody(body) then Err("Body is required")
    else if FirstInvalid(body).Some? then Err(FieldMessage(FirstInvalid(body).value))
    else
      var u := Updates(body);
      NoUpdates(body);
      if u == map[] then Err("No valid fields to update")
      else Ok(u["updatedAt" := Date(now)])
  }

  /** There is nothing to update exactly when the body provides none of the updatable fields. */
  lemma NoUpdates(body: Option<Value>)
    ensures Updates(body) == map[] <==> forall f :: f in UpdatableFields ==> Prop(body, f).None?
  {
    var u := Updates(body);
    if forall f :: f in UpdatableFields ==> Prop(body, f).None? {
      assert u.Keys == {};
    } else {
      var f :| f in UpdatableFields && Prop(body, f).Some?;
      assert f in u;
    }
  }

  /*
   * The collection and the route handlers
   */

  /** The item collection: documents keyed by their object id. */
  class ItemStore {
    var docs: map<string, Doc>

    /** Every key is an id the driver could have generated. */
    ghost predicate Valid()
      reads this
    {
      forall id :: id in docs ==> IsValidObjectId(id)
    }

    constructor ()
      ensures docs == map[] && Valid()
    {
      docs := map[];
    }

    /** `insertOne(doc)` under the id the driver generated. */
    method InsertOne(id: string, doc: Doc)
      requires Valid() && IsValidObjectId(id) && id !in docs
      modifies this
      ensures docs == old(docs)[id := doc]
      ensures Valid()
    {
      docs := docs[id := doc];
    }

    /** `findOneAndUpdate({_id}, {$set: update}, {returnDocument: "after"})`: only that document changes. */
    method FindOneAndUpdate(id: string, update: Doc) returns (after: Option<Doc>)
      requires Valid()
      modifies this
      ensures Valid()
      ensures id in old(docs) ==> docs == old(docs)[id := old(docs)[id] + update] && after == Some(docs[id])
      ensures id !in old(docs) ==> docs == old(docs) && after == None
    {
      if id in docs {
        docs := docs[id := docs[id] + update];
        after := Some(docs[id]);
      } else {
        after := None;
      }
    }

    /** `findOneAndDelete({_id})`: only that document goes, and it is returned. */
    method FindOneAndDelete(id: string) returns (before: Option<Doc>)
      requires Valid()
      modifies this
      ensures Valid()
      ensures docs == old(docs) - {id}
      ensures before == if id in old(docs) then Some(old(docs)[id]) else None
    {
      if id in docs {
        before := Some(docs[id]);
        docs := docs - {id};
      } else {
        before := None;
      }
    }
  }

  /** `GET /api/items/:id`: 400 for a malformed id, 404 for an unknown one, else the document. */
  function GetItem(docs: map<string, Doc>, id: string): (r: Response)
    ensures r.status == 400 <==> !IsValidObjectId(id)
    ensures r.status == 404 <==> IsValidObjectId(id) && id !in docs
    ensures r.status == 200 <==> IsValidObjectId(id) && id in docs
    ensures r.status == 200 ==> r.body == NormalizeId(id, docs[id])
    ensures r.status != 200 ==> r == ErrorResponse(r.status, if r.status == 400 then "Invalid id" else "Not Found")
  {
    if !IsValidObjectId(id) then ErrorResponse(400, "Invalid id")
    else if id !in docs then ErrorResponse(404, "Not Found")
    else Response(200, NormalizeId(id, docs[id]))
  }

  /** In a store that keeps its invariant, every stored document can be fetched by its id. */
  lemma StoredItemIsFound(store: ItemStore, id: string)
    requires store.Valid() && id in store.docs
    ensures GetItem(store.docs, id) == Response(200, NormalizeId(id, store.docs[id]))
  {
  }

  /** `GET /api/items` once the store has answered: every document with its id in string form. */
  function ListResponse(found: seq<(string, Doc)>): (r: Response)
    ensures r.status == 200 && r.body.Array? && |r.body.elems| == |found|
    ensures forall i :: 0 <= i < |found| ==> r.body.elems[i] == NormalizeId(found[i].0, found[i].1)
  {
    Response(200, Array(seq(|found|, i requires 0 <= i < |found| => NormalizeId(found[i].0, found[i].1))))
  }

  /**
   * `POST /api/items`: 401 without a session, 400 with the validation message, else the
   * document is inserted under a fresh id and returned; a later GET of that id answers
   * with the same document.
   */
  method CreateItem(store: ItemStore, session: Session, body: Option<Value>, newId: string, now: int)
    returns (resp: Response)
    requires store.Valid() && IsValidObjectId(newId) && newId !in store.docs
    modifies store
    ensures store.Valid()
    ensures !SignedIn(session.userId) ==>
      resp == ErrorResponse(401, "Unauthorized") && store.docs == old(store.docs)
    ensures SignedIn(session.userId) && ValidateItemBody(body).Rejected? ==>
      resp == ErrorResponse(400, ValidateItemBody(body).message) && store.docs == old(store.docs)
    ensures SignedIn(session.userId) && ValidateItemBody(body).Accepted? ==>
      && store.docs == old(store.docs)[newId := CreateDoc(body, now)]
      && resp == Response(201, NormalizeId(newId, CreateDoc(body, now)))
    ensures resp.status == 201 ==> GetItem(store.docs, newId) == Response(200, resp.body)
  {
    var gate := RequireAuth(session.userId);
    if gate.Some? {
      return gate.value;
    }
    var check := ValidateItemBody(body);
    if check.Rejected? {
      return ErrorResponse(400, check.message);
    }
    var doc := CreateDoc(body, now);
    store.InsertOne(newId, doc);
    resp := Response(201, NormalizeId(newId, doc));
  }

  /**
   * One field block of `PUT /api/items/:id`: an absent field leaves the update as it is,
   * a field that fails its check ends the request with its message, and a valid one is
   * added to the update.
   */
  method CheckField(body: Option<Value>, field: string, update: Doc) returns (r: Result<Doc, string>)
    ensures Invalid(body, field) ==> r == Err(FieldMessage(field))
    ensures !Invalid(body, field) ==> r == Ok(Put(body, field, update))
  {
    var v := Prop(body, field);
    if v.None? {
      return Ok(update);
    }
    if !FieldOk(field, v.value) {
      return Err(FieldMessage(field));
    }
    r := Ok(update[field := StoredValue(field, v.value)]);
  }

  /**
   * The body checks of `PUT /api/items/:id`, field by field in the order name, price,
   * category, inStock: the `$set` document, or the message of the 400.
   */
  method UpdateFromBody(body: Option<Value>, now: int) returns (r: Result<Doc, string>)
    ensures r == UpdateFor(body, now)
  {
    if !Truthy(body) || !IsObjectLike(body) || KeyCount(body.value) == 0 {
      return Err("Body is required");
    }
    var update := CheckField(body, "name", map[]);
    if update.Err? {
      return update;
    }
    update := CheckField(body, "price", update.value);
    if update.Err? {
      return update;
    }
    update := CheckField(body, "category", update.value);
    if update.Err? {
      return update;
    }
    update := CheckField(body, "inStock", update.value);
    if update.Err? {
      return update;
    }
    assert FirstInvalid(body) == None && update.value == Updates(body);
    if |update.value| == 0 {
      return Err("No valid fields to update");
    }
    r := Ok(update.value["updatedAt" := Date(now)]);
  }

  /**
   * `PUT /api/items/:id`: 401 without a session, 400 for a malformed id or a refused
   * body (nothing is written), 404 for an unknown id; otherwise only that document
   * changes, by the `$set` of `UpdateFor`, and it is returned.
   */
  method UpdateItem(store: ItemStore, session: Session, id: string, body: Option<Value>, now: int)
    returns (resp: Response)
    requires store.Valid()
    modifies store
    ensures store.Valid()
    ensures !SignedIn(session.userId) ==>
      resp == ErrorResponse(401, "Unauthorized") && store.docs == old(store.docs)
    ensures SignedIn(session.userId) && !IsValidObjectId(id) ==>
      resp == ErrorResponse(400, "Invalid id") && store.docs == old(store.docs)
    ensures SignedIn(session.userId) && IsValidObjectId(id) && UpdateFor(body, now).Err? ==>
      resp == ErrorResponse(400, UpdateFor(body, now).error) && store.docs == old(store.docs)
    ensures SignedIn(session.userId) && IsValidObjectId(id) && UpdateFor(body, now).Ok? && id !in old(store.docs) ==>
      resp == ErrorResponse(404, "Not Found") && store.docs == old(store.docs)
    ensures SignedIn(session.userId) && IsValidObjectId(id) && UpdateFor(body, now).Ok? && id in old(store.docs) ==>
      && store.docs == old(store.docs)[id := old(store.docs)[id] + UpdateFor(body, now).value]
      && resp == Response(200, NormalizeId(id, store.docs[id]))
  {
    var gate := RequireAuth(session.userId);
    if gate.Some? {
      return gate.value;
    }
    if !IsValidObjectId(id) {
      return ErrorResponse(400, "Invalid id");
    }
    var update := UpdateFromBody(body, now);
    if update.Err? {
      return ErrorResponse(400, update.error);
    }

    var after := store.FindOneAndUpdate(id, update.value);
    if after.None? {
      return ErrorResponse(404, "Not Found");
    }
    resp := Response(200, NormalizeId(id, after.value));
  }

  /**
   * `DELETE /api/items/:id`: 401 without a session, 400 for a malformed id, 404 for an
   * unknown one; otherwise that document, and only it, is removed and returned, and a
   * later GET of the id answers 404.
   */
  method DeleteItem(store: ItemStore, session: Session, id: string) returns (resp: Response)
    requires store.Valid()
    modifies store
    ensures store.Valid()
    ensures !SignedIn(session.userId) ==>
      resp == ErrorResponse(401, "Unauthorized") && store.docs == old(store.docs)
    ensures SignedIn(session.userId) && !IsValidObjectId(id) ==>
      resp == ErrorResponse(400, "Invalid id") && store.docs == old(store.docs)
    ensures SignedIn(session.userId) && IsValidObjectId(id) ==> store.docs == old(store.docs) - {id}
    ensures SignedIn(session.userId) && IsValidObjectId(id) && id !in old(store.docs) ==>
      resp == ErrorResponse(404, "Not Found")
    ensures SignedIn(session.userId) && IsValidObjectId(id) && id in old(store.docs) ==>
      resp == Response(200, Object(map["deleted" := Bool(true), "item" := NormalizeId(id, old(store.docs)[id])]))
    ensures resp.status == 200 ==> GetItem(store.docs, id) == ErrorResponse(404, "Not Found")
  {
    var gate := RequireAuth(session.userId);
    if gate.Some? {
      return gate.value;
    }
    if !IsValidObjectId(id) {
      return ErrorResponse(400, "Invalid id");
    }
    var before := store.FindOneAndDelete(id);
    if before.None? {
      return ErrorResponse(404, "Not Found");
    }
    resp := Response(200, Object(map["deleted" := Bool(true), "item" := NormalizeId(id, before.value)]));
  }
}
