/**
 * The purchase ledger (`PurchaseService`): a purchase links a user and a
 * product and records the quantity and the total at the price of the day.
 */
module Purchases {

  import opened Envelope
  import opened Entities
  import opened Text
  import opened Money
  import Table
  import Store
  import Users
  import Products

  const QuantityMessage: string := "Adet en az 1 olmalı"
  const TotalMessage: string := "Toplam fiyat hesaplanamadı"
  const CreatedMessage: string := "Satın alma oluşturuldu"
  const ListedMessage: string := "Satın almalar listelendi"
  const ListedForUserMessage: string := "Kullanıcının satın almaları listelendi"

  /** The quantity check of `create`: an integer of at least 1 (NaN is not an integer). */
  predicate AcceptableQuantity(q: JsNumber) {
    IsInteger(q) && IntegerValue(q) >= 1
  }

  /** The quantities `create` accepts are exactly the numbers whose value is a whole number of at least 1. */
  lemma AcceptableQuantityIsWholeNumber(q: JsNumber, n: int)
    ensures Represents(q, n) && n >= 1 ==> AcceptableQuantity(q)
    ensures AcceptableQuantity(q) ==> Represents(q, IntegerValue(q)) && IntegerValue(q) >= 1
  {
    IntegerIsWholeNumber(q, n);
  }

  /** A purchase row loaded with its `user` (without password) and `product` relations. */
  function Load(us: map<int, User>, pr: map<int, Product>, p: Purchase): PurchaseRow
    requires p.userId in us && p.productId in pr
  {
    PurchaseRow(p.id, Public(us[p.userId]), pr[p.productId], p.quantity, p.totalPrice, p.purchaseDate)
  }

  /**
   * `find({ where, relations: ['user', 'product'], order: { id: 'DESC' } })`
   * on the purchase table: the loaded rows satisfying `keep`, highest id first.
   */
  function Listing(us: map<int, User>, pr: map<int, Product>, t: map<int, Purchase>, hi: int, keep: Purchase -> bool)
    : (rows: seq<PurchaseRow>)
    requires Linked(us, pr, t)
    requires forall id :: id in t ==> 1 <= id <= hi && t[id].id == id
    ensures forall i, j :: 0 <= i < j < |rows| ==> rows[i].id > rows[j].id
    ensures forall i :: 0 <= i < |rows| ==>
              rows[i].id in t && keep(t[rows[i].id]) && rows[i] == Load(us, pr, t[rows[i].id])
    ensures forall id :: id in t && keep(t[id]) ==> Load(us, pr, t[id]) in rows
  {
    var ks := Table.Select(t, hi, keep);
    var rows := seq(|ks|, i requires 0 <= i < |ks| => Load(us, pr, t[ks[i]]));
    assert forall i :: 0 <= i < |rows| ==> rows[i].id == ks[i];
    assert forall id :: id in t && keep(t[id]) ==> Load(us, pr, t[id]) in rows by {
      forall id | id in t && keep(t[id]) ensures Load(us, pr, t[id]) in rows {
        assert id in ks;
        var i :| 0 <= i < |ks| && ks[i] == id;
        assert rows[i] == Load(us, pr, t[id]);
      }
    }
    rows
  }

  class PurchaseService {
    const db: Store.Database
    const users: Users.UserService
    const products: Products.ProductService

    constructor (db: Store.Database, users: Users.UserService, products: Products.ProductService)
      requires users.db == db && products.db == db && users.Valid() && products.Valid()
      ensures this.db == db && this.users == users && this.products == products
      ensures Valid()
    {
      this.db := db;
      this.users := users;
      this.products := products;
    }

    /** Starting from an empty database, the three services are wired to it with their invariants in force. */
    static method Setup() returns (s: PurchaseService)
      ensures fresh(s.db) && s.Valid()
      ensures s.db.users == map[] && s.db.products == map[] && s.db.purchases == map[]
    {
      var db := new Store.Database();
      var users := new Users.UserService(db);
      var products := new Products.ProductService(db);
      s := new PurchaseService(db, users, products);
    }

    /** The three services share one database, whose invariants hold. */
    ghost predicate Valid()
      reads db
    {
      && users.db == db && products.db == db
      && users.Valid() && products.Valid()
    }

    // -------------------------------------------------------------------
    // Queries

    /** `findAll`: every purchase with its user and product, highest id first. */
    function FindAll(): (r: Response<seq<PurchaseRow>>)
      reads db
      requires db.Valid()
      ensures r.success && r.data.Some?
      ensures var rows := r.data.value;
              && (forall i, j :: 0 <= i < j < |rows| ==> rows[i].id > rows[j].id)
              && (forall i :: 0 <= i < |rows| ==>
                    rows[i].id in db.purchases && rows[i] == Load(db.users, db.products, db.purchases[rows[i].id]))
              && (forall id :: id in db.purchases ==> Load(db.users, db.products, db.purchases[id]) in rows)
    {
      Success(ListedMessage, Listing(db.users, db.products, db.purchases, db.nextPurchaseId - 1, (p: Purchase) => true))
    }

    /**
     * `findByUserEmail`: the purchases of the user whose stored e-mail equals
     * the argument exactly (it is not normalised), highest id first.
     */
    function FindByUserEmail(email: string): (r: Response<seq<PurchaseRow>>)
      reads db
      requires db.Valid()
      ensures r.success && r.data.Some?
      ensures var rows := r.data.value;
              && (forall i, j :: 0 <= i < j < |rows| ==> rows[i].id > rows[j].id)
              && (forall i :: 0 <= i < |rows| ==>
                    && rows[i].id in db.purchases && rows[i].user.email == email
                    && rows[i] == Load(db.users, db.products, db.purchases[rows[i].id]))
              && (forall id :: id in db.purchases && db.users[db.purchases[id].userId].email == email ==>
                    Load(db.users, db.products, db.purchases[id]) in rows)
    {
      var us := db.users;
      Success(ListedForUserMessage,
              Listing(us, db.products, db.purchases, db.nextPurchaseId - 1,
                      (p: Purchase) => p.userId in us && us[p.userId].email == email))
    }

    /**
     * Stored e-mails are normalised, so under exact string comparison only a
     * normalised e-mail can list any purchase: one with upper-case letters or
     * surrounding white space lists none, although `create` finds the same
     * user under it. (A case-insensitive collation would still match the
     * capitals, but not leading white space.)
     */
    lemma ListedEmailIsNormal(email: string)
      requires Valid()
      ensures |FindByUserEmail(email).data.value| > 0 ==> IsNormalEmail(email)
    {
      var rows := FindByUserEmail(email).data.value;
      if |rows| > 0 {
        var u := db.users[db.purchases[rows[0].id].userId];
        assert Users.WellFormed(u);
      }
    }

    // -------------------------------------------------------------------
    // Changes

    /**
     * `create`: checks the quantity, finds the user by normalised e-mail and
     * the product by exact name, and records the total as the product's
     * current price times the quantity, stamped with `now`.
     */
    method Create(userEmail: string, productName: string, quantity: JsNumber, now: int)
      returns (r: Result<Response<PurchaseRow>>)
      requires Valid()
      modifies db`purchases, db`nextPurchaseId
      ensures Valid()
      ensures db.users == old(db.users) && db.products == old(db.products)
      ensures !AcceptableQuantity(quantity) ==>
        r == Err(BadRequest(QuantityMessage))
      ensures AcceptableQuantity(quantity) && old(users.GetByEmailEntity(userEmail)).None? ==>
        r == Ok(Failure(Users.NotFoundMessage, Users.UserNotFound))
      ensures AcceptableQuantity(quantity) && old(users.GetByEmailEntity(userEmail)).Some?
              && old(products.GetByNameEntity(productName)).None? ==>
        r == Ok(Failure(Products.NotFoundMessage, Products.ProductNotFound))
      ensures !r.Ok? || !r.value.success ==>
        db.purchases == old(db.purchases) && db.nextPurchaseId == old(db.nextPurchaseId)
      ensures AcceptableQuantity(quantity) && old(users.GetByEmailEntity(userEmail)).Some?
              && old(products.GetByNameEntity(productName)).Some? ==>
        var u := old(users.GetByEmailEntity(userEmail)).value;
        var p := old(products.GetByNameEntity(productName)).value;
        var q: nat := IntegerValue(quantity);
        var saved := Purchase(old(db.nextPurchaseId), u.id, p.id, q, LineTotal(p.price, q), now);
        && r == Ok(Success(CreatedMessage, PurchaseRow(saved.id, u, p, q, saved.totalPrice, now)))
        && db.purchases == old(db.purchases)[saved.id := saved]
        && db.nextPurchaseId == old(db.nextPurchaseId) + 1
    {
      if !IsInteger(quantity) || IntegerValue(quantity) < 1 {
        return Err(BadRequest(QuantityMessage));
      }
      var q := IntegerValue(quantity);
      var user := users.GetByEmailEntity(userEmail);
      if user.None? {
        return Ok(Failure(Users.NotFoundMessage, Users.UserNotFound));
      }
      var product := products.GetByNameEntity(productName);
      if product.None? {
        return Ok(Failure(Products.NotFoundMessage, Products.ProductNotFound));
      }
      var u, p := user.value, product.value;
      TotalIsExactProduct(p.price, q);
      var total := TotalCents(p.price, q);
      if total.None? {
        r := Err(BadRequest(TotalMessage));
      } else {
        var saved := db.InsertPurchase(u.id, p.id, q, total.value, now);
        r := Ok(Success(CreatedMessage, PurchaseRow(saved.id, u, p, q, total.value, now)));
      }
    }
  }
}
