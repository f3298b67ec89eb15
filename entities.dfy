/**
 * The rows of the three tables (`user`, `product`, `purchase`) and the
 * relational facts about them: unique keys and the `ON DELETE CASCADE`
 * foreign keys from purchases to their user and product.
 */
module Entities {

  import opened Envelope

  /** A `user` row; `email` carries a UNIQUE constraint. */
  datatype User = User(id: int, email: string, name: string, password: string)

  /** A user as the ORM loads it by default: the password column is `select: false`. */
  datatype PublicUser = PublicUser(id: int, email: string, name: string)

  function Public(u: User): PublicUser
  {
    PublicUser(u.id, u.email, u.name)
  }

  /** A `product` row; `name` is UNIQUE, `price` is `DECIMAL(10,2)` held in cents. */
  datatype Product = Product(id: int, name: string, price: nat, imageUrl: Option<string>)

  /** A `purchase` row: foreign keys to its user and product, and a snapshot total in cents. */
  datatype Purchase = Purchase(id: int, userId: int, productId: int, quantity: int, totalPrice: nat, purchaseDate: int)

  /** A purchase loaded with its `user` and `product` relations. */
  datatype PurchaseRow = PurchaseRow(id: int, user: PublicUser, product: Product, quantity: int, totalPrice: nat, purchaseDate: int)

  predicate EmailInUse(t: map<int, User>, email: string) {
    exists id :: id in t && t[id].email == email
  }

  /** Some row other than `self` holds `email`: what the UNIQUE index rejects on save. */
  predicate EmailInUseByOther(t: map<int, User>, email: string, self: int) {
    exists id :: id in t && id != self && t[id].email == email
  }

  predicate NameInUse(t: map<int, Product>, name: string) {
    exists id :: id in t && t[id].name == name
  }

  predicate NameInUseByOther(t: map<int, Product>, name: string, self: int) {
    exists id :: id in t && id != self && t[id].name == name
  }

  ghost predicate UniqueEmails(t: map<int, User>) {
    forall a, b :: a in t && b in t && t[a].email == t[b].email ==> a == b
  }

  ghost predicate UniqueNames(t: map<int, Product>) {
    forall a, b :: a in t && b in t && t[a].name == t[b].name ==> a == b
  }

  /** Every purchase joins to its user and its product (the two foreign keys). */
  ghost predicate Linked(us: map<int, User>, pr: map<int, Product>, t: map<int, Purchase>) {
    forall id :: id in t ==> t[id].userId in us && t[id].productId in pr
  }

  /** The purchases left after the user `userId` is deleted (`onDelete: 'CASCADE'`). */
  function WithoutUser(ps: map<int, Purchase>, userId: int): map<int, Purchase>
  {
    map k | k in ps && ps[k].userId != userId :: ps[k]
  }

  /** The purchases left after the product `productId` is deleted (`onDelete: 'CASCADE'`). */
  function WithoutProduct(ps: map<int, Purchase>, productId: int): map<int, Purchase>
  {
    map k | k in ps && ps[k].productId != productId :: ps[k]
  }

  /**
   * Deleting a user with the cascade leaves every remaining purchase joined
   * to a remaining user; the purchase table is left as it was exactly when
   * that user had no purchases.
   */
  lemma UserCascadeKeepsLinks(us: map<int, User>, pr: map<int, Product>, ps: map<int, Purchase>, userId: int)
    requires Linked(us, pr, ps)
    ensures Linked(us - {userId}, pr, WithoutUser(ps, userId))
    ensures WithoutUser(ps, userId) == ps <==> forall k :: k in ps ==> ps[k].userId != userId
  {
    var r := WithoutUser(ps, userId);
    if forall k :: k in ps ==> ps[k].userId != userId {
      assert r.Keys == ps.Keys;
    }
  }

  /**
   * Deleting a product with the cascade leaves every remaining purchase
   * joined to a remaining product; the purchase table is left as it was
   * exactly when nobody had bought that product.
   */
  lemma ProductCascadeKeepsLinks(us: map<int, User>, pr: map<int, Product>, ps: map<int, Purchase>, productId: int)
    requires Linked(us, pr, ps)
    ensures Linked(us, pr - {productId}, WithoutProduct(ps, productId))
    ensures WithoutProduct(ps, productId) == ps <==> forall k :: k in ps ==> ps[k].productId != productId
  {
    var r := WithoutProduct(ps, productId);
    if forall k :: k in ps ==> ps[k].productId != productId {
      assert r.Keys == ps.Keys;
    }
  }
}
