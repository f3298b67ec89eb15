/**
 * The relational store behind the three repositories, run one request at a
 * time. Each table is a map from primary key to row with its own
 * auto-increment counter; saves enforce the UNIQUE indexes (reporting a
 * duplicate, the `ER_DUP_ENTRY` case, instead of writing) and deletes
 * cascade to purchases.
 */
module Store {

  import opened Envelope
  import opened Entities
  import Table

  class Database {
    var users: map<int, User>
    var products: map<int, Product>
    var purchases: map<int, Purchase>
    var nextUserId: int
    var nextProductId: int
    var nextPurchaseId: int

    /** Primary keys, UNIQUE indexes and foreign keys all hold. */
    ghost predicate Valid()
      reads this
    {
      && 1 <= nextUserId && 1 <= nextProductId && 1 <= nextPurchaseId
      && (forall id :: id in users ==> 1 <= id < nextUserId && users[id].id == id)
      && UniqueEmails(users)
      && (forall id :: id in products ==> 1 <= id < nextProductId && products[id].id == id)
      && UniqueNames(products)
      && (forall id :: id in purchases ==> 1 <= id < nextPurchaseId && purchases[id].id == id)
      && Linked(users, products, purchases)
    }

    constructor ()
      ensures Valid()
      ensures users == map[] && products == map[] && purchases == map[]
    {
      users, products, purchases := map[], map[], map[];
      nextUserId, nextProductId, nextPurchaseId := 1, 1, 1;
    }

    // -------------------------------------------------------------------
    // Queries

    /** `userRepo.findOne({ where: { email } })`: an exact match. */
    function FindUserByEmail(email: string): (r: Option<User>)
      reads this
      requires Valid()
      ensures r.Some? <==> EmailInUse(users, email)
      ensures r.Some? ==> r.value.id in users && users[r.value.id] == r.value && r.value.email == email
    {
      var k := Table.FindOne(users, nextUserId - 1, (u: User) => u.email == email);
      if k.None? then None else Some(users[k.value])
    }

    /** `productRepo.findOne({ where: { name } })`: an exact match. */
    function FindProductByName(name: string): (r: Option<Product>)
      reads this
      requires Valid()
      ensures r.Some? <==> NameInUse(products, name)
      ensures r.Some? ==> r.value.id in products && products[r.value.id] == r.value && r.value.name == name
    {
      var k := Table.FindOne(products, nextProductId - 1, (p: Product) => p.name == name);
      if k.None? then None else Some(products[k.value])
    }

    // -------------------------------------------------------------------
    // Users

    /** Inserts a new user row under the next id, unless its e-mail is taken. */
    method InsertUser(email: string, name: string, password: string) returns (u: User, dup: bool)
      requires Valid()
      modifies this`users, this`nextUserId
      ensures Valid()
      ensures u == User(old(nextUserId), email, name, password)
      ensures dup == EmailInUse(old(users), email)
      ensures dup ==> users == old(users) && nextUserId == old(nextUserId)
      ensures !dup ==> users == old(users)[u.id := u] && nextUserId == old(nextUserId) + 1
    {
      u := User(nextUserId, email, name, password);
      dup := EmailInUse(users, email);
      if !dup {
        users := users[u.id := u];
        nextUserId := nextUserId + 1;
      }
    }

    /** Writes back an existing user row, unless another row holds its e-mail. */
    method UpdateUser(u: User) returns (dup: bool)
      requires Valid() && u.id in users
      modifies this`users
      ensures Valid()
      ensures dup == EmailInUseByOther(old(users), u.email, u.id)
      ensures users == if dup then old(users) else old(users)[u.id := u]
    {
      dup := EmailInUseByOther(users, u.email, u.id);
      if !dup {
        users := users[u.id := u];
      }
    }

    /** Deletes a user row; the database deletes that user's purchases with it. */
    method RemoveUser(id: int)
      requires Valid() && id in users
      modifies this`users, this`purchases
      ensures Valid()
      ensures users == old(users) - {id}
      ensures purchases == WithoutUser(old(purchases), id)
    {
      UserCascadeKeepsLinks(users, products, purchases, id);
      users := users - {id};
      purchases := WithoutUser(purchases, id);
    }

    // -------------------------------------------------------------------
    // Products

    /** Inserts a new product row under the next id, unless its name is taken. */
    method InsertProduct(name: string, price: nat) returns (p: Product, dup: bool)
      requires Valid()
      modifies this`products, this`nextProductId
      ensures Valid()
      ensures p == Product(old(nextProductId), name, price, None)
      ensures dup == NameInUse(old(products), name)
      ensures dup ==> products == old(products) && nextProductId == old(nextProductId)
      ensures !dup ==> products == old(products)[p.id := p] && nextProductId == old(nextProductId) + 1
    {
      p := Product(nextProductId, name, price, None);
      dup := NameInUse(products, name);
      if !dup {
        products := products[p.id := p];
        nextProductId := nextProductId + 1;
      }
    }

    /** Writes back an existing product row, unless another row holds its name. */
    method UpdateProduct(p: Product) returns (dup: bool)
      requires Valid() && p.id in products
      modifies this`products
      ensures Valid()
      ensures dup == NameInUseByOther(old(products), p.name, p.id)
      ensures products == if dup then old(products) else old(products)[p.id := p]
    {
      dup := NameInUseByOther(products, p.name, p.id);
      if !dup {
        products := products[p.id := p];
      }
    }

    /** Deletes a product row; the database deletes the purchases of it. */
    method RemoveProduct(id: int)
      requires Valid() && id in products
      modifies this`products, this`purchases
      ensures Valid()
      ensures products == old(products) - {id}
      ensures purchases == WithoutProduct(old(purchases), id)
    {
      ProductCascadeKeepsLinks(users, products, purchases, id);
      products := products - {id};
      purchases := WithoutProduct(purchases, id);
    }

    // -------------------------------------------------------------------
    // Purchases

    /** Inserts a purchase row under the next id; both foreign keys must resolve. */
    method InsertPurchase(userId: int, productId: int, quantity: int, totalPrice: nat, purchaseDate: int)
      returns (p: Purchase)
      requires Valid() && userId in users && productId in products
      modifies this`purchases, this`nextPurchaseId
      ensures Valid()
      ensures p == Purchase(old(nextPurchaseId), userId, productId, quantity, totalPrice, purchaseDate)
      ensures purchases == old(purchases)[p.id := p]
      ensures nextPurchaseId == old(nextPurchaseId) + 1
    {
      p := Purchase(nextPurchaseId, userId, productId, quantity, totalPrice, purchaseDate);
      purchases := purchases[p.id := p];
      nextPurchaseId := nextPurchaseId + 1;
    }
  }
}
