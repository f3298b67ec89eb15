/**
 * The product catalogue (`ProductService`): products keyed by a unique,
 * trimmed name, with a non-negative price held to two decimals.
 */
module Products {

  import opened Envelope
  import opened Entities
  import opened Text
  import opened Money
  import Table
  import Store

  const ExistsMessage: string := "Bu ürün zaten mevcut"
  const PriceMessage: string := "Fiyat 0 veya daha büyük olmalı"
  const NotImplementedMessage: string := "Method not implemented."
  const ListedMessage: string := "Ürünler listelendi"
  const FoundMessage: string := "Ürün bulundu"
  const NotFoundMessage: string := "Ürün bulunamadı"
  const CreatedMessage: string := "Ürün oluşturuldu"
  const UpdatedMessage: string := "Ürün güncellendi"
  const DeletedMessage: string := "Ürün silindi"
  const ImageMessage: string := "Ürün görseli güncellendi"
  const ProductNotFound: string := "PRODUCT_NOT_FOUND"

  /** What `delete` reports about the removed product. */
  datatype Removed = Removed(id: int, name: string)

  /** The price check of `create` and `update`: NaN and negative numbers are refused. */
  predicate AcceptablePrice(x: JsNumber) {
    !x.NaN? && !IsNegative(x)
  }

  /**
   * A stored price sent back as it reads (`Number` of the `DECIMAL` column)
   * passes the price check and is stored as the same number of cents.
   */
  lemma StoredPriceAccepted(cents: nat)
    ensures AcceptablePrice(FromCents(cents))
    ensures ToCents(FromCents(cents)) == cents
  {
    CentsRoundTrip(cents);
  }

  ghost predicate AllTrimmed(t: map<int, Product>) {
    forall id :: id in t ==> Trim(t[id].name) == t[id].name
  }

  lemma StoreTrimmed(t: map<int, Product>, id: int, p: Product)
    requires AllTrimmed(t) && Trim(p.name) == p.name
    ensures AllTrimmed(t[id := p])
  {
  }

  /** `find({ order: { id: 'DESC' } })` on the product table. */
  function Catalogue(t: map<int, Product>, hi: int): (ps: seq<Product>)
    requires forall id :: id in t ==> 1 <= id <= hi && t[id].id == id
    ensures forall i, j :: 0 <= i < j < |ps| ==> ps[i].id > ps[j].id
    ensures forall i :: 0 <= i < |ps| ==> ps[i].id in t && ps[i] == t[ps[i].id]
    ensures forall id :: id in t ==> t[id] in ps
  {
    var ks := Table.Select(t, hi, (p: Product) => true);
    var ps := Table.Project(t, ks, (p: Product) => p);
    assert forall i :: 0 <= i < |ps| ==> ps[i].id == ks[i];
    ps
  }

  class ProductService {
    const db: Store.Database

    constructor (db: Store.Database)
      requires db.Valid() && AllTrimmed(db.products)
      ensures this.db == db
      ensures Valid()
    {
      this.db := db;
    }

    ghost predicate Valid()
      reads db
    {
      db.Valid() && AllTrimmed(db.products)
    }

    // -------------------------------------------------------------------
    // Queries

    /** `findByName`: a stub that always throws. */
    function FindByName(name: string): (r: Result<Product>)
      ensures r.Err? && r.fault.NotImplemented?
    {
      Err(NotImplemented(NotImplementedMessage))
    }

    /** `getByNameEntity`: an exact match on the stored name, with no trimming. */
    function GetByNameEntity(name: string): (r: Option<Product>)
      reads db
      requires db.Valid()
      ensures r.Some? <==> NameInUse(db.products, name)
      ensures r.Some? ==> r.value.id in db.products && r.value == db.products[r.value.id] && r.value.name == name
    {
      db.FindProductByName(name)
    }

    /** `getByNameResponse`: the look-up wrapped in the envelope. */
    function GetByNameResponse(name: string): (r: Response<Product>)
      reads db
      requires db.Valid()
      ensures r.success <==> NameInUse(db.products, name)
      ensures r.success ==> r.data.Some? && r.data.value.name == name && r.data.value.id in db.products
      ensures r.success ==> r.data.value == db.products[r.data.value.id]
      ensures !r.success ==> r.data.None? && r.error == Some(ProductNotFound)
    {
      var p := GetByNameEntity(name);
      if p.None? then Failure(NotFoundMessage, ProductNotFound) else Success(FoundMessage, p.value)
    }

    /** A name with white space at either end matches no product, since stored names are trimmed. */
    lemma PaddedNameNotFound(name: string)
      requires Valid() && Trim(name) != name
      ensures GetByNameEntity(name).None?
    {
    }

    /** `findAll`: every product, highest id first. */
    function FindAll(): (r: Response<seq<Product>>)
      reads db
      requires db.Valid()
      ensures r.success && r.data.Some?
      ensures var ps := r.data.value;
              && (forall i, j :: 0 <= i < j < |ps| ==> ps[i].id > ps[j].id)
              && (forall i :: 0 <= i < |ps| ==> ps[i].id in db.products && ps[i] == db.products[ps[i].id])
              && (forall id :: id in db.products ==> db.products[id] in ps)
    {
      Success(ListedMessage, Catalogue(db.products, db.nextProductId - 1))
    }

    // -------------------------------------------------------------------
    // Changes

    /**
     * `create`: refuses a name already stored (checked as given), then a NaN
     * or negative price; stores the trimmed name and the price in cents, and
     * refuses at save time a trimmed name already stored.
     */
    method Create(name: string, price: JsNumber) returns (r: Result<Response<Product>>)
      requires Valid()
      modifies db`products, db`nextProductId
      ensures Valid()
      ensures NameInUse(old(db.products), name) ==>
        r == Err(Conflict(ExistsMessage))
      ensures !NameInUse(old(db.products), name) && !AcceptablePrice(price) ==>
        r == Err(BadRequest(PriceMessage))
      ensures !NameInUse(old(db.products), name) && AcceptablePrice(price) && NameInUse(old(db.products), Trim(name)) ==>
        r == Err(Conflict(ExistsMessage))
      ensures r.Err? ==> db.products == old(db.products) && db.nextProductId == old(db.nextProductId)
      ensures !NameInUse(old(db.products), name) && AcceptablePrice(price) && !NameInUse(old(db.products), Trim(name)) ==>
        var p := Product(old(db.nextProductId), Trim(name), ToCents(price), None);
        && r == Ok(Success(CreatedMessage, p))
        && db.products == old(db.products)[p.id := p]
        && db.nextProductId == old(db.nextProductId) + 1
    {
      var existing := db.FindProductByName(name);
      if existing.Some? {
        return Err(Conflict(ExistsMessage));
      }
      if price.NaN? || IsNegative(price) {
        return Err(BadRequest(PriceMessage));
      }
      TrimIdempotent(name);
      StoreTrimmed(db.products, db.nextProductId, Product(db.nextProductId, Trim(name), ToCents(price), None));
      var saved, dup := db.InsertProduct(Trim(name), ToCents(price));
      if dup {
        r := Err(Conflict(ExistsMessage));
      } else {
        r := Ok(Success(CreatedMessage, saved));
      }
    }

    /**
     * `update`: changes only the fields supplied. A given name is trimmed and
     * refused at save time if another product holds it; a given price is
     * checked and stored in cents.
     */
    method Update(name: string, newName: Option<string>, newPrice: Option<JsNumber>)
      returns (r: Result<Response<Product>>)
      requires Valid()
      modifies db`products
      ensures Valid()
      ensures old(GetByNameEntity(name)).None? ==>
        r == Ok(Failure(NotFoundMessage, ProductNotFound)) && db.products == old(db.products)
      ensures old(GetByNameEntity(name)).Some? ==>
        var p := old(GetByNameEntity(name)).value;
        var p' := Product(p.id,
                          if newName.Some? then Trim(newName.value) else p.name,
                          if newPrice.Some? && AcceptablePrice(newPrice.value) then ToCents(newPrice.value) else p.price,
                          p.imageUrl);
        && (newPrice.Some? && !AcceptablePrice(newPrice.value) ==>
              r == Err(BadRequest(PriceMessage)) && db.products == old(db.products))
        && (!(newPrice.Some? && !AcceptablePrice(newPrice.value)) && NameInUseByOther(old(db.products), p'.name, p.id) ==>
              r == Err(Conflict(ExistsMessage)) && db.products == old(db.products))
        && (!(newPrice.Some? && !AcceptablePrice(newPrice.value)) && !NameInUseByOther(old(db.products), p'.name, p.id) ==>
              r == Ok(Success(UpdatedMessage, p')) && db.products == old(db.products)[p.id := p'])
    {
      var found := GetByNameEntity(name);
      if found.None? {
        return Ok(Failure(NotFoundMessage, ProductNotFound));
      }
      var product := found.value;
      if newName.Some? {
        product := product.(name := Trim(newName.value));
        TrimIdempotent(newName.value);
      }
      if newPrice.Some? {
        var x := newPrice.value;
        if x.NaN? || IsNegative(x) {
          return Err(BadRequest(PriceMessage));
        }
        product := product.(price := ToCents(x));
      }
      StoreTrimmed(db.products, product.id, product);
      var dup := db.UpdateProduct(product);
      if dup {
        r := Err(Conflict(ExistsMessage));
      } else {
        r := Ok(Success(UpdatedMessage, product));
      }
    }

    /**
     * `delete`: removes the product with exactly this name, and with it every
     * purchase of it, returning its id and name.
     */
    method Delete(name: string) returns (r: Response<Removed>)
      requires Valid()
      modifies db`products, db`purchases
      ensures Valid()
      ensures old(GetByNameEntity(name)).None? ==>
        && r == Failure(NotFoundMessage, ProductNotFound)
        && db.products == old(db.products) && db.purchases == old(db.purchases)
      ensures old(GetByNameEntity(name)).Some? ==>
        var p := old(GetByNameEntity(name)).value;
        && r == Success(DeletedMessage, Removed(p.id, p.name))
        && db.products == old(db.products) - {p.id}
        && db.purchases == WithoutProduct(old(db.purchases), p.id)
    {
      var found := GetByNameEntity(name);
      if found.None? {
        return Failure(NotFoundMessage, ProductNotFound);
      }
      var product := found.value;
      db.RemoveProduct(product.id);
      r := Success(DeletedMessage, Removed(product.id, product.name));
    }

    /** `setImageUrlByName`: sets the image of the named product and nothing else. */
    method SetImageUrlByName(name: string, imageUrl: string) returns (r: Response<Product>)
      requires Valid()
      modifies db`products
      ensures Valid()
      ensures old(GetByNameEntity(name)).None? ==>
        r == Failure(NotFoundMessage, ProductNotFound) && db.products == old(db.products)
      ensures old(GetByNameEntity(name)).Some? ==>
        var p := old(GetByNameEntity(name)).value;
        && r == Success(ImageMessage, p.(imageUrl := Some(imageUrl)))
        && db.products == old(db.products)[p.id := p.(imageUrl := Some(imageUrl))]
    {
      var found := GetByNameEntity(name);
      if found.None? {
        return Failure(NotFoundMessage, ProductNotFound);
      }
      var product := found.value.(imageUrl := Some(imageUrl));
      StoreTrimmed(db.products, product.id, product);
      var dup := db.UpdateProduct(product);
      // The name is unchanged, so the save never reports a duplicate.
      r := Success(ImageMessage, product);
    }
  }
}
