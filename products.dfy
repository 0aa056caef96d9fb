/**
 * controllers/product/products.js: creating a product with its keys, adding, deleting and
 * editing keys, and the brand/category change of updateProductDetails, with the inStock
 * counter each of them maintains.
 */
module Products {
  import opened Wrappers
  import opened Schema
  import opened KeyStore
  import opened Utils

  /** inStock counts the product's keys not yet delivered with an order. */
  ghost predicate StockInSync(keys: KeyTable, products: Catalog)
  {
    forall p | p in products :: products[p].inStock == |UnboundOf(keys, p)|
  }

  /** The productKey values in the table. */
  function ValuesIn(keys: KeyTable): set<string>
  {
    set k | k in keys :: keys[k].productKey
  }

  /** A bulkCreate of these values is accepted: each fits the productKey column, and for the
      unique constraint they are pairwise distinct and none is in the table already. */
  predicate Insertable(keys: KeyTable, values: seq<string>)
  {
    && (forall i | 0 <= i < |values| :: |values[i]| <= KeyWidth)
    && Distinct(values) && (forall i | 0 <= i < |values| :: values[i] !in ValuesIn(keys))
  }

  /** The rows bulkCreate adds: key ids[i] holds values[i], of product p, unsold and unbound. */
  function Inserted(keys: KeyTable, ids: seq<KeyId>, values: seq<string>, p: ProductId): KeyTable
    requires |ids| == |values|
  {
    if ids == [] then keys
    else
      Inserted(keys, ids[..|ids| - 1], values[..|values| - 1], p)[ids[|ids| - 1] := ProductKey(values[|values| - 1], p, false, None)]
  }

  /** Inserting fresh rows keeps the old ones and adds exactly the new ids with their values. */
  lemma {:induction false} InsertedRows(keys: KeyTable, ids: seq<KeyId>, values: seq<string>, p: ProductId)
    requires |ids| == |values| && Distinct(ids) && SetOf(ids) !! keys.Keys
    ensures Inserted(keys, ids, values, p).Keys == keys.Keys + SetOf(ids)
    ensures forall k | k in keys :: Inserted(keys, ids, values, p)[k] == keys[k]
    ensures forall i | 0 <= i < |ids| :: Inserted(keys, ids, values, p)[ids[i]] == ProductKey(values[i], p, false, None)
  {
    if ids != [] {
      var n := |ids| - 1;
      var earlier, earlierValues := ids[..n], values[..n];
      assert Distinct(earlier);
      assert SetOf(ids) == SetOf(earlier) + {ids[n]} by {
        assert ids == earlier + [ids[n]];
      }
      InsertedRows(keys, earlier, earlierValues, p);
      var rest := Inserted(keys, earlier, earlierValues, p);
      var t := rest[ids[n] := ProductKey(values[n], p, false, None)];
      assert Inserted(keys, ids, values, p) == t;
      forall i | 0 <= i < |ids|
        ensures t[ids[i]] == ProductKey(values[i], p, false, None)
      {
        if i < n {
          assert earlier[i] == ids[i] && earlierValues[i] == values[i];
          assert ids[i] != ids[n];
        }
      }
    }
  }

  /** The new rows join p's unbound keys and no other product's. */
  lemma InsertedSpec(keys: KeyTable, ids: seq<KeyId>, values: seq<string>, p: ProductId)
    requires |ids| == |values| && Distinct(ids) && SetOf(ids) !! keys.Keys
    ensures UnboundOf(Inserted(keys, ids, values, p), p) == UnboundOf(keys, p) + SetOf(ids)
    ensures forall q | q != p :: UnboundOf(Inserted(keys, ids, values, p), q) == UnboundOf(keys, q)
  {
    InsertedRows(keys, ids, values, p);
    var t := Inserted(keys, ids, values, p);
    forall k | k in SetOf(ids) ensures k in UnboundOf(t, p) {
      var i :| 0 <= i < |ids| && ids[i] == k;
    }
  }

  /** The unbound count of p grows by the number of rows inserted. */
  lemma InsertedCount(keys: KeyTable, ids: seq<KeyId>, values: seq<string>, p: ProductId)
    requires |ids| == |values| && Distinct(ids) && SetOf(ids) !! keys.Keys
    ensures |UnboundOf(Inserted(keys, ids, values, p), p)| == |UnboundOf(keys, p)| + |ids|
  {
    InsertedSpec(keys, ids, values, p);
    DistinctCard(ids);
    InsertedRows(keys, ids, values, p);
    assert UnboundOf(keys, p) <= keys.Keys;
  }

  /** An insert that meets the unique constraint keeps productKey unique. */
  lemma InsertedUnique(keys: KeyTable, ids: seq<KeyId>, values: seq<string>, p: ProductId)
    requires |ids| == |values| && Distinct(ids) && SetOf(ids) !! keys.Keys
    requires Insertable(keys, values)
    ensures UniqueValues(keys) ==> UniqueValues(Inserted(keys, ids, values, p))
  {
    InsertedRows(keys, ids, values, p);
    var t := Inserted(keys, ids, values, p);
    if UniqueValues(keys) {
      forall a, b | a in t && b in t && t[a].productKey == t[b].productKey ensures a == b {
        if a in keys {
          assert keys[a].productKey in ValuesIn(keys);
        }
        if b in keys {
          assert keys[b].productKey in ValuesIn(keys);
        }
        if a !in keys && b !in keys {
          var i :| 0 <= i < |ids| && ids[i] == a;
          var j :| 0 <= j < |ids| && ids[j] == b;
        }
      }
    }
  }

  /** The counting loop of addNewProduct over the rows bulkCreate returned. */
  method CountRows(rows: seq<KeyId>) returns (count: int)
    ensures count == |rows|
  {
    count := 0;
    for i := 0 to |rows|
      invariant count == i
    {
      count := count + 1;
    }
  }

  /** addNewProduct: brandId and categoryId must be given; the product (id p, freshly
      generated) is created with inStock 0, which fails on a name wider than its column, and
      then its brand/category row, which fails on an
      unknown brand or category and destroys the product; given keys are bulk-inserted and
      inStock set to their count, and a failed insert destroys the product. The image is not
      modelled. */
  method AddNewProduct(db: Shop, p: ProductId, name: string, marketPrice: int, actualPrice: int,
                       brandId: Option<BrandId>, categoryId: Option<CategoryId>,
                       productKeys: Option<seq<string>>, ids: seq<KeyId>) returns (r: Result<Product, Error>)
    requires p !in db.products
    requires productKeys.Some? ==> |ids| == |productKeys.value| && Distinct(ids) && SetOf(ids) !! db.keys.Keys
    modifies db`products, db`keys
    ensures brandId.None? ==> r == Err(BrandIdMissing)
    ensures brandId.Some? && categoryId.None? ==> r == Err(CategoryIdMissing)
    ensures brandId.Some? && categoryId.Some? && |name| > ProductNameWidth ==> r == Err(ProductNotAdded)
    ensures brandId.Some? && categoryId.Some? && |name| <= ProductNameWidth
            && (brandId.value !in db.brands || categoryId.value !in db.categories) ==>
              r == Err(AssociationFailed)
    ensures r.Err? ==> db.products == old(db.products) && db.keys == old(db.keys)
    ensures r.Err? && brandId.Some? && categoryId.Some? && |name| <= ProductNameWidth
            && brandId.value in db.brands && categoryId.value in db.categories ==>
              r == Err(ProductKeysFailed) && productKeys.Some? && productKeys.value != [] && !Insertable(old(db.keys), productKeys.value)
    ensures r.Ok? ==>
              var values := if productKeys.Some? then productKeys.value else [];
              && brandId.Some? && categoryId.Some? && |name| <= ProductNameWidth
              && r.value == Product(name, marketPrice, actualPrice, |values|, brandId.value, categoryId.value)
              && db.products == old(db.products)[p := r.value]
              && (values == [] ==> db.keys == old(db.keys))
              && (values != [] ==> Insertable(old(db.keys), values) && db.keys == Inserted(old(db.keys), ids, values, p))
              && r.value.inStock == |UnboundOf(db.keys, p)| - |UnboundOf(old(db.keys), p)|
              && (forall q | q != p :: UnboundOf(db.keys, q) == UnboundOf(old(db.keys), q))
              && (StockInSync(old(db.keys), old(db.products)) && UnboundOf(old(db.keys), p) == {} ==> StockInSync(db.keys, db.products))
              && (UniqueValues(old(db.keys)) ==> UniqueValues(db.keys))
  {
    if brandId.None? {
      return Err(BrandIdMissing);
    }
    if categoryId.None? {
      return Err(CategoryIdMissing);
    }
    if |name| > ProductNameWidth {
      return Err(ProductNotAdded);
    }
    var product := Product(name, marketPrice, actualPrice, 0, brandId.value, categoryId.value);
    db.products := db.products[p := product];
    if brandId.value !in db.brands || categoryId.value !in db.categories {
      // the productBrandCategories row violates its foreign key: destroy the product
      db.products := db.products - {p};
      assert db.products == old(db.products);
      return Err(AssociationFailed);
    }
    ghost var keysBefore := db.keys;
    if productKeys.Some? && productKeys.value != [] {
      var values := productKeys.value;
      if !Insertable(db.keys, values) {
        // the unique constraint rejects the whole bulkCreate: manual rollback
        db.products := db.products - {p};
        assert db.products == old(db.products);
        return Err(ProductKeysFailed);
      }
      InsertKeys(db, ids, values, p);
      var count := CountRows(ids);
      product := product.(inStock := count);
      db.products := db.products[p := product];
    }
    assert db.products == old(db.products)[p := product];
    assert product.inStock == |UnboundOf(db.keys, p)| - |UnboundOf(keysBefore, p)|;
    if StockInSync(keysBefore, old(db.products)) && UnboundOf(keysBefore, p) == {} {
      SyncedWith(keysBefore, db.keys, old(db.products), p, product);
    }
    r := Ok(product);
  }

  /** The bulkCreate of a product's keys: the rows join p's unbound keys and no other product's. */
  method InsertKeys(db: Shop, ids: seq<KeyId>, values: seq<string>, p: ProductId)
    requires |ids| == |values| && Distinct(ids) && SetOf(ids) !! db.keys.Keys
    requires Insertable(db.keys, values)
    modifies db`keys
    ensures db.keys == Inserted(old(db.keys), ids, values, p)
    ensures |UnboundOf(db.keys, p)| == |UnboundOf(old(db.keys), p)| + |ids|
    ensures forall q | q != p :: UnboundOf(db.keys, q) == UnboundOf(old(db.keys), q)
    ensures UniqueValues(old(db.keys)) ==> UniqueValues(db.keys)
  {
    InsertedSpec(db.keys, ids, values, p);
    InsertedCount(db.keys, ids, values, p);
    InsertedUnique(db.keys, ids, values, p);
    db.keys := Inserted(db.keys, ids, values, p);
  }

  /** A table change confined to p's unbound keys keeps the other counters right, so setting
      p's counter to its new unbound count keeps every counter right. */
  lemma SyncedWith(keys: KeyTable, keys': KeyTable, products: Catalog, p: ProductId, product: Product)
    requires StockInSync(keys, products)
    requires forall q | q != p :: UnboundOf(keys', q) == UnboundOf(keys, q)
    requires product.inStock == |UnboundOf(keys', p)|
    ensures StockInSync(keys', products[p := product])
  {
  }

  /** addNewProductKeys: the productId must be given and name an existing product, and the
      key list must not be empty; the keys are bulk-inserted (the unique constraint can reject
      the whole insert) and inStock grows by their number. */
  method AddNewProductKeys(db: Shop, p: Option<ProductId>, productKeys: Option<seq<string>>, ids: seq<KeyId>)
    returns (r: Result<seq<KeyId>, Error>)
    requires productKeys.Some? ==> |ids| == |productKeys.value| && Distinct(ids) && SetOf(ids) !! db.keys.Keys
    modifies db`products, db`keys
    ensures p.None? ==> r == Err(ProductIdMissing)
    ensures p.Some? && p.value !in db.products ==> r == Err(ProductMissing)
    ensures p.Some? && p.value in old(db.products) && (productKeys.None? || productKeys.value == []) ==> r == Err(ProductKeysNotProvided)
    ensures p.Some? && p.value in old(db.products) && productKeys.Some? && productKeys.value != [] ==>
              (r.Ok? <==> Insertable(old(db.keys), productKeys.value))
    ensures r.Err? ==> db.products == old(db.products) && db.keys == old(db.keys)
    ensures r.Ok? ==>
              && p.Some? && productKeys.Some? && r.value == ids
              && db.keys == Inserted(old(db.keys), ids, productKeys.value, p.value)
              && p.value in old(db.products)
              && db.products == old(db.products)[p.value := old(db.products)[p.value].(inStock := old(db.products)[p.value].inStock + |ids|)]
              && db.products[p.value].inStock - old(db.products)[p.value].inStock
                 == |UnboundOf(db.keys, p.value)| - |UnboundOf(old(db.keys), p.value)|
              && (forall q | q != p.value :: UnboundOf(db.keys, q) == UnboundOf(old(db.keys), q))
              && (StockInSync(old(db.keys), old(db.products)) ==> StockInSync(db.keys, db.products))
              && (UniqueValues(old(db.keys)) ==> UniqueValues(db.keys))
  {
    if p.None? {
      return Err(ProductIdMissing);
    }
    if p.value !in db.products {
      return Err(ProductMissing);
    }
    if productKeys.None? || productKeys.value == [] {
      return Err(ProductKeysNotProvided);
    }
    var values := productKeys.value;
    if !Insertable(db.keys, values) {
      return Err(ProductKeysFailed);
    }
    InsertKeys(db, ids, values, p.value);
    var product := db.products[p.value];
    db.products := db.products[p.value := product.(inStock := product.inStock + |ids|)];
    r := Ok(ids);
  }

  /** The rows `destroy({ where: { productId: p, productKeyId: ids, orderId: null } })` removes. */
  function Doomed(keys: KeyTable, ids: seq<KeyId>, p: ProductId): set<KeyId>
  {
    set k | k in keys && k in ids && keys[k].productId == p && keys[k].orderId.None?
  }

  /** deleteProductKeys: destroy the listed keys of p that are not bound to an order, then
      look the product up (a missing product throws only now, after the keys are gone) and
      lower its inStock by the number of rows destroyed. A missing id list makes `split` throw
      before anything happens. */
  method DeleteProductKeys(db: Shop, ids: Option<seq<KeyId>>, p: ProductId) returns (r: Result<int, Error>)
    modifies db`keys, db`products
    ensures ids.None? ==> r == Err(ProductKeyIdMissing) && db.keys == old(db.keys) && db.products == old(db.products)
    ensures ids.Some? ==>
              var doomed := Doomed(old(db.keys), ids.value, p);
              && db.keys == (map k | k in old(db.keys) && k !in doomed :: old(db.keys)[k])
              && UnboundOf(db.keys, p) == UnboundOf(old(db.keys), p) - doomed
              && |UnboundOf(db.keys, p)| == |UnboundOf(old(db.keys), p)| - |doomed|
              && (forall q | q != p :: UnboundOf(db.keys, q) == UnboundOf(old(db.keys), q))
              && (forall k | k in old(db.keys) && old(db.keys)[k].orderId.Some? :: k in db.keys && db.keys[k] == old(db.keys)[k])
              && (p !in db.products ==> r == Err(ProductMissing) && db.products == old(db.products))
              && (p in old(db.products) ==>
                    && r == Ok(|doomed|)
                    && db.products == old(db.products)[p := old(db.products)[p].(inStock := old(db.products)[p].inStock - |doomed|)]
                    && (StockInSync(old(db.keys), old(db.products)) ==> StockInSync(db.keys, db.products)))
  {
    if ids.None? {
      return Err(ProductKeyIdMissing);
    }
    var doomed := Doomed(db.keys, ids.value, p);
    ghost var before := db.keys;
    db.keys := map k | k in db.keys && k !in doomed :: db.keys[k];
    assert doomed <= UnboundOf(before, p);
    assert UnboundOf(db.keys, p) == UnboundOf(before, p) - doomed;
    assert forall q | q != p :: UnboundOf(db.keys, q) == UnboundOf(before, q);
    var rows := |doomed|;
    if p !in db.products {
      return Err(ProductMissing);
    }
    var product := db.products[p];
    db.products := db.products[p := product.(inStock := product.inStock - rows)];
    r := Ok(rows);
  }

  /** editProductKey: the productKeyId must be given and name a key not bound to an order;
      only that key's value changes. The save is rejected when the value is wider than its
      column, and then when another key holds it (the unique constraint). */
  method EditProductKey(db: Shop, keyId: Option<KeyId>, value: string) returns (r: Result<ProductKey, Error>)
    modifies db`keys
    ensures keyId.None? ==> r == Err(ProductKeyIdMissing)
    ensures keyId.Some? && keyId.value !in db.keys ==> r == Err(ProductKeyMissing)
    ensures keyId.Some? && keyId.value in old(db.keys) && old(db.keys)[keyId.value].orderId.Some? ==> r == Err(ProductKeyBound)
    ensures keyId.Some? && keyId.value in old(db.keys) && old(db.keys)[keyId.value].orderId.None? ==>
              && (|value| > KeyWidth ==> r == Err(ValueTooLong))
              && (r.Ok? <==> |value| <= KeyWidth && forall k | k in old(db.keys) && k != keyId.value :: old(db.keys)[k].productKey != value)
    ensures r.Err? ==> db.keys == old(db.keys)
    ensures r.Ok? ==>
              && keyId.Some? && keyId.value in old(db.keys)
              && r.value == old(db.keys)[keyId.value].(productKey := value)
              && db.keys == old(db.keys)[keyId.value := r.value]
              && (forall q :: UnboundOf(db.keys, q) == UnboundOf(old(db.keys), q))
              && (UniqueValues(old(db.keys)) ==> UniqueValues(db.keys))
  {
    if keyId.None? {
      return Err(ProductKeyIdMissing);
    }
    if keyId.value !in db.keys {
      return Err(ProductKeyMissing);
    }
    var existing := db.keys[keyId.value];
    if existing.orderId.Some? {
      return Err(ProductKeyBound);
    }
    if |value| > KeyWidth {
      return Err(ValueTooLong);
    }
    if exists k | k in db.keys && k != keyId.value :: db.keys[k].productKey == value {
      return Err(DuplicateProductKey);
    }
    r := Ok(existing.(productKey := value));
    db.keys := db.keys[keyId.value := r.value];
  }

  /** updateProductDetails' change detection: the brand/category row is rewritten, with the
      new pair, exactly when either id differs from the stored one. */
  function AssociationChange(stored: Product, brandId: BrandId, categoryId: CategoryId): (change: Option<(BrandId, CategoryId)>)
    ensures change.None? <==> stored.brandId == brandId && stored.categoryId == categoryId
    ensures change.Some? ==> change.value == (brandId, categoryId)
  {
    if stored.brandId != brandId || stored.categoryId != categoryId then Some((brandId, categoryId)) else None
  }

  /** updateProductDetails: the productId must be given and name a product; a changed brand
      or category is written first (its foreign key can reject it, and then nothing is saved),
      then name and prices are saved. A name wider than its column makes that save fail after
      the brand/category row was rewritten, which then stays. Keys and inStock are untouched. */
  method UpdateProductDetails(db: Shop, p: Option<ProductId>, name: string, marketPrice: int, actualPrice: int,
                              brandId: BrandId, categoryId: CategoryId) returns (r: Result<Product, Error>)
    modifies db`products
    ensures p.None? ==> r == Err(ProductIdMissing)
    ensures p.Some? && p.value !in db.products ==> r == Err(ProductMissing)
    ensures r.Err? && r.error != ValueTooLong ==> db.products == old(db.products)
    ensures p.Some? && p.value in old(db.products) ==>
              var stored := old(db.products)[p.value];
              var change := AssociationChange(stored, brandId, categoryId);
              var associated := change.None? || (brandId in db.brands && categoryId in db.categories);
              && (!associated ==> r == Err(AssociationFailed))
              && (associated && |name| > ProductNameWidth ==>
                    && r == Err(ValueTooLong)
                    && db.products == old(db.products)[p.value := stored.(brandId := brandId, categoryId := categoryId)])
              && (r.Ok? <==> associated && |name| <= ProductNameWidth)
              && (r.Ok? ==>
                    && r.value == stored.(name := name, marketPrice := marketPrice, actualPrice := actualPrice,
                                          brandId := brandId, categoryId := categoryId)
                    && r.value.inStock == stored.inStock
                    && db.products == old(db.products)[p.value := r.value])
  {
    if p.None? {
      return Err(ProductIdMissing);
    }
    if p.value !in db.products {
      return Err(ProductMissing);
    }
    var fetched := db.products[p.value];
    var change := AssociationChange(fetched, brandId, categoryId);
    var updated := fetched.(name := name, marketPrice := marketPrice, actualPrice := actualPrice);
    if change.Some? {
      if brandId !in db.brands || categoryId !in db.categories {
        return Err(AssociationFailed);
      }
      updated := updated.(brandId := change.value.0, categoryId := change.value.1);
      db.products := db.products[p.value := fetched.(brandId := change.value.0, categoryId := change.value.1)];
    }
    if |name| > ProductNameWidth {
      return Err(ValueTooLong);
    }
    db.products := db.products[p.value := updated];
    r := Ok(updated);
  }
}
