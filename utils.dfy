/**
 * utils/utils.js: the cart filter of getUserCart, the price loop of calculateOrderAmount,
 * the release loop of unlockKeys, getRandomString, and the amount guard and scaling of `order`.
 */
module Utils {
  import opened Wrappers
  import opened Schema
  import opened KeyStore
  import opened Ledger

  type Catalog = map<ProductId, Product>

  /** getUserCart keeps a line when its product is found together with at least one
      unsold key (the include on productKeys with isSold = false is an inner join). */
  predicate Available(keys: KeyTable, products: Catalog, p: ProductId)
  {
    p in products && UnsoldOf(keys, p) != {}
  }

  /** The lines getUserCart keeps, in cart order. */
  function AvailableLines(lines: seq<CartLine>, keys: KeyTable, products: Catalog): seq<CartLine>
  {
    if lines == [] then []
    else
      var last := lines[|lines| - 1];
      AvailableLines(lines[..|lines| - 1], keys, products)
        + (if Available(keys, products, last.productId) then [last] else [])
  }

  /** A line survives the filter exactly when its product is available; lines are kept whole. */
  lemma {:induction false} AvailableLinesSpec(lines: seq<CartLine>, keys: KeyTable, products: Catalog)
    ensures forall l :: l in AvailableLines(lines, keys, products) <==> l in lines && Available(keys, products, l.productId)
    ensures |AvailableLines(lines, keys, products)| <= |lines|
  {
    if lines != [] {
      var init := lines[..|lines| - 1];
      AvailableLinesSpec(init, keys, products);
      assert lines == init + [lines[|lines| - 1]];
    }
  }

  /** The filter works line by line: filtering a concatenation is concatenating the filtered parts,
      so the kept lines stay in their relative order. */
  lemma {:induction false} AvailableLinesAppend(a: seq<CartLine>, b: seq<CartLine>, keys: KeyTable, products: Catalog)
    ensures AvailableLines(a + b, keys, products) == AvailableLines(a, keys, products) + AvailableLines(b, keys, products)
  {
    if b != [] {
      var init := b[..|b| - 1];
      assert (a + b)[..|a + b| - 1] == a + init;
      assert (a + b)[|a + b| - 1] == b[|b| - 1];
      AvailableLinesAppend(a, init, keys, products);
    } else {
      assert a + b == a;
    }
  }

  /** getUserCart is idempotent while the key store and catalog are unchanged. */
  lemma {:induction false} AvailableLinesIdempotent(lines: seq<CartLine>, keys: KeyTable, products: Catalog)
    ensures AvailableLines(AvailableLines(lines, keys, products), keys, products) == AvailableLines(lines, keys, products)
  {
    if lines != [] {
      var init := lines[..|lines| - 1];
      var last := lines[|lines| - 1];
      AvailableLinesIdempotent(init, keys, products);
      var tail := if Available(keys, products, last.productId) then [last] else [];
      AvailableLinesAppend(AvailableLines(init, keys, products), tail, keys, products);
      if tail != [] {
        assert tail[..0] == [];
      }
    }
  }

  /** The loop of getUserCart that pushes every available line into filteredProducts. */
  method FilterAvailable(lines: seq<CartLine>, keys: KeyTable, products: Catalog) returns (filtered: seq<CartLine>)
    ensures filtered == AvailableLines(lines, keys, products)
  {
    filtered := [];
    for i := 0 to |lines|
      invariant filtered == AvailableLines(lines[..i], keys, products)
    {
      assert lines[..i + 1][..i] == lines[..i];
      if lines[i].productId in products && UnsoldOf(keys, lines[i].productId) != {} {
        filtered := filtered + [lines[i]];
      }
    }
    assert lines[..|lines|] == lines;
  }

  /** getUserCart: load the user's cart, drop unavailable lines and save the result.
      A user without a cart row makes `cart.products` throw. */
  method GetUserCart(db: Shop, userId: UserId) returns (r: Result<seq<CartLine>, Error>)
    modifies db`carts
    ensures userId !in old(db.carts) ==> r == Err(NoCart) && db.carts == old(db.carts)
    ensures userId in old(db.carts) ==>
              && r == Ok(AvailableLines(old(db.carts)[userId], db.keys, db.products))
              && db.carts == old(db.carts)[userId := r.value]
  {
    if userId !in db.carts {
      return Err(NoCart);
    }
    var filtered := FilterAvailable(db.carts[userId], db.keys, db.products);
    db.carts := db.carts[userId := filtered];
    r := Ok(filtered);
  }

  /** A cart line with the unit price calculateOrderAmount writes into it. */
  function Priced(line: CartLine, price: int): LockedLine
  {
    LockedLine(line.productId, line.quantity, price, [])
  }

  /** Sum of price times quantity over the lines. */
  function OrderTotal(lines: seq<LockedLine>): int
  {
    if lines == [] then 0
    else OrderTotal(lines[..|lines| - 1]) + lines[|lines| - 1].price * lines[|lines| - 1].quantity
  }

  /** Every line's product exists and has a positive actualPrice. */
  predicate Priceable(lines: seq<CartLine>, products: Catalog)
  {
    forall i | 0 <= i < |lines| :: lines[i].productId in products && products[lines[i].productId].actualPrice > 0
  }

  /** calculateOrderAmount over the filtered cart lines: every line gets its product's
      actualPrice and the total is the sum of price times quantity; the first line whose
      price is not positive aborts with no total (a missing product throws instead). */
  method CalculateOrderAmount(lines: seq<CartLine>, products: Catalog) returns (r: Result<(int, seq<LockedLine>), Error>)
    ensures r.Ok? <==> Priceable(lines, products)
    ensures r.Err? ==> r.error == PriceUnavailable || r.error == ProductMissing
    ensures r.Ok? ==> |r.value.1| == |lines|
    ensures r.Ok? ==> forall i | 0 <= i < |lines| ::
                        r.value.1[i] == Priced(lines[i], products[lines[i].productId].actualPrice)
    ensures r.Ok? ==> r.value.0 == OrderTotal(r.value.1)
  {
    var totalAmount := 0;
    var priced: seq<LockedLine> := [];
    for ind := 0 to |lines|
      invariant |priced| == ind
      invariant Priceable(lines[..ind], products)
      invariant forall i | 0 <= i < ind :: priced[i] == Priced(lines[i], products[lines[i].productId].actualPrice)
      invariant totalAmount == OrderTotal(priced)
    {
      var line := lines[ind];
      if line.productId !in products {
        return Err(ProductMissing);
      }
      var price := products[line.productId].actualPrice;
      if price > 0 {
        assert (priced + [Priced(line, price)])[..ind] == priced;
        priced := priced + [Priced(line, price)];
        totalAmount := totalAmount + price * line.quantity;
      } else {
        return Err(PriceUnavailable);
      }
    }
    return Ok((totalAmount, priced));
  }

  lemma LinesPrefixStep(lines: seq<LockedLine>, i: nat)
    requires i < |lines|
    ensures ValuesOfLines(lines[..i + 1]) == ValuesOfLines(lines[..i]) + SetOf(lines[i].productKeys)
  {
    assert lines[..i + 1][..i] == lines[..i];
  }

  /** The inner loop of unlockKeys: one UPDATE per listed value of a lock line. */
  method ReleaseValues(db: Shop, productKeys: seq<string>)
    modifies db`keys
    ensures db.keys == Released(old(db.keys), SetOf(productKeys))
  {
    ghost var before := db.keys;
    ReleasedNothing(before);
    for j := 0 to |productKeys|
      invariant db.keys == Released(before, SetOf(productKeys[..j]))
    {
      assert productKeys[..j + 1] == productKeys[..j] + [productKeys[j]];
      SetOfSnoc(productKeys[..j], productKeys[j]);
      ReleasedUnion(before, SetOf(productKeys[..j]), {productKeys[j]});
      db.keys := Released(db.keys, {productKeys[j]});
    }
    assert productKeys[..|productKeys|] == productKeys;
  }

  /** unlockKeys: for every value listed by the user's lock, set isSold = false on the key
      with that value unless it is bound to an order. With no lock, destructuring null throws. */
  method UnlockKeys(db: Shop, userId: UserId) returns (r: Result<(), Error>)
    modifies db`keys
    ensures FindLock(db.locks, userId).None? ==> r == Err(NoLockedKeys) && db.keys == old(db.keys)
    ensures FindLock(db.locks, userId).Some? ==>
              r.Ok? && db.keys == Released(old(db.keys), LockedValues(FindLock(db.locks, userId).value))
  {
    var found := FindLock(db.locks, userId);
    if found.None? {
      return Err(NoLockedKeys);
    }
    var products := found.value.products;
    ghost var before := db.keys;
    ReleasedNothing(before);
    for i := 0 to |products|
      invariant db.keys == Released(before, ValuesOfLines(products[..i]))
    {
      ReleaseValues(db, products[i].productKeys);
      ReleasedUnion(before, ValuesOfLines(products[..i]), SetOf(products[i].productKeys));
      LinesPrefixStep(products, i);
    }
    assert products[..|products|] == products;
    r := Ok(());
  }

  /** The 62 symbols getRandomString draws from. */
  const Alphabet := "abcdefghijklmnopqrstuvwxyzABCDEFGHIJKLMNOPQRSTUVWXYZ0123456789"

  /** getRandomString: `length` characters, the i-th being `chars[draws[i]]` where draws[i] stands
      for `Math.floor(Math.random() * 62)`. A length below one gives the empty string. */
  method GetRandomString(length: int, draws: seq<int>) returns (ans: string)
    requires length <= |draws|
    requires forall i | 0 <= i < |draws| :: 0 <= draws[i] < |Alphabet|
    ensures |ans| == if length < 0 then 0 else length
    ensures forall i | 0 <= i < |ans| :: ans[i] in Alphabet && ans[i] == Alphabet[draws[i]]
  {
    ans := "";
    var i := 0;
    while i < length
      invariant 0 <= i <= if length < 0 then 0 else length
      invariant |ans| == i
      invariant forall j | 0 <= j < i :: ans[j] == Alphabet[draws[j]]
    {
      ans := ans + [Alphabet[draws[i]]];
      i := i + 1;
    }
  }

  /** The guard of `order`: `amount < 0 && amount == null` holds of no value (null compares
      as 0 and a number is not null), so `order` never rejects an amount. */
  predicate AmountRejected(amount: Option<int>): (rejected: bool)
    ensures !rejected
  {
    (amount.Some? && amount.value < 0) && amount.None?
  }

  /** The amount sent to the payment gateway is in paise: `amount * 100`. */
  function ToPaise(amount: int): (paise: int)
    ensures paise % 100 == 0 && paise / 100 == amount
  {
    amount * 100
  }
}
