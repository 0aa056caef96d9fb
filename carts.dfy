/**
 * controllers/cartOrders/carts.js: the edits updateCart, addToCart and removeFromCart make
 * to a cart's line sequence, each applied to the lines getUserCart has already filtered.
 */
module Carts {
  import opened Wrappers
  import opened Schema
  import opened KeyStore
  import opened Utils

  /** `findIndex(line => line.productId === p)`: the first line of product p, or -1. */
  function FindIndex(lines: seq<CartLine>, p: ProductId): (i: int)
    ensures -1 <= i < |lines|
    ensures i == -1 <==> forall j | 0 <= j < |lines| :: lines[j].productId != p
    ensures i >= 0 ==> lines[i].productId == p && forall j | 0 <= j < i :: lines[j].productId != p
  {
    if lines == [] then -1
    else if lines[0].productId == p then 0
    else
      var k := FindIndex(lines[1..], p);
      if k == -1 then -1 else k + 1
  }

  /** At most one line per product. */
  predicate UniqueIds(lines: seq<CartLine>)
  {
    forall i, j | 0 <= i < j < |lines| :: lines[i].productId != lines[j].productId
  }

  function RemoveAt(lines: seq<CartLine>, i: nat): seq<CartLine>
    requires i < |lines|
  {
    lines[..i] + lines[i + 1..]
  }

  /** updateCart's working state: `user.products` as edited so far, and `newProducts`. */
  datatype CartEdit = CartEdit(lines: seq<CartLine>, added: seq<CartLine>)

  /** One request of updateCart. A product that does not exist, or a negative quantity, calls
      `next` without returning, so the request goes on: dereferencing the missing product's
      name throws (a new line, or a quantity of 1 or more), while a quantity of 0 still removes
      the line; a negative quantity on a line already in the cart ends the request, one on a
      new product is appended. */
  function EditStep(e: CartEdit, req: CartLine, products: Catalog): Result<CartEdit, Error>
  {
    var idx := FindIndex(e.lines, req.productId);
    if idx == -1 then
      if req.productId in products then Ok(e.(added := e.added + [req])) else Err(ProductMissing)
    else if req.quantity == 0 then Ok(e.(lines := RemoveAt(e.lines, idx)))
    else if req.quantity >= 1 then
      if req.productId in products then Ok(e.(lines := e.lines[idx := req])) else Err(ProductMissing)
    else Err(NegativeQuantity)
  }

  /** The requests applied in order, stopping at the first error. */
  function EditAll(e: CartEdit, reqs: seq<CartLine>, products: Catalog): Result<CartEdit, Error>
  {
    if reqs == [] then Ok(e)
    else
      match EditAll(e, reqs[..|reqs| - 1], products)
      case Err(err) => Err(err)
      case Ok(e') => EditStep(e', reqs[|reqs| - 1], products)
  }

  /** The cart updateCart writes: the edited lines followed by the new ones. */
  function UpdatedCart(lines: seq<CartLine>, reqs: seq<CartLine>, products: Catalog): Result<seq<CartLine>, Error>
  {
    match EditAll(CartEdit(lines, []), reqs, products)
    case Err(err) => Err(err)
    case Ok(e) => Ok(e.lines + e.added)
  }

  lemma {:induction false} EditAllPrefixErr(e: CartEdit, reqs: seq<CartLine>, products: Catalog, k: nat, err: Error)
    requires k <= |reqs| && EditAll(e, reqs[..k], products) == Err(err)
    ensures EditAll(e, reqs, products) == Err(err)
    decreases |reqs| - k
  {
    if k < |reqs| {
      assert reqs[..k + 1][..k] == reqs[..k];
      EditAllPrefixErr(e, reqs, products, k + 1, err);
    } else {
      assert reqs[..k] == reqs;
    }
  }

  /** updateCart on the filtered lines of the cart. */
  method UpdateCart(lines: seq<CartLine>, requests: seq<CartLine>, products: Catalog) returns (r: Result<seq<CartLine>, Error>)
    ensures r == UpdatedCart(lines, requests, products)
  {
    var user := lines;
    var newProducts: seq<CartLine> := [];
    for i := 0 to |requests|
      invariant EditAll(CartEdit(lines, []), requests[..i], products) == Ok(CartEdit(user, newProducts))
    {
      var req := requests[i];
      assert requests[..i + 1][..i] == requests[..i];
      var productIndex := FindIndex(user, req.productId);
      var error: Option<Error> := None;
      if productIndex == -1 {
        if req.productId !in products {
          error := Some(ProductMissing);
        } else {
          newProducts := newProducts + [req];
        }
      } else if req.quantity == 0 {
        user := RemoveAt(user, productIndex);
      } else if req.quantity >= 1 {
        if req.productId !in products {
          error := Some(ProductMissing);
        } else {
          user := user[productIndex := req];
        }
      } else {
        error := Some(NegativeQuantity);
      }
      if error.Some? {
        EditAllPrefixErr(CartEdit(lines, []), requests, products, i + 1, error.value);
        return Err(error.value);
      }
    }
    assert requests[..|requests|] == requests;
    r := Ok(user + newProducts);
  }

  // A reference definition of updateCart for a well-formed request.

  function Ids(lines: seq<CartLine>): set<ProductId>
  {
    set l | l in lines :: l.productId
  }

  /** What the requests do to one line: the request for its product sets its quantity, or
      removes it when the quantity is 0; with no such request it stays as it is. */
  function Revised(line: CartLine, reqs: seq<CartLine>): Option<CartLine>
  {
    if reqs == [] then Some(line)
    else
      var last := reqs[|reqs| - 1];
      if last.productId == line.productId then (if last.quantity == 0 then None else Some(last))
      else Revised(line, reqs[..|reqs| - 1])
  }

  /** The cart's lines, each revised by the requests, in their original order. */
  function Edited(lines: seq<CartLine>, reqs: seq<CartLine>): seq<CartLine>
  {
    if lines == [] then []
    else
      (match Revised(lines[0], reqs) case None => [] case Some(l) => [l]) + Edited(lines[1..], reqs)
  }

  /** The requests for products not in the cart, in request order. */
  function NewLines(lines: seq<CartLine>, reqs: seq<CartLine>): seq<CartLine>
  {
    if reqs == [] then []
    else
      var last := reqs[|reqs| - 1];
      NewLines(lines, reqs[..|reqs| - 1]) + (if last.productId in Ids(lines) then [] else [last])
  }

  lemma {:induction false} RevisedUntouched(line: CartLine, reqs: seq<CartLine>)
    requires line.productId !in Ids(reqs)
    ensures Revised(line, reqs) == Some(line)
  {
    if reqs != [] {
      assert reqs[|reqs| - 1] in reqs;
      assert Ids(reqs[..|reqs| - 1]) <= Ids(reqs);
      RevisedUntouched(line, reqs[..|reqs| - 1]);
    }
  }

  lemma {:induction false} EditedIds(lines: seq<CartLine>, reqs: seq<CartLine>)
    ensures Ids(Edited(lines, reqs)) <= Ids(lines)
  {
    if lines != [] {
      EditedIds(lines[1..], reqs);
      assert Ids(lines) == {lines[0].productId} + Ids(lines[1..]) by {
        assert lines == [lines[0]] + lines[1..];
      }
      var head: seq<CartLine> := match Revised(lines[0], reqs) case None => [] case Some(l) => [l];
      RevisedId(lines[0], reqs);
      assert Ids(Edited(lines, reqs)) == Ids(head) + Ids(Edited(lines[1..], reqs));
    }
  }

  lemma {:induction false} RevisedId(line: CartLine, reqs: seq<CartLine>)
    ensures Revised(line, reqs).Some? ==> Revised(line, reqs).value.productId == line.productId
  {
    if reqs != [] {
      RevisedId(line, reqs[..|reqs| - 1]);
    }
  }

  lemma RevisedSnoc(line: CartLine, rs: seq<CartLine>, r: CartLine)
    ensures Revised(line, rs + [r]) ==
              if line.productId == r.productId then (if r.quantity == 0 then None else Some(r))
              else Revised(line, rs)
  {
    assert (rs + [r])[..|rs|] == rs;
  }

  lemma FindIndexCons(x: CartLine, t: seq<CartLine>, p: ProductId)
    requires x.productId != p
    ensures FindIndex([x] + t, p) == if FindIndex(t, p) == -1 then -1 else FindIndex(t, p) + 1
  {
    assert ([x] + t)[1..] == t;
  }

  /** One more request, for a product the cart does not hold, leaves the edited lines alone. */
  lemma {:induction false} EditedAbsent(lines: seq<CartLine>, rs: seq<CartLine>, r: CartLine)
    requires r.productId !in Ids(lines)
    ensures Edited(lines, rs + [r]) == Edited(lines, rs)
    ensures FindIndex(Edited(lines, rs), r.productId) == -1
  {
    EditedIds(lines, rs);
    if lines != [] {
      assert lines[0] in lines;
      assert Ids(lines[1..]) <= Ids(lines) by {
        forall l | l in lines[1..] ensures l in lines {
        }
      }
      RevisedSnoc(lines[0], rs, r);
      EditedAbsent(lines[1..], rs, r);
    }
  }

  /** One more request, for a product the cart holds and no earlier request named, edits that
      product's line of the edited cart, found where findIndex finds it. */
  lemma {:induction false} EditedPresent(lines: seq<CartLine>, rs: seq<CartLine>, r: CartLine)
    requires UniqueIds(lines) && r.productId in Ids(lines) && r.productId !in Ids(rs)
    ensures EditedAt(lines, rs, r)
  {
    if lines[0].productId == r.productId {
      EditedPresentHead(lines, rs, r);
    } else {
      var tail := lines[1..];
      assert r.productId in Ids(tail) by {
        var l :| l in lines && l.productId == r.productId;
        assert l != lines[0];
        assert lines == [lines[0]] + tail;
      }
      assert UniqueIds(tail);
      EditedPresent(tail, rs, r);
      EditedPresentShift(lines, rs, r);
    }
  }

  /** The edit of one more request r, as findIndex places it in the edited cart. */
  ghost predicate EditedAt(lines: seq<CartLine>, rs: seq<CartLine>, r: CartLine)
  {
    var e := Edited(lines, rs);
    var idx := FindIndex(e, r.productId);
    && idx >= 0
    && (r.quantity == 0 ==> Edited(lines, rs + [r]) == RemoveAt(e, idx))
    && (r.quantity != 0 ==> Edited(lines, rs + [r]) == e[idx := r])
  }

  lemma EditedPresentHead(lines: seq<CartLine>, rs: seq<CartLine>, r: CartLine)
    requires UniqueIds(lines) && lines != [] && lines[0].productId == r.productId && r.productId !in Ids(rs)
    ensures EditedAt(lines, rs, r)
  {
    var tail := lines[1..];
    var e, et := Edited(lines, rs), Edited(tail, rs);
    RevisedSnoc(lines[0], rs, r);
    RevisedUntouched(lines[0], rs);
    assert r.productId !in Ids(tail) by {
      forall j | 0 <= j < |tail| ensures tail[j].productId != r.productId {
        assert tail[j] == lines[j + 1];
      }
    }
    EditedAbsent(tail, rs, r);
    assert e == [lines[0]] + et;
    assert e[1..] == et;
  }

  lemma EditedPresentShift(lines: seq<CartLine>, rs: seq<CartLine>, r: CartLine)
    requires lines != [] && lines[0].productId != r.productId && EditedAt(lines[1..], rs, r)
    ensures EditedAt(lines, rs, r)
  {
    var tail := lines[1..];
    var et := Edited(tail, rs);
    RevisedSnoc(lines[0], rs, r);
    RevisedId(lines[0], rs);
    match Revised(lines[0], rs)
    case None =>
      assert Edited(lines, rs) == et;
      assert Edited(lines, rs + [r]) == Edited(tail, rs + [r]);
    case Some(l) =>
      assert Edited(lines, rs) == [l] + et;
      assert Edited(lines, rs + [r]) == [l] + Edited(tail, rs + [r]);
      ShiftedCons(l, et, FindIndex(et, r.productId), r);
  }

  /** Putting a line of another product in front shifts where an edit lands by one. */
  lemma ShiftedCons(l: CartLine, et: seq<CartLine>, k: int, r: CartLine)
    requires l.productId != r.productId
    requires k == FindIndex(et, r.productId) && k >= 0
    ensures FindIndex([l] + et, r.productId) == k + 1
    ensures RemoveAt([l] + et, k + 1) == [l] + RemoveAt(et, k)
    ensures ([l] + et)[k + 1 := r] == [l] + et[k := r]
  {
    FindIndexCons(l, et, r.productId);
    RemoveAtCons(l, et, k);
    UpdateCons(l, et, k, r);
  }

  lemma RemoveAtCons(l: CartLine, et: seq<CartLine>, k: nat)
    requires k < |et|
    ensures RemoveAt([l] + et, k + 1) == [l] + RemoveAt(et, k)
  {
    assert ([l] + et)[..k + 1] == [l] + et[..k];
    assert ([l] + et)[k + 2..] == et[k + 1..];
  }

  lemma UpdateCons(l: CartLine, et: seq<CartLine>, k: nat, r: CartLine)
    requires k < |et|
    ensures ([l] + et)[k + 1 := r] == [l] + et[k := r]
  {
  }

  lemma EditAllSnoc(e: CartEdit, rs: seq<CartLine>, r: CartLine, products: Catalog)
    ensures EditAll(e, rs + [r], products) ==
              match EditAll(e, rs, products)
              case Err(err) => Err(err)
              case Ok(e') => EditStep(e', r, products)
  {
    assert (rs + [r])[..|rs|] == rs;
  }

  /** The requests the reference definition covers: the cart holds one line per product, the
      requests name distinct products, none asks for a negative quantity of a line the cart
      holds, and each names an existing product unless it removes a held line (quantity 0). */
  predicate ReferenceRequests(lines: seq<CartLine>, reqs: seq<CartLine>, products: Catalog)
  {
    && UniqueIds(lines) && UniqueIds(reqs)
    && forall r | r in reqs ::
         && (r.productId in Ids(lines) ==> r.quantity >= 0)
         && (r.productId in products || (r.productId in Ids(lines) && r.quantity == 0))
  }

  /** On a cart with one line per product, requests naming distinct products, none asking for a
      negative quantity of a line the cart holds and each naming an existing product unless it
      removes a held line (quantity 0), updateCart writes the cart's lines, in order, each set to its
      requested quantity or removed for quantity 0, followed by the requests for products the
      cart did not hold, in request order. */
  lemma UpdateCartReference(lines: seq<CartLine>, reqs: seq<CartLine>, products: Catalog)
    requires ReferenceRequests(lines, reqs, products)
    ensures UpdatedCart(lines, reqs, products) == Ok(Edited(lines, reqs) + NewLines(lines, reqs))
  {
    EditAllReference(lines, reqs, products);
  }

  lemma {:induction false} EditAllReference(lines: seq<CartLine>, reqs: seq<CartLine>, products: Catalog)
    requires ReferenceRequests(lines, reqs, products)
    ensures EditAll(CartEdit(lines, []), reqs, products) == Ok(CartEdit(Edited(lines, reqs), NewLines(lines, reqs)))
  {
    if reqs == [] {
      EditedNothing(lines);
    } else {
      var rs, r := reqs[..|reqs| - 1], reqs[|reqs| - 1];
      assert reqs == rs + [r];
      assert UniqueIds(rs);
      assert r.productId !in Ids(rs) by {
        forall j | 0 <= j < |rs| ensures rs[j].productId != r.productId {
          assert rs[j] == reqs[j];
        }
      }
      EditAllReference(lines, rs, products);
      EditAllSnoc(CartEdit(lines, []), rs, r, products);
      assert (rs + [r])[..|rs|] == rs;
      assert r in reqs;
      if r.productId in Ids(lines) {
        EditedPresent(lines, rs, r);
        assert EditedAt(lines, rs, r);
        var e := Edited(lines, rs);
        var idx := FindIndex(e, r.productId);
        assert NewLines(lines, reqs) == NewLines(lines, rs);
        assert r.quantity == 0 ==> EditStep(CartEdit(e, NewLines(lines, rs)), r, products) == Ok(CartEdit(RemoveAt(e, idx), NewLines(lines, rs)));
        assert r.quantity != 0 ==> EditStep(CartEdit(e, NewLines(lines, rs)), r, products) == Ok(CartEdit(e[idx := r], NewLines(lines, rs)));
      } else {
        EditedAbsent(lines, rs, r);
      }
    }
  }

  lemma {:induction false} EditedNothing(lines: seq<CartLine>)
    ensures Edited(lines, []) == lines
  {
    if lines != [] {
      EditedNothing(lines[1..]);
    }
  }

  /** The reference definition needs distinct request ids: the same new product twice is
      appended twice, and the cart no longer has one line per product. */
  lemma DuplicateNewProductAppendedTwice(p: ProductId, products: Catalog)
    requires p in products
    ensures UpdatedCart([], [CartLine(p, 1), CartLine(p, 2)], products) == Ok([CartLine(p, 1), CartLine(p, 2)])
    ensures !UniqueIds([CartLine(p, 1), CartLine(p, 2)])
  {
    var reqs := [CartLine(p, 1), CartLine(p, 2)];
    var e0 := CartEdit([], []);
    EditAllSnoc(e0, [], CartLine(p, 1), products);
    assert [] + [CartLine(p, 1)] == [CartLine(p, 1)];
    EditAllSnoc(e0, [CartLine(p, 1)], CartLine(p, 2), products);
    assert [CartLine(p, 1)] + [CartLine(p, 2)] == reqs;
    assert EditAll(e0, [], products) == Ok(e0);
    assert EditStep(e0, CartLine(p, 1), products) == Ok(CartEdit([], [CartLine(p, 1)]));
    assert EditAll(e0, [CartLine(p, 1)], products) == Ok(CartEdit([], [CartLine(p, 1)]));
    assert EditStep(CartEdit([], [CartLine(p, 1)]), CartLine(p, 2), products) == Ok(CartEdit([], reqs));
    assert EditAll(e0, reqs, products) == Ok(CartEdit([], reqs));
    assert [] + reqs == reqs;
    assert reqs[0].productId == reqs[1].productId;
  }

  /** A negative quantity for a product not yet in the cart is reported but still appended. */
  lemma NegativeNewLineAppended(lines: seq<CartLine>, p: ProductId, q: int, products: Catalog)
    requires p in products && q < 0 && p !in Ids(lines)
    ensures UpdatedCart(lines, [CartLine(p, q)], products) == Ok(lines + [CartLine(p, q)])
  {
    var reqs := [CartLine(p, q)];
    assert reqs[..0] == [];
    assert FindIndex(lines, p) == -1;
    EditAllSnoc(CartEdit(lines, []), [], CartLine(p, q), products);
    assert [] + [CartLine(p, q)] == reqs;
  }

  /** `Number(quantity) || 1`: an absent or zero quantity counts as 1. */
  function RequestedQuantity(requested: Option<int>): (q: int)
    ensures q != 0
    ensures requested.Some? && requested.value != 0 ==> q == requested.value
  {
    match requested
    case None => 1
    case Some(n) => if n == 0 then 1 else n
  }

  /** addToCart: a product not in the cart is appended with the requested quantity (a missing
      product makes reading its name throw); a product already there gets one more, whatever
      the request says. */
  function AddedToCart(lines: seq<CartLine>, p: ProductId, requested: Option<int>, known: bool): (r: Result<seq<CartLine>, Error>)
    ensures FindIndex(lines, p) == -1 ==>
              && (r.Ok? <==> known)
              && (r.Ok? ==> r.value == lines + [CartLine(p, RequestedQuantity(requested))])
    ensures FindIndex(lines, p) >= 0 ==>
              && r.Ok? && |r.value| == |lines|
              && r.value[FindIndex(lines, p)] == CartLine(p, lines[FindIndex(lines, p)].quantity + 1)
              && forall j | 0 <= j < |lines| && j != FindIndex(lines, p) :: r.value[j] == lines[j]
    ensures r.Err? ==> r.error == ProductMissing
    ensures r.Ok? && UniqueIds(lines) ==> UniqueIds(r.value)
  {
    var idx := FindIndex(lines, p);
    if idx == -1 then
      if known then Ok(lines + [CartLine(p, RequestedQuantity(requested))]) else Err(ProductMissing)
    else Ok(lines[idx := lines[idx].(quantity := lines[idx].quantity + 1)])
  }

  /** removeFromCart: nothing happens for a product not in the cart; with `prod` set, or at
      quantity 1, its line goes; otherwise its quantity drops by one. `prod` is the truthiness
      of the `prod` query string, so any non-empty value (also "false" or "0") sets it. */
  function RemovedFromCart(lines: seq<CartLine>, p: ProductId, prod: bool): (r: seq<CartLine>)
    ensures FindIndex(lines, p) == -1 ==> r == lines
    ensures FindIndex(lines, p) >= 0 && (prod || lines[FindIndex(lines, p)].quantity == 1) ==>
              r == RemoveAt(lines, FindIndex(lines, p))
    ensures FindIndex(lines, p) >= 0 && !prod && lines[FindIndex(lines, p)].quantity != 1 ==>
              && |r| == |lines|
              && r[FindIndex(lines, p)] == CartLine(p, lines[FindIndex(lines, p)].quantity - 1)
              && forall j | 0 <= j < |lines| && j != FindIndex(lines, p) :: r[j] == lines[j]
    ensures UniqueIds(lines) ==> UniqueIds(r)
  {
    var idx := FindIndex(lines, p);
    if idx == -1 then lines
    else if prod || lines[idx].quantity == 1 then RemoveAt(lines, idx)
    else lines[idx := lines[idx].(quantity := lines[idx].quantity - 1)]
  }

  /** A line of quantity 0 (updateCart lets such values through only by removal, but a
      negative one can get in) is not removed by one step: it goes below zero. */
  lemma RemoveBelowZero(lines: seq<CartLine>, p: ProductId)
    requires UniqueIds(lines) && FindIndex(lines, p) >= 0 && lines[FindIndex(lines, p)].quantity <= 0
    ensures var r := RemovedFromCart(lines, p, false);
            |r| == |lines| && r[FindIndex(lines, p)].quantity < 0
  {
  }

  /** updateCart on the user's cart: getUserCart filters and saves it first; the edited lines
      are written only when every request went through. */
  method UpdateUserCart(db: Shop, userId: UserId, requests: seq<CartLine>) returns (r: Result<seq<CartLine>, Error>)
    modifies db`carts
    ensures userId !in old(db.carts) ==> r == Err(NoCart) && db.carts == old(db.carts)
    ensures userId in old(db.carts) ==>
              var filtered := AvailableLines(old(db.carts)[userId], db.keys, db.products);
              && r == UpdatedCart(filtered, requests, db.products)
              && db.carts == old(db.carts)[userId := if r.Ok? then r.value else filtered]
  {
    var cart := GetUserCart(db, userId);
    if cart.Err? {
      return Err(cart.error);
    }
    r := UpdateCart(cart.value, requests, db.products);
    if r.Ok? {
      db.carts := db.carts[userId := r.value];
    }
  }

  /** addToCart and removeFromCart read the signed-in user's cart (`req.params.userId`) but
      write the cart of `req.query.userId`, the parameter target; without it the update's
      `where: { userId: undefined }` throws (TargetMissing). */
  method AddToUserCart(db: Shop, userId: UserId, target: Option<UserId>, p: ProductId, requested: Option<int>)
    returns (r: Result<seq<CartLine>, Error>)
    modifies db`carts
    ensures userId !in old(db.carts) ==> r == Err(NoCart) && db.carts == old(db.carts)
    ensures userId in old(db.carts) ==>
              var filtered := AvailableLines(old(db.carts)[userId], db.keys, db.products);
              var edited := AddedToCart(filtered, p, requested, p in db.products);
              var saved := old(db.carts)[userId := filtered];
              && (r.Ok? <==> edited.Ok? && target.Some?)
              && (edited.Ok? && target.None? ==> r == Err(TargetMissing))
              && (r.Ok? ==> r.value == edited.value)
              && db.carts == if r.Ok? && target.value in saved then saved[target.value := r.value] else saved
  {
    var cart := GetUserCart(db, userId);
    if cart.Err? {
      return Err(cart.error);
    }
    r := AddedToCart(cart.value, p, requested, p in db.products);
    if r.Err? {
      return;
    }
    if target.None? {
      return Err(TargetMissing);
    }
    if target.value in db.carts {
      db.carts := db.carts[target.value := r.value];
    }
  }

  method RemoveFromUserCart(db: Shop, userId: UserId, target: Option<UserId>, p: ProductId, prod: bool)
    returns (r: Result<seq<CartLine>, Error>)
    modifies db`carts
    ensures userId !in old(db.carts) ==> r == Err(NoCart) && db.carts == old(db.carts)
    ensures userId in old(db.carts) ==>
              var filtered := AvailableLines(old(db.carts)[userId], db.keys, db.products);
              var saved := old(db.carts)[userId := filtered];
              && (r.Ok? <==> target.Some?)
              && (target.None? ==> r == Err(TargetMissing))
              && (r.Ok? ==> r.value == RemovedFromCart(filtered, p, prod))
              && db.carts == if r.Ok? && target.value in saved then saved[target.value := r.value] else saved
  {
    var cart := GetUserCart(db, userId);
    if cart.Err? {
      return Err(cart.error);
    }
    if target.None? {
      return Err(TargetMissing);
    }
    r := Ok(RemovedFromCart(cart.value, p, prod));
    if target.value in db.carts {
      db.carts := db.carts[target.value := r.value];
    }
  }
}
