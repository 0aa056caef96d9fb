/**
 * The tables of the shop's database, as the Sequelize models in models/ declare them,
 * and the `Shop` object that holds them. Timestamps are integers in milliseconds;
 * FLOAT prices are integers; ids (UUIDs) are strings chosen by the caller.
 */
module Schema {
  import opened Wrappers

  type KeyId = string
  type ProductId = string
  type UserId = string
  type OrderId = string
  type BrandId = string
  type CategoryId = string

  /** A row of productKeys: the secret key value (unique in the table), its product,
      the sold flag and the order it was delivered with (the Order-ProductKey association). */
  datatype ProductKey = ProductKey(productKey: string, productId: ProductId, isSold: bool, orderId: Option<OrderId>)

  /** The declared widths of the product columns the core writes: products.name is
      STRING(100) and productKeys.productKey a plain STRING, which Sequelize maps to
      VARCHAR(255). Postgres rejects a longer value when the row is written. */
  const ProductNameWidth := 100
  const KeyWidth := 255

  /** A row of products, together with its single productBrandCategories row (brandId, categoryId). */
  datatype Product = Product(name: string, marketPrice: int, actualPrice: int, inStock: int,
                             brandId: BrandId, categoryId: CategoryId)

  /** One entry of a cart's `products` JSON array. */
  datatype CartLine = CartLine(productId: ProductId, quantity: int)

  /** One entry of a lock's (and an order's) `products` array: the cart line, the unit price
      written by calculateOrderAmount and the key values pushed by getProductKeys. */
  datatype LockedLine = LockedLine(productId: ProductId, quantity: int, price: int, productKeys: seq<string>)

  /** A row of lockedkeys. The table has no uniqueness constraint on userId. */
  datatype LockedKeys = LockedKeys(userId: UserId, products: seq<LockedLine>, totalPrice: int, createdAt: int)

  datatype PaymentStatus = PaymentSuccess | PaymentFailed

  /** A row of orders. */
  datatype Order = Order(orderId: OrderId, userId: UserId, razorpayOrderId: string,
                         products: seq<LockedLine>, totalPrice: int,
                         razorpayPaymentId: string, razorpaySignature: string,
                         paymentStatus: PaymentStatus, paymentFailedReason: string)

  /** Default of the paymentFailedReason column. */
  const NoFailureReason := "NA"

  /** The errors the shop's handlers report (thrown errors, `next(new ErrorHandler(...))`,
      and TypeErrors from dereferencing a row that was not found). */
  datatype Error =
    | NoCart
    | ProductMissing
    | NegativeQuantity
    | PriceUnavailable
    | KeysUnavailable
    | NoLockedKeys
    | BrandIdMissing
    | CategoryIdMissing
    | AssociationFailed
    | ProductKeysFailed
    | ProductIdMissing
    | ProductKeysNotProvided
    | ProductKeyIdMissing
    | ProductKeyMissing
    | ProductKeyBound
    | DuplicateProductKey
    | TargetMissing
    | ProductNotAdded
    | ValueTooLong

  /** The database: one field per table the core touches. */
  class Shop {
    var keys: map<KeyId, ProductKey>
    var products: map<ProductId, Product>
    var brands: set<BrandId>
    var categories: set<CategoryId>
    var carts: map<UserId, seq<CartLine>>
    var locks: seq<LockedKeys>
    var orders: seq<Order>

    constructor ()
      ensures keys == map[] && products == map[] && carts == map[]
      ensures brands == {} && categories == {} && locks == [] && orders == []
    {
      keys, products, carts := map[], map[], map[];
      brands, categories, locks, orders := {}, {}, [], [];
    }
  }
}
