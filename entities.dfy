/**
 * The persisted records of the point-of-sale backend, one datatype per
 * entity class, and the HTTP exceptions the services raise.
 */
module Entities {
  import opened Wrappers
  import opened Calendar

  /** A product category (category.entity.ts). */
  datatype Category = Category(id: int, name: string)

  /** A product for sale; `categoryId` is the foreign key to its category (product.entity.ts). */
  datatype Product = Product(
    id: int,
    name: string,
    image: string,
    price: real,
    inventory: int,
    categoryId: int)

  /** A percentage discount valid through the day of `expirationDate` (coupon.entity.ts). */
  datatype Coupon = Coupon(id: int, name: string, porcentaje: int, expirationDate: Millis)

  /** A completed sale; `coupon` and `discount` are null when no coupon was applied (transaction.entity.ts). */
  datatype Transaction = Transaction(
    id: int,
    total: real,
    coupon: Option<string>,
    discount: Option<real>,
    transactionDate: Millis)

  /** One line of a sale: a quantity of a product at a snapshot unit price (transaction.entity.ts). */
  datatype TransactionContents = TransactionContents(
    id: int,
    quantity: int,
    price: real,
    productId: int,
    transactionId: int)

  /**
   * The HTTP exceptions thrown by the services. An exception built from a
   * list answers with that list as its message; one built from a single
   * string answers with that string.
   */
  datatype HttpError =
    | BadRequest(messages: seq<string>)
    | BadRequestText(text: string)
    | NotFound(messages: seq<string>)
    | NotFoundText(text: string)
    | UnprocessableEntity(messages: seq<string>)
      /** An exception the service does not catch: a failed transform or a database constraint. */
    | InternalServerError
}
