/** Optional values and results with an error, used for JavaScript `null`s and thrown errors. */
module Wrappers {

  /** An absent JavaScript value. Each field says what it stands for: an `orderItemId` of
      `null` or `undefined`, a `warehouseLocation` of `null` only, an `orderId` or `orderKey`
      that was deleted. */
  datatype Option<+T> = None | Some(value: T)

  /** `Failure` stands for an exception thrown by the operation. */
  datatype Result<+R, +E> = Success(value: R) | Failure(error: E)
}
