/** Error kinds and result wrappers shared by the products and orders modules. */
module Shared {

  /** The messages the service raises as `AppError`, one constructor per message. */
  datatype AppError =
    | CustomerNotFound             // "Customer not found"
    | ProductsNotFound             // "Product(s) not found"
    | InsufficientProductQuantity  // "Insufficient product quantity"
    | MissingProduct               // "Missing Product"

  /** What a repository or service call returns in place of throwing. */
  datatype Result<T> = Ok(value: T) | Err(error: AppError)

  /** A lookup that may find nothing (`undefined` in the source). */
  datatype Option<T> = None | Some(value: T)
}
