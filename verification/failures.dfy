/** Every failure the server operations and the register report, with the exact text the user sees. */
module Failures {

  datatype Failure =
    | NotAuthenticated
    | NotAuthorized
    | ProductsNotFound
    | NotEnoughStock(productName: string)
    | InsufficientPayment
    | SaleNotFound
    | StockLimitReached
  {
    function Message(): string {
      match this
      case NotAuthenticated => "Not authenticated"
      case NotAuthorized => "Not authorized"
      case ProductsNotFound => "One or more products not found"
      case NotEnoughStock(name) => "Not enough stock for " + name
      case InsufficientPayment => "Insufficient payment"
      case SaleNotFound => "Sale not found"
      case StockLimitReached => "Not enough stock available"
    }
  }
}
