/** The catalog entity shared by every component, and the optional-value wrapper. */
module Catalog {

  datatype Option<T> = None | Some(value: T) {
    /** `x || default` for a value that may be missing. */
    function GetOr(default: T): T {
      match this
      case Some(v) => v
      case None => default
    }
  }

  /**
   * A product record as the repository returns it, with every field present and
   * `price` a number already parsed.
   */
  datatype Product = Product(id: string, name: string, price: real, category: string, description: string)
}
