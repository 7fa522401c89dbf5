/** What a region run under a mutex gives a caller that may have to wait. */
module Monitors {

  /** An item, an order to wait on the condition variable, or NULL. */
  datatype Outcome<T> = Taken(item: T) | MustWait | Null
}
