/** Small value types shared by the modules of the break-booking model. */
module Basics {

  /** An optional value: `None` where the source gets nothing back or raises. */
  datatype Option<T> = None | Some(value: T)

  /**
   * An ISO-formatted wall-clock stamp (`registered_at`, `created_at`), kept as a
   * plain string the model never inspects; callers pass it in because reading
   * the clock is outside the model.
   */
  type Timestamp = string
}
