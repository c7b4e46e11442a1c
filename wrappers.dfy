/** Optional values. In the analysis scripts `None` stands for a value that is
    missing from a table or that pandas would report as NaN. */
module Wrappers {
  datatype Option<+T> = None | Some(value: T)
}
