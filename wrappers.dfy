/** Optional values: `None` stands for an outcome that is not a finite number
    (NaN or an infinity in the original double arithmetic). */
module Wrappers {

  datatype Option<+T> = None | Some(value: T)
}
