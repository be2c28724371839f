/** The Java `null`-or-value convention used throughout the plugin. */
module Wrappers {

  datatype Option<+T> = None | Some(value: T)
}
