/** Values shared by every part of the model: optional values, the Python
    exceptions the core raises, and results that either carry a value or
    name the exception raised instead. */
module Common {

  /** Python's `None` versus a present value. */
  datatype Option<T> = None | Some(value: T)

  /** The exceptions the modelled code raises. */
  datatype Error =
    | FileNotFoundError   // os.remove / open on a path with no file
    | KeyError            // dictionary lookup or pop of a missing key
    | ValueError          // list.remove of a missing element; add_page without overwrite
    | TypeError           // Section.add/remove given something other than a Teacher or Student
    | AttributeError      // reading an attribute the object does not have
    | IndexError          // indexing past the end of a list
    | RecursionError      // Python's recursion limit reached

  /** The outcome of an operation that returns a value or raises. */
  datatype Result<T> = Ok(value: T) | Err(error: Error)

  /** The outcome of an operation that returns nothing or raises. */
  datatype Outcome = Done | Raised(error: Error)
}
