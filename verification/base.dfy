/** Small failure-carrying datatypes and a distinctness predicate shared by
    the other modules. */
module Base {

  /** An optional value; `None` stands for a failed or absent result. */
  datatype Option<+T> = None | Some(value: T)

  /** A value or an error. The Python scripts raise exceptions; the model
      returns `Err` instead. */
  datatype Result<+T, +E> = Ok(value: T) | Err(error: E)

  /** No two positions of `s` hold the same element. */
  ghost predicate Distinct<T>(s: seq<T>)
  {
    forall i, j :: 0 <= i < j < |s| ==> s[i] != s[j]
  }
}
