/** Names shared by all modules: optional values, results, the error codes of src/opendax.h and the size of messages. */
module Common {

  datatype Option<T> = None | Some(value: T)

  datatype Result<T> = Ok(value: T) | Err(code: int)

  const ERR_GENERIC := -1
  const ERR_2BIG := -3
  const ERR_ARG := -4
  const ERR_NOTFOUND := -5
  const ERR_TAG_BAD := -8
  const ERR_TAG_DUPL := -9
  const ERR_DUPL := -12
  const ERR_ILLEGAL := -15
  const ERR_ARBITRARY := -18
  const ERR_EMPTY := -20
  const ERR_BADTYPE := -21
  const ERR_DELETED := -26
  const ERR_READONLY := -27

  /** The data that one message can carry. */
  const MSG_DATA_SIZE := 4088

  /** `n` copies of a value. */
  function Copies<T>(n: nat, x: T): (s: seq<T>)
    ensures |s| == n && forall k :: 0 <= k < n ==> s[k] == x
  {
    seq(n, _ => x)
  }
}
