/** Optional arguments and lookup outcomes of the inventory. */
module Results {

  /** An optional argument: `None` is Python's default `hostname=None`. */
  datatype Option<+T> = None | Some(value: T)

  /** Why a lookup failed. */
  datatype Error =
    /** An exact-key lookup on a key the map does not hold (Python's KeyError). */
    | KeyError(key: string)
    /** "Any host of this role" was asked of a role with no hosts; the
        source indexes the empty `values()` list and raises IndexError. */
    | EmptyRoleSet(role: string)

  datatype Result<+T> = Ok(value: T) | Err(error: Error)
}
