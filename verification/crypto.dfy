/** The two bcrypt calls of the user model, as an ideal password digest:
    a digest records only which password it was computed from. Salt, cost
    factor and the characters of the digest string are not modelled. */
module Crypto {
  import opened Values
  import opened Errors

  /** What a non-key column of the users table holds: a JavaScript value
      as it was stored, or the string `bcrypt.hash` produced for a
      password. */
  datatype Cell = Plain(v: Value) | Digest(preimage: string)

  /** `bcrypt.hash(password, BCRYPT_WORK_FACTOR)`: only a string can be
      hashed; anything else makes bcrypt throw. */
  function Hash(password: Value): (r: Result<Cell>)
    ensures r.Ok? <==> password.Str?
    ensures r.Ok? ==> r.value.Digest? && r.value != Plain(password)
    ensures r.Err? ==> r.error.kind == Unhandled
  {
    match password
    case Str(p) => Ok(Digest(p))
    case _ => Err(UnhandledError("data must be a string and salt must either be a salt string or a number of rounds"))
  }

  /** `bcrypt.compare(password, stored)`. The password must be a string and
      the stored column must not be NULL, or bcrypt throws; a digest matches
      the password it was computed from, and a column that is not a digest
      matches no password. */
  function Compare(password: Value, stored: Cell): (r: Result<bool>)
    ensures r.Err? <==> !password.Str? || stored == Plain(Null)
    ensures r.Err? ==> r.error.kind == Unhandled
    ensures r == Ok(true) <==> password.Str? && stored == Digest(password.s)
  {
    if !password.Str? || stored == Plain(Null) then
      Err(UnhandledError("data and hash arguments required"))
    else
      match stored
      case Digest(q) => Ok(password.s == q)
      case Plain(_) => Ok(false)
  }

  /** Hashing then comparing accepts exactly the password that was hashed. */
  lemma HashThenCompare(p: string, q: string)
    ensures Hash(Str(q)).Ok?
    ensures Compare(Str(p), Hash(Str(q)).value) == Ok(p == q)
  {
  }
}
