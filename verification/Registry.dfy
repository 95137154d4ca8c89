/** Registry key objects and their names. */
module Registry {
  /** A key object's address. Addresses are reused. */
  datatype Key = Key(address: nat)

  function LowerCase(c: char): char {
    if 'A' <= c <= 'Z' then c - 'A' + 'a' else c
  }

  /** A name that needs no base, in any case. */
  predicate StartsWithRegistry(path: string)
    ensures StartsWithRegistry(path) <==>
              |path| >= 10 && forall i | 0 <= i < 10 :: path[i] == "\\registry\\"[i] || path[i] == "\\REGISTRY\\"[i]
  {
    |path| >= 10 && seq(10, i requires 0 <= i < 10 => LowerCase(path[i])) == "\\registry\\"
  }
}
