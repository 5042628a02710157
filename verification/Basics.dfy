/** What the other modules share. */
module Basics {
  datatype Option<+T> = None | Some(value: T) {
    predicate IsFailure() {
      None?
    }

    function PropagateFailure<U>(): (r: Option<U>)
      requires None?
    {
      None
    }

    function Extract(): (r: T)
      requires Some?
    {
      value
    }
  }

  function Min(a: int, b: int): (r: int) {
    if a < b then a else b
  }

  const U64_MODULUS: nat := 0x1_0000_0000_0000_0000

  lemma DropTwice<T>(s: seq<T>, n: nat, m: nat)
    requires n + m <= |s|
    ensures s[n..][m..] == s[n + m..]
  {
  }

  lemma HeadOfRest<T>(s: seq<T>, k: nat)
    requires k < |s|
    ensures s[k..] != [] && s[k..][0] == s[k] && s[k..][1..] == s[k + 1..]
  {
  }
}
