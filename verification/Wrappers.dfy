/** Optional values, error returns and a few notions about numbers and sequences, shared by the
    other modules. */
module Wrappers {

  datatype Option<+T> = None | Some(value: T)

  datatype Result<+T, +E> = Success(value: T) | Failure(error: E)

  function Min(a: int, b: int): int {
    if a < b then a else b
  }

  predicate Distinct<T(==)>(s: seq<T>) {
    forall i, j :: 0 <= i < j < |s| ==> s[i] != s[j]
  }

  ghost function Elements<T>(s: seq<T>): set<T> {
    set x | x in s
  }

  lemma Listing<T>(es: set<T>) returns (s: seq<T>)
    ensures Elements(s) == es
  {
    s := [];
    var rest := es;
    while rest != {}
      invariant rest <= es && Elements(s) == es - rest
    {
      var e :| e in rest;
      assert Elements(s + [e]) == Elements(s) + {e};
      s, rest := s + [e], rest - {e};
    }
  }
}
