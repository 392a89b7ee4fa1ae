/** Small functions used throughout. */
module Basics {
  function Min(a: nat, b: nat): nat {
    if a < b then a else b
  }

  function Max(a: nat, b: nat): nat {
    if a < b then b else a
  }

  function Elements<T>(xs: seq<T>): set<T> {
    set x | x in xs
  }
}
