/** Types and small functions shared by every part of the model. */
module Basics {
  datatype Option<+T> = None | Some(value: T)

  function Max(a: int, b: int): (m: int)
    ensures m >= a && m >= b && (m == a || m == b)
  {
    if a < b then b else a
  }

  function Min(a: int, b: int): (m: int)
    ensures m <= a && m <= b && (m == a || m == b)
  {
    if a < b then a else b
  }

  /** A number above all of finitely many. */
  lemma {:induction false} Above(used: set<nat>) returns (n: nat)
    ensures forall u :: u in used ==> u < n
    decreases |used|
  {
    if used == {} {
      n := 0;
    } else {
      var u :| u in used;
      var rest := Above(used - {u});
      n := rest + u + 1;
      assert forall v :: v in used ==> v == u || v in used - {u};
    }
  }
}
