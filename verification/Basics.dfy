/** What several parts of the model share. */
module Basics {

  datatype Option<+T> = None | Some(value: T)

  /** No page: what ends a chain of pages. */
  const INVALID: nat := 0xFFFF_FFFF

  function Least(a: nat, b: nat): nat {
    if a <= b then a else b
  }

  /** A number above all of these. */
  lemma {:induction false} Above(ids: set<nat>) returns (most: nat)
    ensures forall id | id in ids :: id < most
    decreases |ids|
  {
    most := 0;
    if ids != {} {
      var id :| id in ids;
      most := Above(ids - {id});
      assert forall x | x in ids :: x == id || x in ids - {id};
      if most <= id {
        most := id + 1;
      }
    }
  }
}
