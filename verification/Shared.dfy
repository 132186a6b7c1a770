/** What more than one component needs. */
module Shared {
  datatype Option<+T> = None | Some(value: T)

  function Smaller(a: nat, b: nat): nat {
    if a < b then a else b
  }

  function Concat(parts: seq<string>): string {
    if parts == [] then "" else parts[0] + Concat(parts[1..])
  }

  lemma {:induction false} ConcatSplit(parts: seq<string>, k: nat)
    requires k <= |parts|
    ensures Concat(parts) == Concat(parts[..k]) + Concat(parts[k..])
    decreases k
  {
    if k == 0 {
      assert parts[k..] == parts;
    } else {
      assert parts[..k][0] == parts[0] && parts[..k][1..] == parts[1..][..k - 1] && parts[1..][k - 1..] == parts[k..];
      ConcatSplit(parts[1..], k - 1);
    }
  }
}
