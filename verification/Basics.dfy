/** What several modules share. */
module Basics {
  const MAX_UINT64: nat := 0xFFFF_FFFF_FFFF_FFFF
  const TWO_64: nat := 0x1_0000_0000_0000_0000
  type uint64 = n: nat | n <= MAX_UINT64

  datatype Option<+T> = None | Some(value: T)

  /** Always true. Predicates guarded by it stay closed in a proof until the proof mentions it. */
  ghost predicate Open(k: int) {
    true
  }

  /** The same for what holds of a whole object. */
  ghost predicate Inside(k: int) {
    true
  }

  function Members<T(==, !new)>(s: seq<T>): (m: set<T>)
    ensures forall x :: x in m <==> x in s
  {
    set x | x in s
  }

  lemma MembersNext<T(!new)>(s: seq<T>, i: nat)
    requires i < |s|
    ensures Members(s[..i + 1]) == Members(s[..i]) + {s[i]}
  {
    assert s[..i + 1] == s[..i] + [s[i]];
  }
}
