/** Putting pieces of text together. */
module Strings {
  function Concat(parts: seq<string>): string {
    if parts == [] then "" else Concat(parts[..|parts| - 1]) + parts[|parts| - 1]
  }

  lemma ConcatOneMore(parts: seq<string>, x: string)
    ensures Concat(parts + [x]) == Concat(parts) + x
  {
    assert (parts + [x])[..|parts|] == parts;
  }

  lemma {:induction false} ConcatFront(parts: seq<string>)
    requires parts != []
    ensures Concat(parts) == parts[0] + Concat(parts[1..])
    decreases |parts|
  {
    var last := |parts| - 1;
    if last == 0 {
      assert parts[..last] == [] && parts[1..] == [];
      assert Concat(parts) == "" + parts[0] == parts[0] + "";
    } else {
      ConcatFront(parts[..last]);
      assert parts[..last][1..] == parts[1..][..last - 1];
      assert parts[0] + Concat(parts[1..last]) + parts[last] == parts[0] + (Concat(parts[1..last]) + parts[last]);
    }
  }

  lemma ConcatOne(x: string)
    ensures Concat([x]) == x
  {
    assert [x][..0] == [];
    assert Concat([]) + x == x;
  }
}
