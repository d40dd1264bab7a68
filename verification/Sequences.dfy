/** Lists without repetition, and taking one element out of them. */
module Sequences {
  predicate NoDup<T(==)>(l: seq<T>) {
    forall i, j :: 0 <= i < j < |l| ==> l[i] != l[j]
  }

  /** The list with the element at `i` taken out. */
  function Drop<T>(l: seq<T>, i: nat): (r: seq<T>)
    requires i < |l|
    ensures |r| == |l| - 1
  {
    l[..i] + l[i + 1..]
  }

  /** The list without `t`. */
  function Without<T(==)>(l: seq<T>, t: T): (r: seq<T>) {
    if l == [] then [] else if l[0] == t then l[1..] else [l[0]] + Without(l[1..], t)
  }

  lemma {:induction false} WithoutIsDrop<T>(l: seq<T>, i: nat)
    requires i < |l| && NoDup(l)
    ensures Without(l, l[i]) == Drop(l, i)
  {
    if i != 0 {
      assert l[0] != l[i];
      WithoutIsDrop(l[1..], i - 1);
      assert Drop(l, i) == [l[0]] + Drop(l[1..], i - 1);
    }
  }

  lemma DropMembers<T>(l: seq<T>, i: nat)
    requires i < |l| && NoDup(l)
    ensures NoDup(Drop(l, i))
    ensures forall t :: t in Drop(l, i) <==> t in l && t != l[i]
  {
    var r := Drop(l, i);
    forall t | t in l && t != l[i] ensures t in r {
      var k :| 0 <= k < |l| && l[k] == t;
      assert t == if k < i then r[k] else r[k - 1];
    }
  }
}
