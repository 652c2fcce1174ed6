/** Sequences used as lists of distinct segment numbers. */
module Lists {
  import opened Wrappers

  ghost predicate Distinct(l: seq<nat>) {
    forall i, j :: 0 <= i < j < |l| ==> l[i] != l[j]
  }

  function IndexOf(l: seq<nat>, x: nat): (i: nat)
    requires x in l
    ensures i < |l| && l[i] == x
    ensures forall j :: 0 <= j < i ==> l[j] != x
  {
    if l[0] == x then 0 else 1 + IndexOf(l[1..], x)
  }

  /** The list with (the first) `x` taken out. */
  function Remove(l: seq<nat>, x: nat): (r: seq<nat>)
    requires x in l
    ensures forall y: nat :: y in r ==> y in l
  {
    var i := IndexOf(l, x);
    l[..i] + l[i + 1..]
  }

  /** The list element behind `x`. */
  function After(l: seq<nat>, x: nat): Option<nat>
    requires x in l
  {
    var i := IndexOf(l, x);
    if i + 1 < |l| then Some(l[i + 1]) else None
  }

  lemma RemoveDistinct(l: seq<nat>, x: nat)
    requires Distinct(l) && x in l
    ensures Distinct(Remove(l, x)) && |Remove(l, x)| == |l| - 1
    ensures forall y: nat :: y in Remove(l, x) <==> y in l && y != x
  {
    var i := IndexOf(l, x);
    var r := Remove(l, x);
    forall y: nat | y in l && y != x
      ensures y in r
    {
      var j := IndexOf(l, y);
      if j < i {
        assert r[j] == y;
      } else {
        assert r[j - 1] == y;
      }
    }
    forall y: nat | y in r
      ensures y in l && y != x
    {
      var j := IndexOf(r, y);
      assert y == if j < i then l[j] else l[j + 1];
    }
  }

  lemma AfterDistinct(l: seq<nat>, x: nat)
    requires Distinct(l) && x in l
    ensures After(l, x).Some? ==> After(l, x).value in l && After(l, x).value != x
  {
    var i := IndexOf(l, x);
    assert i + 1 < |l| ==> l[i] != l[i + 1];
  }
}
