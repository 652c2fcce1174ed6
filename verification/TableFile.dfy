/** The file in which the table outlives a regular shutdown: a flat array of pairs. */
module TableFile {
  import opened Wrappers

  datatype Pair = Pair(key: nat, value: nat)

  /** Keys in the order in which a table happens to be iterated. */
  ghost predicate IsOrder(order: seq<nat>, table: map<nat, nat>) {
    && (forall i, j :: 0 <= i < j < |order| ==> order[i] != order[j])
    && (forall k :: k in order <==> k in table)
  }

  /** The pairs written for the first keys of the order. */
  function PairsOf(table: map<nat, nat>, order: seq<nat>): (pairs: seq<Pair>)
    requires forall k :: k in order ==> k in table
    ensures |pairs| == |order| && forall i :: 0 <= i < |order| ==> pairs[i] == Pair(order[i], table[order[i]])
  {
    if order == [] then []
    else
      var n := |order| - 1;
      PairsOf(table, order[..n]) + [Pair(order[n], table[order[n]])]
  }

  /** The table that entering all pairs, one after the other, makes of an empty one. */
  function FromPairs(pairs: seq<Pair>): map<nat, nat> {
    if pairs == [] then map[]
    else
      var n := |pairs| - 1;
      FromPairs(pairs[..n])[pairs[n].key := pairs[n].value]
  }

  lemma FromPairsMore(pairs: seq<Pair>, p: Pair)
    ensures FromPairs(pairs + [p]) == FromPairs(pairs)[p.key := p.value]
  {
    assert (pairs + [p])[..|pairs|] == pairs;
  }

  lemma {:induction false} FromPairsOf(table: map<nat, nat>, order: seq<nat>)
    requires forall k :: k in order ==> k in table
    ensures var t := FromPairs(PairsOf(table, order));
            && (forall k :: k in t <==> k in order)
            && (forall k :: k in t ==> t[k] == table[k])
  {
    if order != [] {
      var n := |order| - 1;
      FromPairsOf(table, order[..n]);
      FromPairsMore(PairsOf(table, order[..n]), Pair(order[n], table[order[n]]));
      assert forall k :: k in order <==> k in order[..n] || k == order[n];
    }
  }

  /** In whichever order the table is written, the same table is read back. */
  lemma OrderIsImmaterial(table: map<nat, nat>, order: seq<nat>)
    requires IsOrder(order, table)
    ensures FromPairs(PairsOf(table, order)) == table
  {
    FromPairsOf(table, order);
  }

  class File {
    var present: bool
    var complete: bool       // succesfully_persisted
    var counter: nat
    var data: array<Pair>

    /** The table that the file can be trusted to hold. */
    ghost function Content(): Option<map<nat, nat>>
      reads this, data
    {
      if present && complete && counter <= data.Length then Some(FromPairs(data[..counter])) else None
    }

    /** A file with the flag has all pairs that are counted. */
    ghost predicate Valid()
      reads this
    {
      present && complete ==> counter <= data.Length
    }

    /** A file that is not there is made, with zeros in it, and any is cut or extended to this many pairs. */
    method Resize(n: nat)
      modifies this
      ensures present && fresh(data) && data.Length == n
      ensures complete == (old(present) && old(complete)) && counter == (if old(present) then old(counter) else 0)
      ensures forall i :: 0 <= i < n && i < old(data.Length) ==> data[i] == old(data[i])
    {
      var was := data;
      data := new Pair[n](i reads was => if 0 <= i < was.Length then was[i] else Pair(0, 0));
      if !present {
        complete := false;
        counter := 0;
      }
      present := true;
    }

    /** The first `n` writes of persist_hash_table: the size, the flag, the counter, the pairs one by one, the flag. */
    method PersistSteps(table: map<nat, nat>, order: seq<nat>, n: nat)
      requires IsOrder(order, table)
      modifies this
      ensures table == map[] || n == 0 ==>
                present == old(present) && complete == old(complete) && counter == old(counter) && data == old(data)
      ensures table != map[] && n == 1 ==> present && complete == (old(present) && old(complete))
      ensures table != map[] && 2 <= n < |order| + 4 ==> present && !complete
      ensures table != map[] && 3 <= n ==>
                counter == (if n < |order| + 3 then n - 3 else |order|) <= data.Length == |order|
                && data[..counter] == PairsOf(table, order)[..counter]
      ensures table != map[] && |order| + 4 <= n ==> present && complete
    {
      if |table| == 0 || n == 0 {
        return;
      }
      Resize(|order|);
      if n == 1 {
        return;
      }
      complete := false;
      if n == 2 {
        return;
      }
      PersistPairs(table, order, n - 3);
      if n >= |order| + 4 {
        complete := true;
      }
    }

    /** The counter is set to 0, and the pairs are entered, up to `n` of them. */
    method PersistPairs(table: map<nat, nat>, order: seq<nat>, n: nat)
      requires (forall k :: k in order ==> k in table) && data.Length == |order|
      modifies this`counter, data
      ensures counter == (if n < |order| then n else |order|) && data[..counter] == PairsOf(table, order)[..counter]
    {
      hide PairsOf;
      counter := 0;
      var i := 0;
      ghost var pairs := PairsOf(table, order);
      while i < |order| && i < n
        invariant i == counter <= |order| && i <= n && data[..counter] == pairs[..i]
      {
        assert pairs[..i + 1] == pairs[..i] + [pairs[i]];
        PersistPair(order[i], table[order[i]]);
        i := i + 1;
      }
    }

    /** persist_key_value_pair */
    method PersistPair(key: nat, value: nat)
      requires counter < data.Length
      modifies this`counter, data
      ensures counter == old(counter) + 1 && data[..counter] == old(data[..counter]) + [Pair(key, value)]
    {
      data[counter] := Pair(key, value);
      counter := counter + 1;
    }

    /** persist_hash_table. A table without entries is not written at all: what an earlier shutdown left stays. */
    method Persist(table: map<nat, nat>, order: seq<nat>)
      requires IsOrder(order, table)
      modifies this
      ensures old(Valid()) ==> Valid()
      ensures table != map[] ==>
                present && complete && counter <= data.Length && data[..counter] == PairsOf(table, order)
      ensures Content() == if table == map[] then old(Content()) else Some(table)
    {
      PersistSteps(table, order, |order| + 4);
      assert PairsOf(table, order)[..|order|] == PairsOf(table, order);
      OrderIsImmaterial(table, order);
    }

    /** get_persisted_hash_table, entering the pairs into an empty table. */
    method Load() returns (found: bool, table: map<nat, nat>)
      requires Valid()
      ensures found <==> present && complete
      ensures found ==> table == FromPairs(data[..counter])
      ensures Content() == if found then Some(table) else None
    {
      table := map[];
      if !present || !complete {
        return false, table;
      }
      var i := 0;
      while i < counter
        invariant i <= counter && table == FromPairs(data[..i])
      {
        assert data[..i + 1][..i] == data[..i];
        table := table[data[i].key := data[i].value];
        i := i + 1;
      }
      found := true;
    }
  }

  /** Shutting down and starting again restores the table, unless it is empty and an older one lies in the file. */
  method ShutDownAndStart(file: File, table: map<nat, nat>, order: seq<nat>)
      returns (found: bool, loaded: map<nat, nat>)
    requires file.Valid() && IsOrder(order, table)
    modifies file
    ensures (found ==> loaded == table) <==> table != map[] || old(file.Content()) in {None, Some(map[])}
    ensures table != map[] ==> found && loaded == table
  {
    file.Persist(table, order);
    found, loaded := file.Load();
  }

  /** A shutdown that broke off after `n` writes: once the flag is taken back nothing is found, whatever pairs were
      written, until it is set again. */
  method BrokenShutDownAndStart(file: File, table: map<nat, nat>, order: seq<nat>, n: nat)
      returns (found: bool, loaded: map<nat, nat>)
    requires file.Valid() && IsOrder(order, table) && table != map[] && n >= 2
    modifies file
    ensures found <==> n >= |order| + 4
    ensures found ==> loaded == table
  {
    file.PersistSteps(table, order, n);
    found, loaded := file.Load();
    assert PairsOf(table, order)[..|order|] == PairsOf(table, order);
    OrderIsImmaterial(table, order);
  }
}
