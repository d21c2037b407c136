/**
 The index from a state's identity to its node (modelcheck/index.go). By default an
 open-addressing table of node numbers probed linearly and compared against the hash
 column; with exact keys a map keyed by the whole key.
 */
module Index {
  import opened Wrappers

  /** The 128 bits kept of a key's hash. */
  datatype Hash128 = Hash128(hi: nat, lo: nat)

  /** What a state is deduplicated on: its full key, or the hash of it. */
  datatype Ident = ByKey(key: string) | ByHash(hash: Hash128)

  function Identify(exact: bool, hash: Hash128, key: string): Ident {
    if exact then ByKey(key) else ByHash(hash)
  }

  /** Number of probes needed to walk from slot `home` to slot `pos` in a table of size `size`. */
  function Dist(home: nat, pos: nat, size: nat): (d: nat)
    requires home < size && pos < size
    ensures d < size
  {
    if home <= pos then pos - home else pos + size - home
  }

  /** Slot `q` is probed before slot `pos` when walking from `home`. */
  predicate Before(home: nat, q: nat, pos: nat, size: nat)
    requires home < size && q < size && pos < size
  {
    Dist(home, q, size) < Dist(home, pos, size)
  }

  /** The slot probed after `pos`; masking with size-1 is the remainder by the size. */
  function NextSlot(pos: nat, size: nat): (next: nat)
    requires pos < size
    ensures next == if pos + 1 == size then 0 else pos + 1
  {
    (pos + 1) % size
  }

  function Home(hash: Hash128, size: nat): (home: nat)
    requires 0 < size
    ensures home < size
  {
    hash.lo % size
  }

  /**
   The table holds exactly the nodes below `n`, node i at slot slots[i], and every slot on
   the probe path from a node's home to its slot is occupied.
   */
  ghost predicate TableOk(table: seq<int>, slots: seq<nat>, n: nat, hashes: seq<Hash128>) {
    && 0 < |table| && |slots| == n <= |hashes|
    && (forall i | 0 <= i < n :: slots[i] < |table| && table[slots[i]] == i + 1)
    && (forall p | 0 <= p < |table| :: 0 <= table[p] <= n && (table[p] != 0 ==> slots[table[p] - 1] == p))
    && (forall i, q | 0 <= i < n && 0 <= q < |table| ::
          Before(Home(hashes[i], |table|), q, slots[i], |table|) ==> table[q] != 0)
  }

  /** A table with more slots than nodes has an empty slot, so every probe loop ends. */
  lemma {:induction false} EmptySlotExists(table: seq<int>, slots: seq<nat>, n: nat, hashes: seq<Hash128>)
      returns (e: nat)
    requires TableOk(table, slots, n, hashes)
    requires n < |table|
    ensures e < |table| && table[e] == 0
  {
    if forall p | 0 <= p < |table| :: table[p] != 0 {
      var nodes := seq(|table|, p requires 0 <= p < |table| => if table[p] > 0 then table[p] - 1 else 0);
      assert Distinct(nodes) by {
        forall i, j | 0 <= i < j < |nodes| ensures nodes[i] != nodes[j] {
          assert slots[table[i] - 1] == i && slots[table[j] - 1] == j;
        }
      }
      Pigeonhole(nodes, n);
      assert false;
    }
    e :| 0 <= e < |table| && table[e] == 0;
  }

  /** Filling an empty slot reached by probing from the home keeps the table well formed. */
  lemma {:induction false} PlaceKeepsTableOk(table: seq<int>, slots: seq<nat>, n: nat, hashes: seq<Hash128>, pos: nat)
    requires TableOk(table, slots, n, hashes)
    requires n < |hashes| && pos < |table| && table[pos] == 0
    requires forall q | 0 <= q < |table| ::
               Before(Home(hashes[n], |table|), q, pos, |table|) ==> table[q] != 0
    ensures TableOk(table[pos := n + 1], slots + [pos], n + 1, hashes)
  {
  }

  /** Every slot probed before `pos` holds a node with another hash. */
  ghost predicate PassedOver(table: seq<int>, n: nat, home: nat, pos: nat, h: Hash128, hashes: seq<Hash128>)
    requires home < |table| && pos < |table| && n <= |hashes|
    requires forall p | 0 <= p < |table| :: 0 <= table[p] <= n
  {
    forall q | 0 <= q < |table| ::
      Before(home, q, pos, |table|) ==> table[q] != 0 && hashes[table[q] - 1] != h
  }

  /** An empty slot on the probe path proves that no node has the hash. */
  lemma {:induction false} ProbeMiss(table: seq<int>, slots: seq<nat>, n: nat, hashes: seq<Hash128>, h: Hash128, pos: nat)
    requires TableOk(table, slots, n, hashes)
    requires pos < |table| && table[pos] == 0
    requires PassedOver(table, n, Home(h, |table|), pos, h, hashes)
    ensures forall i | 0 <= i < n :: hashes[i] != h
  {
    forall i | 0 <= i < n ensures hashes[i] != h {
      assert !Before(Home(hashes[i], |table|), pos, slots[i], |table|);
      assert hashes[i] == h ==> Before(Home(h, |table|), slots[i], pos, |table|);
    }
  }

  /** One more probe: unless the walk has reached slot `e`, only `pos` becomes passed over. */
  lemma {:induction false} ProbeNext(home: nat, pos: nat, e: nat, size: nat)
    requires home < size && pos < size && e < size && pos != e
    requires Dist(home, pos, size) <= Dist(home, e, size)
    ensures Dist(home, NextSlot(pos, size), size) == Dist(home, pos, size) + 1 <= Dist(home, e, size)
    ensures forall q: nat | q < size ::
              Before(home, q, NextSlot(pos, size), size) ==> q == pos || Before(home, q, pos, size)
  {
  }

  /** The table does not care about hashes of nodes it does not hold. */
  lemma {:induction false} HashColumnGrows(table: seq<int>, slots: seq<nat>, n: nat, hashes: seq<Hash128>)
    requires 0 < |hashes| && TableOk(table, slots, n, hashes[..|hashes| - 1])
    ensures TableOk(table, slots, n, hashes)
  {
    forall i | 0 <= i < n ensures hashes[i] == hashes[..|hashes| - 1][i] {}
  }

  class KeyIndex {
    var table: array<int>
    var mask: nat
    var count: nat
    const isExact: bool
    var exact: map<string, int>

    ghost var idents: seq<Ident>  // the identity of every node inserted so far
    ghost var slots: seq<nat>

    ghost predicate Valid(hashes: seq<Hash128>)
      reads this, table
    {
      && Distinct(idents)
      && |idents| == count
      && if isExact then
           (forall key :: key in exact <==> ByKey(key) in idents)
           && (forall key | key in exact :: 0 <= exact[key] < count && idents[exact[key]] == ByKey(key))
         else
           && 2 * count <= table.Length
           && mask == table.Length - 1
           && TableOk(table[..], slots, count, hashes)
           && (forall i | 0 <= i < count :: idents[i] == ByHash(hashes[i]))
    }

    constructor (exactKeys: bool)
      ensures isExact == exactKeys && fresh(table)
      ensures idents == [] && count == 0
      ensures forall hashes :: Valid(hashes)
    {
      isExact := exactKeys;
      exact := map[];
      table := new int[1024](_ => 0);
      mask := 1023;
      count := 0;
      idents := [];
      slots := [];
    }

    /** Finds the node inserted under the given identity, exactly when there is one. */
    method Lookup(h: Hash128, key: string, hashes: seq<Hash128>) returns (node: int, found: bool)
      requires Valid(hashes)
      ensures found <==> Identify(isExact, h, key) in idents
      ensures found ==> 0 <= node < count && idents[node] == Identify(isExact, h, key)
      ensures !found ==> node == 0
    {
      if isExact {
        if key in exact {
          return exact[key], true;
        }
        return 0, false;
      }
      node, found := Probe(h, hashes);
    }

    /** Walks the table from the hash's home to a node with that hash, or to an empty slot. */
    method Probe(h: Hash128, hashes: seq<Hash128>) returns (node: int, found: bool)
      requires count < table.Length && mask == table.Length - 1
      requires TableOk(table[..], slots, count, hashes)
      ensures found ==> 0 <= node < count && hashes[node] == h
      ensures !found ==> node == 0 && forall i | 0 <= i < count :: hashes[i] != h
    {
      ghost var t := table[..];
      ghost var home := Home(h, |t|);
      ghost var e := EmptySlotExists(t, slots, count, hashes);
      var pos: nat := Home(h, mask + 1);
      while true
        invariant pos < |t|
        invariant Dist(home, pos, |t|) <= Dist(home, e, |t|)
        invariant PassedOver(t, count, home, pos, h, hashes)
        decreases Dist(home, e, |t|) - Dist(home, pos, |t|)
      {
        var v := table[pos];
        if v == 0 {
          ProbeMiss(t, slots, count, hashes, h, pos);
          return 0, false;
        }
        if hashes[v - 1] == h {
          return v - 1, true;
        }
        ProbeNext(home, pos, e, |t|);
        pos := NextSlot(pos, mask + 1);
      }
    }

    /** Records the next node, whose hash is already in the column. */
    method Insert(node: int, h: Hash128, key: string, hashes: seq<Hash128>)
      requires node == count && |hashes| == node + 1 && hashes[node] == h
      requires Valid(hashes[..node])
      requires Identify(isExact, h, key) !in idents
      modifies this, table
      ensures Valid(hashes)
      ensures idents == old(idents) + [Identify(isExact, h, key)] && count == old(count) + 1
      ensures fresh(table) || table == old(table)
    {
      if isExact {
        exact := exact[key := node];
        count := count + 1;
        idents := idents + [ByKey(key)];
        return;
      }
      HashColumnGrows(table[..], slots, count, hashes);
      InsertHashed(node, h, hashes);
    }

    /** Insert in the open-addressing table, kept at most half full. */
    method InsertHashed(node: int, h: Hash128, hashes: seq<Hash128>)
      requires !isExact && node == count && |hashes| == node + 1 && hashes[node] == h
      requires 2 * count <= table.Length && mask == table.Length - 1
      requires TableOk(table[..], slots, count, hashes)
      modifies this, table
      ensures 2 * count <= table.Length && mask == table.Length - 1
      ensures TableOk(table[..], slots, count, hashes)
      ensures count == old(count) + 1 && idents == old(idents) + [ByHash(h)] && exact == old(exact)
      ensures fresh(table) || table == old(table)
    {
      if (count + 1) * 2 > table.Length {
        Grow(hashes);
      }
      Place(node, h, hashes);
      count := count + 1;
      idents := idents + [ByHash(h)];
    }

    /** Puts node `node` in the first empty slot at or after its home. */
    method Place(node: nat, h: Hash128, hashes: seq<Hash128>)
      requires node < |hashes| && hashes[node] == h
      requires node < table.Length && mask == table.Length - 1
      requires TableOk(table[..], slots, node, hashes)
      modifies table, `slots
      ensures TableOk(table[..], slots, node + 1, hashes)
    {
      hide TableOk;
      ghost var t := table[..];
      ghost var home := Home(h, |t|);
      ghost var e := EmptySlotExists(t, slots, node, hashes);
      var pos: nat := Home(h, mask + 1);
      while table[pos] != 0
        invariant pos < |t|
        invariant Dist(home, pos, |t|) <= Dist(home, e, |t|)
        invariant forall q | 0 <= q < |t| :: Before(home, q, pos, |t|) ==> t[q] != 0
        modifies {}
        decreases Dist(home, e, |t|) - Dist(home, pos, |t|)
      {
        ProbeNext(home, pos, e, |t|);
        pos := NextSlot(pos, mask + 1);
      }
      PlaceKeepsTableOk(t, slots, node, hashes, pos);
      table[pos] := node + 1;
      assert table[..] == t[pos := node + 1];
      slots := slots + [pos];
    }

    /** Doubles the table and places every recorded node again. */
    method Grow(hashes: seq<Hash128>)
      requires !isExact && count < |hashes|
      requires 2 * count <= table.Length && mask == table.Length - 1 && 0 < table.Length
      modifies this
      ensures fresh(table) && table.Length == 2 * old(table.Length)
      ensures mask == table.Length - 1
      ensures TableOk(table[..], slots, count, hashes)
      ensures count == old(count) && idents == old(idents) && exact == old(exact)
    {
      table := new int[table.Length * 2](_ => 0);
      mask := mask * 2 + 1;
      slots := [];
      for i := 0 to count
        invariant fresh(table) && table.Length == 2 * old(table.Length) && mask == table.Length - 1
        invariant TableOk(table[..], slots, i, hashes)
        invariant count == old(count) && idents == old(idents) && exact == old(exact)
      {
        Place(i, hashes[i], hashes);
      }
    }
  }
}
