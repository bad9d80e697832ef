/** The tail-wrap ring shared by `TWNodeSelector` and the three worker services:
    a sorted table from node-name hashes to nodes, filled by `put` calls, and a
    lookup that takes the smallest key at or after a hash, wrapping round to the
    smallest key when there is none. */
module HashRing {
  import opened Lang

  /** The table that `put(hash, node)` for each entry, in order, leaves behind. */
  function RingOf<N>(entries: seq<(int, N)>): (ring: map<int, N>)
    decreases |entries|
  {
    if entries == [] then map[]
    else
      var prefix, last := entries[..|entries| - 1], entries[|entries| - 1];
      RingOf(prefix)[last.0 := last.1]
  }

  /** The table's keys are exactly the hashes that were put. */
  lemma {:induction false} RingOfKeys<N>(entries: seq<(int, N)>)
    ensures RingOf(entries).Keys == set i | 0 <= i < |entries| :: entries[i].0
    decreases |entries|
  {
    if entries != [] {
      var prefix := entries[..|entries| - 1];
      RingOfKeys(prefix);
      assert forall i | 0 <= i < |prefix| :: prefix[i] == entries[i];
    }
  }

  /** Each hash holds the node of its last `put`: a colliding later node replaces an earlier one. */
  lemma {:induction false} RingOfLastPutWins<N>(entries: seq<(int, N)>, j: nat)
    requires j < |entries|
    requires forall j' | j < j' < |entries| :: entries[j'].0 != entries[j].0
    ensures entries[j].0 in RingOf(entries) && RingOf(entries)[entries[j].0] == entries[j].1
    decreases |entries|
  {
    if j < |entries| - 1 {
      var prefix := entries[..|entries| - 1];
      RingOfLastPutWins(prefix, j);
    }
  }

  /** Every node in the table was put there under its key by some entry. */
  lemma {:induction false} RingOfValueFrom<N>(entries: seq<(int, N)>, h: int) returns (i: nat)
    requires h in RingOf(entries)
    ensures i < |entries| && entries[i] == (h, RingOf(entries)[h])
    decreases |entries|
  {
    var prefix, last := entries[..|entries| - 1], entries[|entries| - 1];
    if last.0 == h {
      i := |entries| - 1;
    } else {
      i := RingOfValueFrom(prefix, h);
    }
  }

  /** The table never holds more entries than were put, and exactly as many
      when the hashes are pairwise distinct. */
  lemma {:induction false} RingOfSize<N>(entries: seq<(int, N)>)
    ensures |RingOf(entries)| <= |entries|
    ensures (forall i, j | 0 <= i < j < |entries| :: entries[i].0 != entries[j].0) ==> |RingOf(entries)| == |entries|
    decreases |entries|
  {
    if entries != [] {
      var prefix, last := entries[..|entries| - 1], entries[|entries| - 1];
      RingOfSize(prefix);
      var before := RingOf(prefix);
      if last.0 in before {
        RingOfKeys(prefix);
        assert RingOf(entries).Keys == before.Keys;
        var i :| 0 <= i < |prefix| && prefix[i].0 == last.0;
        assert entries[i].0 == entries[|entries| - 1].0;
      } else {
        assert RingOf(entries).Keys == before.Keys + {last.0};
      }
    }
  }

  /** m is the first key of the set. */
  predicate IsFirst(m: int, keys: set<int>)
  {
    m in keys && forall k | k in keys :: m <= k
  }

  lemma {:induction false} FirstExists(keys: set<int>)
    requires keys != {}
    ensures exists m :: IsFirst(m, keys)
    decreases |keys|
  {
    var x := PickKey(keys);
    var rest := keys - {x};
    if rest == {} {
      assert keys == {x};
      assert IsFirst(x, keys);
    } else {
      FirstExists(rest);
      var m :| IsFirst(m, rest);
      var first := if x < m then x else m;
      forall k | k in keys
        ensures first <= k
      {
        if k != x {
          assert k in rest;
        }
      }
      assert IsFirst(first, keys);
    }
  }

  lemma PickKey(keys: set<int>) returns (x: int)
    requires keys != {}
    ensures x in keys
  {
    if forall y :: y !in keys {
      assert false;
    }
    x :| x in keys;
  }

  /** `firstKey()` of a non-empty table. */
  function FirstKey(keys: set<int>): (m: int)
    requires keys != {}
    ensures IsFirst(m, keys)
  {
    FirstExists(keys);
    var m :| IsFirst(m, keys);
    m
  }

  /** The keys of `tailMap(h)`: those at or after h. */
  function TailKeys(keys: set<int>, h: int): (tail: set<int>)
    ensures forall k :: k in tail <==> k in keys && h <= k
  {
    set k | k in keys && h <= k
  }

  /** The key the ring assigns to hash h, independently of how it is found:
      the smallest key at or after h, or the smallest key of all when every key
      lies before h. */
  predicate IsSuccessor(keys: set<int>, h: int, id: int)
  {
    id in keys &&
    if exists k :: k in keys && h <= k then
      h <= id && forall k | k in keys && h <= k :: id <= k
    else
      forall k | k in keys :: id <= k
  }

  /** Two keys that both succeed h are the same key. */
  lemma SuccessorIsUnique(keys: set<int>, h: int, a: int, b: int)
    requires IsSuccessor(keys, h, a) && IsSuccessor(keys, h, b)
    ensures a == b
  {
  }

  /** `getWorkerNodeId`: the first key of the tail at h if that tail is
      non-empty, else the first key of the table, which throws
      NoSuchElementException when the table is empty. */
  function GetNodeId(keys: set<int>, h: int): (r: Result<int>)
    ensures r.Err? <==> keys == {}
    ensures r.Err? ==> r.error == NoSuchElementException
    ensures r.Ok? ==> IsSuccessor(keys, h, r.value)
  {
    var tail := TailKeys(keys, h);
    if tail != {} then Ok(FirstKey(tail))
    else if keys == {} then Err(NoSuchElementException)
    else
      var first := FirstKey(keys);
      assert !exists k :: k in keys && h <= k by {
        forall k | k in keys ensures k < h {
          assert k !in tail;
        }
      }
      Ok(first)
  }

  /** `getWorkerNode` / `getNode`: the node stored at the successor key. */
  function GetNode<N>(ring: map<int, N>, h: int): (r: Result<N>)
    ensures r.Err? <==> ring == map[]
    ensures r.Err? ==> r.error == NoSuchElementException
    ensures r.Ok? ==> exists id :: IsSuccessor(ring.Keys, h, id) && ring[id] == r.value
  {
    match GetNodeId(ring.Keys, h)
    case Ok(id) => Ok(ring[id])
    case Err(e) =>
      assert ring.Keys == {};
      assert ring == map[];
      Err(e)
  }

  /** A hash equal to a key finds exactly that key. */
  lemma GetNodeIdExactHit(keys: set<int>, h: int)
    requires h in keys
    ensures GetNodeId(keys, h) == Ok(h)
  {
  }

  /** When every key lies before h, the lookup wraps round to the first key. */
  lemma GetNodeIdWraps(keys: set<int>, h: int)
    requires keys != {}
    requires forall k | k in keys :: k < h
    ensures GetNodeId(keys, h) == Ok(FirstKey(keys))
  {
    var r := GetNodeId(keys, h).value;
    SuccessorIsUnique(keys, h, r, FirstKey(keys));
  }

  /** Adding one key to a non-empty ring moves a hash only onto the new key:
      every other hash keeps its old key. */
  lemma {:induction false} AddKeyMovesOnlyToNewKey(keys: set<int>, x: int, h: int)
    requires keys != {} && x !in keys
    ensures GetNodeId(keys + {x}, h) == GetNodeId(keys, h) || GetNodeId(keys + {x}, h) == Ok(x)
  {
    var after := GetNodeId(keys + {x}, h).value;
    var before := GetNodeId(keys, h).value;
    if after != x {
      assert after in keys;
      if exists k :: k in keys && h <= k {
        assert exists k :: k in keys + {x} && h <= k;
      }
      assert IsSuccessor(keys, h, after);
      SuccessorIsUnique(keys, h, after, before);
    }
  }
}
