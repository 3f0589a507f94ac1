/**
 aircraft_registry (src/aircraft_registry.hpp, .cpp): the map of live records, updated in place.
 Each method is proved to take the step that module Registry defines.
 */
module AircraftRegistries {
  import opened Wrappers
  import opened Records
  import R = Registry

  predicate Ascending(keys: seq<nat>) {
    forall i, j | 0 <= i < j < |keys| :: keys[i] < keys[j]
  }

  lemma {:induction false} SomeLowest(s: set<nat>) returns (k: nat)
    requires s != {}
    ensures k in s && forall j | j in s :: k <= j
    decreases |s|
  {
    k :| k in s;
    var rest := s - {k};
    assert forall j | j in s :: j == k || j in rest;
    if rest != {} {
      var j := SomeLowest(rest);
      k := if j < k then j else k;
    }
  }

  /** The order in which an iterator visits a std::map. */
  method KeysInOrder(s: set<nat>) returns (keys: seq<nat>)
    ensures Ascending(keys)
    ensures forall k :: k in keys <==> k in s
  {
    keys := [];
    var rest := s;
    while rest != {}
      invariant rest <= s
      invariant Ascending(keys)
      invariant forall k :: k in keys <==> k in s && k !in rest
      invariant forall i, b | 0 <= i < |keys| && b in rest :: keys[i] < b
      decreases |rest|
    {
      ghost var low := SomeLowest(rest);
      var k :| k in rest && forall j | j in rest :: k <= j;
      keys := keys + [k];
      rest := rest - {k};
    }
  }

  /** The part of a sweep that has visited these keys: what is left of the map, and what was removed. */
  ghost function Visited(m: map<nat, AdsbRecord>, keys: seq<nat>, now: nat, window: nat)
    : (map<nat, AdsbRecord>, seq<nat>)
  {
    if keys == [] then (m, [])
    else
      var (left, gone) := Visited(m, keys[..|keys| - 1], now, window);
      var k := keys[|keys| - 1];
      if k in left && IsStale(left[k], now, window) then (left - {k}, gone + [k]) else (left, gone)
  }

  /** Of the keys visited, exactly the stale ones have moved from the map to the list, in order. */
  ghost predicate Divided(m: map<nat, AdsbRecord>, keys: seq<nat>, now: nat, window: nat,
                          left: map<nat, AdsbRecord>, gone: seq<nat>)
  {
    && (forall a :: a in left <==> a in m && !(a in keys && IsStale(m[a], now, window)))
    && (forall a | a in left :: left[a] == m[a])
    && (forall a :: a in gone <==> a in m && a in keys && IsStale(m[a], now, window))
    && Ascending(gone)
  }

  lemma VisitOne(m: map<nat, AdsbRecord>, front: seq<nat>, k: nat, now: nat, window: nat,
                 left: map<nat, AdsbRecord>, gone: seq<nat>)
    requires Ascending(front + [k]) && Divided(m, front, now, window, left, gone)
    ensures if k in left && IsStale(left[k], now, window)
            then Divided(m, front + [k], now, window, left - {k}, gone + [k])
            else Divided(m, front + [k], now, window, left, gone)
  {
    var keys := front + [k];
    assert forall a :: a in keys <==> a in front || a == k;
    assert forall i | 0 <= i < |front| :: keys[i] < keys[|front|];
    assert forall j | 0 <= j < |gone| :: gone[j] in gone;
  }

  lemma {:induction false} VisitedRemovesStale(m: map<nat, AdsbRecord>, keys: seq<nat>, now: nat, window: nat)
    requires Ascending(keys)
    ensures var (left, gone) := Visited(m, keys, now, window);
            Divided(m, keys, now, window, left, gone)
  {
    if keys != [] {
      var front, k := keys[..|keys| - 1], keys[|keys| - 1];
      VisitedRemovesStale(m, front, now, window);
      var (left, gone) := Visited(m, front, now, window);
      assert keys == front + [k];
      VisitOne(m, front, k, now, window, left, gone);
    }
  }

  /** The walk has not yet touched the key it is about to visit. */
  lemma NextIsUntouched(m: map<nat, AdsbRecord>, keys: seq<nat>, i: nat, now: nat, window: nat)
    requires Ascending(keys) && i < |keys| && forall k :: k in keys <==> k in m
    ensures keys[i] in m && keys[i] in Visited(m, keys[..i], now, window).0
    ensures Visited(m, keys[..i], now, window).0[keys[i]] == m[keys[i]]
    ensures keys[..i + 1][..i] == keys[..i]
  {
    assert keys[i] in keys;
    VisitedRemovesStale(m, keys[..i], now, window);
  }

  /** A walk over all the keys is the sweep. */
  lemma VisitedAll(s: R.State, keys: seq<nat>, now: nat, window: nat)
    requires Ascending(keys) && forall k :: k in keys <==> k in s.known
    ensures var (left, gone) := Visited(s.known, keys, now, window);
            && left == R.EvictStale(s, now, window).known
            && (forall a :: a in gone <==> a in R.StaleSet(s, now, window))
            && Ascending(gone)
    ensures keys[..|keys|] == keys
  {
    VisitedRemovesStale(s.known, keys, now, window);
  }

  class AircraftRegistry {
    /** std::map holds its records by value. */
    var known: map<nat, AdsbRecord>
    const capacity: nat
    var evictions: nat

    ghost predicate Valid()
      reads this
    {
      1 <= capacity && R.WellKept(Abstract(), capacity)
    }

    ghost function Abstract(): R.State
      reads this
    {
      R.State(known, evictions)
    }

    constructor (capacity: nat)
      requires capacity >= 1
      ensures Valid() && this.capacity == capacity
      ensures Abstract() == R.Run(capacity, [])
    {
      this.capacity := capacity;
      known, evictions := map[], 0;
    }

    /** std::min_element over the map in key order: the first of the least stamps wins. */
    method MinElement() returns (oldest: Option<nat>)
      ensures oldest == None <==> known == map[]
      ensures oldest.Some? ==> oldest.value == R.Victim(known)
    {
      oldest := None;
      var keys := KeysInOrder(known.Keys);
      for i := 0 to |keys|
        invariant oldest == None <==> i == 0
        invariant oldest.Some? ==> oldest.value in keys[..i] && forall j | 0 <= j < i ::
          || known[oldest.value].lastSeen < known[keys[j]].lastSeen
          || (known[oldest.value].lastSeen == known[keys[j]].lastSeen && oldest.value <= keys[j])
      {
        if oldest == None || known[keys[i]].lastSeen < known[oldest.value].lastSeen {
          oldest := Some(keys[i]);
        }
      }
      if oldest.Some? {
        R.VictimIsUnique(known, oldest.value);
      }
    }

    method EvictLeastRecentlySeen()
      modifies this
      ensures Abstract() == R.EvictLeastRecent(old(Abstract()))
    {
      var oldest := MinElement();
      if oldest == None {
        return;
      }
      known := known - {oldest.value};
      evictions := evictions + 1;
    }

    /** The first half of fold: the aircraft's entry, made if it is not there. */
    method FindOrAdmit(a: nat)
      modifies this
      ensures Abstract() == R.Admit(old(Abstract()), capacity, a)
    {
      if a !in known {
        if |known| >= capacity {
          EvictLeastRecentlySeen();
        }
        var admitted := new AdsbData(a);
        known := known[a := admitted.Value()];
      }
    }

    /**
     Folds one message, admitting its aircraft if it is new, and returns the report it gives rise to.
     The record is updated through a reference into the map: copied out, changed, and put back.
     */
    method Fold(msg: AdsbData) returns (report: Option<PositionReport>)
      requires Valid()
      modifies this
      ensures Valid() && msg.icao in known
      ensures Abstract() == R.Fold(old(Abstract()), capacity, msg.Value())
      ensures report == BuildReport(known[msg.icao], msg.Value())
    {
      FindOrAdmit(msg.icao);
      var aircraft := new AdsbData.Copy(known[msg.icao]);
      aircraft.SetLastSeen(msg.lastSeen);
      UpdateRecord(aircraft, msg);
      known := known[msg.icao := aircraft.Value()];
      R.FoldKeeps(old(Abstract()), capacity, msg.Value());
      report := BuildReport(aircraft.Value(), msg.Value());
    }

    /** Removes every stale aircraft, and returns exactly their addresses, each once. */
    method EvictStale(now: nat, window: nat) returns (evicted: seq<nat>)
      requires Valid()
      modifies this
      ensures Valid()
      ensures Abstract() == R.EvictStale(old(Abstract()), now, window)
      ensures forall a :: a in evicted <==> a in R.StaleSet(old(Abstract()), now, window)
      ensures Ascending(evicted)
    {
      evicted := [];
      var keys := KeysInOrder(known.Keys);
      for i := 0 to |keys|
        invariant evictions == old(evictions)
        invariant (known, evicted) == Visited(old(known), keys[..i], now, window)
      {
        NextIsUntouched(old(known), keys, i, now, window);
        if IsStale(known[keys[i]], now, window) {
          evicted := evicted + [known[keys[i]].icao];
          known := known - {keys[i]};
        }
      }
      VisitedAll(old(Abstract()), keys, now, window);
      R.SweepKeeps(old(Abstract()), capacity, now, window);
    }

    method CapacityEvictions() returns (n: nat)
      ensures n == Abstract().evictions
    {
      n := evictions;
    }
  }
}
