/** Allocation of message ids: the next free one in cyclic order, section 2.3.1 of MQTT 3.1.1. */
module MessageIds {
  import opened Packets

  function NextId(id: nat): nat {
    if id == MAX_MSG_ID then 1 else id + 1
  }

  /** The k-th id after start, going round 1..65535. */
  function CyclicId(start: nat, k: nat): (id: nat)
    requires k >= 1
    ensures 1 <= id <= MAX_MSG_ID
  {
    (start + k - 1) % MAX_MSG_ID + 1
  }

  lemma CyclicIdSteps(start: nat, k: nat)
    requires start <= MAX_MSG_ID && k >= 1
    ensures CyclicId(start, 1) == NextId(start)
    ensures NextId(CyclicId(start, k)) == CyclicId(start, k + 1)
  {
    var r := (start + k - 1) % MAX_MSG_ID;
    assert (start + k) % MAX_MSG_ID == if r + 1 == MAX_MSG_ID then 0 else r + 1;
  }

  lemma CyclicIdInjective(start: nat, j: nat, k: nat)
    requires start <= MAX_MSG_ID && 1 <= j < k <= MAX_MSG_ID
    ensures CyclicId(start, j) != CyclicId(start, k)
  {
  }

  lemma CyclicIdReachesAll(start: nat, id: nat) returns (k: nat)
    requires start <= MAX_MSG_ID && 1 <= id <= MAX_MSG_ID
    ensures 1 <= k <= MAX_MSG_ID && CyclicId(start, k) == id
    ensures id != start ==> k <= ProbeLimit(start)
  {
    k := if id > start then id - start else id - start + MAX_MSG_ID;
  }

  lemma CyclicIdLeavesStart(start: nat, j: nat)
    requires start <= MAX_MSG_ID && 1 <= j < MAX_MSG_ID
    ensures CyclicId(start, j) != start
  {
  }

  /** The last probe: a non-zero starting id is never tried itself. */
  function ProbeLimit(start: nat): nat {
    if start == 0 then MAX_MSG_ID else MAX_MSG_ID - 1
  }

  function ProbeFrom(start: nat, used: set<nat>, k: nat): nat
    requires k >= 1
    decreases MAX_MSG_ID + 1 - k
  {
    if k > ProbeLimit(start) then 0
    else if CyclicId(start, k) !in used then CyclicId(start, k)
    else ProbeFrom(start, used, k + 1)
  }

  /** The id given to the next message, or 0 when none is available. */
  function AssignedId(start: nat, used: set<nat>): nat {
    ProbeFrom(start, used, 1)
  }

  predicate AllOthersUsed(start: nat, used: set<nat>) {
    forall id :: 1 <= id <= MAX_MSG_ID && id != start ==> id in used
  }

  lemma {:induction false} ProbeFromResult(start: nat, used: set<nat>, k: nat)
    requires start <= MAX_MSG_ID && 1 <= k <= ProbeLimit(start) + 1
    requires forall j :: 1 <= j < k ==> CyclicId(start, j) in used
    ensures var r := ProbeFrom(start, used, k);
            if r == 0 then forall j :: 1 <= j <= ProbeLimit(start) ==> CyclicId(start, j) in used
            else exists n :: 1 <= n <= ProbeLimit(start) && r == CyclicId(start, n) && r !in used &&
                             forall j :: 1 <= j < n ==> CyclicId(start, j) in used
    decreases MAX_MSG_ID + 1 - k
  {
    if k <= ProbeLimit(start) && CyclicId(start, k) in used {
      ProbeFromResult(start, used, k + 1);
    }
  }

  /** The result is the first id cyclically after start that is not in use; it is 0 exactly when
      every id other than start is in use. */
  lemma AssignedIdIsFirstFree(start: nat, used: set<nat>)
    requires start <= MAX_MSG_ID
    ensures AssignedId(start, used) == 0 <==> AllOthersUsed(start, used)
    ensures var r := AssignedId(start, used);
            r != 0 ==> 1 <= r <= MAX_MSG_ID && r !in used &&
                       exists n :: 1 <= n <= ProbeLimit(start) && r == CyclicId(start, n) &&
                                   forall j :: 1 <= j < n ==> CyclicId(start, j) in used
  {
    ProbeFromResult(start, used, 1);
    if AssignedId(start, used) == 0 {
      forall id | 1 <= id <= MAX_MSG_ID && id != start ensures id in used {
        var k := CyclicIdReachesAll(start, id);
      }
    } else if start != 0 {
      var n :| 1 <= n <= ProbeLimit(start) && AssignedId(start, used) == CyclicId(start, n);
      var k := CyclicIdReachesAll(start, start);
      if n < k { CyclicIdInjective(start, n, k); }
    }
  }

  lemma {:induction false} Pigeonhole(start: nat, used: set<nat>, n: nat)
    requires start <= MAX_MSG_ID && n <= MAX_MSG_ID
    requires forall j :: 1 <= j <= n ==> CyclicId(start, j) in used
    ensures |used| >= n
  {
    if n > 0 {
      var last := CyclicId(start, n);
      forall j | 1 <= j <= n - 1 ensures CyclicId(start, j) in used - {last} {
        CyclicIdInjective(start, j, n);
      }
      Pigeonhole(start, used - {last}, n - 1);
    }
  }

  /** With at most 65533 messages in flight an id is always found. */
  lemma AssignedIdExists(start: nat, used: set<nat>)
    requires start <= MAX_MSG_ID && |used| <= MAX_MSG_ID - 2
    ensures AssignedId(start, used) != 0
  {
    AssignedIdIsFirstFree(start, used);
    if AssignedId(start, used) == 0 {
      forall j | 1 <= j <= MAX_MSG_ID - 1 ensures CyclicId(start, j) in used {
        CyclicIdLeavesStart(start, j);
      }
      Pigeonhole(start, used, MAX_MSG_ID - 1);
      assert false;
    }
  }

  /** The search stops at a free id or back at the counter.  From the initial counter 0 with all ids in
      use it does neither: it stops exactly when the counter has been used before or some id is free. */
  lemma SearchStops(start: nat, used: set<nat>)
    requires start <= MAX_MSG_ID
    ensures (exists k :: k >= 1 && (CyclicId(start, k) !in used || CyclicId(start, k) == start))
            <==> start != 0 || exists id :: 1 <= id <= MAX_MSG_ID && id !in used
  {
    if start != 0 {
      var k := CyclicIdReachesAll(start, start);
    } else if id :| 1 <= id <= MAX_MSG_ID && id !in used {
      var k := CyclicIdReachesAll(0, id);
    }
  }
}
