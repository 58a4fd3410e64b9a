/**
 The open calls in the order of `listOpenCalls` (src/coord/contractNet.ts, lines 351-356): by announcement, then by
 identifier.
 */
module OpenCalls {
  import opened Outcomes
  import opened ContractNetSpec

  predicate Earlier(env: Env, calls: map<string, Call>, a: string, b: string)
    requires a in calls && b in calls
  {
    calls[a].announcedAt < calls[b].announcedAt || (calls[a].announcedAt == calls[b].announcedAt && env.before(a, b))
  }

  predicate Sorted(env: Env, calls: map<string, Call>, ids: seq<string>) {
    && (forall i :: 0 <= i < |ids| ==> ids[i] in calls)
    && (forall i, j :: 0 <= i < j < |ids| ==> Earlier(env, calls, ids[i], ids[j]))
  }

  ghost predicate Enumerates(ids: seq<string>, elements: set<string>) {
    && (forall id :: id in ids <==> id in elements)
    && (forall i, j :: 0 <= i < j < |ids| ==> ids[i] != ids[j])
  }

  function OpenIds(net: Net): set<string> {
    set id | id in net.calls && net.calls[id].status == Open
  }

  ghost predicate Listed(env: Env, net: Net, ids: seq<string>) {
    Sorted(env, net.calls, ids) && Enumerates(ids, OpenIds(net))
  }

  /** The sorted list of the open calls. */
  ghost function ListOpenCalls(env: Env, net: Net): seq<string> {
    if exists ids :: Listed(env, net, ids) then
      var ids :| Listed(env, net, ids);
      ids
    else []
  }

  /** The identifier goes before all later ones. */
  function Insert(env: Env, calls: map<string, Call>, ids: seq<string>, id: string): seq<string>
    requires id in calls && forall i :: 0 <= i < |ids| ==> ids[i] in calls
  {
    if ids == [] || Earlier(env, calls, ids[|ids| - 1], id) then ids + [id]
    else Insert(env, calls, ids[..|ids| - 1], id) + [ids[|ids| - 1]]
  }

  lemma {:induction false} InsertKeeps(env: Env, calls: map<string, Call>, ids: seq<string>, id: string)
    requires id in calls && forall i :: 0 <= i < |ids| ==> ids[i] in calls
    ensures forall x :: x in Insert(env, calls, ids, id) <==> x == id || x in ids
  {
    if ids != [] && !Earlier(env, calls, ids[|ids| - 1], id) {
      InsertKeeps(env, calls, ids[..|ids| - 1], id);
      assert ids == ids[..|ids| - 1] + [ids[|ids| - 1]];
    }
  }

  lemma {:induction false} InsertSorts(env: Env, calls: map<string, Call>, ids: seq<string>, id: string)
    requires TotalOrder(env.before) && id in calls && id !in ids && Sorted(env, calls, ids)
    ensures Sorted(env, calls, Insert(env, calls, ids, id))
  {
    hide TotalOrder;
    InsertKeeps(env, calls, ids, id);
    if ids != [] {
      var front, last := ids[..|ids| - 1], ids[|ids| - 1];
      if Earlier(env, calls, last, id) {
        forall i | 0 <= i < |ids| ensures Earlier(env, calls, ids[i], id) {
          if i < |front| {
            EarlierIsTransitive(env, calls, ids[i], last, id);
          }
        }
      } else {
        EarlierIsTotal(env, calls, last, id);
        InsertSorts(env, calls, front, id);
        InsertKeeps(env, calls, front, id);
        var r := Insert(env, calls, front, id);
        forall i | 0 <= i < |r| ensures r[i] in calls && Earlier(env, calls, r[i], last) {
          assert r[i] in r;
          if r[i] != id {
            var k :| 0 <= k < |front| && front[k] == r[i];
            assert Earlier(env, calls, ids[k], ids[|ids| - 1]);
          }
        }
      }
    }
  }

  lemma EarlierIsTransitive(env: Env, calls: map<string, Call>, a: string, b: string, c: string)
    requires TotalOrder(env.before) && a in calls && b in calls && c in calls
    requires Earlier(env, calls, a, b) && Earlier(env, calls, b, c)
    ensures Earlier(env, calls, a, c)
  {
  }

  lemma EarlierIsTotal(env: Env, calls: map<string, Call>, a: string, b: string)
    requires TotalOrder(env.before) && a in calls && b in calls && a != b
    ensures Earlier(env, calls, a, b) <==> !Earlier(env, calls, b, a)
  {
    assert !env.before(a, a);
  }

  lemma SortedIsDistinct(env: Env, calls: map<string, Call>, ids: seq<string>)
    requires TotalOrder(env.before) && Sorted(env, calls, ids)
    ensures forall i, j :: 0 <= i < j < |ids| ==> ids[i] != ids[j]
  {
    forall i, j | 0 <= i < j < |ids| ensures ids[i] != ids[j] {
      assert Earlier(env, calls, ids[i], ids[j]);
    }
  }

  /** Sorting leaves no choice. */
  lemma {:induction false} SortedIsUnique(env: Env, calls: map<string, Call>, a: seq<string>, b: seq<string>)
    requires TotalOrder(env.before) && Sorted(env, calls, a) && Sorted(env, calls, b)
    requires forall id :: id in a <==> id in b
    ensures a == b
    decreases |a|
  {
    hide TotalOrder, Sorted;
    assert b != [] ==> b[0] in b;
    if a != [] {
      SameLast(env, calls, a, b);
      WithoutLast(env, calls, a);
      WithoutLast(env, calls, b);
      var frontA, frontB, last := a[..|a| - 1], b[..|b| - 1], a[|a| - 1];
      forall id ensures id in frontA <==> id in frontB {
        assert id in a && id != last <==> id in b && id != last;
      }
      SortedIsUnique(env, calls, frontA, frontB);
      assert a == frontA + [last] && b == frontB + [last];
    }
  }

  lemma WithoutLast(env: Env, calls: map<string, Call>, ids: seq<string>)
    requires TotalOrder(env.before) && Sorted(env, calls, ids) && ids != []
    ensures Sorted(env, calls, ids[..|ids| - 1])
    ensures forall id :: id in ids[..|ids| - 1] <==> id in ids && id != ids[|ids| - 1]
  {
    hide TotalOrder, Earlier;
    SortedIsDistinct(env, calls, ids);
    assert ids == ids[..|ids| - 1] + [ids[|ids| - 1]];
  }

  lemma SameLast(env: Env, calls: map<string, Call>, a: seq<string>, b: seq<string>)
    requires TotalOrder(env.before) && Sorted(env, calls, a) && Sorted(env, calls, b) && a != []
    requires forall id :: id in a <==> id in b
    ensures b != [] && a[|a| - 1] == b[|b| - 1]
  {
    hide TotalOrder, Earlier;
    assert a[|a| - 1] in b && b != [];
    assert b[|b| - 1] in a;
    var i :| 0 <= i < |b| && b[i] == a[|a| - 1];
    var j :| 0 <= j < |a| && a[j] == b[|b| - 1];
    if i < |b| - 1 && j < |a| - 1 {
      assert Earlier(env, calls, b[i], b[|b| - 1]) && Earlier(env, calls, a[j], a[|a| - 1]);
      SortedIsDistinct(env, calls, b);
      EarlierIsTotal(env, calls, b[i], b[|b| - 1]);
    }
  }

  lemma {:induction false} SortedExists(env: Env, calls: map<string, Call>, elements: set<string>)
    returns (ids: seq<string>)
    requires TotalOrder(env.before) && elements <= calls.Keys
    ensures Sorted(env, calls, ids) && Enumerates(ids, elements)
    decreases |elements|
  {
    hide TotalOrder;
    if elements == {} {
      ids := [];
    } else {
      var id :| id in elements;
      var rest := SortedExists(env, calls, elements - {id});
      InsertSorts(env, calls, rest, id);
      InsertKeeps(env, calls, rest, id);
      ids := Insert(env, calls, rest, id);
      SortedIsDistinct(env, calls, ids);
    }
  }

  /** Under a total order of identifiers there is one such list, and it is the one listed. */
  lemma ListingIsTheSorting(env: Env, net: Net, ids: seq<string>)
    requires TotalOrder(env.before)
    ensures Listed(env, net, ListOpenCalls(env, net))
    ensures Listed(env, net, ids) <==> ids == ListOpenCalls(env, net)
  {
    hide TotalOrder, Sorted, Enumerates;
    var some := SortedExists(env, net.calls, OpenIds(net));
    assert Listed(env, net, some);
    if Listed(env, net, ids) {
      SameElements(ids, ListOpenCalls(env, net), OpenIds(net));
      SortedIsUnique(env, net.calls, ids, ListOpenCalls(env, net));
    }
  }

  lemma SameElements(a: seq<string>, b: seq<string>, elements: set<string>)
    requires Enumerates(a, elements) && Enumerates(b, elements)
    ensures forall id :: id in a <==> id in b
  {
  }

  /** Calls announced earlier come first, calls announced at one time by identifier, and every open call is there. */
  lemma ListedByAnnouncement(env: Env, net: Net, i: nat, j: nat, id: string)
    requires TotalOrder(env.before) && i < j < |ListOpenCalls(env, net)|
    ensures var ids := ListOpenCalls(env, net);
            && ids[i] in net.calls && ids[j] in net.calls
            && var a, b := net.calls[ids[i]], net.calls[ids[j]];
            && a.announcedAt <= b.announcedAt && (a.announcedAt == b.announcedAt ==> env.before(ids[i], ids[j]))
            && (id in ids <==> id in net.calls && net.calls[id].status == Open)
  {
    hide ListOpenCalls;
    ListingIsTheSorting(env, net, []);
    var ids := ListOpenCalls(env, net);
    assert Earlier(env, net.calls, ids[i], ids[j]);
  }
}
