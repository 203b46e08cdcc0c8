/**
 The circular list of a TX queue's clients and the fill entry that moves round it. Places are
 numbered from the list head, which is place 0 and is stepped over like any other link.
 */
module ClientList {

  /** A place on the circular list: the list head, or a client's link. */
  datatype Entry = Head | Client(id: nat)

  ghost predicate Distinct(clients: seq<nat>) {
    forall a, b :: 0 <= a < b < |clients| ==> clients[a] != clients[b]
  }

  predicate OnList(clients: seq<nat>, e: Entry) {
    e.Client? ==> e.id in clients
  }

  function IndexOf(clients: seq<nat>, id: nat): (k: nat)
    requires id in clients
    ensures k < |clients| && clients[k] == id
  {
    if clients[0] == id then 0 else 1 + IndexOf(clients[1..], id)
  }

  function Flink(clients: seq<nat>, e: Entry): (next: Entry)
    requires OnList(clients, e)
    ensures OnList(clients, next)
  {
    var k := if e.Head? then 0 else IndexOf(clients, e.id) + 1;
    if k < |clients| then Client(clients[k]) else Head
  }

  /** The place of a link: 0 for the head. */
  ghost function Place(clients: seq<nat>, e: Entry): (p: nat)
    requires OnList(clients, e)
    ensures p <= |clients|
  {
    if e.Head? then 0 else IndexOf(clients, e.id) + 1
  }

  ghost function At(clients: seq<nat>, p: nat): (e: Entry)
    requires p <= |clients|
    ensures OnList(clients, e)
  {
    if p == 0 then Head else Client(clients[p - 1])
  }

  /** The place `d` links further round a list of `n` clients. */
  ghost function Round(n: nat, p: nat, d: nat): (q: nat)
    requires p <= n && d <= n + 1
    ensures q <= n
  {
    if p + d <= n then p + d else p + d - (n + 1)
  }

  lemma {:induction false} PlaceAt(clients: seq<nat>, p: nat)
    requires Distinct(clients) && p <= |clients|
    ensures Place(clients, At(clients, p)) == p
  {
    if p > 0 {
      var k := IndexOf(clients, clients[p - 1]);
      assert clients[k] == clients[p - 1];
    }
  }

  lemma {:induction false} AtPlace(clients: seq<nat>, e: Entry)
    requires OnList(clients, e)
    ensures At(clients, Place(clients, e)) == e
  {
  }

  lemma {:induction false} FlinkPlace(clients: seq<nat>, e: Entry)
    requires Distinct(clients) && OnList(clients, e)
    ensures Place(clients, Flink(clients, e)) == Round(|clients|, Place(clients, e), 1)
  {
    var p := Place(clients, e);
    if p < |clients| {
      PlaceAt(clients, p + 1);
    }
  }

  /** Removing a link, with the fill entry first moved off it. */
  function Without(clients: seq<nat>, id: nat): (rest: seq<nat>)
    requires id in clients
    ensures |rest| == |clients| - 1
  {
    var k := IndexOf(clients, id);
    clients[..k] + clients[k + 1..]
  }

  lemma {:induction false} WithoutKeeps(clients: seq<nat>, id: nat)
    requires id in clients && Distinct(clients)
    ensures Distinct(Without(clients, id)) && id !in Without(clients, id)
    ensures forall x :: x in clients && x != id ==> x in Without(clients, id)
    ensures forall x :: x in Without(clients, id) ==> x in clients
  {
    var k := IndexOf(clients, id);
    var rest := Without(clients, id);
    forall x | x in clients && x != id
      ensures x in rest
    {
      var j :| 0 <= j < |clients| && clients[j] == x;
      assert rest[if j < k then j else j - 1] == x;
    }
    assert forall j :: 0 <= j < |rest| ==> rest[j] == clients[if j < k then j else j + 1];
  }

  lemma {:induction false} FlinkLeaves(clients: seq<nat>, id: nat)
    requires id in clients && Distinct(clients)
    ensures Flink(clients, Client(id)) != Client(id)
    ensures OnList(Without(clients, id), Flink(clients, Client(id)))
  {
    WithoutKeeps(clients, id);
  }

  /** The clients on the `m` links from place `p` on. */
  ghost function Passed(clients: seq<nat>, p: nat, m: nat): (ids: seq<nat>)
    requires p <= |clients| && m <= |clients| + 1
    ensures |ids| <= m
    decreases m
  {
    if m == 0 then []
    else
      var e := At(clients, Round(|clients|, p, m - 1));
      Passed(clients, p, m - 1) + if e.Client? then [e.id] else []
  }

  lemma {:induction false} PassedHas(clients: seq<nat>, p: nat, m: nat, d: nat)
    requires p <= |clients| && d < m <= |clients| + 1
    ensures var e := At(clients, Round(|clients|, p, d)); e.Client? ==> e.id in Passed(clients, p, m)
    decreases m
  {
    if d < m - 1 {
      PassedHas(clients, p, m - 1, d);
    }
  }

  lemma {:induction false} PassedFrom(clients: seq<nat>, p: nat, m: nat, x: nat)
    requires p <= |clients| && m <= |clients| + 1 && x in Passed(clients, p, m)
    ensures exists d: nat :: d < m && At(clients, Round(|clients|, p, d)) == Client(x)
    decreases m
  {
    if At(clients, Round(|clients|, p, m - 1)) != Client(x) {
      PassedFrom(clients, p, m - 1, x);
    }
  }

  /** One time round passes no client twice. */
  lemma {:induction false} PassedDistinct(clients: seq<nat>, p: nat, m: nat)
    requires Distinct(clients) && p <= |clients| && m <= |clients| + 1
    ensures Distinct(Passed(clients, p, m))
    decreases m
  {
    if m > 0 {
      PassedDistinct(clients, p, m - 1);
      var q := Round(|clients|, p, m - 1);
      var e := At(clients, q);
      forall d: nat | d < m - 1
        ensures At(clients, Round(|clients|, p, d)) != e
      {
        PlaceAt(clients, q);
        PlaceAt(clients, Round(|clients|, p, d));
      }
      if e.Client? && e.id in Passed(clients, p, m - 1) {
        PassedFrom(clients, p, m - 1, e.id);
        assert false;
      }
    }
  }

  /** `m` links on from `first`, having passed these clients. */
  ghost predicate Walked(clients: seq<nat>, first: Entry, m: nat, current: Entry, visited: seq<nat>) {
    && Distinct(clients) && OnList(clients, first) && OnList(clients, current)
    && m <= |clients| + 1
    && Place(clients, current) == Round(|clients|, Place(clients, first), m)
    && visited == Passed(clients, Place(clients, first), m)
  }

  lemma {:induction false} WalkStart(clients: seq<nat>, first: Entry)
    requires Distinct(clients) && OnList(clients, first)
    ensures Walked(clients, first, 0, first, [])
  {
  }

  /** The circle closes after every link has been passed, and not before. */
  lemma {:induction false} WalkStep(clients: seq<nat>, first: Entry, m: nat, current: Entry, visited: seq<nat>)
    requires Walked(clients, first, m, current, visited) && m <= |clients|
    ensures Walked(clients, first, m + 1, Flink(clients, current),
                   visited + if current.Client? then [current.id] else [])
    ensures Flink(clients, current) == first <==> m == |clients|
  {
    FlinkPlace(clients, current);
    AtPlace(clients, current);
    AtPlace(clients, first);
    AtPlace(clients, Flink(clients, current));
  }

  /** Having passed a client takes a link, and two if the first is the head's. */
  lemma {:induction false} VisitedSome(clients: seq<nat>, first: Entry, m: nat, current: Entry, visited: seq<nat>)
    requires Walked(clients, first, m, current, visited) && visited != []
    ensures m >= 1 && (first.Head? ==> m >= 2)
  {
    assert Passed(clients, Place(clients, first), 0) == [];
  }

  // ---- Every client gets its turn ----

  /** One fill that passes `m` links from place `p`: at least one link, at most the whole circle,
      and never only the head. */
  ghost predicate PassesSome(n: nat, p: nat, m: nat) {
    1 <= m <= n + 1 && (p == 0 ==> m >= 2)
  }

  ghost predicate Passes(n: nat, p: nat, fills: seq<nat>)
    requires p <= n
    decreases |fills|
  {
    fills == [] || (PassesSome(n, p, fills[0]) && Passes(n, Round(n, p, fills[0]), fills[1..]))
  }

  /** Some fill passes place `c`. */
  ghost predicate Reaches(n: nat, p: nat, fills: seq<nat>, c: nat)
    requires p <= n && Passes(n, p, fills)
    decreases |fills|
  {
    && fills != []
    && ((exists d: nat :: d < fills[0] && Round(n, p, d) == c) || Reaches(n, Round(n, p, fills[0]), fills[1..], c))
  }

  /** The clients from place `p` up to and including place `c`, going round. */
  ghost function Ahead(n: nat, p: nat, c: nat): nat
    requires p <= n && 1 <= c <= n
  {
    if p == 0 then c else if p <= c then c - p + 1 else n - p + 1 + c
  }

  lemma {:induction false} ReachesWithin(n: nat, p: nat, fills: seq<nat>, c: nat)
    requires p <= n && 1 <= c <= n && Passes(n, p, fills)
    requires |fills| >= Ahead(n, p, c)
    ensures Reaches(n, p, fills, c)
    decreases |fills|
  {
    var m := fills[0];
    var away := if p <= c then c - p else c + (n + 1) - p;
    assert Round(n, p, away) == c;
    if m <= away {
      ReachesWithin(n, Round(n, p, m), fills[1..], c);
    }
  }

  /** With n clients on the list, any n fills in a row reach every client. */
  lemma {:induction false} EveryClientReached(n: nat, p: nat, fills: seq<nat>, c: nat)
    requires p <= n && 1 <= c <= n && Passes(n, p, fills) && |fills| >= n
    ensures Reaches(n, p, fills, c)
  {
    ReachesWithin(n, p, fills, c);
  }

  /** `visited` has every client that the fills reach. */
  ghost predicate Visits(clients: seq<nat>, p: nat, fills: seq<nat>, visited: seq<nat>)
    requires p <= |clients| && Passes(|clients|, p, fills)
  {
    forall c :: 1 <= c <= |clients| && Reaches(|clients|, p, fills, c) ==> clients[c - 1] in visited
  }

  lemma {:induction false} VisitsAdd(
    clients: seq<nat>, p: nat, q: nat, m: nat, fills: seq<nat>, passed: seq<nat>, visited: seq<nat>)
    requires p <= |clients| && PassesSome(|clients|, p, m) && q == Round(|clients|, p, m)
    requires Passes(|clients|, q, fills) && Visits(clients, q, fills, visited)
    requires passed == Passed(clients, p, m)
    ensures Passes(|clients|, p, [m] + fills) && Visits(clients, p, [m] + fills, passed + visited)
  {
    var n, all := |clients|, [m] + fills;
    assert all[1..] == fills;
    forall c | 1 <= c <= n && Reaches(n, p, all, c)
      ensures clients[c - 1] in passed + visited
    {
      if !Reaches(n, q, fills, c) {
        var d: nat :| d < m && Round(n, p, d) == c;
        PassedHas(clients, p, m, d);
      }
    }
  }

  lemma {:induction false} VisitsAll(clients: seq<nat>, p: nat, fills: seq<nat>, visited: seq<nat>)
    requires p <= |clients| && Passes(|clients|, p, fills) && Visits(clients, p, fills, visited)
    requires |fills| >= |clients|
    ensures forall id :: id in clients ==> id in visited
  {
    forall id | id in clients
      ensures id in visited
    {
      var c :| 0 <= c < |clients| && clients[c] == id;
      EveryClientReached(|clients|, p, fills, c + 1);
      assert clients[(c + 1) - 1] in visited;
    }
  }
}
