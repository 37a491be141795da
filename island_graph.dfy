/** The contact graph that island construction searches, and what a finished search
    promises. Bodies are vertices; a contact is an edge the search follows when it is
    touching in the future tier and neither body is a sensor. Static bodies may be reached
    but are never expanded, so they can belong to several islands. */
module IslandGraph {
  import opened Common
  import opened Contacts
  import Islands

  /** What one island hands to the solver: its bodies and its contacts, in the order added. */
  datatype IslandContents = IslandContents(bodies: seq<BodyId>, contacts: seq<ContactId>)

  /** `b` is a body of the world and is not static. */
  predicate Movable(bodies: seq<Body>, b: BodyId) {
    b < |bodies| && bodies[b].kind != Static
  }

  /** The search follows contact `c`: it is live, touching in the future tier, and joins two
      bodies of the world neither of which is a sensor. */
  ghost predicate Joinable(bodies: seq<Body>, contacts: map<ContactId, Contact>, c: ContactId) {
    && c in contacts
    && contacts[c].bodyA < |bodies| && contacts[c].bodyB < |bodies|
    && contacts[c].futureTouching
    && !bodies[contacts[c].bodyA].sensor && !bodies[contacts[c].bodyB].sensor
  }

  /** `b` is joined, by one of the contacts `cs`, to a non-static body of `earlier`. */
  ghost predicate ReachedFrom(bodies: seq<Body>, contacts: map<ContactId, Contact>,
                              cs: seq<ContactId>, earlier: seq<BodyId>, b: BodyId) {
    exists c, x :: c in cs && x in earlier && Movable(bodies, x) && c in contacts && Joins(contacts[c], x, b)
  }

  /** Every body of the island after its seed is joined, by one of the island's own
      contacts, to a non-static body added before it: the island is connected through its
      non-static bodies. */
  ghost predicate Connected(bodies: seq<Body>, contacts: map<ContactId, Contact>, island: IslandContents) {
    forall i :: 0 < i < |island.bodies| ==>
      ReachedFrom(bodies, contacts, island.contacts, island.bodies[..i], island.bodies[i])
  }

  /** One island as a search produces it: seeded by a non-static body, no body or contact
      twice, every contact joinable, with both bodies in the island and at least one of
      them non-static, and every body reached from the seed. */
  ghost predicate WellFormedIsland(bodies: seq<Body>, contacts: map<ContactId, Contact>, island: IslandContents) {
    && |island.bodies| > 0 && Movable(bodies, island.bodies[0])
    && Distinct(island.bodies) && Distinct(island.contacts)
    && (forall b :: b in island.bodies ==> b < |bodies|)
    && (forall c :: c in island.contacts ==>
          && Joinable(bodies, contacts, c)
          && contacts[c].bodyA in island.bodies && contacts[c].bodyB in island.bodies
          && (Movable(bodies, contacts[c].bodyA) || Movable(bodies, contacts[c].bodyB)))
    && Connected(bodies, contacts, island)
  }

  /** An island without contacts is its seed alone: bodies that no touching contact joins
      never share an island. */
  lemma IslandWithoutContactsIsSeed(bodies: seq<Body>, contacts: map<ContactId, Contact>, island: IslandContents)
    requires WellFormedIsland(bodies, contacts, island)
    requires island.contacts == []
    ensures island.bodies == [island.bodies[0]]
  {
    assert |island.bodies| > 1 ==>
             ReachedFrom(bodies, contacts, island.contacts, island.bodies[..1], island.bodies[1]);
  }

  /** A non-static body lies in at most one of the islands. */
  ghost predicate MovableBodiesApart(bodies: seq<Body>, islands: seq<IslandContents>) {
    forall j1, j2, b ::
      (0 <= j1 < |islands| && 0 <= j2 < |islands| &&
       b in islands[j1].bodies && b in islands[j2].bodies && Movable(bodies, b)) ==> j1 == j2
  }

  /** A contact lies in at most one of the islands. */
  ghost predicate ContactsApart(islands: seq<IslandContents>) {
    forall j1, j2, c ::
      (0 <= j1 < |islands| && 0 <= j2 < |islands| &&
       c in islands[j1].contacts && c in islands[j2].contacts) ==> j1 == j2
  }

  /** Body `b` lies in one of the islands. */
  ghost predicate BodyPlaced(islands: seq<IslandContents>, b: BodyId) {
    exists j :: 0 <= j < |islands| && b in islands[j].bodies
  }

  /** Contact `c` lies in one of the islands. */
  ghost predicate ContactPlaced(islands: seq<IslandContents>, c: ContactId) {
    exists j :: 0 <= j < |islands| && c in islands[j].contacts
  }

  /** The islands a finished search produces: well formed (so each is connected from its
      seed), every non-static body in exactly one of them, every contact in at most one,
      and every joinable contact with a non-static body placed. */
  ghost predicate IslandPartition(bodies: seq<Body>, contacts: map<ContactId, Contact>, islands: seq<IslandContents>) {
    && (forall j :: 0 <= j < |islands| ==> WellFormedIsland(bodies, contacts, islands[j]))
    && MovableBodiesApart(bodies, islands)
    && ContactsApart(islands)
    && (forall b :: Movable(bodies, b) ==> BodyPlaced(islands, b))
    && (forall c ::
          (Joinable(bodies, contacts, c) &&
           (Movable(bodies, contacts[c].bodyA) || Movable(bodies, contacts[c].bodyB))) ==> ContactPlaced(islands, c))
  }

  /** Every non-static body lies in exactly one island. */
  lemma MovableInExactlyOneIsland(bodies: seq<Body>, contacts: map<ContactId, Contact>,
                                  islands: seq<IslandContents>, b: BodyId)
    requires IslandPartition(bodies, contacts, islands)
    requires Movable(bodies, b)
    ensures exists j :: 0 <= j < |islands| && b in islands[j].bodies
    ensures forall j1, j2 ::
              (0 <= j1 < |islands| && 0 <= j2 < |islands| &&
               b in islands[j1].bodies && b in islands[j2].bodies) ==> j1 == j2
  {
    assert BodyPlaced(islands, b);
    assert MovableBodiesApart(bodies, islands);
  }

  /** Two non-static bodies joined by a joinable contact share their island, and the contact
      is in that island too. */
  lemma JoinedBodiesShareIsland(bodies: seq<Body>, contacts: map<ContactId, Contact>,
                                islands: seq<IslandContents>, c: ContactId, j: nat)
    requires IslandPartition(bodies, contacts, islands)
    requires Joinable(bodies, contacts, c)
    requires Movable(bodies, contacts[c].bodyA) && Movable(bodies, contacts[c].bodyB)
    requires j < |islands| && contacts[c].bodyA in islands[j].bodies
    ensures contacts[c].bodyB in islands[j].bodies && c in islands[j].contacts
  {
    var a := contacts[c].bodyA;
    assert ContactPlaced(islands, c);
    var j' :| 0 <= j' < |islands| && c in islands[j'].contacts;
    assert a in islands[j'].bodies && contacts[c].bodyB in islands[j'].bodies by {
      assert WellFormedIsland(bodies, contacts, islands[j']);
    }
    assert MovableBodiesApart(bodies, islands);
    assert j == j';
  }

  /** A distinct sequence has as many elements as the set of its elements. */
  lemma {:induction false} DistinctCardinality<T>(s: seq<T>)
    requires Distinct(s)
    ensures |set x | x in s| == |s|
  {
    if s != [] {
      var t := s[..|s| - 1];
      var last := s[|s| - 1];
      assert Distinct(t);
      DistinctCardinality(t);
      assert (set x | x in s) == (set x | x in t) + {last} by {
        assert s == t + [last];
      }
      assert last !in (set x | x in t);
    }
  }

  /** The ids below `n`, as many as `n`. */
  ghost function Below(n: nat): (r: set<nat>)
    ensures forall x: int :: x in r <==> 0 <= x < n
    ensures |r| == n
  {
    if n == 0 then {} else Below(n - 1) + {n - 1}
  }

  /** A subset is no larger than its superset. */
  lemma {:induction false} SubsetCardinality<T>(small: set<T>, big: set<T>)
    requires small <= big
    ensures |small| <= |big|
  {
    if small != {} {
      var x :| x in small;
      SubsetCardinality(small - {x}, big - {x});
    }
  }

  /** A distinct sequence drawn from a finite set that misses some member of it is shorter
      than the set: there is room for one more. */
  lemma RoomForOneMore<T>(s: seq<T>, all: set<T>, x: T)
    requires Distinct(s)
    requires forall y :: y in s ==> y in all
    requires x in all && x !in s
    ensures |s| < |all|
  {
    DistinctCardinality(s);
    var elems := set y | y in s;
    assert x !in elems;
    assert |elems + {x}| == |s| + 1;
    assert elems + {x} <= all;
    SubsetCardinality(elems + {x}, all);
  }

  /** A distinct sequence of ids below `n` that misses id `x < n` is shorter than `n`. */
  lemma RoomForOneMoreBelow(s: seq<nat>, n: nat, x: nat)
    requires Distinct(s)
    requires forall y :: y in s ==> y < n
    requires x < n && x !in s
    ensures |s| < n
  {
    RoomForOneMore(s, Below(n), x);
  }

  /** A distinct sequence of ids below `n` has at most `n` elements. */
  lemma DistinctBelowFits(s: seq<nat>, n: nat)
    requires Distinct(s)
    requires forall y :: y in s ==> y < n
    ensures |s| <= n
  {
    DistinctCardinality(s);
    var elems := set y | y in s;
    assert elems <= Below(n);
    SubsetCardinality(elems, Below(n));
  }

  /** The integration pass with its velocity array sized as evidently intended, one slot per
      body like the position array: under the capacities `Solve` allocates, it fits every
      island a search produces. */
  lemma IntendedVelocitiesFit(bodies: seq<Body>, contacts: map<ContactId, Contact>,
                              islands: seq<IslandContents>, j: nat)
    requires IslandPartition(bodies, contacts, islands) && j < |islands|
    ensures Islands.SolveIndexing(|islands[j].bodies|, Max(|bodies|, 1), Max(|bodies|, 1)).Pass?
  {
    assert WellFormedIsland(bodies, contacts, islands[j]);
    DistinctBelowFits(islands[j].bodies, |bodies|);
  }

  /** A dynamic body resting on a static one. */
  function RestingBodies(): seq<Body> {
    [Body(0, Dynamic, false), Body(1, Static, false)]
  }

  /** The one contact between them, touching in both tiers. */
  function RestingContacts(): map<ContactId, Contact> {
    map[0 := Contact(0, 1, true, true)]
  }

  /** As written, `Solve` gives that world an island whose velocity array has
      `max(1, 1) == 1` slot, yet every partition of it holds the dynamic body's island with
      both bodies, so the integration pass indexes past the array. */
  lemma RestingBodyOverrunsVelocities(islands: seq<IslandContents>)
    requires IslandPartition(RestingBodies(), RestingContacts(), islands)
    ensures exists j :: 0 <= j < |islands| && islands[j].bodies[0] == 0 && |islands[j].bodies| == 2 &&
              Islands.SolveIndexing(|islands[j].bodies|, Max(|RestingBodies()|, 1), Max(|RestingContacts()|, 1))
                == Fail(Islands.IndexOutOfRange)
  {
    var j := IslandOfContact(RestingBodies(), RestingContacts(), islands, 0);
    var s := islands[j].bodies;
    TwoApart(s, 0, 1);
    DistinctBelowFits(s, 2);
  }

  /** The island a joinable contact with a non-static body lies in: it holds both of the
      contact's bodies and is seeded by a non-static one. */
  lemma IslandOfContact(bodies: seq<Body>, contacts: map<ContactId, Contact>, islands: seq<IslandContents>,
                        c: ContactId) returns (j: nat)
    requires IslandPartition(bodies, contacts, islands)
    requires Joinable(bodies, contacts, c)
    requires Movable(bodies, contacts[c].bodyA) || Movable(bodies, contacts[c].bodyB)
    ensures j < |islands| && contacts[c].bodyA in islands[j].bodies && contacts[c].bodyB in islands[j].bodies
    ensures Distinct(islands[j].bodies) && forall b :: b in islands[j].bodies ==> b < |bodies|
    ensures Movable(bodies, islands[j].bodies[0])
  {
    assert ContactPlaced(islands, c);
    j :| 0 <= j < |islands| && c in islands[j].contacts;
    assert WellFormedIsland(bodies, contacts, islands[j]);
  }

  /** A sequence holding two different values has at least two elements. */
  lemma TwoApart<T>(s: seq<T>, x: T, y: T)
    requires x in s && y in s && x != y
    ensures |s| >= 2
  {
  }

  /** Appending an element not yet present keeps a sequence distinct. */
  lemma DistinctAppend<T>(s: seq<T>, x: T)
    requires Distinct(s) && x !in s
    ensures Distinct(s + [x])
  {
    var t := s + [x];
    forall i, j | 0 <= i < j < |t| ensures t[i] != t[j] {
      if j == |s| {
        assert t[i] == s[i];
      } else {
        assert t[i] == s[i] && t[j] == s[j];
      }
    }
  }

  /* The state of the depth-first search between two steps. `done` holds the finished
     islands; the island being grown, number `k == |done|`, holds `cur` and `curC`; `stack`
     holds the bodies waiting to be expanded; `marked` and `cmarked` are the bodies' and
     contacts' `islandBound` markers. The ghost maps `home` and `chome` give the island each
     marked non-static body and each marked contact belongs to. */

  /** The finished islands are well formed and `home` and `chome` place their non-static
      bodies and their contacts exactly. */
  ghost predicate DoneInv(bodies: seq<Body>, contacts: map<ContactId, Contact>, done: seq<IslandContents>,
                          home: map<BodyId, nat>, chome: map<ContactId, nat>) {
    && AllWellFormed(bodies, contacts, done)
    && DonePlaced(bodies, done, home, chome)
  }

  /** Every finished island is well formed. */
  ghost predicate AllWellFormed(bodies: seq<Body>, contacts: map<ContactId, Contact>, done: seq<IslandContents>) {
    forall j :: 0 <= j < |done| ==> WellFormedIsland(bodies, contacts, done[j])
  }

  /** `home` and `chome` place the finished islands' non-static bodies and contacts exactly. */
  ghost predicate DonePlaced(bodies: seq<Body>, done: seq<IslandContents>,
                             home: map<BodyId, nat>, chome: map<ContactId, nat>) {
    && (forall b :: b in home && home[b] < |done| ==> b in done[home[b]].bodies)
    && (forall j, b :: 0 <= j < |done| && b in done[j].bodies && Movable(bodies, b) ==> b in home && home[b] == j)
    && (forall c :: c in chome && chome[c] < |done| ==> c in done[chome[c]].contacts)
    && (forall j, c :: 0 <= j < |done| && c in done[j].contacts ==> c in chome && chome[c] == j)
  }

  /** The island being grown, number `k`: no body or contact twice, markers exactly on the
      placed and pending bodies and on the placed contacts, every contact of the island
      joinable with both bodies in the island or pending, and every joinable contact of an
      earlier island's non-static body placed. */
  ghost predicate GrowInv(bodies: seq<Body>, contacts: map<ContactId, Contact>, index: map<BodyId, set<ContactId>>,
                          k: nat, cur: seq<BodyId>, curC: seq<ContactId>, stack: seq<BodyId>,
                          marked: set<BodyId>, cmarked: set<ContactId>,
                          home: map<BodyId, nat>, chome: map<ContactId, nat>) {
    && (forall b :: b in cur ==> b < |bodies|)
    && (forall b :: b in stack ==> b < |bodies|)
    && Distinct(cur) && Distinct(stack) && (forall b :: b in cur ==> b !in stack)
    && Distinct(curC)
    && (forall b :: b in marked <==> b in home || b in cur || b in stack)
    && (forall c :: c in cmarked <==> c in chome)
    && (forall c :: c in curC ==>
          && Joinable(bodies, contacts, c)
          && (contacts[c].bodyA in cur || contacts[c].bodyA in stack)
          && (contacts[c].bodyB in cur || contacts[c].bodyB in stack)
          && (Movable(bodies, contacts[c].bodyA) || Movable(bodies, contacts[c].bodyB)))
    && (forall b :: b in home ==> Movable(bodies, b) && home[b] <= k)
    && (forall b :: b in home && home[b] == k ==> b in cur || b in stack)
    && (forall b :: (b in cur || b in stack) && Movable(bodies, b) ==> b in home && home[b] == k)
    && (forall c :: c in chome ==> chome[c] <= k)
    && (forall c :: c in chome && chome[c] == k ==> c in curC)
    && (forall c :: c in curC ==> c in chome && chome[c] == k)
    && (forall b, c :: b in home && home[b] < k && c in ContactsOf(index, b) && Joinable(bodies, contacts, c) ==>
          c in chome)
  }

  /** Every joinable contact of every non-static body of `processed` has been placed. */
  ghost predicate ClosedFor(bodies: seq<Body>, contacts: map<ContactId, Contact>, index: map<BodyId, set<ContactId>>,
                            processed: seq<BodyId>, chome: map<ContactId, nat>) {
    forall b, c :: b in processed && Movable(bodies, b) && c in ContactsOf(index, b) && Joinable(bodies, contacts, c) ==>
      c in chome
  }

  /** Closure survives placing more contacts and extends to a body whose joinable contacts
      are all placed. */
  lemma ClosedForExtend(bodies: seq<Body>, contacts: map<ContactId, Contact>, index: map<BodyId, set<ContactId>>,
                        processed: seq<BodyId>, x: BodyId, chome: map<ContactId, nat>, chome': map<ContactId, nat>)
    requires ClosedFor(bodies, contacts, index, processed, chome)
    requires forall c :: c in chome ==> c in chome'
    requires Movable(bodies, x) ==>
               forall c :: c in ContactsOf(index, x) && Joinable(bodies, contacts, c) ==> c in chome'
    ensures ClosedFor(bodies, contacts, index, processed + [x], chome')
  {
    forall b, c | b in processed + [x] && Movable(bodies, b) && c in ContactsOf(index, b) && Joinable(bodies, contacts, c)
      ensures c in chome'
    {
      if b != x {
        assert b in processed;
      }
    }
  }

  /** The connectivity of the search: the island grown so far is connected, every body
      waiting on the stack is joined by one of the island's contacts to one of its
      non-static bodies, and before the first pop the stack holds at most the seed. */
  ghost predicate SearchConnected(bodies: seq<Body>, contacts: map<ContactId, Contact>,
                                  cur: seq<BodyId>, curC: seq<ContactId>, stack: seq<BodyId>) {
    && Connected(bodies, contacts, IslandContents(cur, curC))
    && (cur == [] ==> |stack| <= 1)
    && (cur != [] ==> forall b :: b in stack ==> ReachedFrom(bodies, contacts, curC, cur, b))
  }

  /** Being reached survives more contacts and more earlier bodies. */
  lemma ReachedMore(bodies: seq<Body>, contacts: map<ContactId, Contact>,
                    cs: seq<ContactId>, earlier: seq<BodyId>, cs': seq<ContactId>, earlier': seq<BodyId>, b: BodyId)
    requires ReachedFrom(bodies, contacts, cs, earlier, b)
    requires forall c :: c in cs ==> c in cs'
    requires forall x :: x in earlier ==> x in earlier'
    ensures ReachedFrom(bodies, contacts, cs', earlier', b)
  {
    var c, x :| c in cs && x in earlier && Movable(bodies, x) && c in contacts && Joins(contacts[c], x, b);
    assert c in cs' && x in earlier';
  }

  /** The search for one island starts connected, with the seed alone on the stack. */
  lemma SeedConnected(bodies: seq<Body>, contacts: map<ContactId, Contact>, seed: BodyId)
    ensures SearchConnected(bodies, contacts, [], [], [seed])
  {
  }

  /** Popping the top of the stack into the island keeps the search connected: the popped
      body was reached from a body already in the island. */
  lemma PopConnected(bodies: seq<Body>, contacts: map<ContactId, Contact>,
                     cur: seq<BodyId>, curC: seq<ContactId>, stack: seq<BodyId>)
    requires SearchConnected(bodies, contacts, cur, curC, stack) && stack != []
    ensures SearchConnected(bodies, contacts, cur + [stack[|stack| - 1]], curC, stack[..|stack| - 1])
  {
    var x := stack[|stack| - 1];
    assert x in stack;
    AppendConnected(bodies, contacts, cur, curC, x);
    var rest := stack[..|stack| - 1];
    if cur != [] {
      assert forall b :: b in rest ==> b in stack;
      forall b | b in rest ensures ReachedFrom(bodies, contacts, curC, cur + [x], b) {
        ReachedMore(bodies, contacts, curC, cur, curC, cur + [x], b);
      }
    }
  }

  /** Appending a body reached from the island (or the seed, to an empty island) keeps the
      island connected. */
  lemma AppendConnected(bodies: seq<Body>, contacts: map<ContactId, Contact>,
                        cur: seq<BodyId>, curC: seq<ContactId>, x: BodyId)
    requires Connected(bodies, contacts, IslandContents(cur, curC))
    requires cur != [] ==> ReachedFrom(bodies, contacts, curC, cur, x)
    ensures Connected(bodies, contacts, IslandContents(cur + [x], curC))
  {
    var cur' := cur + [x];
    forall i | 0 < i < |cur'| ensures ReachedFrom(bodies, contacts, curC, cur'[..i], cur'[i]) {
      if i < |cur| {
        assert cur'[..i] == cur[..i] && cur'[i] == cur[i];
      } else {
        assert cur'[..i] == cur && cur'[i] == x;
      }
    }
  }

  /** Adding contact `c` of the non-static island body `x` (already marked) and pushing
      each unmarked body of `c` keeps the search connected: a pushed body is reached
      through `c`. */
  lemma {:induction false} JoinConnected(bodies: seq<Body>, contacts: map<ContactId, Contact>,
                                         cur: seq<BodyId>, curC: seq<ContactId>, stack0: seq<BodyId>,
                                         marked: set<BodyId>, x: BodyId, c: ContactId)
    requires SearchConnected(bodies, contacts, cur, curC, stack0)
    requires x in cur && x in marked && Movable(bodies, x) && c in contacts && Involves(contacts[c], x)
    ensures var a := contacts[c].bodyA;
            SearchConnected(bodies, contacts, cur, curC + [c],
                            PushUnmarked(PushUnmarked(stack0, marked, a), marked + {a}, contacts[c].bodyB))
  {
    var a := contacts[c].bodyA;
    var stack := PushUnmarked(PushUnmarked(stack0, marked, a), marked + {a}, contacts[c].bodyB);
    assert forall b :: b in stack ==> b in stack0 || (Involves(contacts[c], b) && b != x);
    var curC' := curC + [c];
    forall i | 0 < i < |cur| ensures ReachedFrom(bodies, contacts, curC', cur[..i], cur[i]) {
      ReachedMore(bodies, contacts, curC, cur[..i], curC', cur[..i], cur[i]);
    }
    forall b | b in stack ensures ReachedFrom(bodies, contacts, curC', cur, b) {
      if b in stack0 {
        ReachedMore(bodies, contacts, curC, cur, curC', cur, b);
      } else {
        assert c in curC' && Joins(contacts[c], x, b);
      }
    }
  }

  /** `wider` keeps every entry of `narrow` and adds only entries with value `k`. */
  ghost predicate ExtendsWith<K>(narrow: map<K, nat>, wider: map<K, nat>, k: nat) {
    && (forall x :: x in narrow ==> x in wider && wider[x] == narrow[x])
    && (forall x :: x in wider && x !in narrow ==> wider[x] == k)
  }

  /** Extending a map twice with the same value extends it once. */
  lemma ExtendsWithTrans<K>(m0: map<K, nat>, m1: map<K, nat>, m2: map<K, nat>, k: nat)
    requires ExtendsWith(m0, m1, k) && ExtendsWith(m1, m2, k)
    ensures ExtendsWith(m0, m2, k)
  {
  }

  /** Growing the island `|done|` leaves the finished islands' invariant intact. */
  lemma DoneInvStable(bodies: seq<Body>, contacts: map<ContactId, Contact>, done: seq<IslandContents>,
                      home: map<BodyId, nat>, chome: map<ContactId, nat>,
                      home': map<BodyId, nat>, chome': map<ContactId, nat>)
    requires DoneInv(bodies, contacts, done, home, chome)
    requires ExtendsWith(home, home', |done|) && ExtendsWith(chome, chome', |done|)
    ensures DoneInv(bodies, contacts, done, home', chome')
  {
    DonePlacedStable(bodies, done, home, chome, home', chome');
  }

  /** The placement half of `DoneInvStable`. */
  lemma DonePlacedStable(bodies: seq<Body>, done: seq<IslandContents>,
                         home: map<BodyId, nat>, chome: map<ContactId, nat>,
                         home': map<BodyId, nat>, chome': map<ContactId, nat>)
    requires DonePlaced(bodies, done, home, chome)
    requires ExtendsWith(home, home', |done|) && ExtendsWith(chome, chome', |done|)
    ensures DonePlaced(bodies, done, home', chome')
  {
  }

  /** Popping the top of the stack into the island keeps the invariant, and the island still
      has room for it. */
  lemma PopStep(bodies: seq<Body>, contacts: map<ContactId, Contact>, index: map<BodyId, set<ContactId>>,
                k: nat, cur: seq<BodyId>, curC: seq<ContactId>, stack: seq<BodyId>,
                marked: set<BodyId>, cmarked: set<ContactId>, home: map<BodyId, nat>, chome: map<ContactId, nat>)
    requires GrowInv(bodies, contacts, index, k, cur, curC, stack, marked, cmarked, home, chome)
    requires stack != []
    ensures var x := stack[|stack| - 1];
            && |cur| < |bodies|
            && GrowInv(bodies, contacts, index, k, cur + [x], curC, stack[..|stack| - 1], marked, cmarked, home, chome)
  {
    var x := stack[|stack| - 1];
    var rest := stack[..|stack| - 1];
    assert stack == rest + [x];
    assert x !in cur;
    RoomForOneMoreBelow(cur, |bodies|, x);
    DistinctAppend(cur, x);
    assert forall b :: b in cur + [x] || b in rest <==> b in cur || b in stack;
    assert x !in rest;
  }

  /** The stack after pushing `b` when it is not marked yet. */
  function PushUnmarked(stack: seq<BodyId>, marked: set<BodyId>, b: BodyId): seq<BodyId> {
    if b in marked then stack else stack + [b]
  }

  /** The home map after marking `b`, placing it in island `k` when it is new and non-static. */
  ghost function HomeUnmarked(bodies: seq<Body>, home: map<BodyId, nat>, marked: set<BodyId>, b: BodyId, k: nat)
    : map<BodyId, nat>
  {
    if b in marked || !Movable(bodies, b) then home else home[b := k]
  }

  /** Marking (and pushing, when new) a body already marked only by the island being grown,
      or not marked at all, keeps the invariant. */
  lemma MarkStep(bodies: seq<Body>, contacts: map<ContactId, Contact>, index: map<BodyId, set<ContactId>>,
                 k: nat, cur: seq<BodyId>, curC: seq<ContactId>, stack: seq<BodyId>,
                 marked: set<BodyId>, cmarked: set<ContactId>, home: map<BodyId, nat>, chome: map<ContactId, nat>,
                 b: BodyId)
    requires GrowInv(bodies, contacts, index, k, cur, curC, stack, marked, cmarked, home, chome)
    requires b < |bodies|
    requires b in marked ==> b in cur || b in stack
    ensures GrowInv(bodies, contacts, index, k, cur, curC, PushUnmarked(stack, marked, b), marked + {b},
                    cmarked, HomeUnmarked(bodies, home, marked, b, k), chome)
    ensures b in cur || b in PushUnmarked(stack, marked, b)
    ensures forall e :: e in stack ==> e in PushUnmarked(stack, marked, b)
    ensures ExtendsWith(home, HomeUnmarked(bodies, home, marked, b, k), k)
  {
    if b !in marked {
      DistinctAppend(stack, b);
      assert forall x :: x in stack + [b] <==> x in stack || x == b;
    }
  }

  /** Marking and pushing the seed of a new island starts its search in the invariant. */
  lemma SeedStep(bodies: seq<Body>, contacts: map<ContactId, Contact>, index: map<BodyId, set<ContactId>>,
                 k: nat, marked: set<BodyId>, cmarked: set<ContactId>, home: map<BodyId, nat>, chome: map<ContactId, nat>,
                 seed: BodyId)
    requires GrowInv(bodies, contacts, index, k, [], [], [], marked, cmarked, home, chome)
    requires Movable(bodies, seed) && seed !in marked
    ensures GrowInv(bodies, contacts, index, k, [], [], [seed], marked + {seed}, cmarked, home[seed := k], chome)
    ensures ExtendsWith(home, home[seed := k], k)
  {
    MarkStep(bodies, contacts, index, k, [], [], [], marked, cmarked, home, chome, seed);
    assert PushUnmarked([], marked, seed) == [seed];
  }

  /** A contact of the non-static body `x` that is joinable and not marked yet has neither body
      in an earlier island, and the island has room for it. */
  lemma NewContactFits(bodies: seq<Body>, contacts: map<ContactId, Contact>, index: map<BodyId, set<ContactId>>,
                       k: nat, cur: seq<BodyId>, curC: seq<ContactId>, stack: seq<BodyId>,
                       marked: set<BodyId>, cmarked: set<ContactId>, home: map<BodyId, nat>, chome: map<ContactId, nat>,
                       x: BodyId, c: ContactId)
    requires GrowInv(bodies, contacts, index, k, cur, curC, stack, marked, cmarked, home, chome)
    requires Consistent(contacts, index)
    requires x in cur && Movable(bodies, x) && c in ContactsOf(index, x)
    requires Joinable(bodies, contacts, c) && c !in cmarked
    ensures |curC| < |contacts.Keys|
    ensures contacts[c].bodyA != contacts[c].bodyB
    ensures contacts[c].bodyA in marked ==> contacts[c].bodyA in cur || contacts[c].bodyA in stack
    ensures contacts[c].bodyB in marked ==> contacts[c].bodyB in cur || contacts[c].bodyB in stack
  {
    assert c !in chome;
    forall e | e == contacts[c].bodyA || e == contacts[c].bodyB
      ensures e in marked ==> e in cur || e in stack
    {
      assert c in ContactsOf(index, e);
    }
    RoomForOneMore(curC, contacts.Keys, c);
  }

  /** Adding a joinable contact of the non-static body `x` that is not marked yet keeps the
      invariant once both its bodies are marked. */
  lemma AddContactStep(bodies: seq<Body>, contacts: map<ContactId, Contact>, index: map<BodyId, set<ContactId>>,
                       k: nat, cur: seq<BodyId>, curC: seq<ContactId>, stack: seq<BodyId>,
                       marked: set<BodyId>, cmarked: set<ContactId>, home: map<BodyId, nat>, chome: map<ContactId, nat>,
                       x: BodyId, c: ContactId)
    requires GrowInv(bodies, contacts, index, k, cur, curC, stack, marked, cmarked, home, chome)
    requires Joinable(bodies, contacts, c) && c !in cmarked
    requires x in cur && Movable(bodies, x) && Involves(contacts[c], x)
    requires contacts[c].bodyA in cur || contacts[c].bodyA in stack
    requires contacts[c].bodyB in cur || contacts[c].bodyB in stack
    ensures GrowInv(bodies, contacts, index, k, cur, curC + [c], stack, marked, cmarked + {c}, home, chome[c := k])
    ensures ExtendsWith(chome, chome[c := k], k)
  {
    DistinctAppend(curC, c);
  }

  /** Appending a well-formed island keeps every finished island well formed. */
  lemma AllWellFormedAppend(bodies: seq<Body>, contacts: map<ContactId, Contact>, done: seq<IslandContents>,
                            island: IslandContents)
    requires AllWellFormed(bodies, contacts, done)
    requires WellFormedIsland(bodies, contacts, island)
    ensures AllWellFormed(bodies, contacts, done + [island])
  {
    var done' := done + [island];
    forall j | 0 <= j < |done'| ensures WellFormedIsland(bodies, contacts, done'[j]) {
      if j < |done| {
        assert done'[j] == done[j];
      }
    }
  }

  /** Appending an island whose non-static bodies and contacts are exactly those `home` and
      `chome` place at its index extends the placement of the finished islands. */
  lemma DonePlacedAppend(bodies: seq<Body>, done: seq<IslandContents>,
                         island: IslandContents, home: map<BodyId, nat>, chome: map<ContactId, nat>)
    requires DonePlaced(bodies, done, home, chome)
    requires forall b :: b in home ==> home[b] <= |done|
    requires forall b :: b in home && home[b] == |done| ==> b in island.bodies
    requires forall b :: b in island.bodies && Movable(bodies, b) ==> b in home && home[b] == |done|
    requires forall c :: c in chome ==> chome[c] <= |done|
    requires forall c :: c in chome && chome[c] == |done| ==> c in island.contacts
    requires forall c :: c in island.contacts ==> c in chome && chome[c] == |done|
    ensures DonePlaced(bodies, done + [island], home, chome)
  {
    BodiesPlacedAppend(bodies, done, island, home);
    ContactsPlacedAppend(done, island, chome);
  }

  /** The body half of `DonePlacedAppend`. */
  lemma BodiesPlacedAppend(bodies: seq<Body>, done: seq<IslandContents>, island: IslandContents, home: map<BodyId, nat>)
    requires forall b :: b in home && home[b] < |done| ==> b in done[home[b]].bodies
    requires forall j, b :: 0 <= j < |done| && b in done[j].bodies && Movable(bodies, b) ==> b in home && home[b] == j
    requires forall b :: b in home ==> home[b] <= |done|
    requires forall b :: b in home && home[b] == |done| ==> b in island.bodies
    requires forall b :: b in island.bodies && Movable(bodies, b) ==> b in home && home[b] == |done|
    ensures forall b :: b in home && home[b] < |done + [island]| ==> b in (done + [island])[home[b]].bodies
    ensures forall j, b :: 0 <= j < |done + [island]| && b in (done + [island])[j].bodies && Movable(bodies, b) ==>
              b in home && home[b] == j
  {
    var done' := done + [island];
    assert forall j :: 0 <= j < |done| ==> done'[j] == done[j];
    assert done'[|done|] == island;
  }

  /** The contact half of `DonePlacedAppend`. */
  lemma ContactsPlacedAppend(done: seq<IslandContents>, island: IslandContents, chome: map<ContactId, nat>)
    requires forall c :: c in chome && chome[c] < |done| ==> c in done[chome[c]].contacts
    requires forall j, c :: 0 <= j < |done| && c in done[j].contacts ==> c in chome && chome[c] == j
    requires forall c :: c in chome ==> chome[c] <= |done|
    requires forall c :: c in chome && chome[c] == |done| ==> c in island.contacts
    requires forall c :: c in island.contacts ==> c in chome && chome[c] == |done|
    ensures forall c :: c in chome && chome[c] < |done + [island]| ==> c in (done + [island])[chome[c]].contacts
    ensures forall j, c :: 0 <= j < |done + [island]| && c in (done + [island])[j].contacts ==> c in chome && chome[c] == j
  {
    var done' := done + [island];
    assert forall j :: 0 <= j < |done| ==> done'[j] == done[j];
    assert done'[|done|] == island;
  }

  /** Closing an island once its stack is empty: the island joins the finished ones, and
      unmarking its static bodies restores the invariant between two seeds. */
  lemma CloseStep(bodies: seq<Body>, contacts: map<ContactId, Contact>, index: map<BodyId, set<ContactId>>,
                  done: seq<IslandContents>, cur: seq<BodyId>, curC: seq<ContactId>,
                  marked: set<BodyId>, marked': set<BodyId>, cmarked: set<ContactId>,
                  home: map<BodyId, nat>, chome: map<ContactId, nat>)
    requires DoneInv(bodies, contacts, done, home, chome)
    requires GrowInv(bodies, contacts, index, |done|, cur, curC, [], marked, cmarked, home, chome)
    requires ClosedFor(bodies, contacts, index, cur, chome)
    requires cur != [] && Movable(bodies, cur[0])
    requires Connected(bodies, contacts, IslandContents(cur, curC))
    requires forall b :: b in marked' <==> b in marked && !(b in cur && !Movable(bodies, b))
    ensures DoneInv(bodies, contacts, done + [IslandContents(cur, curC)], home, chome)
    ensures GrowInv(bodies, contacts, index, |done| + 1, [], [], [], marked', cmarked, home, chome)
  {
    var island := IslandContents(cur, curC);
    assert WellFormedIsland(bodies, contacts, island);
    AllWellFormedAppend(bodies, contacts, done, island);
    DonePlacedAppend(bodies, done, island, home, chome);
    CloseGrow(bodies, contacts, index, |done|, cur, curC, marked, marked', cmarked, home, chome);
  }

  /** The current-island half of `CloseStep`. */
  lemma CloseGrow(bodies: seq<Body>, contacts: map<ContactId, Contact>, index: map<BodyId, set<ContactId>>,
                  k: nat, cur: seq<BodyId>, curC: seq<ContactId>,
                  marked: set<BodyId>, marked': set<BodyId>, cmarked: set<ContactId>,
                  home: map<BodyId, nat>, chome: map<ContactId, nat>)
    requires GrowInv(bodies, contacts, index, k, cur, curC, [], marked, cmarked, home, chome)
    requires ClosedFor(bodies, contacts, index, cur, chome)
    requires forall b :: b in marked' <==> b in marked && !(b in cur && !Movable(bodies, b))
    ensures GrowInv(bodies, contacts, index, k + 1, [], [], [], marked', cmarked, home, chome)
  {
    forall b, c | b in home && home[b] < k + 1 && c in ContactsOf(index, b) && Joinable(bodies, contacts, c)
      ensures c in chome
    {
      if home[b] == k {
        assert b in cur;
      }
    }
  }

  /** Closing island number `|done|`, grown from `seed` into `cur` and `curC`, appends it
      to the finished islands and leaves the search ready for the next seed. */
  lemma FinishIsland(bodies: seq<Body>, contacts: map<ContactId, Contact>, index: map<BodyId, set<ContactId>>,
                     done: seq<IslandContents>, cur: seq<BodyId>, curC: seq<ContactId>, seed: BodyId,
                     marked: set<BodyId>, marked': set<BodyId>, cmarked: set<ContactId>,
                     home0: map<BodyId, nat>, chome0: map<ContactId, nat>,
                     home: map<BodyId, nat>, chome: map<ContactId, nat>)
    requires DoneInv(bodies, contacts, done, home0, chome0)
    requires ExtendsWith(home0, home, |done|) && ExtendsWith(chome0, chome, |done|)
    requires GrowInv(bodies, contacts, index, |done|, cur, curC, [], marked, cmarked, home, chome)
    requires ClosedFor(bodies, contacts, index, cur, chome)
    requires cur != [] && cur[0] == seed && Movable(bodies, seed)
    requires Connected(bodies, contacts, IslandContents(cur, curC))
    requires forall b :: b in marked' <==> b in marked && !(b in cur && !Movable(bodies, b))
    ensures DoneInv(bodies, contacts, done + [IslandContents(cur, curC)], home, chome)
    ensures GrowInv(bodies, contacts, index, |done| + 1, [], [], [], marked', cmarked, home, chome)
    ensures seed in home && forall b :: b in home0 ==> b in home
  {
    assert seed in cur;
    DoneInvStable(bodies, contacts, done, home0, chome0, home, chome);
    CloseStep(bodies, contacts, index, done, cur, curC, marked, marked', cmarked, home, chome);
  }

  /** A search that has met every non-static body has built a partition of them, marked
      exactly the non-static bodies and exactly the placed contacts. */
  lemma SearchComplete(bodies: seq<Body>, contacts: map<ContactId, Contact>, index: map<BodyId, set<ContactId>>,
                       done: seq<IslandContents>, marked: set<BodyId>, cmarked: set<ContactId>,
                       home: map<BodyId, nat>, chome: map<ContactId, nat>)
    requires Consistent(contacts, index)
    requires DoneInv(bodies, contacts, done, home, chome)
    requires GrowInv(bodies, contacts, index, |done|, [], [], [], marked, cmarked, home, chome)
    requires forall b :: Movable(bodies, b) ==> b in home
    ensures IslandPartition(bodies, contacts, done)
    ensures forall b :: b in marked <==> Movable(bodies, b)
    ensures forall c :: c in cmarked <==> ContactPlaced(done, c)
  {
    PlacedApart(bodies, done, home, chome);
    PlacedReachesAll(bodies, contacts, index, done, home, chome);
    forall c | c in cmarked ensures ContactPlaced(done, c) {
      assert c in done[chome[c]].contacts;
    }
  }

  /** Placement by `home` and `chome` puts a non-static body or a contact in one island only. */
  lemma PlacedApart(bodies: seq<Body>, done: seq<IslandContents>, home: map<BodyId, nat>, chome: map<ContactId, nat>)
    requires DonePlaced(bodies, done, home, chome)
    ensures MovableBodiesApart(bodies, done) && ContactsApart(done)
  {
    forall j1, j2, c | 0 <= j1 < |done| && 0 <= j2 < |done| && c in done[j1].contacts && c in done[j2].contacts
      ensures j1 == j2
    {
      assert chome[c] == j1 && chome[c] == j2;
    }
  }

  /** With every non-static body placed and the search closed under joinable contacts, every
      non-static body and every joinable contact with a non-static body is in some island. */
  lemma PlacedReachesAll(bodies: seq<Body>, contacts: map<ContactId, Contact>, index: map<BodyId, set<ContactId>>,
                         done: seq<IslandContents>, home: map<BodyId, nat>, chome: map<ContactId, nat>)
    requires Consistent(contacts, index)
    requires DonePlaced(bodies, done, home, chome)
    requires forall b :: b in home ==> home[b] < |done|
    requires forall c :: c in chome ==> chome[c] < |done|
    requires forall b :: Movable(bodies, b) ==> b in home
    requires forall b, c :: b in home && home[b] < |done| && c in ContactsOf(index, b) && Joinable(bodies, contacts, c) ==>
               c in chome
    ensures forall b :: Movable(bodies, b) ==> BodyPlaced(done, b)
    ensures forall c :: (Joinable(bodies, contacts, c) &&
                         (Movable(bodies, contacts[c].bodyA) || Movable(bodies, contacts[c].bodyB))) ==> ContactPlaced(done, c)
  {
    forall b | Movable(bodies, b) ensures BodyPlaced(done, b) {
      assert b in done[home[b]].bodies;
    }
    forall c | Joinable(bodies, contacts, c) &&
               (Movable(bodies, contacts[c].bodyA) || Movable(bodies, contacts[c].bodyB))
      ensures ContactPlaced(done, c)
    {
      var e := if Movable(bodies, contacts[c].bodyA) then contacts[c].bodyA else contacts[c].bodyB;
      assert c in ContactsOf(index, e);
      assert c in done[chome[c]].contacts;
    }
  }
}
