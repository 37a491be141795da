/** The world: it owns the bodies and the contact index, moves the three tick cursors,
    forecasts future ticks in groups of touching bodies (islands), and commits each contact's
    touching state to the present while raising the start and end notifications.

    The body and contact tiers (their histories, forecasts and rollbacks) and the contact
    manager's broad and narrow phases are not part of this model; their outcome reaches the
    world through an `Environment` of oracles. */
module Dynamics {
  import opened Common
  import opened Ticks
  import opened Contacts
  import opened Notifications
  import opened IslandGraph
  import opened Islands

  /** The exceptions the world raises. */
  datatype WorldError =
    | BodyLimitReached       // SystemException from CreateBody
    | StepLimitReached       // SystemException from Step
    | BodyIndexOutOfRange    // the body iterator reading outside the body list

  /** What the parts outside this model decide during a `Step`: the pairs the broad phase
      proposes at a horizon tick (`afterIslands` marks the call that follows the island
      pass), the future-tier touching flags the narrow phase computes at a horizon tick,
      the contacts the same collision pass reports through the world's handlers as
      foreseen to start (`Some(true)`) or to stop (`Some(false)`) touching, the current-tier
      flags the contacts hold once stepped to the new tick, and which contacts then report
      themselves droppable. */
  datatype Environment = Environment(
    candidatePairs: (uint32, bool) -> seq<(BodyId, BodyId)>,
    narrowPhase: uint32 -> ContactId -> bool,
    foreseen: uint32 -> ContactId -> Option<bool>,
    committedTouching: ContactId -> bool,
    droppable: ContactId -> bool)

  /** The broad phase only ever proposes bodies the world owns. */
  ghost predicate PairsWithin(env: Environment, count: nat) {
    forall t: uint32, afterIslands: bool, p :: p in env.candidatePairs(t, afterIslands) ==> p.0 < count && p.1 < count
  }

  /** The bodies `BodyIterator(start, end)` yields: an `end` of 0 stands for the body count;
      both bounds pass through the `(int)` cast, and an index outside the body list raises
      an out-of-range error. */
  function BodyRange(bodies: seq<Body>, start: uint32, end: uint32): (r: Result<seq<Body>, WorldError>)
    ensures r.Success? ==> forall b :: b in r.value ==> b in bodies
    ensures r.Success? ==> |r.value| <= |bodies|
  {
    var s := AsInt32(start);
    var e := if end == 0 then AsInt32(Wrap(|bodies|)) else AsInt32(end);
    if e <= s then Success([])
    else if s < 0 || |bodies| < e then Failure(BodyIndexOutOfRange)
    else Success(bodies[s..e])
  }

  /** With its default bounds the body iterator yields every body, in creation order; from a
      start within the list it yields the rest of it. */
  lemma BodyRangeDefaults(bodies: seq<Body>, start: uint32)
    requires |bodies| <= 0x7FFF_FFFF
    ensures BodyRange(bodies, 0, 0) == Success(bodies)
    ensures start <= |bodies| ==> BodyRange(bodies, start, 0) == Success(bodies[start..])
  {
    assert Wrap(|bodies|) == |bodies| && AsInt32(Wrap(|bodies|)) == |bodies|;
    assert bodies[0..|bodies|] == bodies;
    if start <= |bodies| {
      assert AsInt32(start) == start;
      assert bodies[start..|bodies|] == bodies[start..];
      if start == |bodies| {
        assert bodies[start..] == [];
      }
    }
  }

  /** Every contact joins two bodies of the list. */
  ghost predicate Owned(bodies: seq<Body>, contacts: map<ContactId, Contact>) {
    forall c :: c in contacts ==> contacts[c].bodyA < |bodies| && contacts[c].bodyB < |bodies|
  }

  /** `home` holds every non-static body below `n`. */
  ghost predicate CoversBelow(bodies: seq<Body>, home: map<BodyId, nat>, n: nat) {
    forall b: BodyId :: b < n && Movable(bodies, b) ==> b in home
  }

  lemma CoversOneMore(bodies: seq<Body>, home: map<BodyId, nat>, home': map<BodyId, nat>, n: nat)
    requires CoversBelow(bodies, home, n)
    requires forall b :: b in home ==> b in home'
    requires Movable(bodies, n) ==> n in home'
    ensures CoversBelow(bodies, home', n + 1)
  {
  }

  /** The island pass of `Solve` over the bodies, the contacts and the per-body index:
      every non-static body that is not marked yet seeds a depth-first search over
      future-touching contacts between non-sensor bodies; static bodies join an island but
      do not spread it, and lose their marker once it is done so that they can join further
      islands. The islands found (a ghost record: each island is handed to the solver
      and then cleared) partition the non-static bodies and the joinable contacts,
      and the markers `marked` and `cmarked` (the bodies' and the contacts' `islandBound`
      flags) end up exactly on those. */
  method FindIslands(bodies: seq<Body>, contacts: map<ContactId, Contact>, index: map<BodyId, set<ContactId>>)
    returns (ghost islands: seq<IslandContents>, marked: set<BodyId>, cmarked: set<ContactId>)
    requires Consistent(contacts, index) && Owned(bodies, contacts)
    ensures IslandPartition(bodies, contacts, islands)
    ensures forall b :: b in marked <==> Movable(bodies, b)
    ensures forall c :: c in cmarked <==> ContactPlaced(islands, c)
  {
    var island := new Island(Max(|bodies|, 1), Max(|contacts|, 1));
    marked, cmarked := {}, {};
    islands := [];
    ghost var home: map<BodyId, nat> := map[];
    ghost var chome: map<ContactId, nat> := map[];
    for seed := 0 to |bodies|
      invariant island.Valid() && fresh(island)
      invariant island.bodyCapacity == Max(|bodies|, 1) && island.contactCapacity == Max(|contacts|, 1)
      invariant DoneInv(bodies, contacts, islands, home, chome)
      invariant GrowInv(bodies, contacts, index, |islands|, [], [], [], marked, cmarked, home, chome)
      invariant CoversBelow(bodies, home, seed)
    {
      ghost var home0 := home;
      if seed !in marked && bodies[seed].kind != Static {
        ghost var found;
        found, marked, cmarked, home, chome := IslandFromSeed(bodies, contacts, index, island, seed, islands,
                                                              marked, cmarked, home, chome);
        islands := islands + [found];
      }
      CoversOneMore(bodies, home0, home, seed);
    }
    SearchComplete(bodies, contacts, index, islands, marked, cmarked, home, chome);
  }

  /** The work for one seed: clear the island, grow it from `seed`, read it back (the
      solver integrates it at this point) and unmark its static bodies. The result becomes
      island number `|done|`. */
  method IslandFromSeed(bodies: seq<Body>, contacts: map<ContactId, Contact>, index: map<BodyId, set<ContactId>>,
                        island: Island, seed: BodyId, ghost done: seq<IslandContents>,
                        marked0: set<BodyId>, cmarked0: set<ContactId>,
                        ghost home0: map<BodyId, nat>, ghost chome0: map<ContactId, nat>)
    returns (ghost found: IslandContents, marked: set<BodyId>, cmarked: set<ContactId>,
             ghost home: map<BodyId, nat>, ghost chome: map<ContactId, nat>)
    requires Consistent(contacts, index) && Owned(bodies, contacts)
    requires island.Valid()
    requires island.bodyCapacity == Max(|bodies|, 1) && island.contactCapacity == Max(|contacts|, 1)
    requires Movable(bodies, seed) && seed !in marked0
    requires DoneInv(bodies, contacts, done, home0, chome0)
    requires GrowInv(bodies, contacts, index, |done|, [], [], [], marked0, cmarked0, home0, chome0)
    modifies island
    ensures island.Valid()
    ensures DoneInv(bodies, contacts, done + [found], home, chome)
    ensures GrowInv(bodies, contacts, index, |done| + 1, [], [], [], marked, cmarked, home, chome)
    ensures seed in home && forall b :: b in home0 ==> b in home
  {
    var grown;
    grown, cmarked, home, chome := GrowFresh(bodies, contacts, index, island, seed, marked0, cmarked0,
                                             |done|, home0, chome0);
    var islandBodies;
    ghost var islandContacts;
    islandBodies, islandContacts, marked := ReadBack(bodies, island, grown);
    FinishIsland(bodies, contacts, index, done, islandBodies, islandContacts, seed, grown, marked, cmarked,
                 home0, chome0, home, chome);
    found := IslandContents(islandBodies, islandContacts);
  }

  /** Clears the island and grows it from `seed`. */
  method GrowFresh(bodies: seq<Body>, contacts: map<ContactId, Contact>, index: map<BodyId, set<ContactId>>,
                   island: Island, seed: BodyId, marked0: set<BodyId>, cmarked0: set<ContactId>,
                   ghost k: nat, ghost home0: map<BodyId, nat>, ghost chome0: map<ContactId, nat>)
    returns (marked: set<BodyId>, cmarked: set<ContactId>,
             ghost home: map<BodyId, nat>, ghost chome: map<ContactId, nat>)
    requires Consistent(contacts, index) && Owned(bodies, contacts)
    requires island.Valid()
    requires island.bodyCapacity == Max(|bodies|, 1) && island.contactCapacity == Max(|contacts|, 1)
    requires Movable(bodies, seed) && seed !in marked0
    requires GrowInv(bodies, contacts, index, k, [], [], [], marked0, cmarked0, home0, chome0)
    modifies island
    ensures island.Valid()
    ensures island.Bodies != [] && island.Bodies[0] == seed
    ensures GrowInv(bodies, contacts, index, k, island.Bodies, island.Contacts, [], marked, cmarked, home, chome)
    ensures ClosedFor(bodies, contacts, index, island.Bodies, chome)
    ensures Connected(bodies, contacts, IslandContents(island.Bodies, island.Contacts))
    ensures ExtendsWith(home0, home, k) && ExtendsWith(chome0, chome, k)
  {
    island.Clear();
    marked, cmarked, home, chome := GrowIsland(bodies, contacts, index, island, seed, marked0, cmarked0,
                                               k, home0, chome0);
  }

  /** The tail of one seed's pass: the island's bodies are read back through its body
      iterator and its static bodies unmarked. `islandContacts` is a ghost record of the
      island's contacts, which the solver integrates at this point; no contact iterator is
      called. */
  method ReadBack(bodies: seq<Body>, island: Island, marked0: set<BodyId>)
    returns (islandBodies: seq<BodyId>, ghost islandContacts: seq<ContactId>, marked: set<BodyId>)
    requires island.Valid() && forall b :: b in island.Bodies ==> b < |bodies|
    ensures island.Valid() && island.Repr == old(island.Repr)
    ensures islandBodies == island.Bodies && islandContacts == island.Contacts
    ensures forall b :: b in marked <==> b in marked0 && !(b in islandBodies && !Movable(bodies, b))
  {
    islandBodies := island.BodyIterator();
    islandContacts := island.Contacts;
    marked := UnmarkStatics(bodies, islandBodies, marked0);
  }

  /** Grows island number `k` from `seed` until the stack is empty: pops a body, adds it to
      the island, and expands it when it is not static. */
  method GrowIsland(bodies: seq<Body>, contacts: map<ContactId, Contact>, index: map<BodyId, set<ContactId>>,
                    island: Island, seed: BodyId, marked0: set<BodyId>, cmarked0: set<ContactId>,
                    ghost k: nat, ghost home0: map<BodyId, nat>, ghost chome0: map<ContactId, nat>)
    returns (marked: set<BodyId>, cmarked: set<ContactId>,
             ghost home: map<BodyId, nat>, ghost chome: map<ContactId, nat>)
    requires Consistent(contacts, index) && Owned(bodies, contacts)
    requires island.Valid() && island.Bodies == [] && island.Contacts == []
    requires island.bodyCapacity == Max(|bodies|, 1) && island.contactCapacity == Max(|contacts|, 1)
    requires Movable(bodies, seed) && seed !in marked0
    requires GrowInv(bodies, contacts, index, k, [], [], [], marked0, cmarked0, home0, chome0)
    modifies island.Repr
    ensures island.Valid() && island.Repr == old(island.Repr)
    ensures island.Bodies != [] && island.Bodies[0] == seed
    ensures GrowInv(bodies, contacts, index, k, island.Bodies, island.Contacts, [], marked, cmarked, home, chome)
    ensures ClosedFor(bodies, contacts, index, island.Bodies, chome)
    ensures Connected(bodies, contacts, IslandContents(island.Bodies, island.Contacts))
    ensures ExtendsWith(home0, home, k) && ExtendsWith(chome0, chome, k)
  {
    SeedStep(bodies, contacts, index, k, marked0, cmarked0, home0, chome0, seed);
    SeedConnected(bodies, contacts, seed);
    var stack := [seed];
    marked, cmarked := marked0 + {seed}, cmarked0;
    home, chome := home0[seed := k], chome0;
    while stack != []
      invariant island.Valid() && island.Repr == old(island.Repr)
      invariant GrowInv(bodies, contacts, index, k, island.Bodies, island.Contacts, stack, marked, cmarked, home, chome)
      invariant ClosedFor(bodies, contacts, index, island.Bodies, chome)
      invariant SearchConnected(bodies, contacts, island.Bodies, island.Contacts, stack)
      invariant island.Bodies == [] ==> stack == [seed]
      invariant island.Bodies != [] ==> island.Bodies[0] == seed
      invariant |island.Bodies| <= |bodies|
      invariant ExtendsWith(home0[seed := k], home, k) && ExtendsWith(chome0, chome, k)
      decreases |bodies| - |island.Bodies|
    {
      ghost var homeBefore, chomeBefore := home, chome;
      stack, marked, cmarked, home, chome := VisitTop(bodies, contacts, index, island, stack, marked, cmarked, k, home, chome);
      ExtendsWithTrans(home0[seed := k], homeBefore, home, k);
      ExtendsWithTrans(chome0, chomeBefore, chome, k);
    }
    ExtendsWithTrans(home0, home0[seed := k], home, k);
  }

  /** One step of the search: pops the top body into the island and, if it is movable,
      expands its contacts; the bodies in the island stay closed under joinable contacts. */
  method VisitTop(bodies: seq<Body>, contacts: map<ContactId, Contact>, index: map<BodyId, set<ContactId>>,
                  island: Island, stack0: seq<BodyId>, marked0: set<BodyId>, cmarked0: set<ContactId>,
                  ghost k: nat, ghost home0: map<BodyId, nat>, ghost chome0: map<ContactId, nat>)
    returns (stack: seq<BodyId>, marked: set<BodyId>, cmarked: set<ContactId>,
             ghost home: map<BodyId, nat>, ghost chome: map<ContactId, nat>)
    requires Consistent(contacts, index) && Owned(bodies, contacts)
    requires island.Valid() && island.bodyCapacity == Max(|bodies|, 1) && island.contactCapacity == Max(|contacts|, 1)
    requires stack0 != []
    requires GrowInv(bodies, contacts, index, k, island.Bodies, island.Contacts, stack0, marked0, cmarked0, home0, chome0)
    requires ClosedFor(bodies, contacts, index, island.Bodies, chome0)
    requires SearchConnected(bodies, contacts, island.Bodies, island.Contacts, stack0)
    modifies island.Repr
    ensures island.Valid() && island.Repr == old(island.Repr)
    ensures island.Bodies == old(island.Bodies) + [stack0[|stack0| - 1]] && |island.Bodies| <= |bodies|
    ensures GrowInv(bodies, contacts, index, k, island.Bodies, island.Contacts, stack, marked, cmarked, home, chome)
    ensures ClosedFor(bodies, contacts, index, island.Bodies, chome)
    ensures SearchConnected(bodies, contacts, island.Bodies, island.Contacts, stack)
    ensures ExtendsWith(home0, home, k) && ExtendsWith(chome0, chome, k)
  {
    ghost var processed := island.Bodies;
    var body;
    body, stack := PopIntoIsland(bodies, contacts, index, island, stack0, marked0, cmarked0, k, home0, chome0);
    marked, cmarked, home, chome := marked0, cmarked0, home0, chome0;
    if bodies[body].kind != Static && body in index {
      stack, marked, cmarked, home, chome := ExpandBody(bodies, contacts, index, island, body, stack,
                                                        marked, cmarked, k, home, chome);
    }
    ClosedForExtend(bodies, contacts, index, processed, body, chome0, chome);
  }

  /** Visits the contacts of `body`, just added to the island: every unmarked,
      future-touching contact between two non-sensor bodies is added and marked, and its
      unmarked bodies are pushed and marked. */
  method ExpandBody(bodies: seq<Body>, contacts: map<ContactId, Contact>, index: map<BodyId, set<ContactId>>,
                    island: Island, body: BodyId, stack0: seq<BodyId>, marked0: set<BodyId>, cmarked0: set<ContactId>,
                    ghost k: nat, ghost home0: map<BodyId, nat>, ghost chome0: map<ContactId, nat>)
    returns (stack: seq<BodyId>, marked: set<BodyId>, cmarked: set<ContactId>,
             ghost home: map<BodyId, nat>, ghost chome: map<ContactId, nat>)
    requires Consistent(contacts, index) && Owned(bodies, contacts)
    requires island.Valid() && island.contactCapacity == Max(|contacts|, 1)
    requires body in island.Bodies && Movable(bodies, body) && body in index
    requires GrowInv(bodies, contacts, index, k, island.Bodies, island.Contacts, stack0, marked0, cmarked0, home0, chome0)
    requires SearchConnected(bodies, contacts, island.Bodies, island.Contacts, stack0)
    modifies island.Repr
    ensures island.Valid() && island.Repr == old(island.Repr) && island.Bodies == old(island.Bodies)
    ensures GrowInv(bodies, contacts, index, k, island.Bodies, island.Contacts, stack, marked, cmarked, home, chome)
    ensures SearchConnected(bodies, contacts, island.Bodies, island.Contacts, stack)
    ensures forall c :: c in ContactsOf(index, body) && Joinable(bodies, contacts, c) ==> c in chome
    ensures ExtendsWith(home0, home, k) && ExtendsWith(chome0, chome, k)
  {
    stack, marked, cmarked, home, chome := stack0, marked0, cmarked0, home0, chome0;
    var contactOfBody := index[body];
    var remaining := contactOfBody;
    while remaining != {}
      invariant remaining <= contactOfBody
      invariant island.Valid() && island.Repr == old(island.Repr) && island.Bodies == old(island.Bodies)
      invariant GrowInv(bodies, contacts, index, k, island.Bodies, island.Contacts, stack, marked, cmarked, home, chome)
      invariant SearchConnected(bodies, contacts, island.Bodies, island.Contacts, stack)
      invariant forall c :: c in contactOfBody && c !in remaining && Joinable(bodies, contacts, c) ==> c in chome
      invariant ExtendsWith(home0, home, k) && ExtendsWith(chome0, chome, k)
      decreases |remaining|
    {
      var contact :| contact in remaining;
      remaining := remaining - {contact};
      ListedIsLive(contacts, index, contact, body);
      if contact in cmarked {
        continue;
      }
      var k' := contacts[contact];
      if !k'.futureTouching {
        continue;
      }
      if bodies[k'.bodyA].sensor || bodies[k'.bodyB].sensor {
        continue;
      }
      assert Joinable(bodies, contacts, contact);
      stack, marked, cmarked, home, chome := JoinContact(bodies, contacts, index, island, body, contact,
                                                         stack, marked, cmarked, k, home, chome);
    }
  }

  /** Pops the top of the stack and adds it to the island, which has room for it. */
  method PopIntoIsland(bodies: seq<Body>, contacts: map<ContactId, Contact>, index: map<BodyId, set<ContactId>>,
                       island: Island, stack0: seq<BodyId>, marked: set<BodyId>, cmarked: set<ContactId>,
                       ghost k: nat, ghost home: map<BodyId, nat>, ghost chome: map<ContactId, nat>)
    returns (body: BodyId, stack: seq<BodyId>)
    requires island.Valid() && island.bodyCapacity == Max(|bodies|, 1) && stack0 != []
    requires GrowInv(bodies, contacts, index, k, island.Bodies, island.Contacts, stack0, marked, cmarked, home, chome)
    requires SearchConnected(bodies, contacts, island.Bodies, island.Contacts, stack0)
    modifies island.Repr
    ensures island.Valid() && island.Repr == old(island.Repr)
    ensures body == stack0[|stack0| - 1] && stack == stack0[..|stack0| - 1] && body < |bodies|
    ensures island.Bodies == old(island.Bodies) + [body] && island.Contacts == old(island.Contacts)
    ensures GrowInv(bodies, contacts, index, k, island.Bodies, island.Contacts, stack, marked, cmarked, home, chome)
    ensures SearchConnected(bodies, contacts, island.Bodies, island.Contacts, stack)
  {
    body := stack0[|stack0| - 1];
    assert body in stack0;
    PopStep(bodies, contacts, index, k, island.Bodies, island.Contacts, stack0, marked, cmarked, home, chome);
    PopConnected(bodies, contacts, island.Bodies, island.Contacts, stack0);
    stack := stack0[..|stack0| - 1];
    var added := island.AddBody(body);
    assert added.Pass?;
  }

  /** Adds a joinable, unmarked contact of `body` to the island and marks it, then pushes
      and marks each of its two bodies that is not marked yet. */
  method JoinContact(bodies: seq<Body>, contacts: map<ContactId, Contact>, index: map<BodyId, set<ContactId>>,
                     island: Island, body: BodyId, contact: ContactId,
                     stack0: seq<BodyId>, marked0: set<BodyId>, cmarked0: set<ContactId>,
                     ghost k: nat, ghost home0: map<BodyId, nat>, ghost chome0: map<ContactId, nat>)
    returns (stack: seq<BodyId>, marked: set<BodyId>, cmarked: set<ContactId>,
             ghost home: map<BodyId, nat>, ghost chome: map<ContactId, nat>)
    requires Consistent(contacts, index)
    requires island.Valid() && island.contactCapacity == Max(|contacts|, 1)
    requires body in island.Bodies && Movable(bodies, body) && contact in ContactsOf(index, body)
    requires Joinable(bodies, contacts, contact) && contact !in cmarked0
    requires GrowInv(bodies, contacts, index, k, island.Bodies, island.Contacts, stack0, marked0, cmarked0, home0, chome0)
    requires SearchConnected(bodies, contacts, island.Bodies, island.Contacts, stack0)
    modifies island.Repr
    ensures island.Valid() && island.Repr == old(island.Repr) && island.Bodies == old(island.Bodies)
    ensures GrowInv(bodies, contacts, index, k, island.Bodies, island.Contacts, stack, marked, cmarked, home, chome)
    ensures SearchConnected(bodies, contacts, island.Bodies, island.Contacts, stack)
    ensures contact in chome
    ensures ExtendsWith(home0, home, k) && ExtendsWith(chome0, chome, k)
  {
    ghost var cur, curC := island.Bodies, island.Contacts;
    var k' := contacts[contact];
    ListedExactlyForEndpoints(contacts, index, contact, body);
    NewContactFits(bodies, contacts, index, k, cur, curC, stack0, marked0, cmarked0, home0, chome0, body, contact);
    var added := island.AddContact(contact);
    assert added.Pass?;
    cmarked := cmarked0 + {contact};
    stack, marked := stack0, marked0;
    if k'.bodyA !in marked {
      stack := stack + [k'.bodyA];
      marked := marked + {k'.bodyA};
    }
    if k'.bodyB !in marked {
      stack := stack + [k'.bodyB];
      marked := marked + {k'.bodyB};
    }
    MarkStep(bodies, contacts, index, k, cur, curC, stack0, marked0, cmarked0, home0, chome0, k'.bodyA);
    ghost var stack1 := PushUnmarked(stack0, marked0, k'.bodyA);
    ghost var home1 := HomeUnmarked(bodies, home0, marked0, k'.bodyA, k);
    MarkStep(bodies, contacts, index, k, cur, curC, stack1, marked0 + {k'.bodyA}, cmarked0, home1, chome0, k'.bodyB);
    home := HomeUnmarked(bodies, home1, marked0 + {k'.bodyA}, k'.bodyB, k);
    assert stack == PushUnmarked(stack1, marked0 + {k'.bodyA}, k'.bodyB);
    AddContactStep(bodies, contacts, index, k, cur, curC, stack, marked, cmarked0, home, chome0, body, contact);
    JoinConnected(bodies, contacts, cur, curC, stack0, marked0, body, contact);
    chome := chome0[contact := k];
  }

  /** The loop after `island.Solve`: the island's static bodies lose their marker. */
  method UnmarkStatics(bodies: seq<Body>, islandBodies: seq<BodyId>, marked0: set<BodyId>)
    returns (marked: set<BodyId>)
    requires forall b :: b in islandBodies ==> b < |bodies|
    ensures forall b :: b in marked <==> b in marked0 && !(b in islandBodies && !Movable(bodies, b))
  {
    marked := marked0;
    for n := 0 to |islandBodies|
      invariant forall b :: b in marked <==> b in marked0 && !(b in islandBodies[..n] && !Movable(bodies, b))
    {
      assert islandBodies[n] in islandBodies;
      if bodies[islandBodies[n]].kind == Static {
        marked := marked - {islandBodies[n]};
      }
    }
    assert islandBodies[..|islandBodies|] == islandBodies;
  }

  /** The commit loop of `Step`, which is also the rewind loop of `RollBack`, visiting the
      contacts in some order: each contact's current tier takes its committed flag
      `touching(c)`, a flip raises that contact's notifications, and a droppable contact
      leaves both its bodies' sets at once and is collected for removal from the global set
      once the loop is over. */
  method CommitPass(contacts: map<ContactId, Contact>, index: map<BodyId, set<ContactId>>,
                    touching: ContactId -> bool, droppable: ContactId -> bool)
    returns (committed: map<ContactId, Contact>, index': map<BodyId, set<ContactId>>,
             toRemove: set<ContactId>, trace: seq<Event>, ghost order: seq<ContactId>)
    requires Consistent(contacts, index)
    ensures Distinct(order) && forall c :: c in order <==> c in contacts
    ensures trace == CommitTrace(order, contacts, touching)
    ensures committed == WithCurrentTouching(contacts, touching)
    ensures toRemove == Dropped(contacts, droppable)
    ensures index' == DropFromIndex(index, toRemove)
  {
    committed, index', toRemove, trace, order := contacts, index, {}, [], [];
    DropNothing(index);
    var remaining := contacts.Keys;
    while remaining != {}
      invariant remaining <= contacts.Keys
      invariant Distinct(order) && forall c :: c in order <==> c in contacts && c !in remaining
      invariant trace == CommitTrace(order, contacts, touching)
      invariant CommittedExcept(contacts, touching, remaining, committed)
      invariant DroppedExcept(contacts, droppable, remaining, toRemove)
      invariant index' == DropFromIndex(index, toRemove)
      decreases |remaining|
    {
      var c :| c in remaining;
      var k := committed[c];
      var wasTouching := k.currentTouching;
      CommitTraceAppend(order, c, contacts, touching);
      trace := trace + Transition(c, k, wasTouching, touching(c));
      DistinctAppend(order, c);
      order := order + [c];
      ghost var committed0, toRemove0 := committed, toRemove;
      committed := committed[c := k.(currentTouching := touching(c))];
      if droppable(c) {
        DropOneMore(contacts, index, toRemove, c);
        index' := RemoveFromBody(RemoveFromBody(index', k.bodyA, c), k.bodyB, c);
        toRemove := toRemove + {c};
      }
      CommitOneMore(contacts, touching, droppable, remaining, c, committed0, committed, toRemove0, toRemove);
      remaining := remaining - {c};
    }
    CommitComplete(contacts, touching, droppable, committed, toRemove);
  }

  /** Every contact outside `remaining` carries its committed flag, the rest are unchanged. */
  ghost predicate CommittedExcept(contacts: map<ContactId, Contact>, touching: ContactId -> bool,
                                  remaining: set<ContactId>, committed: map<ContactId, Contact>) {
    && (forall c :: c in committed <==> c in contacts)
    && (forall c :: c in contacts ==>
          committed[c] == if c in remaining then contacts[c] else contacts[c].(currentTouching := touching(c)))
  }

  /** `toRemove` holds exactly the droppable contacts outside `remaining`. */
  ghost predicate DroppedExcept(contacts: map<ContactId, Contact>, droppable: ContactId -> bool,
                                remaining: set<ContactId>, toRemove: set<ContactId>) {
    forall c :: c in toRemove <==> c in contacts && c !in remaining && droppable(c)
  }

  /** Visiting contact `c` once more in the commit loop. */
  lemma CommitOneMore(contacts: map<ContactId, Contact>, touching: ContactId -> bool, droppable: ContactId -> bool,
                      remaining: set<ContactId>, c: ContactId,
                      committed: map<ContactId, Contact>, committed': map<ContactId, Contact>,
                      toRemove: set<ContactId>, toRemove': set<ContactId>)
    requires remaining <= contacts.Keys && c in remaining
    requires CommittedExcept(contacts, touching, remaining, committed)
    requires DroppedExcept(contacts, droppable, remaining, toRemove)
    requires committed' == committed[c := committed[c].(currentTouching := touching(c))]
    requires toRemove' == if droppable(c) then toRemove + {c} else toRemove
    ensures CommittedExcept(contacts, touching, remaining - {c}, committed')
    ensures DroppedExcept(contacts, droppable, remaining - {c}, toRemove')
  {
  }

  /** With every contact visited, the loop's results are the whole commit. */
  lemma CommitComplete(contacts: map<ContactId, Contact>, touching: ContactId -> bool, droppable: ContactId -> bool,
                       committed: map<ContactId, Contact>, toRemove: set<ContactId>)
    requires CommittedExcept(contacts, touching, {}, committed)
    requires DroppedExcept(contacts, droppable, {}, toRemove)
    ensures committed == WithCurrentTouching(contacts, touching)
    ensures toRemove == Dropped(contacts, droppable)
  {
    assert committed.Keys == WithCurrentTouching(contacts, touching).Keys;
  }

  /** The world's invariant over its fields: body `i` has id `i` and the counter matches the
      list; every contact joins two owned bodies and is listed under exactly those two; no
      pair of bodies has two contacts. */
  ghost predicate WorldState(bodyCount: uint32, bodies: seq<Body>, contacts: map<ContactId, Contact>,
                             bodyContacts: map<BodyId, set<ContactId>>, nextContactId: nat) {
    && bodyCount == |bodies|
    && (forall i :: 0 <= i < |bodies| ==> bodies[i].id == i)
    && Owned(bodies, contacts)
    && (forall c :: c in contacts ==> c < nextContactId)
    && Consistent(contacts, bodyContacts)
    && UniquePairs(contacts)
  }

  /** Committing flags and dropping contacts keeps the world's invariant: the index stays
      consistent, the pairs unique and every contact between owned bodies. */
  lemma CommitKeepsState(bodyCount: uint32, bodies: seq<Body>, contacts: map<ContactId, Contact>,
                         index: map<BodyId, set<ContactId>>, nextId: nat,
                         touching: ContactId -> bool, dropped: set<ContactId>)
    requires WorldState(bodyCount, bodies, contacts, index, nextId)
    ensures WorldState(bodyCount, bodies, Retain(WithCurrentTouching(contacts, touching), dropped),
                       DropFromIndex(index, dropped), nextId)
  {
    var flagged := WithCurrentTouching(contacts, touching);
    ConsistentUnderFlagChanges(contacts, flagged, index);
    DropKeepsConsistent(flagged, index, dropped);
  }

  /** A fresh contact between two distinct owned bodies without one keeps the world's
      invariant. */
  lemma NewPairKeepsState(bodyCount: uint32, bodies: seq<Body>, contacts: map<ContactId, Contact>,
                          index: map<BodyId, set<ContactId>>, nextId: nat, a: BodyId, b: BodyId)
    requires WorldState(bodyCount, bodies, contacts, index, nextId)
    requires a < |bodies| && b < |bodies| && a != b && !PairPresent(contacts, a, b)
    ensures WorldState(bodyCount, bodies, contacts[nextId := NewContact(a, b)],
                       AddToIndex(AddToIndex(index, a, nextId), b, nextId), nextId + 1)
    ensures PairPresent(contacts[nextId := NewContact(a, b)], a, b)
  {
    AddContactKeepsConsistent(contacts, index, nextId, a, b);
  }

  class World {
    var tick: uint32
    var pastTick: uint32
    var futurTick: uint32
    /** The `Locked` operation flag. */
    var locked: bool
    /** The `ExternalChange` operation flag. */
    var externalChange: bool

    var bodyCount: uint32
    var bodies: seq<Body>
    var contacts: map<ContactId, Contact>
    var bodyContacts: map<BodyId, set<ContactId>>
    /** The next fresh contact object. */
    var nextContactId: nat
    /** Every notification raised so far, in order. */
    var events: seq<Event>

    /** The bodies' and the contacts' `islandBound` markers. */
    var islandBound: set<BodyId>
    var contactIslandBound: set<ContactId>

    /** Body `i` has id `i` and the counter matches the list; every contact joins two owned
        bodies and is listed under exactly those two; no pair of bodies has two contacts. */
    ghost predicate Valid()
      reads this`bodyCount, this`bodies, this`contacts, this`bodyContacts, this`nextContactId
    {
      WorldState(bodyCount, bodies, contacts, bodyContacts, nextContactId)
    }

    /** An empty world at tick 0. */
    constructor ()
      ensures Valid()
      ensures tick == 0 && pastTick == 0 && futurTick == 0 && !locked && !externalChange
      ensures bodies == [] && contacts == map[] && bodyContacts == map[] && events == []
    {
      tick, pastTick, futurTick := 0, 0, 0;
      locked, externalChange := false, false;
      bodyCount := 0;
      bodies := [];
      contacts := map[];
      bodyContacts := map[];
      nextContactId := 0;
      events := [];
      islandBound, contactIslandBound := {}, {};
    }

    /** `CreateBody`: fails once the counter reaches `uint.MaxValue`; otherwise appends a body
        with the next id, pulls the horizon back to the present and flags an external change. */
    method CreateBody(kind: BodyType, sensor: bool) returns (r: Result<BodyId, WorldError>)
      requires Valid()
      modifies this
      ensures Valid()
      ensures r.Success? <==> old(bodyCount) < MaxU32
      ensures r.Failure? ==> r.error == BodyLimitReached && unchanged(this)
      ensures r.Success? ==>
                && r.value == old(|bodies|) && bodyCount == old(bodyCount) + 1
                && bodies == old(bodies) + [Body(r.value, kind, sensor)]
                && futurTick == tick == old(tick) && externalChange
                && pastTick == old(pastTick) && locked == old(locked)
                && contacts == old(contacts) && bodyContacts == old(bodyContacts)
                && nextContactId == old(nextContactId) && events == old(events)
                && islandBound == old(islandBound) && contactIslandBound == old(contactIslandBound)
    {
      if bodyCount >= MaxU32 {
        return Failure(BodyLimitReached);
      }
      var id := bodyCount;
      bodyCount := bodyCount + 1;
      bodies := bodies + [Body(id, kind, sensor)];
      externalChange := true;
      futurTick := tick;
      r := Success(id);
    }

    /** A body's report that it changed from `fromTick` on: the first report since the last
        step pulls the horizon back; later ones change nothing. */
    method ExternalChange(fromTick: uint32)
      modifies this`futurTick, this`externalChange
      ensures externalChange
      ensures futurTick == if old(externalChange) then old(futurTick)
                           else FuturAfterExternalChange(tick, old(futurTick), fromTick)
    {
      if !externalChange {
        futurTick := Max(tick, Min(futurTick, fromTick));
        externalChange := true;
      }
    }

    /** `BodyIterator(start, end)`. */
    method BodyIterator(start: uint32, end: uint32) returns (r: Result<seq<Body>, WorldError>)
      requires Valid()
      ensures r == BodyRange(bodies, start, end)
    {
      var last := end;
      if last == 0 {
        last := Wrap(|bodies|);
      }
      var s := AsInt32(start);
      var e := AsInt32(last);
      var items := [];
      var i := s;
      while i < e
        invariant s <= i && (s < e ==> i <= e) && (e <= s ==> i == s)
        invariant i > s ==> 0 <= s && i <= |bodies| && items == bodies[s..i]
        invariant i == s ==> items == []
        decreases e - i
      {
        if i < 0 || i >= |bodies| {
          return Failure(BodyIndexOutOfRange);
        }
        items := items + [bodies[i]];
        i := i + 1;
      }
      assert e <= s ==> items == [];
      assert s < e ==> 0 <= s && e <= |bodies| && items == bodies[s..e];
      return Success(items);
    }

    /** `ContactIterator`: every live contact exactly once, in the set's order. */
    method ContactIterator() returns (items: seq<ContactId>)
      ensures Distinct(items)
      ensures forall c :: c in items <==> c in contacts
    {
      items := [];
      var remaining := contacts.Keys;
      while remaining != {}
        invariant remaining <= contacts.Keys
        invariant Distinct(items)
        invariant forall c :: c in items <==> c in contacts && c !in remaining
        decreases |remaining|
      {
        var c :| c in remaining;
        DistinctAppend(items, c);
        items := items + [c];
        remaining := remaining - {c};
      }
    }

    /** The scan of `NewPair`: whether one of `a`'s contacts has `b` as either body, which
        for distinct bodies is whether the pair already has a contact. */
    method HasContactWith(a: BodyId, b: BodyId) returns (found: bool)
      requires Valid() && a != b
      ensures found <==> PairPresent(contacts, a, b)
    {
      PairFoundInOwnSet(contacts, bodyContacts, a, b);
      if a !in bodyContacts {
        return false;
      }
      var own := bodyContacts[a];
      var remaining := own;
      while remaining != {}
        invariant remaining <= own
        invariant forall c :: c in own && c !in remaining ==> !Involves(contacts[c], b)
        decreases |remaining|
      {
        var c :| c in remaining;
        if contacts[c].bodyA == b || contacts[c].bodyB == b {
          return true;
        }
        remaining := remaining - {c};
      }
      return false;
    }

    /** `NewPair(a, b)`: nothing for a body paired with itself or for a pair that already has
        a contact; otherwise a fresh contact, touching in no tier, listed globally and under
        both bodies. */
    method NewPair(a: BodyId, b: BodyId)
      requires Valid() && a < |bodies| && b < |bodies|
      modifies this`contacts, this`bodyContacts, this`nextContactId
      ensures Valid()
      ensures a != b ==> PairPresent(contacts, a, b)
      ensures if a == b || old(PairPresent(contacts, a, b)) then
                contacts == old(contacts) && bodyContacts == old(bodyContacts)
                && nextContactId == old(nextContactId)
              else
                && contacts == old(contacts)[old(nextContactId) := NewContact(a, b)]
                && bodyContacts == AddToIndex(AddToIndex(old(bodyContacts), a, old(nextContactId)), b, old(nextContactId))
                && nextContactId == old(nextContactId) + 1
    {
      if a == b {
        return;
      }
      var found := HasContactWith(a, b);
      if found {
        return;
      }
      var id := nextContactId;
      NewPairKeepsState(bodyCount, bodies, contacts, bodyContacts, id, a, b);
      bodyContacts := AddToIndex(AddToIndex(bodyContacts, a, id), b, id);
      contacts := contacts[id := NewContact(a, b)];
      nextContactId := nextContactId + 1;
    }

    /** The contact manager's `FindNewContacts`: `NewPair` for every pair the broad phase
        proposes. Afterwards every proposed pair of distinct bodies has a contact; existing
        contacts are untouched and every new one joins a proposed pair and touches in no tier. */
    method FindNewContacts(pairs: seq<(BodyId, BodyId)>)
      requires Valid()
      requires forall p :: p in pairs ==> p.0 < |bodies| && p.1 < |bodies|
      modifies this`contacts, this`bodyContacts, this`nextContactId
      ensures Valid()
      ensures PairsCovered(contacts, pairs)
      ensures Extends(old(contacts), contacts)
      ensures NewFromPairs(old(contacts), contacts, pairs)
    {
      for i := 0 to |pairs|
        invariant Valid()
        invariant Extends(old(contacts), contacts)
        invariant PairsCovered(contacts, pairs[..i])
        invariant NewFromPairs(old(contacts), contacts, pairs[..i])
      {
        assert pairs[i] in pairs;
        ghost var before, id := contacts, nextContactId;
        assert id !in before;
        NewPair(pairs[i].0, pairs[i].1);
        CoverOneMore(old(contacts), before, contacts, pairs, i, id);
      }
      assert pairs[..|pairs|] == pairs;
    }

    /** The contact manager's `Collide`: the narrow phase sets every contact's future-tier
        touching flag. */
    method Collide(touching: ContactId -> bool)
      requires Valid()
      modifies this`contacts
      ensures Valid()
      ensures contacts == WithFutureTouching(old(contacts), touching)
    {
      ConsistentUnderFlagChanges(contacts, WithFutureTouching(contacts, touching), bodyContacts);
      contacts := WithFutureTouching(contacts, touching);
    }

    /** The island pass of `Solve`, its markers left on the bodies and contacts, followed by
        the contact manager's `FindNewContacts` for the pairs the broad phase then proposes.
        The islands partition the non-static bodies and the joinable contacts as they stood
        before the new contacts were made. */
    method Solve(pairs: seq<(BodyId, BodyId)>) returns (ghost islands: seq<IslandContents>)
      requires Valid()
      requires forall p :: p in pairs ==> p.0 < |bodies| && p.1 < |bodies|
      modifies this`islandBound, this`contactIslandBound, this`contacts, this`bodyContacts, this`nextContactId
      ensures Valid()
      ensures IslandPartition(bodies, old(contacts), islands)
      ensures forall b :: b in islandBound <==> Movable(bodies, b)
      ensures forall c :: c in contactIslandBound <==> ContactPlaced(islands, c)
      ensures PairsCovered(contacts, pairs)
      ensures Extends(old(contacts), contacts) && NewFromPairs(old(contacts), contacts, pairs)
    {
      var marked, cmarked;
      islands, marked, cmarked := FindIslands(bodies, contacts, bodyContacts);
      islandBound, contactIslandBound := marked, cmarked;
      FindNewContacts(pairs);
    }

    /** One iteration of the forecast loop of `Step`: the horizon moves one tick on; on the
        first iteration after an external change the broad phase is consulted; then the
        narrow phase sets the future-tier flags, relaying the foreseen starts and ends it
        reports, and `Solve` runs. Forecasting makes contacts, moves future flags and raises
        only foreseen notifications, but leaves every existing contact's bodies and
        committed flag as they were. */
    method ForeseeTick(lookForContact: bool, env: Environment) returns (ghost raised: seq<Event>)
      requires Valid() && PairsWithin(env, |bodies|)
      modifies this`futurTick, this`islandBound, this`contactIslandBound
      modifies this`contacts, this`bodyContacts, this`nextContactId, this`events
      ensures Valid()
      ensures futurTick == Wrap(old(futurTick) + 1)
      ensures KeepsCommitted(old(contacts), contacts)
      ensures events == old(events) + raised && AllForeseen(raised)
      ensures lookForContact ==> PairsCovered(contacts, env.candidatePairs(futurTick, false))
      ensures PairsCovered(contacts, env.candidatePairs(futurTick, true))
    {
      futurTick := Wrap(futurTick + 1);
      ghost var c0 := contacts;
      if lookForContact {
        FindNewContacts(env.candidatePairs(futurTick, false));
      }
      ghost var c1 := contacts;
      Collide(env.narrowPhase(futurTick));
      ghost var order;
      raised, order := RelayForeseen(env.foreseen(futurTick));
      ghost var c2 := contacts;
      ghost var islands;
      islands := Solve(env.candidatePairs(futurTick, true));
      ExtendsKeepsCommitted(c0, c1, env.narrowPhase(futurTick));
      ExtendsKeepsCommitted(c1, c2, env.narrowPhase(futurTick));
      ExtendsKeepsCommitted(c2, contacts, env.narrowPhase(futurTick));
      KeepsCommittedTrans(c1, c2, contacts);
      KeepsCommittedTrans(c0, c1, contacts);
      if lookForContact {
        CoveredWhileEndpointsKept(c1, contacts, env.candidatePairs(futurTick, false));
      }
    }

    /** The forecast loop of `Step`: `iterations` ticks foreseen, the broad phase consulted
        on the first one only when `lookForContact`. */
    method Forecast(iterations: uint32, lookForContact: bool, env: Environment) returns (ghost raised: seq<Event>)
      requires Valid() && PairsWithin(env, |bodies|)
      modifies this`futurTick, this`islandBound, this`contactIslandBound
      modifies this`contacts, this`bodyContacts, this`nextContactId, this`events
      ensures Valid()
      ensures futurTick == AdvanceHorizon(old(futurTick), iterations)
      ensures KeepsCommitted(old(contacts), contacts)
      ensures events == old(events) + raised && AllForeseen(raised)
    {
      var look := lookForContact;
      raised := [];
      for i := 0 to iterations
        invariant Valid()
        invariant futurTick == AdvanceHorizon(old(futurTick), i)
        invariant KeepsCommitted(old(contacts), contacts)
        invariant events == old(events) + raised && AllForeseen(raised)
      {
        ghost var before := contacts;
        HorizonStep(old(futurTick), i);
        var more := ForeseeTick(look, env);
        look := false;
        KeepsCommittedTrans(old(contacts), before, contacts);
        AllForeseenAppend(raised, more);
        raised := raised + more;
      }
    }

    /** The relay of the collision pass: it visits every contact once, in the set's order,
        and hands each one reported as foreseen to start or to stop touching to
        `NotifyContactStartForeseen` or `NotifyContactEndForeseen`. */
    method RelayForeseen(foreseen: ContactId -> Option<bool>) returns (ghost raised: seq<Event>, ghost order: seq<ContactId>)
      modifies this`events
      ensures Distinct(order) && forall c :: c in order <==> c in contacts
      ensures raised == ForeseenTrace(order, contacts, foreseen)
      ensures events == old(events) + raised
    {
      order, raised := [], [];
      var remaining := contacts.Keys;
      while remaining != {}
        invariant remaining <= contacts.Keys
        invariant Distinct(order) && forall c :: c in order <==> c in contacts && c !in remaining
        invariant raised == ForeseenTrace(order, contacts, foreseen)
        invariant events == old(events) + raised
        decreases |remaining|
      {
        var c :| c in remaining;
        var relay := RelayOne(c, foreseen(c));
        AppendAssociates(old(events), raised, relay);
        DistinctAppend(order, c);
        ForeseenTraceAppend(order, contacts, foreseen, c);
        order, raised := order + [c], raised + relay;
        remaining := remaining - {c};
      }
    }

    /** One visit of the relay: the contact's report handed to the matching handler. */
    method RelayOne(c: ContactId, report: Option<bool>) returns (ghost relay: seq<Event>)
      requires c in contacts
      modifies this`events
      ensures relay == Relay(c, contacts[c], report)
      ensures events == old(events) + relay
    {
      match report {
        case Some(true) => NotifyContactStartForeseen(c);
        case Some(false) => NotifyContactEndForeseen(c);
        case None =>
      }
      relay := Relay(c, contacts[c], report);
    }

    /** The commit (or rewind) of every contact's current tier: each contact takes its flag
        `touching(c)`, its flips are notified in the visiting order, and the droppable ones
        leave the index and the contact set. */
    method CommitContacts(touching: ContactId -> bool, droppable: ContactId -> bool) returns (ghost order: seq<ContactId>)
      requires Valid()
      modifies this`contacts, this`bodyContacts, this`events
      ensures Valid()
      ensures Distinct(order) && forall c :: c in order <==> c in old(contacts)
      ensures events == old(events) + CommitTrace(order, old(contacts), touching)
      ensures contacts == Retain(WithCurrentTouching(old(contacts), touching), Dropped(old(contacts), droppable))
      ensures bodyContacts == DropFromIndex(old(bodyContacts), Dropped(old(contacts), droppable))
    {
      var committed, index, toRemove, trace;
      committed, index, toRemove, trace, order := CommitPass(contacts, bodyContacts, touching, droppable);
      CommitKeepsState(bodyCount, bodies, contacts, bodyContacts, nextContactId, touching, toRemove);
      events := events + trace;
      bodyContacts := index;
      contacts := Retain(committed, toRemove);
    }

    /** `Step(steps, foreseeTicks, bufferingTicks, keepTicks)`. The world locks itself and
        advances `tick` with wrap-around; a tick of `uint.MaxValue` raises an error and leaves
        the world locked with the advanced tick. Otherwise `pastTick` moves up to the
        retention window, the horizon is advanced by the lookahead and each new horizon tick is
        foreseen, the contacts' committed flags are set and their flips notified, droppable
        contacts are removed, and both operation flags are cleared. `forecast` is the contact
        set once the forecast is done. */
    method Step(steps: uint32, foreseeTicks: uint32, bufferingTicks: uint32, keepTicks: uint32, env: Environment)
      returns (r: Outcome<WorldError>, ghost forecast: map<ContactId, Contact>, ghost raised: seq<Event>,
               ghost order: seq<ContactId>)
      requires Valid() && PairsWithin(env, |bodies|)
      modifies this
      ensures Valid()
      ensures bodies == old(bodies) && bodyCount == old(bodyCount)
      ensures tick == AdvanceTick(old(tick), steps)
      ensures r.Fail? <==> TickLimitReached(old(tick), steps)
      ensures r.Fail? ==>
                && r.error == StepLimitReached && locked
                && pastTick == old(pastTick) && futurTick == old(futurTick)
                && externalChange == old(externalChange) && contacts == old(contacts)
                && bodyContacts == old(bodyContacts) && events == old(events)
                && islandBound == old(islandBound) && contactIslandBound == old(contactIslandBound)
                && nextContactId == old(nextContactId)
      ensures r.Pass? ==>
                && !locked && !externalChange
                && pastTick == PastAfterStep(tick, keepTicks, old(pastTick))
                && futurTick == AdvanceHorizon(old(futurTick), Lookahead(tick, old(futurTick), foreseeTicks, bufferingTicks))
                && KeepsCommitted(old(contacts), forecast)
                && Distinct(order) && (forall c :: c in order <==> c in forecast)
                && AllForeseen(raised)
                && events == old(events) + raised + CommitTrace(order, forecast, env.committedTouching)
                && contacts == Retain(WithCurrentTouching(forecast, env.committedTouching),
                                      Dropped(forecast, env.droppable))
    {
      forecast, raised, order := contacts, [], [];
      locked := true;
      tick := AdvanceTick(tick, steps);
      if tick >= MaxU32 {
        return Fail(StepLimitReached), forecast, raised, order;
      }
      var iterations;
      pastTick, iterations := StepCursors(tick, pastTick, futurTick, foreseeTicks, bufferingTicks, keepTicks);
      forecast, raised, order := ForecastAndCommit(iterations, env);
      r := Pass;
    }

    /** The part of `Step` after the cursor arithmetic: `iterations` horizon ticks foreseen
        (consulting the broad phase first when an external change is pending), the committed
        flags set with their flips notified and the droppable contacts removed, then both
        operation flags cleared. */
    method ForecastAndCommit(iterations: uint32, env: Environment)
      returns (ghost forecast: map<ContactId, Contact>, ghost raised: seq<Event>, ghost order: seq<ContactId>)
      requires Valid() && PairsWithin(env, |bodies|)
      modifies this`futurTick, this`locked, this`externalChange, this`events
      modifies this`islandBound, this`contactIslandBound, this`contacts, this`bodyContacts, this`nextContactId
      ensures Valid()
      ensures !locked && !externalChange
      ensures futurTick == AdvanceHorizon(old(futurTick), iterations)
      ensures KeepsCommitted(old(contacts), forecast)
      ensures Distinct(order) && (forall c :: c in order <==> c in forecast)
      ensures AllForeseen(raised)
      ensures events == old(events) + raised + CommitTrace(order, forecast, env.committedTouching)
      ensures contacts == Retain(WithCurrentTouching(forecast, env.committedTouching), Dropped(forecast, env.droppable))
    {
      var hadExternalChange := externalChange;
      raised := Forecast(iterations, hadExternalChange, env);
      forecast := contacts;
      order := CommitContacts(env.committedTouching, env.droppable);
      locked := false;
      externalChange := false;
    }

    /** The cursor arithmetic of `Step` at the advanced `tick`: the retention window clipped
        to the present and `pastTick` raised to it, and the number of horizon ticks to solve. */
    static method StepCursors(tick: uint32, pastTick: uint32, futurTick: uint32,
                              foreseeTicks: uint32, bufferingTicks: uint32, keepTicks: uint32)
      returns (past: uint32, iterations: uint32)
      ensures past == PastAfterStep(tick, keepTicks, pastTick)
      ensures iterations == Lookahead(tick, futurTick, foreseeTicks, bufferingTicks)
    {
      var keep := keepTicks;
      if keep > tick {
        keep := tick;
      }
      past := Max(tick - keep, pastTick);
      if futurTick < tick {
        iterations := Wrap(tick - futurTick + Min(foreseeTicks, bufferingTicks));
      } else {
        iterations := Min(Wrap(tick + foreseeTicks - futurTick), bufferingTicks);
      }
    }

    /** `RollBack(toTick, keepTicks)`: the world moves its tick to `toTick`, clips and
        re-derives `pastTick`, rewinds every contact's current tier to its flag at `toTick`
        (`rewound`), notifies the flips, removes the droppable contacts and unlocks. The
        horizon and the external-change flag are left as they are. */
    method RollBack(toTick: uint32, keepTicks: uint32, rewound: ContactId -> bool, droppable: ContactId -> bool)
      returns (ghost order: seq<ContactId>)
      requires Valid()
      modifies this`locked, this`tick, this`pastTick, this`contacts, this`bodyContacts, this`events
      ensures Valid()
      ensures tick == toTick && pastTick == PastAfterRollBack(toTick, keepTicks, old(pastTick)) && !locked
      ensures Distinct(order) && forall c :: c in order <==> c in old(contacts)
      ensures events == old(events) + CommitTrace(order, old(contacts), rewound)
      ensures contacts == Retain(WithCurrentTouching(old(contacts), rewound), Dropped(old(contacts), droppable))
    {
      locked := true;
      tick := toTick;
      if pastTick > tick {
        pastTick := tick;
      }
      var keep := keepTicks;
      if keep > tick {
        keep := tick;
      }
      pastTick := Max(tick - keep, pastTick);
      order := CommitContacts(rewound, droppable);
      locked := false;
    }

    /** `NotifyContactStartForeseen`: a contact's forecast says it will start touching; both
        its bodies are told, then the world's subscribers. */
    method NotifyContactStartForeseen(c: ContactId)
      requires c in contacts
      modifies this`events
      ensures events == old(events) + Foreseen(c, contacts[c], true)
    {
      var k := contacts[c];
      events := events + [BodyContactStartForeseen(k.bodyA, c)];
      events := events + [BodyContactStartForeseen(k.bodyB, c)];
      events := events + [ContactStartForeseen(c)];
    }

    /** `NotifyContactEndForeseen` as evidently intended: both bodies are told that the
        contact will stop touching, then the world's subscribers. */
    method NotifyContactEndForeseen(c: ContactId)
      requires c in contacts
      modifies this`events
      ensures events == old(events) + Foreseen(c, contacts[c], false)
    {
      var k := contacts[c];
      events := events + [BodyContactEndForeseen(k.bodyA, c)];
      events := events + [BodyContactEndForeseen(k.bodyB, c)];
      events := events + [ContactEndForeseen(c)];
    }

    /** `NotifyContactEndForeseen` as written: the bodies are relayed a foreseen start. */
    method NotifyContactEndForeseenAsWritten(c: ContactId)
      requires c in contacts
      modifies this`events
      ensures events == old(events) + EndForeseenAsWritten(c, contacts[c])
    {
      var k := contacts[c];
      events := events + [BodyContactStartForeseen(k.bodyA, c)];
      events := events + [BodyContactStartForeseen(k.bodyB, c)];
      events := events + [ContactEndForeseen(c)];
    }
  }
}
