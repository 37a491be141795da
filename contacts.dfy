/** The world's contact index: the global set of live contacts and, for every body, the set of
    live contacts it takes part in. Contacts are created once per unordered pair of bodies and
    dropped from all three places at once. */
module Contacts {
  import opened Common

  datatype BodyType = Static | Dynamic | Kinematic

  /** A body as the world's bookkeeping sees it: its id, its type and its sensor flag. */
  datatype Body = Body(id: BodyId, kind: BodyType, sensor: bool)

  /** A contact: its two bodies in creation order and the touching flag of its current and
      of its future tier. */
  datatype Contact = Contact(bodyA: BodyId, bodyB: BodyId, currentTouching: bool, futureTouching: bool)

  /** The contact joins `a` and `b`, in either orientation. */
  predicate Joins(k: Contact, a: BodyId, b: BodyId) {
    (k.bodyA == a && k.bodyB == b) || (k.bodyA == b && k.bodyB == a)
  }

  /** `b` is one of the contact's two bodies. */
  predicate Involves(k: Contact, b: BodyId) {
    k.bodyA == b || k.bodyB == b
  }

  /** The contact set the index holds for `b`; a body without an entry has none. */
  function ContactsOf(index: map<BodyId, set<ContactId>>, b: BodyId): set<ContactId> {
    if b in index then index[b] else {}
  }

  /** The global set and the per-body index agree: every contact joins two distinct bodies and
      sits in the sets of both, every set holds only live contacts involving its body, and no
      body keeps an empty set. */
  ghost predicate Consistent(contacts: map<ContactId, Contact>, index: map<BodyId, set<ContactId>>) {
    && (forall c :: c in contacts ==> contacts[c].bodyA != contacts[c].bodyB)
    && (forall c :: c in contacts ==>
          c in ContactsOf(index, contacts[c].bodyA) && c in ContactsOf(index, contacts[c].bodyB))
    && (forall b :: b in index ==> index[b] != {})
    && (forall b, c :: b in index && c in index[b] ==> c in contacts && Involves(contacts[c], b))
  }

  /** No two live contacts join the same unordered pair of bodies. */
  ghost predicate UniquePairs(contacts: map<ContactId, Contact>) {
    forall c1, c2 :: c1 in contacts && c2 in contacts && c1 != c2 ==>
      !Joins(contacts[c1], contacts[c2].bodyA, contacts[c2].bodyB)
  }

  /** Some live contact joins `a` and `b`. */
  ghost predicate PairPresent(contacts: map<ContactId, Contact>, a: BodyId, b: BodyId) {
    exists c :: c in contacts && Joins(contacts[c], a, b)
  }

  /** Both maps hold the same contacts between the same bodies; only touching flags may differ. */
  ghost predicate SameEndpoints(contacts: map<ContactId, Contact>, contacts': map<ContactId, Contact>) {
    && contacts.Keys == contacts'.Keys
    && forall c :: c in contacts ==>
         contacts[c].bodyA == contacts'[c].bodyA && contacts[c].bodyB == contacts'[c].bodyB
  }

  /** `contacts'` keeps every contact of `contacts` unchanged, and may hold more. */
  ghost predicate Extends(contacts: map<ContactId, Contact>, contacts': map<ContactId, Contact>) {
    forall c :: c in contacts ==> c in contacts' && contacts'[c] == contacts[c]
  }

  /** Every proposed pair of two distinct bodies has a contact. */
  ghost predicate PairsCovered(contacts: map<ContactId, Contact>, pairs: seq<(BodyId, BodyId)>) {
    forall p :: p in pairs && p.0 != p.1 ==> PairPresent(contacts, p.0, p.1)
  }

  /** Every contact of `contacts'` that `contacts` lacks joins a proposed pair and touches in
      no tier. */
  ghost predicate NewFromPairs(contacts: map<ContactId, Contact>, contacts': map<ContactId, Contact>,
                               pairs: seq<(BodyId, BodyId)>) {
    forall c :: c in contacts' && c !in contacts ==>
      && !contacts'[c].currentTouching && !contacts'[c].futureTouching
      && exists p :: p in pairs && Joins(contacts'[c], p.0, p.1)
  }

  /** Every contact of `contacts` is still live in `contacts'`, between the same bodies and
      with the same current-tier flag: only future-tier flags and new contacts differ. */
  ghost predicate KeepsCommitted(contacts: map<ContactId, Contact>, contacts': map<ContactId, Contact>) {
    forall c :: c in contacts ==>
      && c in contacts'
      && contacts'[c].bodyA == contacts[c].bodyA && contacts'[c].bodyB == contacts[c].bodyB
      && contacts'[c].currentTouching == contacts[c].currentTouching
  }

  /** A contact as the factory creates it: touching in no tier. */
  function NewContact(a: BodyId, b: BodyId): (k: Contact)
    ensures Joins(k, a, b) && k.bodyA == a
    ensures !k.currentTouching && !k.futureTouching
  {
    Contact(a, b, false, false)
  }

  /** `c` added to `b`'s set, creating the entry when `b` has none. */
  function AddToIndex(index: map<BodyId, set<ContactId>>, b: BodyId, c: ContactId)
    : (r: map<BodyId, set<ContactId>>)
    ensures r.Keys == index.Keys + {b}
    ensures ContactsOf(r, b) == ContactsOf(index, b) + {c}
    ensures forall x :: x != b ==> ContactsOf(r, x) == ContactsOf(index, x)
  {
    index[b := ContactsOf(index, b) + {c}]
  }

  /** The contacts of `dropped` taken out of every body's set; a body whose set becomes
      empty loses its entry. */
  function DropFromIndex(index: map<BodyId, set<ContactId>>, dropped: set<ContactId>)
    : (r: map<BodyId, set<ContactId>>)
    ensures forall b :: ContactsOf(r, b) == ContactsOf(index, b) - dropped
    ensures forall b :: b in r ==> r[b] != {}
    ensures r.Keys <= index.Keys
  {
    map b | b in index && index[b] - dropped != {} :: index[b] - dropped
  }

  /** The global set without the contacts of `dropped`. */
  function Retain(contacts: map<ContactId, Contact>, dropped: set<ContactId>)
    : (r: map<ContactId, Contact>)
    ensures r.Keys == contacts.Keys - dropped
    ensures forall c :: c in r ==> r[c] == contacts[c]
  {
    map c | c in contacts && c !in dropped :: contacts[c]
  }

  /** The contacts whose `IsDroppable` holds. */
  function Dropped(contacts: map<ContactId, Contact>, droppable: ContactId -> bool): (d: set<ContactId>)
    ensures forall c :: c in d <==> c in contacts && droppable(c)
  {
    set c | c in contacts && droppable(c)
  }

  /** Every contact's current-tier touching flag replaced by `touching(c)`; nothing else changes. */
  function WithCurrentTouching(contacts: map<ContactId, Contact>, touching: ContactId -> bool)
    : (r: map<ContactId, Contact>)
    ensures SameEndpoints(contacts, r)
    ensures forall c :: c in r ==>
              r[c].currentTouching == touching(c) && r[c].futureTouching == contacts[c].futureTouching
  {
    map c | c in contacts :: contacts[c].(currentTouching := touching(c))
  }

  /** Every contact's future-tier touching flag replaced by `touching(c)`; nothing else changes. */
  function WithFutureTouching(contacts: map<ContactId, Contact>, touching: ContactId -> bool)
    : (r: map<ContactId, Contact>)
    ensures SameEndpoints(contacts, r)
    ensures forall c :: c in r ==>
              r[c].futureTouching == touching(c) && r[c].currentTouching == contacts[c].currentTouching
  {
    map c | c in contacts :: contacts[c].(futureTouching := touching(c))
  }

  /** `c` taken out of `b`'s set; the entry goes when the set becomes empty. */
  function RemoveFromBody(index: map<BodyId, set<ContactId>>, b: BodyId, c: ContactId)
    : (r: map<BodyId, set<ContactId>>)
    ensures ContactsOf(r, b) == ContactsOf(index, b) - {c}
    ensures forall x :: x != b ==> ContactsOf(r, x) == ContactsOf(index, x)
    ensures (forall x :: x in index ==> index[x] != {}) ==> (forall x :: x in r ==> r[x] != {})
  {
    if b !in index then index
    else if index[b] - {c} == {} then index - {b}
    else index[b := index[b] - {c}]
  }

  /** An index without empty entries is determined by the contact set it gives every body. */
  lemma IndexDetermined(index: map<BodyId, set<ContactId>>, index': map<BodyId, set<ContactId>>)
    requires forall b :: b in index ==> index[b] != {}
    requires forall b :: b in index' ==> index'[b] != {}
    requires forall b :: ContactsOf(index, b) == ContactsOf(index', b)
    ensures index == index'
  {
    assert forall b :: b in index <==> ContactsOf(index, b) != {};
    assert forall b :: b in index' <==> ContactsOf(index', b) != {};
    assert index.Keys == index'.Keys;
  }

  /** Removing one more dropped contact from its two bodies' sets, as the commit loop does,
      yields the index with that contact dropped as well. */
  lemma DropOneMore(contacts: map<ContactId, Contact>, index: map<BodyId, set<ContactId>>,
                    dropped: set<ContactId>, c: ContactId)
    requires Consistent(contacts, index) && c in contacts
    ensures var k := contacts[c];
            RemoveFromBody(RemoveFromBody(DropFromIndex(index, dropped), k.bodyA, c), k.bodyB, c)
            == DropFromIndex(index, dropped + {c})
  {
    var k := contacts[c];
    var r := RemoveFromBody(RemoveFromBody(DropFromIndex(index, dropped), k.bodyA, c), k.bodyB, c);
    var d := DropFromIndex(index, dropped + {c});
    forall b ensures ContactsOf(r, b) == ContactsOf(d, b) {
      if b != k.bodyA && b != k.bodyB {
        ListedExactlyForEndpoints(contacts, index, c, b);
      }
    }
    IndexDetermined(r, d);
  }

  /** In a consistent index a live contact is listed for exactly its two bodies. */
  lemma ListedExactlyForEndpoints(contacts: map<ContactId, Contact>, index: map<BodyId, set<ContactId>>,
                                  c: ContactId, b: BodyId)
    requires Consistent(contacts, index) && c in contacts
    ensures c in ContactsOf(index, b) <==> Involves(contacts[c], b)
  {
  }

  /** A contact listed in a body's set is live and involves that body. */
  lemma ListedIsLive(contacts: map<ContactId, Contact>, index: map<BodyId, set<ContactId>>,
                     c: ContactId, b: BodyId)
    requires Consistent(contacts, index) && c in ContactsOf(index, b)
    ensures c in contacts && Involves(contacts[c], b)
  {
  }

  /** For distinct bodies, scanning only `a`'s own set finds a contact with `b` exactly when
      the pair is present, in either orientation. */
  lemma PairFoundInOwnSet(contacts: map<ContactId, Contact>, index: map<BodyId, set<ContactId>>,
                          a: BodyId, b: BodyId)
    requires Consistent(contacts, index) && a != b
    ensures PairPresent(contacts, a, b) <==>
              exists c :: c in ContactsOf(index, a) && Involves(contacts[c], b)
  {
    if PairPresent(contacts, a, b) {
      var c :| c in contacts && Joins(contacts[c], a, b);
      assert c in ContactsOf(index, a) && Involves(contacts[c], b);
    }
    if exists c :: c in ContactsOf(index, a) && Involves(contacts[c], b) {
      var c :| c in ContactsOf(index, a) && Involves(contacts[c], b);
      assert Involves(contacts[c], a);
      assert Joins(contacts[c], a, b);
    }
  }

  /** Adding a new contact for an absent pair of distinct bodies to the global set and to
      both bodies' sets keeps the index consistent and the pairs unique. */
  lemma AddContactKeepsConsistent(contacts: map<ContactId, Contact>, index: map<BodyId, set<ContactId>>,
                                  id: ContactId, a: BodyId, b: BodyId)
    requires Consistent(contacts, index) && UniquePairs(contacts)
    requires a != b && id !in contacts && !PairPresent(contacts, a, b)
    ensures var contacts' := contacts[id := NewContact(a, b)];
            var index' := AddToIndex(AddToIndex(index, a, id), b, id);
            && Consistent(contacts', index')
            && UniquePairs(contacts')
            && PairPresent(contacts', a, b)
  {
    AddedContactListed(contacts, index, id, a, b);
    AddedPairUnique(contacts, id, a, b);
    assert Joins(contacts[id := NewContact(a, b)][id], a, b);
  }

  /** The index with the new contact listed under both its bodies lists only live contacts,
      under their own bodies. */
  lemma AddedContactListed(contacts: map<ContactId, Contact>, index: map<BodyId, set<ContactId>>,
                           id: ContactId, a: BodyId, b: BodyId)
    requires Consistent(contacts, index) && a != b && id !in contacts
    ensures Consistent(contacts[id := NewContact(a, b)], AddToIndex(AddToIndex(index, a, id), b, id))
  {
    var contacts' := contacts[id := NewContact(a, b)];
    var index' := AddToIndex(AddToIndex(index, a, id), b, id);
    forall c | c in contacts'
      ensures c in ContactsOf(index', contacts'[c].bodyA) && c in ContactsOf(index', contacts'[c].bodyB)
    {
      if c != id {
        assert contacts'[c] == contacts[c];
      }
    }
    forall x | x in index' ensures index'[x] != {} {
      assert index'[x] == ContactsOf(index', x);
    }
    forall x, c | x in index' && c in index'[x]
      ensures c in contacts' && Involves(contacts'[c], x)
    {
      assert c in ContactsOf(index', x);
      if c != id {
        assert c in ContactsOf(index, x);
      }
    }
  }

  /** A contact for an absent pair keeps every pair joined by one contact at most. */
  lemma AddedPairUnique(contacts: map<ContactId, Contact>, id: ContactId, a: BodyId, b: BodyId)
    requires UniquePairs(contacts) && id !in contacts && !PairPresent(contacts, a, b)
    ensures UniquePairs(contacts[id := NewContact(a, b)])
  {
    var contacts' := contacts[id := NewContact(a, b)];
    forall c1, c2 | c1 in contacts' && c2 in contacts' && c1 != c2
      ensures !Joins(contacts'[c1], contacts'[c2].bodyA, contacts'[c2].bodyB)
    {
      if c1 == id {
        assert !Joins(contacts[c2], a, b);
      } else if c2 == id {
        assert !Joins(contacts[c1], a, b);
      }
    }
  }

  /** One more proposed pair `pairs[i]`: the call for it either changed nothing or added one
      fresh contact for it, and left it present when its bodies differ. */
  lemma CoverOneMore(contacts0: map<ContactId, Contact>, before: map<ContactId, Contact>,
                     after: map<ContactId, Contact>, pairs: seq<(BodyId, BodyId)>, i: nat, id: ContactId)
    requires i < |pairs|
    requires Extends(contacts0, before) && PairsCovered(before, pairs[..i])
    requires NewFromPairs(contacts0, before, pairs[..i])
    requires after == before || (id !in before && after == before[id := NewContact(pairs[i].0, pairs[i].1)])
    requires pairs[i].0 != pairs[i].1 ==> PairPresent(after, pairs[i].0, pairs[i].1)
    ensures Extends(contacts0, after)
    ensures PairsCovered(after, pairs[..i + 1])
    ensures NewFromPairs(contacts0, after, pairs[..i + 1])
  {
    assert pairs[..i + 1] == pairs[..i] + [pairs[i]];
    CoveredOneMore(before, after, pairs[..i], pairs[i]);
    NewOneMore(contacts0, before, after, pairs[..i], pairs[i], id);
  }

  /** The coverage half of `CoverOneMore`. */
  lemma CoveredOneMore(before: map<ContactId, Contact>, after: map<ContactId, Contact>,
                       pairs: seq<(BodyId, BodyId)>, p: (BodyId, BodyId))
    requires PairsCovered(before, pairs) && Extends(before, after)
    requires p.0 != p.1 ==> PairPresent(after, p.0, p.1)
    ensures PairsCovered(after, pairs + [p])
  {
    forall q | q in pairs + [p] && q.0 != q.1 ensures PairPresent(after, q.0, q.1) {
      if q != p {
        assert q in pairs;
        var c :| c in before && Joins(before[c], q.0, q.1);
        assert c in after && after[c] == before[c];
      }
    }
  }

  /** Coverage depends only on which bodies each contact joins, so it survives anything
      that keeps the committed tier: new contacts and changes of future-tier flags. */
  lemma CoveredWhileEndpointsKept(before: map<ContactId, Contact>, after: map<ContactId, Contact>,
                                  pairs: seq<(BodyId, BodyId)>)
    requires PairsCovered(before, pairs) && KeepsCommitted(before, after)
    ensures PairsCovered(after, pairs)
  {
    forall p | p in pairs && p.0 != p.1 ensures PairPresent(after, p.0, p.1) {
      var c :| c in before && Joins(before[c], p.0, p.1);
      assert c in after && Joins(after[c], p.0, p.1);
    }
  }

  /** The new-contact half of `CoverOneMore`. */
  lemma NewOneMore(contacts0: map<ContactId, Contact>, before: map<ContactId, Contact>,
                   after: map<ContactId, Contact>, pairs: seq<(BodyId, BodyId)>, p: (BodyId, BodyId), id: ContactId)
    requires Extends(contacts0, before) && NewFromPairs(contacts0, before, pairs)
    requires after == before || (id !in before && after == before[id := NewContact(p.0, p.1)])
    ensures Extends(contacts0, after)
    ensures NewFromPairs(contacts0, after, pairs + [p])
  {
    forall c | c in after && c !in contacts0
      ensures exists q :: q in pairs + [p] && Joins(after[c], q.0, q.1)
    {
      if c in before {
        var q :| q in pairs && Joins(before[c], q.0, q.1);
        assert q in pairs + [p];
      } else {
        assert p in pairs + [p];
      }
    }
  }

  /** Keeping the committed tier is transitive. */
  lemma KeepsCommittedTrans(c0: map<ContactId, Contact>, c1: map<ContactId, Contact>, c2: map<ContactId, Contact>)
    requires KeepsCommitted(c0, c1) && KeepsCommitted(c1, c2)
    ensures KeepsCommitted(c0, c2)
  {
  }

  /** Adding contacts, or setting future-tier flags, leaves the committed tier alone. */
  lemma ExtendsKeepsCommitted(contacts: map<ContactId, Contact>, contacts': map<ContactId, Contact>,
                              touching: ContactId -> bool)
    ensures Extends(contacts, contacts') ==> KeepsCommitted(contacts, contacts')
    ensures KeepsCommitted(contacts, WithFutureTouching(contacts, touching))
  {
  }

  /** Dropping nothing leaves an index without empty entries as it is. */
  lemma DropNothing(index: map<BodyId, set<ContactId>>)
    requires forall b :: b in index ==> index[b] != {}
    ensures DropFromIndex(index, {}) == index
  {
    IndexDetermined(DropFromIndex(index, {}), index);
  }

  /** Dropping any set of contacts from the global set and from every body's set keeps the
      index consistent and the pairs unique. */
  lemma DropKeepsConsistent(contacts: map<ContactId, Contact>, index: map<BodyId, set<ContactId>>,
                            dropped: set<ContactId>)
    requires Consistent(contacts, index) && UniquePairs(contacts)
    ensures Consistent(Retain(contacts, dropped), DropFromIndex(index, dropped))
    ensures UniquePairs(Retain(contacts, dropped))
  {
    var contacts' := Retain(contacts, dropped);
    var index' := DropFromIndex(index, dropped);
    forall x, c | x in index' && c in index'[x]
      ensures c in contacts' && Involves(contacts'[c], x)
    {
      assert c in ContactsOf(index', x);
      assert c in ContactsOf(index, x) && c !in dropped;
    }
    forall c | c in contacts'
      ensures c in ContactsOf(index', contacts'[c].bodyA) && c in ContactsOf(index', contacts'[c].bodyB)
    {
      assert c in ContactsOf(index, contacts[c].bodyA) && c in ContactsOf(index, contacts[c].bodyB);
    }
  }

  /** Consistency and uniqueness depend only on which contacts are live and on their bodies,
      not on their touching flags. */
  lemma ConsistentUnderFlagChanges(contacts: map<ContactId, Contact>, contacts': map<ContactId, Contact>,
                                   index: map<BodyId, set<ContactId>>)
    requires Consistent(contacts, index) && UniquePairs(contacts)
    requires SameEndpoints(contacts, contacts')
    ensures Consistent(contacts', index) && UniquePairs(contacts')
  {
    forall x, c | x in index && c in index[x]
      ensures c in contacts' && Involves(contacts'[c], x)
    {
      assert c in contacts && Involves(contacts[c], x);
    }
    forall c | c in contacts'
      ensures c in ContactsOf(index, contacts'[c].bodyA) && c in ContactsOf(index, contacts'[c].bodyB)
    {
      assert c in contacts;
    }
    forall c1, c2 | c1 in contacts' && c2 in contacts' && c1 != c2
      ensures !Joins(contacts'[c1], contacts'[c2].bodyA, contacts'[c2].bodyB)
    {
      assert !Joins(contacts[c1], contacts[c2].bodyA, contacts[c2].bodyB);
    }
  }
}
