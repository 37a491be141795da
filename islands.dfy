/** The island: a transient, fixed-capacity buffer of the bodies and contacts that one
    connected group hands to the solver. Bodies and contacts are appended into preallocated
    arrays behind two occupancy counters; the scratch position and velocity arrays are
    allocated beside them for the integration step. */
module Islands {
  import opened Common

  /** The exceptions the island raises. */
  datatype IslandError =
    | BodyCapacityZero      // ArgumentException from the constructor
    | ContactCapacityZero   // ArgumentException from the constructor
    | BodyCapacityFull      // InvalidOperationException from adding a body
    | ContactCapacityFull   // InvalidOperationException from adding a contact
    | IndexOutOfRange       // an iterator or the integration pass indexing past an array

  /** Scratch slot of the integration step (centre and angle); only its index is modelled. */
  datatype Position = Position(centerX: real, centerY: real, angle: real)
  /** Scratch slot of the integration step (linear and angular velocity); only its index is modelled. */
  datatype Velocity = Velocity(linearX: real, linearY: real, angular: real)

  /** The outcome of the index accesses of the integration pass `Island.Solve` for
      `bodyCount` bodies over position and velocity arrays of the given lengths: the first
      index past either array throws. */
  function SolveIndexing(bodyCount: nat, positionSlots: nat, velocitySlots: nat): Outcome<IslandError> {
    if bodyCount <= positionSlots && bodyCount <= velocitySlots then Pass else Fail(IndexOutOfRange)
  }

  /** The constructor's argument checks, body capacity first. */
  function CheckCapacities(bodyCapacity: nat, contactCapacity: nat): (r: Outcome<IslandError>)
    ensures r.Pass? <==> bodyCapacity > 0 && contactCapacity > 0
    ensures bodyCapacity == 0 ==> r == Fail(BodyCapacityZero)
    ensures bodyCapacity > 0 && contactCapacity == 0 ==> r == Fail(ContactCapacityZero)
  {
    if bodyCapacity == 0 then Fail(BodyCapacityZero)
    else if contactCapacity == 0 then Fail(ContactCapacityZero)
    else Pass
  }

  /** The slots an island iterator visits as the code is written: an `end` of 0 stands for
      `defaultEnd`, and the loop runs while `i <= end`, so the slot at `end` itself is read
      too; reaching the end of the array raises IndexOutOfRange (the slots before it have
      then already been yielded). */
  function SlotRange<T>(slots: seq<Option<T>>, defaultEnd: nat, start: nat, end: nat)
    : (r: Result<seq<Option<T>>, IslandError>)
    ensures var last := if end == 0 then defaultEnd else end;
            && (last < start ==> r == Success([]))
            && (start <= last < |slots| ==> r.Success? && r.value == slots[start..last + 1])
            && (start <= last && |slots| <= last ==> r == Failure(IndexOutOfRange))
  {
    var last := if end == 0 then defaultEnd else end;
    if last < start then Success([])
    else if last < |slots| then Success(slots[start..last + 1])
    else Failure(IndexOutOfRange)
  }

  /** Finding: on an island holding `count >= 1` bodies, the body iterator with its default
      bounds visits slot `count`. On a full island that is past the array; otherwise it is
      an empty (null) slot, on which the world's static-unmarking loop would fail. */
  lemma BodyIteratorReadsPastCount<T>(slots: seq<Option<T>>, count: nat)
    requires 1 <= count <= |slots|
    requires forall i :: 0 <= i < |slots| ==> (slots[i].Some? <==> i < count)
    ensures count == |slots| ==> SlotRange(slots, count, 0, 0) == Failure(IndexOutOfRange)
    ensures count < |slots| ==>
              && SlotRange(slots, count, 0, 0).Success?
              && |SlotRange(slots, count, 0, 0).value| == count + 1
              && SlotRange(slots, count, 0, 0).value[count] == None
  {
  }

  /** As written, the contact iterator is bounded by the body count: two bodies joined by one
      contact (contact capacity 1) make it read past the contact array. */
  lemma ContactIteratorUsesBodyCount<T>(c: T)
    ensures SlotRange([Some(c)], 2, 0, 0) == Failure(IndexOutOfRange)
  {
  }

  class Island {
    var bodies: array<Option<BodyId>>
    var contacts: array<Option<ContactId>>
    var positions: array<Position>
    var velocities: array<Velocity>
    var bodyCount: nat
    var contactCount: nat
    const bodyCapacity: nat
    const contactCapacity: nat

    /** The bodies added since the last clear, in order. */
    ghost var Bodies: seq<BodyId>
    /** The contacts added since the last clear, in order. */
    ghost var Contacts: seq<ContactId>
    ghost var Repr: set<object>

    /** Occupancy never exceeds capacity; the first `bodyCount` body slots hold the added
        bodies and the rest are empty, and likewise for contacts. The velocity scratch array
        is sized by the contact capacity, as the code allocates it. */
    ghost predicate Valid()
      reads this, Repr
    {
      && Repr == {this, bodies, contacts, positions, velocities}
      && bodies != contacts
      && 0 < bodyCapacity && 0 < contactCapacity
      && bodies.Length == bodyCapacity && positions.Length == bodyCapacity
      && contacts.Length == contactCapacity && velocities.Length == contactCapacity
      && bodyCount == |Bodies| <= bodyCapacity
      && contactCount == |Contacts| <= contactCapacity
      && (forall i :: 0 <= i < bodies.Length ==>
            bodies[i] == if i < bodyCount then Some(Bodies[i]) else None)
      && (forall i :: 0 <= i < contacts.Length ==>
            contacts[i] == if i < contactCount then Some(Contacts[i]) else None)
    }

    constructor (bodyCapacity: nat, contactCapacity: nat)
      requires CheckCapacities(bodyCapacity, contactCapacity).Pass?
      ensures Valid() && fresh(Repr)
      ensures this.bodyCapacity == bodyCapacity && this.contactCapacity == contactCapacity
      ensures bodyCount == 0 && contactCount == 0 && Bodies == [] && Contacts == []
    {
      this.bodyCapacity := bodyCapacity;
      this.contactCapacity := contactCapacity;
      bodyCount := 0;
      contactCount := 0;
      bodies := new Option<BodyId>[bodyCapacity](_ => None);
      contacts := new Option<ContactId>[contactCapacity](_ => None);
      positions := new Position[bodyCapacity];
      velocities := new Velocity[contactCapacity];
      Bodies := [];
      Contacts := [];
      new;
      Repr := {this, bodies, contacts, positions, velocities};
    }

    /** `new Island(bodyCapacity, contactCapacity)`, failing as the constructor throws. */
    static method Create(bodyCapacity: nat, contactCapacity: nat) returns (r: Result<Island, IslandError>)
      ensures r.Failure? <==> CheckCapacities(bodyCapacity, contactCapacity).Fail?
      ensures r.Failure? ==> r.error == CheckCapacities(bodyCapacity, contactCapacity).error
      ensures r.Success? ==>
                && r.value.Valid() && fresh(r.value.Repr)
                && r.value.bodyCapacity == bodyCapacity && r.value.contactCapacity == contactCapacity
                && r.value.Bodies == [] && r.value.Contacts == []
    {
      var check := CheckCapacities(bodyCapacity, contactCapacity);
      if check.Fail? {
        return Failure(check.error);
      }
      var island := new Island(bodyCapacity, contactCapacity);
      return Success(island);
    }

    /** `Add(IInternalBody)`: append at slot `bodyCount`, or fail when full and change nothing. */
    method AddBody(body: BodyId) returns (r: Outcome<IslandError>)
      requires Valid()
      modifies this, bodies
      ensures Valid() && Repr == old(Repr)
      ensures r.Pass? <==> old(bodyCount) < bodyCapacity
      ensures r.Fail? ==> r.error == BodyCapacityFull
      ensures Bodies == if r.Pass? then old(Bodies) + [body] else old(Bodies)
      ensures Contacts == old(Contacts)
    {
      if bodyCount >= bodyCapacity {
        return Fail(BodyCapacityFull);
      }
      bodies[bodyCount] := Some(body);
      bodyCount := bodyCount + 1;
      Bodies := Bodies + [body];
      r := Pass;
    }

    /** `Add(IContact)`: append at slot `contactCount`, or fail when full and change nothing. */
    method AddContact(contact: ContactId) returns (r: Outcome<IslandError>)
      requires Valid()
      modifies this, contacts
      ensures Valid() && Repr == old(Repr)
      ensures r.Pass? <==> old(contactCount) < contactCapacity
      ensures r.Fail? ==> r.error == ContactCapacityFull
      ensures Contacts == if r.Pass? then old(Contacts) + [contact] else old(Contacts)
      ensures Bodies == old(Bodies)
    {
      if contactCount >= contactCapacity {
        return Fail(ContactCapacityFull);
      }
      contacts[contactCount] := Some(contact);
      contactCount := contactCount + 1;
      Contacts := Contacts + [contact];
      r := Pass;
    }

    /** `Clear`: empty both buffers and reallocate every array at the same capacities. Its
        outcome depends on nothing but the capacities, so clearing twice equals clearing once. */
    method Clear()
      requires 0 < bodyCapacity && 0 < contactCapacity
      modifies this
      ensures Valid() && fresh(bodies) && fresh(contacts) && fresh(positions) && fresh(velocities)
      ensures bodyCount == 0 && contactCount == 0 && Bodies == [] && Contacts == []
    {
      var newBodies := EmptySlots(bodyCapacity);
      var newContacts := EmptySlots(contactCapacity);
      var newPositions := new Position[bodyCapacity];
      var newVelocities := new Velocity[contactCapacity];
      bodyCount, contactCount := 0, 0;
      bodies, contacts := newBodies, newContacts;
      positions, velocities := newPositions, newVelocities;
      Bodies, Contacts := [], [];
      Repr := {this, bodies, contacts, positions, velocities};
    }

    /** A fresh array of `n` empty slots. */
    static method EmptySlots<T>(n: nat) returns (slots: array<Option<T>>)
      ensures fresh(slots) && slots.Length == n && forall i :: 0 <= i < n ==> slots[i] == None
    {
      slots := new Option<T>[n](_ => None);
    }

    /** The index checks of the integration pass `Solve`, whose loops write and read
        `positions[i]` and `velocities[i]` for every `i < bodyCount`; the floating-point work
        is not part of this model. As allocated, the velocity array has one slot per contact
        of the capacity, so an island holding more bodies than that overruns it. */
    method SolveSlotsAsWritten() returns (r: Outcome<IslandError>)
      requires Valid()
      ensures r == SolveIndexing(bodyCount, positions.Length, velocities.Length)
      ensures r.Fail? <==> bodyCount > contactCapacity
    {
      for i := 0 to bodyCount
        invariant i <= velocities.Length
      {
        if i >= positions.Length || i >= velocities.Length {
          return Fail(IndexOutOfRange);
        }
      }
      return Pass;
    }

    /** The body iterator with its default bounds as evidently intended: exactly the
        `bodyCount` bodies added, in order. */
    method BodyIterator() returns (items: seq<BodyId>)
      requires Valid()
      ensures items == Bodies
    {
      items := [];
      var i := 0;
      while i < bodyCount
        invariant 0 <= i <= bodyCount
        invariant items == Bodies[..i]
      {
        items := items + [bodies[i].value];
        i := i + 1;
      }
    }

    /** The contact iterator with its default bounds as evidently intended: exactly the
        `contactCount` contacts added, in order. */
    method ContactIterator() returns (items: seq<ContactId>)
      requires Valid()
      ensures items == Contacts
    {
      items := [];
      var i := 0;
      while i < contactCount
        invariant 0 <= i <= contactCount
        invariant items == Contacts[..i]
      {
        items := items + [contacts[i].value];
        i := i + 1;
      }
    }

    /** `BodyIterator(start, end)` as written: the loop runs `i <= end`. */
    method BodyIteratorAsWritten(start: uint32, end: uint32) returns (r: Result<seq<Option<BodyId>>, IslandError>)
      requires Valid()
      ensures r == SlotRange(bodies[..], bodyCount, start, end)
    {
      r := VisitSlots(bodies, bodyCount, start, end);
    }

    /** `ContactIterator(start, end)` as written: it defaults `end` to the body count. */
    method ContactIteratorAsWritten(start: uint32, end: uint32) returns (r: Result<seq<Option<ContactId>>, IslandError>)
      requires Valid()
      ensures r == SlotRange(contacts[..], bodyCount, start, end)
    {
      r := VisitSlots(contacts, bodyCount, start, end);
    }

    /** The shared loop of the two as-written iterators. */
    static method VisitSlots<T>(slots: array<Option<T>>, defaultEnd: nat, start: nat, end: nat)
      returns (r: Result<seq<Option<T>>, IslandError>)
      ensures r == SlotRange(slots[..], defaultEnd, start, end)
    {
      var last := if end == 0 then defaultEnd else end;
      var visited := [];
      var i := start;
      while i <= last
        invariant start <= i && (start <= last ==> i <= last + 1) && (last < start ==> i == start)
        invariant i == start || i <= slots.Length
        invariant visited == if i <= slots.Length then slots[start..i] else []
        decreases last + 1 - i
      {
        if i >= slots.Length {
          return Failure(IndexOutOfRange);
        }
        visited := visited + [slots[i]];
        i := i + 1;
      }
      assert start <= last ==> visited == slots[..][start..last + 1];
      return Success(visited);
    }
  }
}
