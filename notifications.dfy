/** Contact notifications. The world raises them synchronously while it commits (or rewinds)
    the contacts' current tier: first to each of the contact's two bodies, then at world
    level. The model records them as an ordered trace of events. */
module Notifications {
  import opened Common
  import opened Contacts

  datatype Event =
    | BodyContactStarted(body: BodyId, contact: ContactId)
    | BodyContactEnded(body: BodyId, contact: ContactId)
    | ContactStarted(contact: ContactId)
    | ContactEnded(contact: ContactId)
    | BodyContactStartForeseen(body: BodyId, contact: ContactId)
    | BodyContactEndForeseen(body: BodyId, contact: ContactId)
    | ContactStartForeseen(contact: ContactId)
    | ContactEndForeseen(contact: ContactId)
  {
    /** Raised by the world itself rather than by one of the contact's bodies. */
    predicate WorldLevel() {
      ContactStarted? || ContactEnded? || ContactStartForeseen? || ContactEndForeseen?
    }

    /** A notification that a contact started touching. */
    predicate Starting() {
      BodyContactStarted? || ContactStarted?
    }

    /** A notification that a contact stopped touching. */
    predicate Ending() {
      BodyContactEnded? || ContactEnded?
    }

    /** A notification that a contact is foreseen to start touching. */
    predicate ForeseesStart() {
      BodyContactStartForeseen? || ContactStartForeseen?
    }

    /** A notification that a contact is foreseen to stop touching. */
    predicate ForeseesEnd() {
      BodyContactEndForeseen? || ContactEndForeseen?
    }
  }

  /** A contact's current-tier touching flag goes from false to true. */
  predicate Starts(wasTouching: bool, isTouching: bool) {
    !wasTouching && isTouching
  }

  /** A contact's current-tier touching flag goes from true to false. */
  predicate Ends(wasTouching: bool, isTouching: bool) {
    wasTouching && !isTouching
  }

  /** The notifications for contact `c` (joining the bodies of `k`) whose current-tier touching
      flag goes from `wasTouching` to `isTouching`: nothing when it does not flip, otherwise
      both bodies and then the world, all of one kind. */
  function Transition(c: ContactId, k: Contact, wasTouching: bool, isTouching: bool): (evs: seq<Event>)
    ensures ContactStarted(c) in evs <==> Starts(wasTouching, isTouching)
    ensures ContactEnded(c) in evs <==> Ends(wasTouching, isTouching)
    ensures evs == [] <==> wasTouching == isTouching
    ensures evs != [] ==>
              && |evs| == 3
              && !evs[0].WorldLevel() && evs[0].body == k.bodyA
              && !evs[1].WorldLevel() && evs[1].body == k.bodyB
              && evs[2].WorldLevel()
    ensures forall i :: 0 <= i < |evs| ==> evs[i].contact == c
    ensures forall i :: 0 <= i < |evs| ==> (evs[i].Starting() <==> Starts(wasTouching, isTouching))
    ensures forall i :: 0 <= i < |evs| ==> (evs[i].Ending() <==> Ends(wasTouching, isTouching))
  {
    if Starts(wasTouching, isTouching) then
      [BodyContactStarted(k.bodyA, c), BodyContactStarted(k.bodyB, c), ContactStarted(c)]
    else if Ends(wasTouching, isTouching) then
      [BodyContactEnded(k.bodyA, c), BodyContactEnded(k.bodyB, c), ContactEnded(c)]
    else
      []
  }

  /** The notifications of one commit that visits the contacts in `order`, comparing each
      contact's flag in `before` with its committed flag `touching(c)`. */
  function CommitTrace(order: seq<ContactId>, before: map<ContactId, Contact>, touching: ContactId -> bool)
    : seq<Event>
    requires forall c :: c in order ==> c in before
  {
    if order == [] then []
    else
      var c := order[0];
      Transition(c, before[c], before[c].currentTouching, touching(c)) + CommitTrace(order[1..], before, touching)
  }

  /** Visiting one more contact appends exactly that contact's notifications. */
  lemma {:induction false} CommitTraceAppend(order: seq<ContactId>, c: ContactId,
                                             before: map<ContactId, Contact>, touching: ContactId -> bool)
    requires forall x :: x in order ==> x in before
    requires c in before
    ensures CommitTrace(order + [c], before, touching)
            == CommitTrace(order, before, touching) + Transition(c, before[c], before[c].currentTouching, touching(c))
  {
    if order == [] {
      assert [c][1..] == [];
    } else {
      assert (order + [c])[1..] == order[1..] + [c];
      CommitTraceAppend(order[1..], c, before, touching);
    }
  }

  /** How often one event occurs in a trace. */
  function Occurrences(trace: seq<Event>, e: Event): nat {
    multiset(trace)[e]
  }

  /** In a commit that visits every contact once, contact `c`'s world-level "started"
      notification occurs exactly once if `c` was visited and its flag went false to true, and
      never otherwise; likewise "ended" for true to false. */
  lemma {:induction false} CommitTraceNotifiesOnce(order: seq<ContactId>, before: map<ContactId, Contact>,
                                                   touching: ContactId -> bool, c: ContactId)
    requires forall x :: x in order ==> x in before
    requires Distinct(order)
    ensures Occurrences(CommitTrace(order, before, touching), ContactStarted(c))
            == if c in order && Starts(before[c].currentTouching, touching(c)) then 1 else 0
    ensures Occurrences(CommitTrace(order, before, touching), ContactEnded(c))
            == if c in order && Ends(before[c].currentTouching, touching(c)) then 1 else 0
  {
    if order != [] {
      var x := order[0];
      var head := Transition(x, before[x], before[x].currentTouching, touching(x));
      DistinctTail(order);
      CommitTraceNotifiesOnce(order[1..], before, touching, c);
      assert multiset(CommitTrace(order, before, touching))
             == multiset(head) + multiset(CommitTrace(order[1..], before, touching));
      if x != c {
        assert ContactStarted(c) !in head && ContactEnded(c) !in head;
        assert c in order <==> c in order[1..];
      }
    }
  }

  /** The notifications the world relays when a contact's forecast says that contact `c`
      (joining the bodies of `k`) will start (`starting`) or stop touching: both bodies, then
      the world, all of the one kind. */
  function Foreseen(c: ContactId, k: Contact, starting: bool): (evs: seq<Event>)
    ensures |evs| == 3
    ensures !evs[0].WorldLevel() && evs[0].body == k.bodyA
    ensures !evs[1].WorldLevel() && evs[1].body == k.bodyB
    ensures evs[2].WorldLevel()
    ensures forall e :: e in evs ==> e.contact == c
    ensures forall e :: e in evs ==> (e.ForeseesStart() <==> starting) && (e.ForeseesEnd() <==> !starting)
  {
    if starting then
      [BodyContactStartForeseen(k.bodyA, c), BodyContactStartForeseen(k.bodyB, c), ContactStartForeseen(c)]
    else
      [BodyContactEndForeseen(k.bodyA, c), BodyContactEndForeseen(k.bodyB, c), ContactEndForeseen(c)]
  }

  /** Every notification of `evs` is a foreseen start or a foreseen end. */
  predicate AllForeseen(evs: seq<Event>) {
    forall i :: 0 <= i < |evs| ==> evs[i].ForeseesStart() || evs[i].ForeseesEnd()
  }

  /** Foreseen notifications followed by foreseen notifications are foreseen notifications. */
  lemma AllForeseenAppend(evs: seq<Event>, more: seq<Event>)
    requires AllForeseen(evs) && AllForeseen(more)
    ensures AllForeseen(evs + more)
  {
    forall i | 0 <= i < |evs + more| ensures (evs + more)[i].ForeseesStart() || (evs + more)[i].ForeseesEnd() {
      if i >= |evs| {
        assert (evs + more)[i] == more[i - |evs|];
      }
    }
  }

  /** The notifications relayed while the collision pass visits the contacts in `order`:
      each contact it reports as foreseen to start (`Some(true)`) or to stop
      (`Some(false)`) touching gets its relay; the others get nothing. */
  function ForeseenTrace(order: seq<ContactId>, contacts: map<ContactId, Contact>,
                         foreseen: ContactId -> Option<bool>): (evs: seq<Event>)
    requires forall c :: c in order ==> c in contacts
    ensures AllForeseen(evs)
    decreases |order|
  {
    if order == [] then []
    else
      var c := order[|order| - 1];
      assert order == order[..|order| - 1] + [c];
      var evs := ForeseenTrace(order[..|order| - 1], contacts, foreseen);
      var relay := Relay(c, contacts[c], foreseen(c));
      AllForeseenAppend(evs, relay);
      evs + relay
  }

  /** The relay of a visit raises a contact's world-level foreseen start exactly when the
      collision pass reported that contact as foreseen to start, and likewise for ends. */
  lemma {:induction false} ForeseenTraceReports(order: seq<ContactId>, contacts: map<ContactId, Contact>,
                                                foreseen: ContactId -> Option<bool>, c: ContactId)
    requires forall x :: x in order ==> x in contacts
    ensures ContactStartForeseen(c) in ForeseenTrace(order, contacts, foreseen) <==> c in order && foreseen(c) == Some(true)
    ensures ContactEndForeseen(c) in ForeseenTrace(order, contacts, foreseen) <==> c in order && foreseen(c) == Some(false)
    decreases |order|
  {
    if order != [] {
      var x := order[|order| - 1];
      var init := order[..|order| - 1];
      assert order == init + [x];
      ForeseenTraceReports(init, contacts, foreseen, c);
      var relay := Relay(x, contacts[x], foreseen(x));
      assert ForeseenTrace(order, contacts, foreseen) == ForeseenTrace(init, contacts, foreseen) + relay;
      assert ContactStartForeseen(c) in relay <==> c == x && foreseen(x) == Some(true);
      assert ContactEndForeseen(c) in relay <==> c == x && foreseen(x) == Some(false);
      assert c in order <==> c in init || c == x;
    }
  }

  /** The relay for one contact the collision pass visits: nothing unless it is reported. */
  function Relay(c: ContactId, k: Contact, report: Option<bool>): (evs: seq<Event>)
    ensures report.None? <==> evs == []
    ensures report.Some? ==> evs == Foreseen(c, k, report.value)
  {
    match report
    case None => []
    case Some(starting) => Foreseen(c, k, starting)
  }

  /** Visiting one more contact appends its relay. */
  lemma ForeseenTraceAppend(order: seq<ContactId>, contacts: map<ContactId, Contact>,
                            foreseen: ContactId -> Option<bool>, c: ContactId)
    requires forall x :: x in order ==> x in contacts
    requires c in contacts
    ensures ForeseenTrace(order + [c], contacts, foreseen)
            == ForeseenTrace(order, contacts, foreseen) + Relay(c, contacts[c], foreseen(c))
  {
    assert (order + [c])[..|order|] == order;
  }

  /** The relay of a foreseen end as the code is written: the two bodies are told that the
      contact is foreseen to start, and only the world-level notification says it ends. */
  function EndForeseenAsWritten(c: ContactId, k: Contact): (evs: seq<Event>)
    ensures |evs| == 3 && evs[..2] == Foreseen(c, k, true)[..2]
    ensures evs[2] == Foreseen(c, k, false)[2]
  {
    [BodyContactStartForeseen(k.bodyA, c), BodyContactStartForeseen(k.bodyB, c), ContactEndForeseen(c)]
  }

  /** Finding: as written, a foreseen end reaches each body as a foreseen start, so a body
      hears "start" twice and never "end", while the world hears "end". */
  lemma EndForeseenTellsBodiesStart(c: ContactId, k: Contact)
    ensures var evs := EndForeseenAsWritten(c, k);
            && evs[0].ForeseesStart() && evs[1].ForeseesStart() && evs[2].ForeseesEnd()
            && evs != Foreseen(c, k, false)
  {
    assert EndForeseenAsWritten(c, k)[0] != Foreseen(c, k, false)[0];
  }
}
