/**
 Sending collected budget events. A sender walks over the list object it found at its start,
 awaiting between elements; meanwhile other tasks append to the current list or replace it by
 one without their own events. List objects are numbered, so that a sender may keep walking
 over an object that is no longer current. One such list stands for each of the two kinds.
 */
module BudgetEvents {
  import opened Wrappers
  import opened Budget

  /** A send in progress: the list object being walked and the next index. */
  datatype Sender = Sender(list: nat, index: nat)

  datatype World = World(
    lists: seq<seq<Event>>, current: nat, senders: map<nat, Sender>,
    generated: seq<Event>, sent: seq<Event>)

  const INIT := World([[]], 0, map[], [], [])

  datatype Step =
    | Generate(event: Event)  // the task's own charge; its send is not under way then
    | Begin(task: nat)
    | Advance(task: nat)

  function Without(events: seq<Event>, t: nat): seq<Event> {
    if events == [] then []
    else
      Without(events[..|events| - 1], t)
      + (if events[|events| - 1].task == t then [] else [events[|events| - 1]])
  }

  function Next(w: World, step: Step): World {
    match step
    case Generate(e) =>
      if e.task in w.senders || w.current >= |w.lists| then w
      else w.(lists := w.lists[w.current := w.lists[w.current] + [e]], generated := w.generated + [e])
    case Begin(t) => if t in w.senders then w else w.(senders := w.senders[t := Sender(w.current, 0)])
    case Advance(t) =>
      if t !in w.senders || w.current >= |w.lists| || w.senders[t].list >= |w.lists| then w
      else
        var Sender(list, index) := w.senders[t];
        if index < |w.lists[list]| then
          var e := w.lists[list][index];
          w.(senders := w.senders[t := Sender(list, index + 1)],
             sent := if e.task == t then w.sent + [e] else w.sent)
        else
          w.(lists := w.lists + [Without(w.lists[w.current], t)], current := |w.lists|,
             senders := w.senders - {t})
  }

  function RunSends(steps: seq<Step>): World {
    if steps == [] then INIT else Next(RunSends(steps[..|steps| - 1]), steps[|steps| - 1])
  }

  // ---- events of one task ------------------------------------------------------------------

  lemma {:induction false} EventsOfConcat(a: seq<Event>, b: seq<Event>, t: nat)
    ensures EventsOf(a + b, t) == EventsOf(a, t) + EventsOf(b, t)
  {
    if b == [] {
      assert a + b == a;
    } else {
      var front := b[..|b| - 1];
      assert (a + b)[..|a + b| - 1] == a + front;
      EventsOfConcat(a, front, t);
    }
  }

  lemma {:induction false} EventsOfWithout(events: seq<Event>, u: nat, t: nat)
    ensures EventsOf(Without(events, u), t) == if t == u then [] else EventsOf(events, t)
  {
    if events != [] {
      var front, last := events[..|events| - 1], events[|events| - 1];
      EventsOfWithout(front, u, t);
      if last.task != u {
        EventsOfSnoc(Without(front, u), last, t);
      } else {
        assert Without(events, u) == Without(front, u);
      }
    }
  }

  /**
   What has been sent of a task and what is still to send make up what it generated; the object
   its sender walks agrees with the current one on the task's events.
   */
  ghost predicate InOrder(w: World, t: nat) {
    && w.current < |w.lists|
    && (t !in w.senders ==> EventsOf(w.sent, t) + EventsOf(w.lists[w.current], t) == EventsOf(w.generated, t))
    && (t in w.senders ==>
          var Sender(list, index) := w.senders[t];
          && list < |w.lists| && index <= |w.lists[list]|
          && EventsOf(w.lists[list], t) == EventsOf(w.lists[w.current], t)
          && EventsOf(w.sent, t) + EventsOf(w.lists[list][index..], t) == EventsOf(w.generated, t))
  }

  lemma GenerateWhileNotSending(w: World, e: Event, t: nat)
    requires InOrder(w, t) && t !in w.senders
    ensures InOrder(Next(w, Generate(e)), t)
  {
    EventsOfSnoc(w.lists[w.current], e, t);
    EventsOfSnoc(w.generated, e, t);
    var added: seq<Event> := if e.task == t then [e] else [];
    Assoc(EventsOf(w.sent, t), EventsOf(w.lists[w.current], t), added);
  }

  lemma GenerateWhileSending(w: World, e: Event, t: nat)
    requires InOrder(w, t) && t in w.senders
    ensures InOrder(Next(w, Generate(e)), t)
  {
    var v := Next(w, Generate(e));
    if v != w {
      var Sender(list, index) := w.senders[t];
      assert e.task != t;
      EventsOfSnoc(w.lists[w.current], e, t);
      EventsOfSnoc(w.generated, e, t);
      if list == w.current {
        assert v.lists[list][index..] == w.lists[list][index..] + [e];
        EventsOfSnoc(w.lists[list][index..], e, t);
      }
    }
  }

  /** The sender's own step over an element: what it sends leaves the rest of its list. */
  lemma SendNext(w: World, t: nat)
    requires InOrder(w, t) && t in w.senders && w.senders[t].index < |w.lists[w.senders[t].list]|
    ensures InOrder(Next(w, Advance(t)), t)
  {
    var Sender(list, index) := w.senders[t];
    var e, rest := w.lists[list][index], w.lists[list][index + 1..];
    assert w.lists[list][index..] == [e] + rest;
    EventsOfConcat([e], rest, t);
    EventsOfSnoc([], e, t);
    assert [] + [e] == [e];
    EventsOfSnoc(w.sent, e, t);
    var out: seq<Event> := if e.task == t then [e] else [];
    Assoc(EventsOf(w.sent, t), out, EventsOf(rest, t));
  }

  lemma SendEnds(w: World, t: nat)
    requires InOrder(w, t) && t in w.senders && w.senders[t].index == |w.lists[w.senders[t].list]|
    ensures InOrder(Next(w, Advance(t)), t)
  {
    EventsOfWithout(w.lists[w.current], t, t);
    assert w.lists[w.senders[t].list][w.senders[t].index..] == [];
  }

  lemma OtherSendNext(w: World, u: nat, t: nat)
    requires InOrder(w, t) && u != t
    requires u in w.senders && w.senders[u].list < |w.lists| && w.senders[u].index < |w.lists[w.senders[u].list]|
    ensures InOrder(Next(w, Advance(u)), t)
  {
    var v := Next(w, Advance(u));
    EventsOfSnoc(w.sent, w.lists[w.senders[u].list][w.senders[u].index], t);
    assert EventsOf(v.sent, t) == EventsOf(w.sent, t);
    assert v.lists == w.lists && v.current == w.current && v.generated == w.generated;
    if t in w.senders { assert v.senders[t] == w.senders[t]; } else { assert t !in v.senders; }
  }

  lemma OtherSendEnds(w: World, u: nat, t: nat)
    requires InOrder(w, t) && u != t
    requires u in w.senders && w.senders[u].list < |w.lists| && w.senders[u].index >= |w.lists[w.senders[u].list]|
    ensures InOrder(Next(w, Advance(u)), t)
  {
    var v := Next(w, Advance(u));
    assert v.lists[v.current] == Without(w.lists[w.current], u);
    EventsOfWithout(w.lists[w.current], u, t);
    if t in w.senders {
      assert v.senders[t] == w.senders[t] && v.lists[v.senders[t].list] == w.lists[w.senders[t].list];
    }
  }

  lemma OtherAdvanceKeepsOrder(w: World, u: nat, t: nat)
    requires InOrder(w, t) && u != t
    ensures InOrder(Next(w, Advance(u)), t)
  {
    if u in w.senders && w.senders[u].list < |w.lists| {
      if w.senders[u].index < |w.lists[w.senders[u].list]| {
        OtherSendNext(w, u, t);
      } else {
        OtherSendEnds(w, u, t);
      }
    }
  }

  lemma {:induction false} AlwaysInOrder(steps: seq<Step>, t: nat)
    ensures InOrder(RunSends(steps), t)
  {
    if steps != [] {
      AlwaysInOrder(steps[..|steps| - 1], t);
      var w, step := RunSends(steps[..|steps| - 1]), steps[|steps| - 1];
      match step
      case Generate(e) =>
        if t in w.senders { GenerateWhileSending(w, e, t); } else { GenerateWhileNotSending(w, e, t); }
      case Begin(u) =>
        if u == t { assert w.lists[w.current][0..] == w.lists[w.current]; }
      case Advance(u) =>
        if u != t { OtherAdvanceKeepsOrder(w, u, t); }
        else if t in w.senders {
          if w.senders[t].index < |w.lists[w.senders[t].list]| { SendNext(w, t); } else { SendEnds(w, t); }
        }
    }
  }

  /** At any moment the events sent of a task are the first it generated, each once, in order. */
  lemma SentInOrder(steps: seq<Step>, t: nat)
    ensures EventsOf(RunSends(steps).sent, t) <= EventsOf(RunSends(steps).generated, t)
  {
    AlwaysInOrder(steps, t);
  }

  /** When a task's send has ended, exactly the events it generated have been sent. */
  lemma NothingLeftAfterSend(steps: seq<Step>, t: nat)
    requires t in RunSends(steps).senders && t !in Next(RunSends(steps), Advance(t)).senders
    ensures var v := Next(RunSends(steps), Advance(t));
            && EventsOf(v.sent, t) == EventsOf(v.generated, t)
            && EventsOf(v.lists[v.current], t) == []
  {
    AlwaysInOrder(steps, t);
    var w := RunSends(steps);
    var Sender(list, index) := w.senders[t];
    assert w.lists[list][index..] == [];
    EventsOfWithout(w.lists[w.current], t, t);
  }
}
