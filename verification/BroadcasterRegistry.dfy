/**
 The per-run broadcaster channels of the AG-UI server: created on the first subscription,
 counted by clients, evicted when terminal and empty. A broadcaster is represented by its
 identity, a number that is never reused; its queues are not modelled.
 */
module BroadcasterRegistry {
  type RunId = nat
  type Client = nat

  datatype Channel = Channel(broadcaster: nat, clientCount: nat, terminal: bool)

  datatype Channels = Channels(byRun: map<RunId, Channel>, created: nat)

  const NO_CHANNELS := Channels(map[], 0)

  predicate Stale(ch: Channel) {
    ch.terminal && ch.clientCount == 0
  }

  function GetOrCreate(s: Channels, run: RunId): Channels {
    if run in s.byRun then s
    else Channels(s.byRun[run := Channel(s.created, 0, false)], s.created + 1)
  }

  function Swept(s: Channels): Channels {
    s.(byRun := map r | r in s.byRun && !Stale(s.byRun[r]) :: s.byRun[r])
  }

  function Subscribed(s: Channels, run: RunId): Channels {
    var s1 := GetOrCreate(Swept(s), run);
    s1.(byRun := s1.byRun[run := s1.byRun[run].(clientCount := s1.byRun[run].clientCount + 1)])
  }

  function Evict(s: Channels, run: RunId): Channels {
    s.(byRun := s.byRun - {run})
  }

  /** The count is clamped at zero. */
  function Unsubscribed(s: Channels, run: RunId): Channels {
    if run !in s.byRun then s
    else
      var ch := s.byRun[run];
      var left := ch.(clientCount := if ch.clientCount > 0 then ch.clientCount - 1 else 0);
      if Stale(left) then Evict(s, run) else s.(byRun := s.byRun[run := left])
  }

  function MarkedTerminal(s: Channels, run: RunId): Channels {
    if run !in s.byRun then s
    else
      var done := s.byRun[run].(terminal := true);
      if Stale(done) then Evict(s, run) else s.(byRun := s.byRun[run := done])
  }

  class Registry {
    var channels: map<RunId, Channel>
    var created: nat

    function Model(): Channels
      reads this
    {
      Channels(channels, created)
    }

    constructor ()
      ensures Model() == NO_CHANNELS
    {
      channels, created := map[], 0;
    }

    method GetOrCreateChannel(run: RunId) returns (broadcaster: nat)
      modifies this
      ensures Model() == GetOrCreate(old(Model()), run)
      ensures run in channels && broadcaster == channels[run].broadcaster
    {
      if run !in channels {
        channels := channels[run := Channel(created, 0, false)];
        created := created + 1;
      }
      broadcaster := channels[run].broadcaster;
    }

    method Sweep()
      modifies this
      ensures Model() == Swept(old(Model())) && created == old(created)
      ensures forall r :: r in channels <==>
        r in old(channels) && !(old(channels)[r].terminal && old(channels)[r].clientCount == 0)
      ensures forall r :: r in channels ==> channels[r] == old(channels)[r]
    {
      var stale := set r | r in channels && Stale(channels[r]);
      var rest := stale;
      while rest != {}
        invariant rest <= stale && created == old(created)
        invariant channels == old(channels) - (stale - rest)
        decreases rest
      {
        var run :| run in rest;
        rest := rest - {run};
        channels := channels - {run};
      }
      assert channels == Swept(old(Model())).byRun;
    }

    method Subscribe(run: RunId) returns (broadcaster: nat)
      modifies this
      ensures Model() == Subscribed(old(Model()), run)
      ensures run in channels && broadcaster == channels[run].broadcaster
    {
      Sweep();
      broadcaster := GetOrCreateChannel(run);
      channels := channels[run := channels[run].(clientCount := channels[run].clientCount + 1)];
    }

    method Unsubscribe(run: RunId)
      modifies this
      ensures Model() == Unsubscribed(old(Model()), run)
    {
      if run !in channels {
        return;
      }
      var ch := channels[run];
      ch := ch.(clientCount := if ch.clientCount > 0 then ch.clientCount - 1 else 0);
      channels := channels[run := ch];
      if ch.clientCount == 0 && ch.terminal {
        channels := channels - {run};
        assert channels == old(channels) - {run};
      }
    }

    method MarkTerminal(run: RunId)
      modifies this
      ensures Model() == MarkedTerminal(old(Model()), run)
    {
      if run !in channels {
        return;
      }
      channels := channels[run := channels[run].(terminal := true)];
      if channels[run].clientCount == 0 {
        channels := channels - {run};
        assert channels == old(channels) - {run};
      }
    }
  }

  // ---- any calls at all: nothing to sweep -----------------------------------------------

  datatype Call = Look(run: RunId) | Join(run: RunId) | Leave(run: RunId) | Finish(run: RunId)

  function Apply(s: Channels, c: Call): Channels {
    match c
    case Look(run) => GetOrCreate(s, run)
    case Join(run) => Subscribed(s, run)
    case Leave(run) => Unsubscribed(s, run)
    case Finish(run) => MarkedTerminal(s, run)
  }

  function ApplyAll(calls: seq<Call>): Channels {
    if calls == [] then NO_CHANNELS else Apply(ApplyAll(calls[..|calls| - 1]), calls[|calls| - 1])
  }

  /**
   After any calls whatever no stored channel is terminal and empty, so the sweep of `subscribe`
   evicts nothing: an entry whose clients left before its run was marked terminal stays until
   the run is marked, however many subscriptions follow.
   */
  lemma {:induction false} SweepNeverEvicts(calls: seq<Call>)
    ensures forall r :: r in ApplyAll(calls).byRun ==> !Stale(ApplyAll(calls).byRun[r])
    ensures Swept(ApplyAll(calls)) == ApplyAll(calls)
  {
    if calls != [] {
      SweepNeverEvicts(calls[..|calls| - 1]);
    }
    assert Swept(ApplyAll(calls)).byRun == ApplyAll(calls).byRun;
  }

  // ---- what one call does to the channel of its run ------------------------------------------

  /** The channels before and after one more call of any kind. */
  ghost predicate OneMore(calls: seq<Call>, c: Call, s: Channels, v: Channels) {
    s == ApplyAll(calls) && v == ApplyAll(calls + [c])
  }

  lemma OneMoreApplies(calls: seq<Call>, c: Call, s: Channels, v: Channels)
    requires OneMore(calls, c, s, v)
    ensures v == Apply(s, c) && Swept(s) == s
  {
    assert (calls + [c])[..|calls|] == calls;
    SweepNeverEvicts(calls);
  }

  /** The end of a run marks its channel, or removes it if nobody watches any more. */
  lemma FinishMarks(calls: seq<Call>, run: RunId, s: Channels, v: Channels)
    requires OneMore(calls, Finish(run), s, v)
    ensures run in v.byRun <==> run in s.byRun && s.byRun[run].clientCount > 0
    ensures run in v.byRun ==> v.byRun[run] == s.byRun[run].(terminal := true)
    ensures v.created == s.created && forall r :: r != run ==> SameChannel(s, v, r)
  {
    OneMoreApplies(calls, Finish(run), s, v);
  }

  predicate SameChannel(s: Channels, v: Channels, r: RunId) {
    (r in v.byRun <==> r in s.byRun) && (r in s.byRun ==> v.byRun[r] == s.byRun[r])
  }

  /** A leaving client is counted off; the last one to leave an ended run takes the channel along. */
  lemma LeaveCountsOff(calls: seq<Call>, run: RunId, s: Channels, v: Channels)
    requires OneMore(calls, Leave(run), s, v)
    ensures run in v.byRun <==> run in s.byRun && !(s.byRun[run].terminal && s.byRun[run].clientCount == 1)
    ensures run in v.byRun ==>
      v.byRun[run] == s.byRun[run].(
        clientCount := if s.byRun[run].clientCount == 0 then 0 else s.byRun[run].clientCount - 1)
    ensures v.created == s.created && forall r :: r != run ==> SameChannel(s, v, r)
  {
    OneMoreApplies(calls, Leave(run), s, v);
    SweepNeverEvicts(calls);
  }

  /** A joining client is counted on the channel of its run, which is new if there was none. */
  lemma JoinCountsOn(calls: seq<Call>, run: RunId, s: Channels, v: Channels)
    requires OneMore(calls, Join(run), s, v)
    ensures run in v.byRun && v.byRun[run] ==
      if run in s.byRun then s.byRun[run].(clientCount := s.byRun[run].clientCount + 1)
      else Channel(s.created, 1, false)
    ensures v.created == s.created + (if run in s.byRun then 0 else 1)
    ensures forall r :: r != run ==> SameChannel(s, v, r)
  {
    OneMoreApplies(calls, Join(run), s, v);
  }

  lemma LookCreates(calls: seq<Call>, run: RunId, s: Channels, v: Channels)
    requires OneMore(calls, Look(run), s, v)
    ensures run in v.byRun && v.byRun[run] == if run in s.byRun then s.byRun[run] else Channel(s.created, 0, false)
    ensures v.created == s.created + (if run in s.byRun then 0 else 1)
    ensures forall r :: r != run ==> SameChannel(s, v, r)
  {
    OneMoreApplies(calls, Look(run), s, v);
  }

  // ---- clients that subscribe and unsubscribe once --------------------------------------

  datatype Seat = Seat(run: RunId, broadcaster: nat)

  /** The seats of the clients that are connected; `past` are those that have left. */
  datatype World = World(channels: Channels, live: map<Client, Seat>, past: set<Client>)

  datatype Step = Connect(client: Client, run: RunId) | Disconnect(client: Client) | EndRun(run: RunId)

  const INIT := World(NO_CHANNELS, map[], {})

  function Next(w: World, step: Step): World {
    match step
    case Connect(c, run) =>
      if c in w.live || c in w.past then w
      else
        var s := Subscribed(w.channels, run);
        w.(channels := s, live := w.live[c := Seat(run, s.byRun[run].broadcaster)])
    case Disconnect(c) =>
      if c !in w.live then w
      else World(Unsubscribed(w.channels, w.live[c].run), w.live - {c}, w.past + {c})
    case EndRun(run) => w.(channels := MarkedTerminal(w.channels, run))
  }

  function Run(steps: seq<Step>): World {
    if steps == [] then INIT else Next(Run(steps[..|steps| - 1]), steps[|steps| - 1])
  }

  function CountOf(s: Channels, run: RunId): nat {
    if run in s.byRun then s.byRun[run].clientCount else 0
  }

  function ClientsOf(w: World, run: RunId): set<Client> {
    set c | c in w.live && w.live[c].run == run
  }

  ghost predicate Inv(w: World) {
    (forall r :: CountInv(w, r)) && SeatsInv(w) && BroadcastersInv(w.channels)
  }

  /** The client count of a run is the number of its connected clients. */
  ghost predicate CountInv(w: World, r: RunId) {
    |ClientsOf(w, r)| == CountOf(w.channels, r)
  }

  /** A connected client holds the broadcaster of its run's channel. */
  ghost predicate SeatsInv(w: World) {
    forall c :: c in w.live ==>
      && w.live[c].run in w.channels.byRun
      && w.live[c].broadcaster == w.channels.byRun[w.live[c].run].broadcaster
  }

  ghost predicate BroadcastersInv(s: Channels) {
    && (forall r :: r in s.byRun ==> !Stale(s.byRun[r]) && s.byRun[r].broadcaster < s.created)
    && (forall r, q :: r in s.byRun && q in s.byRun && r != q ==> s.byRun[r].broadcaster != s.byRun[q].broadcaster)
  }

  lemma SubscribedCounts(s: Channels, run: RunId, r: RunId)
    requires BroadcastersInv(s)
    ensures CountOf(Subscribed(s, run), r) == CountOf(s, r) + if r == run then 1 else 0
  {
    assert Swept(s).byRun == s.byRun;
  }

  lemma UnsubscribedCounts(s: Channels, run: RunId, r: RunId)
    requires CountOf(s, run) > 0
    ensures CountOf(Unsubscribed(s, run), r) == CountOf(s, r) - if r == run then 1 else 0
  {
  }

  lemma ConnectKeepsCount(w: World, c: Client, run: RunId, r: RunId)
    requires CountInv(w, r) && BroadcastersInv(w.channels)
    ensures CountInv(Next(w, Connect(c, run)), r)
  {
    var v := Next(w, Connect(c, run));
    if v != w {
      SubscribedCounts(w.channels, run, r);
      assert v.live[c].run == run;
      if r == run {
        assert ClientsOf(v, r) == ClientsOf(w, r) + {c};
      } else {
        assert ClientsOf(v, r) == ClientsOf(w, r);
      }
    }
  }

  lemma DisconnectKeepsCount(w: World, c: Client, r: RunId)
    requires CountInv(w, r) && (c in w.live ==> CountInv(w, w.live[c].run))
    ensures CountInv(Next(w, Disconnect(c)), r)
  {
    if c in w.live {
      var v := Next(w, Disconnect(c));
      var run := w.live[c].run;
      assert c in ClientsOf(w, run);
      UnsubscribedCounts(w.channels, run, r);
      assert ClientsOf(v, r) == ClientsOf(w, r) - {c};
    }
  }

  lemma EndRunKeepsCount(w: World, run: RunId, r: RunId)
    requires CountInv(w, r)
    ensures CountInv(Next(w, EndRun(run)), r)
  {
    assert ClientsOf(Next(w, EndRun(run)), r) == ClientsOf(w, r);
  }

  lemma NextKeepsCount(w: World, step: Step, r: RunId)
    requires Inv(w)
    ensures CountInv(Next(w, step), r)
  {
    assert CountInv(w, r);
    match step
    case Connect(c, run) => ConnectKeepsCount(w, c, run, r);
    case Disconnect(c) =>
      assert c in w.live ==> CountInv(w, w.live[c].run);
      DisconnectKeepsCount(w, c, r);
    case EndRun(run) => EndRunKeepsCount(w, run, r);
  }

  lemma NextKeepsSeats(w: World, step: Step)
    requires Inv(w) && forall r :: CountInv(Next(w, step), r)
    ensures SeatsInv(Next(w, step))
  {
    var v := Next(w, step);
    assert Swept(w.channels).byRun == w.channels.byRun;
    forall c | c in v.live ensures v.live[c].run in v.channels.byRun {
      assert c in ClientsOf(v, v.live[c].run) && CountInv(v, v.live[c].run);
    }
  }

  lemma NextKeepsBroadcasters(w: World, step: Step)
    requires BroadcastersInv(w.channels)
    ensures BroadcastersInv(Next(w, step).channels)
  {
    assert Swept(w.channels).byRun == w.channels.byRun;
  }

  lemma NextKeepsInv(w: World, step: Step)
    requires Inv(w)
    ensures Inv(Next(w, step))
  {
    forall r ensures CountInv(Next(w, step), r) { NextKeepsCount(w, step, r); }
    NextKeepsSeats(w, step);
    NextKeepsBroadcasters(w, step);
  }

  lemma {:induction false} EveryRunKeepsInv(steps: seq<Step>)
    ensures Inv(Run(steps))
  {
    if steps == [] {
      forall r ensures CountInv(INIT, r) { assert ClientsOf(INIT, r) == {}; }
    } else {
      EveryRunKeepsInv(steps[..|steps| - 1]);
      NextKeepsInv(Run(steps[..|steps| - 1]), steps[|steps| - 1]);
    }
  }

  /** Connected clients share a broadcaster exactly when they watch the same run. */
  lemma SharedExactlyWithinRun(steps: seq<Step>, c: Client, d: Client)
    requires c in Run(steps).live && d in Run(steps).live
    ensures Run(steps).live[c].broadcaster == Run(steps).live[d].broadcaster
      <==> Run(steps).live[c].run == Run(steps).live[d].run
  {
    EveryRunKeepsInv(steps);
  }

  /** A disconnecting client always finds its channel with a positive count: no clamping. */
  lemma ClampNeverFires(steps: seq<Step>, c: Client)
    requires c in Run(steps).live
    ensures var w := Run(steps);
      w.live[c].run in w.channels.byRun && w.channels.byRun[w.live[c].run].clientCount > 0
  {
    EveryRunKeepsInv(steps);
    var w := Run(steps);
    assert c in ClientsOf(w, w.live[c].run) && CountInv(w, w.live[c].run);
  }
}
