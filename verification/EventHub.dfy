/** The hub that shares one event stream per URL among its subscribers (apps/web/lib/project-event-hub.ts). */
module EventHub {

  // A subscription is the number `subscribe` gave it; its unsubscribe function may be called any number of times.
  // An event is handed on entry by entry, and the handlers called on the way may subscribe and unsubscribe. Streams
  // emit from the event loop, so one event is handed on to all before another is emitted.

  datatype Hub = Hub(
    entries: map<string, seq<nat>>, streams: map<string, nat>,
    active: set<nat>, urls: map<nat, string>, live: set<nat>, made: nat, received: seq<Delivery>,
    pending: seq<nat>, event: string)

  /** A handler call: the subscription it belongs to, and the event. */
  datatype Delivery = Delivery(to: nat, event: string)

  /** `HandOn` hands the event under way to the next of the entries its walk has still to reach. */
  datatype Call = Subscribe(url: string) | Unsubscribe(subscription: nat) | Emit(url: string, event: string) | HandOn

  function Current(h: Hub, url: string): seq<nat> { if url in h.entries then h.entries[url] else [] }

  function Without(s: seq<nat>, k: nat): seq<nat> {
    if s == [] then [] else if s[0] == k then Without(s[1..], k) else [s[0]] + Without(s[1..], k)
  }

  function Entered(h: Hub, url: string): Hub {
    h.(entries := h.entries[url := Current(h, url) + [h.made]], active := h.active + {h.made}, urls := h.urls[h.made := url],
       made := h.made + 1)
  }

  /** The URL's stream is opened unless it is there. */
  function Streamed(h: Hub, url: string): Hub {
    if url in h.streams then h
    else h.(streams := h.streams[url := h.made], live := h.live + {h.made}, made := h.made + 1)
  }

  function Subscribed(h: Hub, url: string): Hub {
    Streamed(Entered(h, url), url)
  }

  function Unsubscribed(h: Hub, k: nat): Hub {
    if k !in h.active || k !in h.urls then h
    else
      var url := h.urls[k];
      var rest := Without(Current(h, url), k);
      var left := h.(active := h.active - {k});
      if rest != [] then left.(entries := h.entries[url := rest])
      else left.(entries := h.entries - {url}, streams := h.streams - {url},
                 live := if url in h.streams then h.live - {h.streams[url]} else h.live)
  }

  function Next(h: Hub, c: Call): Hub {
    match c
    case Subscribe(url) => Subscribed(h, url)
    case Unsubscribe(k) => Unsubscribed(h, k)
    case Emit(url, event) => Emitted(h, url, event)
    case HandOn => HandedOn(h)
  }

  predicate IsIdle(h: Hub) { h.pending == [] }

  /** An event of the URL's stream: the walk begins, over the entries the URL has now. */
  function Emitted(h: Hub, url: string, event: string): Hub {
    if IsIdle(h) && url in h.streams then h.(pending := Current(h, url), event := event) else h
  }

  function HandedOn(h: Hub): Hub {
    if IsIdle(h) then h
    else h.(received := h.received + [Delivery(h.pending[0], h.event)], pending := h.pending[1..])
  }

  function Start(): Hub { Hub(map[], map[], {}, map[], {}, 0, [], [], "") }

  /** The hub after these calls; a number that no `subscribe` has returned unsubscribes nothing. */
  function Run(calls: seq<Call>): Hub {
    if calls == [] then Start() else Next(Run(calls[..|calls|-1]), calls[|calls|-1])
  }

  // ---------------------------------------------------------------------------------------------
  // What every call keeps
  // ---------------------------------------------------------------------------------------------

  /** The entries of a URL are its active subscriptions, oldest first, and a URL without any has no list. */
  ghost predicate EntriesHold(h: Hub) {
    && (forall url :: url in h.entries ==> h.entries[url] != [])
    && (forall url, k :: k in Current(h, url) <==> IsSubscriber(h, url, k))
    && (forall url :: Rising(Current(h, url), h.made))
    && (forall k :: k in h.active ==> k in h.urls)
  }

  /** An active subscription of a URL. */
  ghost predicate IsSubscriber(h: Hub, url: string, k: nat) {
    k in h.active && k in h.urls && h.urls[k] == url
  }

  ghost predicate Rising(s: seq<nat>, below: nat) {
    (forall i, j :: 0 <= i < j < |s| ==> s[i] < s[j]) && forall i :: 0 <= i < |s| ==> s[i] < below
  }

  /** One open stream for each URL that has entries, and no other. */
  ghost predicate StreamsHold(h: Hub) {
    && h.streams.Keys == h.entries.Keys && h.live == h.streams.Values
    && (forall u, v :: u in h.streams && v in h.streams && h.streams[u] == h.streams[v] ==> u == v)
    && (forall u :: u in h.streams ==> h.streams[u] < h.made)
  }

  lemma {:induction false} WithoutMembers(s: seq<nat>, k: nat, below: nat)
    requires Rising(s, below)
    ensures forall x :: x in Without(s, k) <==> x in s && x != k
    ensures Rising(Without(s, k), below)
  {
    if s != [] {
      assert s == [s[0]] + s[1..];
      WithoutMembers(s[1..], k, below);
      if s[0] != k {
        var rest := Without(s[1..], k);
        forall i | 0 <= i < |rest| ensures s[0] < rest[i] {
          assert rest[i] in rest;
          var j :| 0 <= j < |s[1..]| && s[1..][j] == rest[i];
          assert s[j+1] == rest[i];
        }
        assert s[0] < below;
      } else {
        assert k !in s[1..];
      }
    }
  }

  lemma ActiveBelow(h: Hub, k: nat)
    requires EntriesHold(h) && k in h.active
    ensures k < h.made && k in h.urls && k in Current(h, h.urls[k])
  {
    assert IsSubscriber(h, h.urls[k], k);
    assert Rising(Current(h, h.urls[k]), h.made);
  }

  lemma NewIsInactive(h: Hub)
    requires EntriesHold(h)
    ensures h.made !in h.active
  {
    if h.made in h.active { ActiveBelow(h, h.made); }
  }

  lemma RisingPush(s: seq<nat>, k: nat, below: nat)
    requires Rising(s, k) && k < below
    ensures Rising(s + [k], below) && Rising(s, below)
  { }

  lemma SubscribeKeepsEntries(h: Hub, url: string)
    requires EntriesHold(h)
    ensures EntriesHold(Subscribed(h, url))
  {
    var k, after := h.made, Subscribed(h, url);
    NewIsInactive(h);
    forall u ensures Rising(Current(after, u), after.made) {
      RisingPush(Current(h, u), k, after.made);
      hide Rising;
    }
    forall u, x ensures x in Current(after, u) <==> IsSubscriber(after, u, x) {
      hide Rising;
      assert x in Current(h, u) <==> IsSubscriber(h, u, x);
    }
    hide Rising, IsSubscriber;
  }

  lemma SubscribeKeepsStreams(h: Hub, url: string)
    requires StreamsHold(h)
    ensures StreamsHold(Subscribed(h, url))
  {
    var after := Subscribed(h, url);
    if url !in h.streams { NewValue(h.streams, url, h.made + 1); }
    hide Current;
  }

  lemma NewValue(m: map<string, nat>, url: string, x: nat)
    requires url !in m
    ensures m[url := x].Values == m.Values + {x}
  {
    var n := m[url := x];
    forall s ensures s in n.Values <==> s in m.Values || s == x {
      if s in m.Values {
        var u :| u in m && m[u] == s;
        assert n[u] == s;
      }
      if s == x { assert n[url] == s; }
    }
  }

  lemma UnsubscribeKeepsEntries(h: Hub, k: nat)
    requires EntriesHold(h)
    ensures EntriesHold(Unsubscribed(h, k))
  {
    if k in h.active {
      var url, after := h.urls[k], Unsubscribed(h, k);
      var own := Current(h, url);
      assert Rising(own, h.made);
      WithoutMembers(own, k, h.made);
      assert after.made == h.made && forall u :: Current(after, u) == if u == url then Without(own, k) else Current(h, u);
      assert after.active == h.active - {k} && after.urls == h.urls;
      forall u ensures Rising(Current(after, u), after.made) { assert Rising(Current(h, u), h.made); }
      hide Rising, Without;
      forall u, x ensures x in Current(after, u) <==> IsSubscriber(after, u, x) {
        hide Unsubscribed, Current;
        assert x in Current(h, u) <==> IsSubscriber(h, u, x);
      }
      hide IsSubscriber;
    }
  }

  lemma UnsubscribeKeepsStreams(h: Hub, k: nat)
    requires EntriesHold(h) && StreamsHold(h)
    ensures StreamsHold(Unsubscribed(h, k))
  {
    if k in h.active {
      var url, after := h.urls[k], Unsubscribed(h, k);
      ActiveBelow(h, k);
      assert url in h.entries && url in h.streams;
      if Without(Current(h, url), k) == [] {
        forall s ensures s in after.streams.Values <==> s in h.streams.Values && s != h.streams[url] {
          if s in h.streams.Values && s != h.streams[url] {
            var u :| u in h.streams && h.streams[u] == s;
            assert u in after.streams && after.streams[u] == s;
          }
        }
      }
    }
  }

  /** A step of the delivery changes neither entries nor subscriptions nor streams. */
  lemma DeliveryKeeps(h: Hub, after: Hub)
    requires EntriesHold(h) && StreamsHold(h)
    requires after == h.(received := after.received, pending := after.pending, event := after.event)
    ensures EntriesHold(after) && StreamsHold(after)
  {
    assert forall u :: Current(after, u) == Current(h, u);
    forall u, k ensures k in Current(after, u) <==> IsSubscriber(after, u, k) {
      assert k in Current(h, u) <==> IsSubscriber(h, u, k);
    }
    forall u ensures Rising(Current(after, u), after.made) { assert Rising(Current(h, u), h.made); }
    hide Rising, IsSubscriber;
  }

  lemma {:induction false} CallsKeep(calls: seq<Call>)
    ensures EntriesHold(Run(calls)) && StreamsHold(Run(calls))
    decreases |calls|
  {
    if calls != [] {
      var before, last := Run(calls[..|calls|-1]), calls[|calls|-1];
      assert Run(calls) == Next(before, last);
      CallsKeep(calls[..|calls|-1]);
      hide Run, EntriesHold, StreamsHold, Subscribed, Unsubscribed;
      match last
      case Subscribe(url) =>
        SubscribeKeepsEntries(before, url);
        SubscribeKeepsStreams(before, url);
      case Unsubscribe(k) =>
        UnsubscribeKeepsEntries(before, k);
        UnsubscribeKeepsStreams(before, k);
      case Emit(url, event) => DeliveryKeeps(before, Emitted(before, url, event));
      case HandOn => DeliveryKeeps(before, HandedOn(before));
    }
  }

  /** After any calls there is exactly one open stream for each URL that has subscribers, and none for any other. */
  lemma OneStreamPerUrl(calls: seq<Call>, h: Hub, url: string)
    requires h == Run(calls)
    ensures url in h.streams <==> exists k :: IsSubscriber(h, url, k)
    ensures url in h.streams ==> h.streams[url] in h.live
    ensures forall s :: s in h.live <==> exists u :: u in h.streams && h.streams[u] == s
    ensures forall u :: u in h.streams && u != url && url in h.streams ==> h.streams[u] != h.streams[url]
  {
    CallsKeep(calls);
    hide Run;
    if url in h.streams {
      assert url in h.entries && h.entries[url] != [];
      var k := h.entries[url][0];
      assert k in Current(h, url);
      assert IsSubscriber(h, url, k);
    }
    if k :| IsSubscriber(h, url, k) { assert k in Current(h, url); }
  }

  // ---------------------------------------------------------------------------------------------
  // What each subscriber receives
  // ---------------------------------------------------------------------------------------------

  function ReceivedBy(received: seq<Delivery>, k: nat): seq<string> {
    if received == [] then []
    else
      var before, last := ReceivedBy(received[..|received|-1], k), received[|received|-1];
      if last.to == k then before + [last.event] else before
  }

  /** The events of its URL whose walk began while the subscription was active. */
  ghost function Due(calls: seq<Call>, k: nat): seq<string> {
    if calls == [] then []
    else
      var before, last := calls[..|calls|-1], calls[|calls|-1];
      if last.Emit? && IsIdle(Run(before)) && IsSubscriber(Run(before), last.url, k) then Due(before, k) + [last.event] else Due(before, k)
  }

  /** What the walk under way has still to hand to k. */
  function Owed(h: Hub, k: nat): seq<string> {
    if k in h.pending then [h.event] else []
  }

  /** No entry is on the walk twice. */
  ghost predicate WalkRises(h: Hub) { Rising(h.pending, h.made) }

  lemma CallKeepsWalk(h: Hub, c: Call)
    requires EntriesHold(h) && WalkRises(h)
    ensures WalkRises(Next(h, c))
  {
    if c.Subscribe? { RisingPush(h.pending, h.made, Next(h, c).made); }
    if c.Emit? { assert Rising(Current(h, c.url), h.made); }
  }

  lemma HandOnDelivers(h: Hub, k: nat)
    requires WalkRises(h)
    ensures ReceivedBy(HandedOn(h).received, k) + Owed(HandedOn(h), k) == ReceivedBy(h.received, k) + Owed(h, k)
  {
    if !IsIdle(h) {
      var d := Delivery(h.pending[0], h.event);
      assert (h.received + [d])[..|h.received|] == h.received;
      assert h.pending == [d.to] + h.pending[1..] && d.to !in h.pending[1..];
    }
  }

  lemma EmitOwes(h: Hub, url: string, event: string, k: nat)
    requires EntriesHold(h) && StreamsHold(h) && IsIdle(h)
    ensures Owed(h, k) == [] && Owed(Emitted(h, url, event), k) == if IsSubscriber(h, url, k) then [event] else []
  {
    assert k in Current(h, url) <==> IsSubscriber(h, url, k);
    assert url in h.streams <==> url in h.entries;
  }

  lemma CallDelivers(h: Hub, c: Call, k: nat)
    requires EntriesHold(h) && StreamsHold(h) && WalkRises(h)
    ensures ReceivedBy(Next(h, c).received, k) + Owed(Next(h, c), k) == ReceivedBy(h.received, k) + Owed(h, k)
      + (if c.Emit? && IsIdle(h) && IsSubscriber(h, c.url, k) then [c.event] else [])
  {
    hide EntriesHold, StreamsHold, WalkRises, ReceivedBy;
    if c.HandOn? { HandOnDelivers(h, k); }
    if c.Emit? && IsIdle(h) { EmitOwes(h, c.url, c.event, k); }
    hide IsSubscriber, HandedOn;
  }

  /**
   Every subscriber has received exactly the events whose walk began while it was active, each once and in order, but
   for the one under way: whoever was subscribed when a walk began is reached by it, even if an earlier handler
   unsubscribes it, and who subscribes meanwhile is not.
   */
  lemma {:induction false} EachReceivesItsOwn(calls: seq<Call>, k: nat)
    ensures ReceivedBy(Run(calls).received, k) + Owed(Run(calls), k) == Due(calls, k)
    ensures WalkRises(Run(calls))
    decreases |calls|
  {
    if calls != [] {
      var init, last := calls[..|calls|-1], calls[|calls|-1];
      EachReceivesItsOwn(init, k);
      CallsKeep(init);
      assert Run(calls) == Next(Run(init), last);
      hide Run, Next, EntriesHold, StreamsHold, WalkRises;
      CallKeepsWalk(Run(init), last);
      CallDelivers(Run(init), last, k);
    }
  }

  /** The entries an event is handed to are the subscribers of its URL, in the order they subscribed. */
  lemma FanOutReachesEach(calls: seq<Call>, h: Hub, url: string, k: nat)
    requires h == Run(calls)
    ensures IsSubscriber(h, url, k) <==> exists i :: 0 <= i < |Current(h, url)| && Current(h, url)[i] == k
    ensures forall i, j :: 0 <= i < j < |Current(h, url)| ==> Current(h, url)[i] < Current(h, url)[j]
  {
    CallsKeep(calls);
    hide Run;
    assert k in Current(h, url) <==> IsSubscriber(h, url, k);
    assert Rising(Current(h, url), h.made);
  }

  /** A second call of an unsubscribe does nothing, and the first undoes its subscribe when nothing happened between. */
  lemma SubscribeUndone(calls: seq<Call>, h: Hub, url: string)
    requires h == Run(calls)
    ensures var k := h.made;
      var after := Unsubscribed(Subscribed(h, url), k);
      && after.entries == h.entries && after.streams == h.streams && after.active == h.active && after.live == h.live
      && Unsubscribed(after, k) == after
  {
    CallsKeep(calls);
    hide Run;
    var k := h.made;
    var own := Current(h, url);
    assert Rising(own, k);
    NewIsInactive(h);
    WithoutNew(own, k);
    assert url in h.streams <==> own != [];
    assert forall u :: u in h.streams ==> h.streams[u] < k;
    assert h.live == h.streams.Values;
    hide EntriesHold, StreamsHold, Rising, Without;
  }

  lemma {:induction false} WithoutNew(s: seq<nat>, k: nat)
    requires Rising(s, k)
    ensures Without(s + [k], k) == s
  {
    if s == [] {
      assert [k][1..] == [];
    } else {
      assert (s + [k])[0] == s[0] && (s + [k])[1..] == s[1..] + [k];
      WithoutNew(s[1..], k);
    }
  }

  // ---------------------------------------------------------------------------------------------
  // The hub itself
  // ---------------------------------------------------------------------------------------------

  class ProjectEventHub {
    var entries: map<string, seq<nat>>
    var streams: map<string, nat>

    // The flag and the URL each unsubscribe function remembers, and the streams not closed yet.
    var active: set<nat>
    var urls: map<nat, string>
    var live: set<nat>
    var made: nat

    // The handler calls made so far, and the walk under way: the entries to come, and the event.
    var received: seq<Delivery>
    var pending: seq<nat>
    var event: string

    function Now(): Hub
      reads this
    {
      Hub(entries, streams, active, urls, live, made, received, pending, event)
    }

    constructor ()
      ensures Now() == Start()
    {
      entries, streams, active, urls, live, made := map[], map[], {}, map[], {}, 0;
      received, pending, event := [], [], "";
    }

    method SubscribeTo(url: string) returns (k: nat)
      modifies this
      ensures Now() == Next(old(Now()), Subscribe(url)) && k == old(made)
    {
      hide Streamed;
      k := made;
      made := made + 1;
      entries := entries[url := (if url in entries then entries[url] else []) + [k]];
      active := active + {k};
      urls := urls[k := url];
      assert Now() == Entered(old(Now()), url);
      OpenStream(url);
    }

    method OpenStream(url: string)
      modifies this
      ensures Now() == Streamed(old(Now()), url)
    {
      if url in streams { return; }
      streams := streams[url := made];
      live := live + {made};
      made := made + 1;
    }

    method UnsubscribeFrom(k: nat)
      requires k in urls
      modifies this
      ensures Now() == Next(old(Now()), Unsubscribe(k))
    {
      if k !in active { return; }
      active := active - {k};
      var url := urls[k];
      var rest := Without(if url in entries then entries[url] else [], k);
      if rest != [] {
        entries := entries[url := rest];
        return;
      }
      entries := entries - {url};
      if url in streams { live := live - {streams[url]}; }
      streams := streams - {url};
    }

    /**
     The stream of the URL hands an event on to every entry the URL has at that moment; `during` says what the handler
     of each subscription calls back.
     */
    method FanOut(url: string, data: string, during: nat -> seq<Call>)
      requires pending == [] && url in streams && forall k :: Quiet(during(k))
      modifies this
      ensures Now() == After(old(Now()), [Emit(url, data)] + Walk(Current(old(Now()), url), during))
      ensures pending == []
    {
      var current := if url in entries then entries[url] else [];
      ghost var before := Now();
      AfterFirst(before, [Emit(url, data)] + Walk(current, during));
      assert ([Emit(url, data)] + Walk(current, during))[1..] == Walk(current, during);
      pending, event := current, data;
      ghost var end := After(Now(), Walk(current, during));
      assert current[0..] == current;
      hide After, Walk, Quiet, Subscribed, Unsubscribed;
      for i := 0 to |current|
        invariant pending == current[i..] && After(Now(), Walk(current[i..], during)) == end
      {
        WalkFirst(Now(), current[i..], during);
        assert current[i..][1..] == current[i+1..];
        received, pending := received + [Delivery(current[i], event)], pending[1..];
        HandleCalls(during(current[i]), Walk(current[i+1..], during));
      }
      WalkEnds(Now(), during);
    }

    /** A handler's own calls, made while the walk waits; `rest` is what comes after them. */
    method HandleCalls(calls: seq<Call>, ghost rest: seq<Call>)
      requires Quiet(calls)
      modifies this
      ensures pending == old(pending) && event == old(event) && After(Now(), rest) == After(old(Now()), calls + rest)
    {
      assert calls[0..] == calls;
      hide After, Subscribed, Unsubscribed;
      for j := 0 to |calls|
        invariant pending == old(pending) && event == old(event)
        invariant After(Now(), calls[j..] + rest) == After(old(Now()), calls + rest)
      {
        AfterFirst(Now(), calls[j..] + rest);
        assert (calls[j..] + rest)[1..] == calls[j+1..] + rest;
        match calls[j]
        case Subscribe(u) => var k := SubscribeTo(u);
        case Unsubscribe(k) => if k in urls { UnsubscribeFrom(k); }
      }
      assert calls[|calls|..] + rest == rest;
    }
  }

  /** The hub after these calls, one after another. */
  function After(h: Hub, calls: seq<Call>): Hub
    decreases |calls|
  {
    if calls == [] then h else After(Next(h, calls[0]), calls[1..])
  }

  lemma AfterFirst(h: Hub, calls: seq<Call>)
    requires calls != []
    ensures After(h, calls) == After(Next(h, calls[0]), calls[1..])
  { }

  /** Calls a handler can make. */
  predicate Quiet(calls: seq<Call>) { forall k :: 0 <= k < |calls| ==> calls[k].Subscribe? || calls[k].Unsubscribe? }

  /** The walk over these entries, with what the handler of each calls back. */
  function Walk(to: seq<nat>, during: nat -> seq<Call>): seq<Call> {
    if to == [] then [] else [HandOn] + (during(to[0]) + Walk(to[1..], during))
  }

  lemma WalkFirst(h: Hub, to: seq<nat>, during: nat -> seq<Call>)
    requires to != []
    ensures After(h, Walk(to, during)) == After(HandedOn(h), during(to[0]) + Walk(to[1..], during))
  {
    var rest := during(to[0]) + Walk(to[1..], during);
    assert ([HandOn] + rest)[1..] == rest;
  }

  lemma WalkEnds(h: Hub, during: nat -> seq<Call>)
    ensures After(h, Walk([], during)) == h
  { }

  /** A walk that begins after some calls goes on from where they led. */
  lemma {:induction false} RunOn(calls: seq<Call>, more: seq<Call>)
    ensures After(Run(calls), more) == Run(calls + more)
    decreases |more|
  {
    if more == [] {
      assert calls + more == calls;
    } else {
      assert (calls + [more[0]])[..|calls|] == calls;
      assert calls + [more[0]] + more[1..] == calls + more;
      RunOn(calls + [more[0]], more[1..]);
    }
  }
}
