/** The output of an embedded terminal: a bounded replay buffer and the subscribers it feeds. */
module TerminalBuffer {
  // Every step is one critical section of the session's mutex, or a subscriber taking a chunk from
  // its channel.

  newtype Byte = x: int | 0 <= x < 256
  type Bytes = seq<Byte>

  const CHANNEL_CAPACITY: nat := 32

  /** A subscriber's channel. Its replay, what its reader received, the stretch of the output it
      stands for, and the counts of closes and of sends after a close are history. */
  datatype Channel = Channel(
    queue: seq<Bytes>, closed: bool,
    replay: Bytes, received: Bytes, start: int, end: nat, dropped: bool, closes: nat, lateSends: nat)

  /** `output` is everything the process wrote: history. */
  datatype State = State(buffer: Bytes, subs: set<nat>, channels: seq<Channel>, output: Bytes)

  const EMPTY := State([], {}, [], [])

  datatype Event = Publish(data: Bytes) | Subscribe | Receive(id: nat) | Unsubscribe(id: nat)

  function Last(bytes: Bytes, limit: nat): Bytes {
    if |bytes| > limit then bytes[|bytes| - limit..] else bytes
  }

  function Flatten(chunks: seq<Bytes>): Bytes {
    if chunks == [] then [] else chunks[0] + Flatten(chunks[1..])
  }

  /** A send that does not wait: a full channel loses the chunk. */
  function Send(c: Channel, data: Bytes): Channel {
    if c.closed then c.(lateSends := c.lateSends + 1)
    else if |c.queue| < CHANNEL_CAPACITY then c.(queue := c.queue + [data], end := c.end + |data|)
    else c.(dropped := true, end := c.end + |data|)
  }

  function SendAll(channels: seq<Channel>, subs: set<nat>, data: Bytes): (sent: seq<Channel>)
    ensures |sent| == |channels|
  {
    seq(|channels|, i requires 0 <= i < |channels| => if i in subs then Send(channels[i], data) else channels[i])
  }

  lemma SendNone(channels: seq<Channel>, data: Bytes)
    ensures SendAll(channels, {}, data) == channels
  {
  }

  lemma SendOneMore(channels: seq<Channel>, done: set<nat>, data: Bytes, id: nat)
    requires id < |channels| && id !in done
    ensures SendAll(channels, done, data)[id] == channels[id]
    ensures SendAll(channels, done, data)[id := Send(channels[id], data)] == SendAll(channels, done + {id}, data)
  {
  }

  predicate Enabled(s: State, e: Event) {
    match e
    case Publish(_) => true
    case Subscribe => true
    case Receive(id) => id < |s.channels| && s.channels[id].queue != []
    case Unsubscribe(id) => id < |s.channels|
  }

  function Step(s: State, e: Event, limit: nat): State
    requires Enabled(s, e)
  {
    match e
    case Publish(data) =>
      State(Last(s.buffer + data, limit), s.subs, SendAll(s.channels, s.subs, data), s.output + data)
    case Subscribe =>
      s.(subs := s.subs + {|s.channels|},
         channels := s.channels +
           [Channel([], false, s.buffer, [], |s.output| - |s.buffer|, |s.output|, false, 0, 0)])
    case Receive(id) =>
      var c := s.channels[id];
      s.(channels := s.channels[id := c.(queue := c.queue[1..], received := c.received + c.queue[0])])
    case Unsubscribe(id) =>
      if id !in s.subs then s
      else s.(subs := s.subs - {id},
              channels := s.channels[id := s.channels[id].(closed := true, closes := s.channels[id].closes + 1)])
  }

  predicate IsRun(s: State, events: seq<Event>, limit: nat)
    decreases |events|
  {
    events == [] || (Enabled(s, events[0]) && IsRun(Step(s, events[0], limit), events[1..], limit))
  }

  function Run(s: State, events: seq<Event>, limit: nat): State
    requires IsRun(s, events, limit)
    decreases |events|
  {
    if events == [] then s else Run(Step(s, events[0], limit), events[1..], limit)
  }

  /** What the subscriber got, is about to get and was shown at the start is one stretch of output. */
  ghost predicate ChannelInv(s: State, id: nat)
    requires id < |s.channels|
  {
    var c := s.channels[id];
    && (id in s.subs <==> !c.closed)
    && c.closes == (if c.closed then 1 else 0) && c.lateSends == 0 && |c.queue| <= CHANNEL_CAPACITY
    && 0 <= c.start <= c.end <= |s.output| && (!c.closed ==> c.end == |s.output|)
    && (!c.dropped ==> c.replay + c.received + Flatten(c.queue) == s.output[c.start..c.end])
  }

  ghost predicate Inv(s: State, limit: nat) {
    && s.buffer == Last(s.output, limit)
    && (forall id {:trigger ChannelInv(s, id)} :: 0 <= id < |s.channels| ==> ChannelInv(s, id))
    && (forall id :: id in s.subs ==> id < |s.channels|)
  }

  lemma {:induction false} FlattenAppend(chunks: seq<Bytes>, data: Bytes)
    ensures Flatten(chunks + [data]) == Flatten(chunks) + data
  {
    if chunks == [] {
      assert chunks + [data] == [data];
      assert Flatten([data]) == data + Flatten([]);
    } else {
      FlattenAppend(chunks[1..], data);
      assert (chunks + [data])[1..] == chunks[1..] + [data];
    }
  }

  /** Truncating after every append keeps what truncating once at the end would keep. */
  lemma LastOfLast(output: Bytes, data: Bytes, limit: nat)
    ensures Last(Last(output, limit) + data, limit) == Last(output + data, limit)
  {
  }

  /** Output only grows: a stretch of it stays, and one that ended with it can be carried on. */
  lemma StretchGrows(output: Bytes, data: Bytes, from: nat, to: nat)
    requires from <= to <= |output|
    ensures (output + data)[from..to] == output[from..to]
    ensures to == |output| ==> (output + data)[from..to + |data|] == output[from..to] + data
  {
  }

  lemma PublishChannel(s: State, data: Bytes, limit: nat, id: nat)
    requires id < |s.channels| && ChannelInv(s, id)
    ensures ChannelInv(Step(s, Publish(data), limit), id)
  {
    var c := s.channels[id];
    StretchGrows(s.output, data, c.start, c.end);
    FlattenAppend(c.queue, data);
    assert Step(s, Publish(data), limit).channels[id] == if id in s.subs then Send(c, data) else c;
    assert c.replay + c.received + (Flatten(c.queue) + data) == (c.replay + c.received + Flatten(c.queue)) + data;
  }

  lemma PublishKeepsInv(s: State, data: Bytes, limit: nat)
    requires Inv(s, limit)
    ensures Inv(Step(s, Publish(data), limit), limit)
  {
    LastOfLast(s.output, data, limit);
    var t := Step(s, Publish(data), limit);
    forall id | 0 <= id < |t.channels| ensures ChannelInv(t, id) {
      PublishChannel(s, data, limit, id);
    }
  }

  /** A change to one channel leaves what is known of the others. */
  lemma OtherChannels(s: State, t: State, changed: nat)
    requires forall id {:trigger ChannelInv(s, id)} :: 0 <= id < |s.channels| ==> ChannelInv(s, id)
    requires |s.channels| == |t.channels| && s.output == t.output
    requires forall id :: 0 <= id < |s.channels| && id != changed ==>
      s.channels[id] == t.channels[id] && (id in s.subs <==> id in t.subs)
    requires changed < |t.channels| ==> ChannelInv(t, changed)
    ensures forall id {:trigger ChannelInv(t, id)} :: 0 <= id < |t.channels| ==> ChannelInv(t, id)
  {
    forall id | 0 <= id < |t.channels| ensures ChannelInv(t, id) {
      assert ChannelInv(s, id);
    }
  }

  lemma SubscribeKeepsInv(s: State, limit: nat)
    requires Inv(s, limit)
    ensures Inv(Step(s, Subscribe, limit), limit)
  {
    var t := Step(s, Subscribe, limit);
    forall id | 0 <= id < |t.channels| ensures ChannelInv(t, id) {
      if id < |s.channels| {
        assert ChannelInv(s, id);
      } else {
        assert s.buffer == s.output[|s.output| - |s.buffer|..];
      }
    }
  }

  lemma StepKeepsInv(s: State, e: Event, limit: nat)
    requires Inv(s, limit) && Enabled(s, e)
    ensures Inv(Step(s, e, limit), limit)
  {
    match e
    case Publish(data) => PublishKeepsInv(s, data, limit);
    case Subscribe => SubscribeKeepsInv(s, limit);
    case Receive(id) =>
      assert ChannelInv(s, id);
      OtherChannels(s, Step(s, e, limit), id);
    case Unsubscribe(id) =>
      assert ChannelInv(s, id);
      OtherChannels(s, Step(s, e, limit), id);
  }

  lemma {:induction false} RunKeepsInv(s: State, events: seq<Event>, limit: nat)
    requires Inv(s, limit) && IsRun(s, events, limit)
    ensures Inv(Run(s, events, limit), limit)
    decreases |events|
  {
    if events != [] {
      StepKeepsInv(s, events[0], limit);
      RunKeepsInv(Step(s, events[0], limit), events[1..], limit);
    }
  }

  /** A publish that finds a subscriber's channel full. */
  predicate Overflows(s: State, e: Event, id: nat) {
    e.Publish? && id in s.subs && id < |s.channels| && |s.channels[id].queue| >= 32
  }

  /** Some publish of the run finds the channel full. */
  ghost predicate MetFull(s: State, events: seq<Event>, limit: nat, id: nat)
    requires IsRun(s, events, limit)
    decreases |events|
  {
    events != [] && (Overflows(s, events[0], id) || MetFull(Step(s, events[0], limit), events[1..], limit, id))
  }

  predicate Dropped(s: State, id: nat) {
    id < |s.channels| && s.channels[id].dropped
  }

  /** A chunk is lost to a live subscriber with a full channel, and to no other. */
  lemma StepDrops(s: State, e: Event, limit: nat, id: nat)
    requires Inv(s, limit) && Enabled(s, e)
    ensures Dropped(Step(s, e, limit), id) <==> Dropped(s, id) || Overflows(s, e, id)
  {
    if id < |s.channels| { assert ChannelInv(s, id); }
  }

  lemma {:induction false} RunDrops(s: State, events: seq<Event>, limit: nat, id: nat)
    requires Inv(s, limit) && IsRun(s, events, limit)
    ensures Dropped(Run(s, events, limit), id) <==> Dropped(s, id) || MetFull(s, events, limit, id)
    decreases |events|
  {
    if events != [] {
      StepDrops(s, events[0], limit, id);
      StepKeepsInv(s, events[0], limit);
      RunDrops(Step(s, events[0], limit), events[1..], limit, id);
    }
  }

  /** What a reader may rely on, in terms of the channel's history. */
  ghost predicate ChannelIsSafe(s: State, id: nat)
    requires id < |s.channels|
  {
    var c := s.channels[id];
    && c.closes <= 1 && c.lateSends == 0 && (id in s.subs <==> c.closes == 0)
    && 0 <= c.start <= c.end <= |s.output| && (id in s.subs ==> c.end == |s.output|)
    && (!c.dropped ==> c.replay + c.received + Flatten(c.queue) == s.output[c.start..c.end])
  }

  lemma InvIsSafe(s: State, limit: nat)
    requires Inv(s, limit)
    ensures |s.buffer| == (if |s.output| < limit then |s.output| else limit)
    ensures s.buffer == s.output[|s.output| - |s.buffer|..]
    ensures forall id :: 0 <= id < |s.channels| ==> ChannelIsSafe(s, id)
  {
    forall id | 0 <= id < |s.channels| ensures ChannelIsSafe(s, id) {
      assert ChannelInv(s, id);
    }
  }

  /** The buffer is the end of the output, as much of it as the limit allows. A subscriber that
      lost no chunk sees its replay and its chunks as one contiguous segment, which for a live
      one reaches the end of the output; chunks are lost exactly to channels that some publish found
      full. No channel is closed twice or sent to after its close. */
  lemma EveryRunIsSafe(events: seq<Event>, limit: nat)
    requires IsRun(EMPTY, events, limit)
    ensures var s := Run(EMPTY, events, limit);
      && |s.buffer| == (if |s.output| < limit then |s.output| else limit)
      && s.buffer == s.output[|s.output| - |s.buffer|..]
      && (forall id :: 0 <= id < |s.channels| ==> ChannelIsSafe(s, id))
      && forall id :: 0 <= id < |s.channels| ==> (s.channels[id].dropped <==> MetFull(EMPTY, events, limit, id))
  {
    RunKeepsInv(EMPTY, events, limit);
    InvIsSafe(Run(EMPTY, events, limit), limit);
    forall id | 0 <= id < |Run(EMPTY, events, limit).channels|
      ensures Run(EMPTY, events, limit).channels[id].dropped <==> MetFull(EMPTY, events, limit, id)
    {
      RunDrops(EMPTY, events, limit, id);
    }
  }

  // ------------------------------------------------------------------ session

  /** What a publish does to one channel: an open one gets the chunk if fewer than 32 wait in it, and
      loses it otherwise. */
  predicate IsOffered(before: Channel, after: Channel, subscribed: bool, data: Bytes) {
    && (!subscribed ==> after == before)
    && (subscribed && !before.closed ==>
          && after == before.(queue := after.queue, dropped := after.dropped, end := before.end + |data|)
          && (if |before.queue| < 32 then after.queue == before.queue + [data] && after.dropped == before.dropped
              else after.queue == before.queue && after.dropped))
  }

  /** A managed session's output. A channel is its index in `channels`. */
  class Managed {
    const limit: nat
    var buffer: Bytes
    var subs: set<nat>
    var channels: seq<Channel>
    var output: Bytes // history: it dates the channels

    ghost function Abs(): State
      reads this
    {
      State(buffer, subs, channels, output)
    }

    constructor (limit: nat)
      ensures Abs() == EMPTY && this.limit == limit
    {
      this.limit := limit;
      buffer, subs, channels, output := [], {}, [], [];
    }

    /** Offers a chunk to every subscriber, in any order. */
    method Offer(data: Bytes)
      requires forall id :: id in subs ==> id < |channels|
      modifies `channels
      ensures channels == SendAll(old(channels), subs, data)
    {
      var waiting := subs;
      SendNone(channels, data);
      assert subs - waiting == {};
      while waiting != {}
        invariant waiting <= subs && channels == SendAll(old(channels), subs - waiting, data)
        decreases |waiting|
      {
        var id :| id in waiting;
        SendOneMore(old(channels), subs - waiting, data, id);
        channels := channels[id := Send(channels[id], data)];
        assert subs - (waiting - {id}) == subs - waiting + {id};
        waiting := waiting - {id};
      }
      assert subs - waiting == subs;
    }

    method PublishOutput(data: Bytes)
      requires forall id :: id in subs ==> id < |channels|
      modifies this
      ensures Abs() == Step(old(Abs()), Publish(data), limit)
      ensures var all := old(buffer) + data; buffer == if |all| <= limit then all else all[|all| - limit..]
      ensures subs == old(subs) && output == old(output) + data && |channels| == |old(channels)|
      ensures forall id :: 0 <= id < |channels| ==> IsOffered(old(channels)[id], channels[id], id in subs, data)
    {
      buffer := buffer + data;
      if |buffer| > limit {
        buffer := buffer[|buffer| - limit..];
      }
      Offer(data);
      output := output + data;
    }

    method AddSubscriber() returns (id: nat, replay: Bytes)
      modifies this
      ensures Abs() == Step(old(Abs()), Subscribe, limit)
      ensures id == |old(channels)| && replay == old(buffer) && subs == old(subs) + {id}
      ensures |channels| == id + 1 && channels[..id] == old(channels)
      ensures channels[id].queue == [] && channels[id].replay == replay && !channels[id].closed
      ensures buffer == old(buffer) && output == old(output)
    {
      id, replay := |channels|, buffer;
      subs := subs + {id};
      channels := channels + [Channel([], false, buffer, [], |output| - |buffer|, |output|, false, 0, 0)];
    }

    method RemoveSubscriber(id: nat)
      requires id < |channels|
      modifies this
      ensures Abs() == Step(old(Abs()), Unsubscribe(id), limit)
      ensures subs == old(subs) - {id} && buffer == old(buffer) && output == old(output)
      ensures |channels| == |old(channels)| && forall k :: 0 <= k < |channels| ==>
        if k == id && id in old(subs) then
          var c := old(channels)[k]; channels[k] == c.(closed := true, closes := c.closes + 1)
        else channels[k] == old(channels)[k]
    {
      if id in subs {
        subs := subs - {id};
        channels := channels[id := channels[id].(closed := true, closes := channels[id].closes + 1)];
      }
    }
  }
}
