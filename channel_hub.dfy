/** The channel bookkeeping of channel.c: broadcast groups (intrusive lists of channels that
    receive the same output), the state change of `channel_start`, the three fixed-size
    listener registries and the shutdown that closes every channel and server. Channels and
    groups live in an arena and are named by their index; a group's list is a sequence of
    channel handles. */
module ChannelHub {
  import opened Base

  /** The channel states, in the order of the public TCF channel header (which is not part
      of this model); the order matters for the bit mask below. */
  datatype ChannelState =
    | StartWait | Started | HelloSent | HelloReceived | Connected | RedirectSent
    | RedirectReceived | Disconnected

  function Ordinal(st: ChannelState): (k: nat)
    ensures k < 8
  {
    match st
    case StartWait => 0
    case Started => 1
    case HelloSent => 2
    case HelloReceived => 3
    case Connected => 4
    case RedirectSent => 5
    case RedirectReceived => 6
    case Disconnected => 7
  }

  /** BROADCAST_OK_STATES: one bit per state that takes broadcast output. */
  const BROADCAST_OK_STATES: bv32 := (1 << 4) | (1 << 5) | (1 << 6)

  /** isBoardcastOkay: the state's bit checked against the mask. */
  predicate BroadcastOk(st: ChannelState) {
    ((1 as bv32) << Ordinal(st)) & BROADCAST_OK_STATES != 0
  }

  /** Exactly the connected and the two redirecting states take broadcast output. */
  lemma BroadcastOkStates(st: ChannelState)
    ensures BroadcastOk(st) <==> st == Connected || st == RedirectSent || st == RedirectReceived
  {
    match st
    case StartWait =>
    case Started =>
    case HelloSent =>
    case HelloReceived =>
    case Connected =>
    case RedirectSent =>
    case RedirectReceived =>
    case Disconnected =>
  }

  /** The size of splice_block_all's stack buffer. */
  const SPLICE_BUF: nat := 0x400

  predicate NoDup(s: seq<nat>) {
    forall i, j :: 0 <= i < j < |s| ==> s[i] != s[j]
  }

  /** list_remove on a list: `x` taken out, the others kept in order. */
  function Without(s: seq<nat>, x: nat): (r: seq<nat>)
    ensures x !in r
    ensures forall y :: y in r <==> y in s && y != x
    ensures x !in s ==> r == s
  {
    if s == [] then []
    else if s[0] == x then Without(s[1..], x)
    else [s[0]] + Without(s[1..], x)
  }

  lemma {:induction false} WithoutNoDup(s: seq<nat>, x: nat)
    requires NoDup(s)
    ensures NoDup(Without(s, x))
  {
    if s != [] {
      WithoutNoDup(s[1..], x);
      if s[0] != x {
        var w := Without(s[1..], x);
        assert s[0] !in w by {
          assert forall i :: 0 < i < |s| ==> s[i] != s[0];
        }
        forall i, j | 0 <= i < j < |[s[0]] + w|
          ensures ([s[0]] + w)[i] != ([s[0]] + w)[j]
        {
          if i == 0 {
            assert ([s[0]] + w)[j] == w[j - 1];
          }
        }
      }
    }
  }

  /** What one broadcast gives channel `c`: `bytes` when it is a member in a broadcast state. */
  function Received(members: seq<nat>, states: seq<ChannelState>, c: nat, bytes: seq<int>): seq<int>
    requires c < |states|
  {
    if c in members && BroadcastOk(states[c]) then bytes else []
  }

  /** The calls a notify loop makes: every registered listener, in registration order, with
      the channel. */
  function Calls(listeners: seq<nat>, c: nat): (r: seq<(nat, nat)>)
    ensures |r| == |listeners|
    ensures forall i :: 0 <= i < |r| ==> r[i] == (listeners[i], c)
  {
    seq(|listeners|, i requires 0 <= i < |listeners| => (listeners[i], c))
  }

  /** The channels among the first `k` that are still open, in list order. */
  function OpenAmong(closed: seq<bool>, k: nat): seq<nat>
    requires k <= |closed|
  {
    if k == 0 then []
    else OpenAmong(closed, k - 1) + (if closed[k - 1] then [] else [k - 1])
  }

  /** Exactly the open channels among the first `k` are listed. */
  lemma {:induction false} OpenAmongMembers(closed: seq<bool>, k: nat)
    requires k <= |closed|
    ensures forall c :: c in OpenAmong(closed, k) <==> 0 <= c < k && !closed[c]
  {
    if k > 0 {
      OpenAmongMembers(closed, k - 1);
    }
  }

  /** The loop of trigger_channel_shutdown over the channel list: each channel still open is
      closed, in list order, and the close is recorded. */
  method CloseAll(closed: seq<bool>, calls: seq<nat>) returns (cl: seq<bool>, out: seq<nat>)
    ensures |cl| == |closed| && forall c :: 0 <= c < |cl| ==> cl[c]
    ensures out == calls + OpenAmong(closed, |closed|)
  {
    cl, out := closed, calls;
    var i := 0;
    while i < |cl|
      invariant i <= |cl| == |closed|
      invariant forall c :: 0 <= c < i ==> cl[c]
      invariant forall c :: i <= c < |cl| ==> cl[c] == closed[c]
      invariant out == calls + OpenAmong(closed, i)
    {
      if !cl[i] {
        out := out + [i];
        cl := cl[i := true];
      }
      i := i + 1;
    }
  }

  /** Every open channel is listed once. */
  lemma {:induction false} OpenAmongNoDup(closed: seq<bool>, k: nat)
    requires k <= |closed|
    ensures NoDup(OpenAmong(closed, k))
  {
    if k > 0 {
      OpenAmongNoDup(closed, k - 1);
      OpenAmongMembers(closed, k - 1);
      var r := OpenAmong(closed, k - 1);
      forall i, j | 0 <= i < j < |OpenAmong(closed, k)|
        ensures OpenAmong(closed, k)[i] != OpenAmong(closed, k)[j]
      {
        if j >= |r| {
          assert OpenAmong(closed, k)[i] in r;
        }
      }
    }
  }

  /** One more member of the list has been served. */
  lemma ReceivedStep(members: seq<nat>, states: seq<ChannelState>, bytes: seq<int>, i: nat, c: nat)
    requires NoDup(members) && i < |members| && c < |states|
    ensures Received(members[..i + 1], states, c, bytes)
            == Received(members[..i], states, c, bytes)
               + (if c == members[i] && BroadcastOk(states[c]) then bytes else [])
  {
    assert members[..i + 1] == members[..i] + [members[i]];
    if c == members[i] {
      assert c !in members[..i] by {
        assert forall j :: 0 <= j < i ==> members[j] != members[i];
      }
    }
  }

  /** The links between channels and groups: a channel's `bcg` names the one group whose
      list holds it, each list holds only channels that point back to it and holds each of
      them once, and a freed group's list is empty. */
  ghost predicate Links(n: nat, bcg: seq<Option<nat>>, groups: seq<seq<nat>>, live: seq<bool>) {
    && |bcg| == n && |live| == |groups|
    && (forall c :: 0 <= c < n && bcg[c].Some? ==> bcg[c].value < |groups| && c in groups[bcg[c].value])
    && (forall g, i :: 0 <= g < |groups| && 0 <= i < |groups[g]| ==>
          groups[g][i] < n && bcg[groups[g][i]] == Some(g))
    && (forall g :: 0 <= g < |groups| ==> NoDup(groups[g]))
    && (forall g :: 0 <= g < |groups| && !live[g] ==> groups[g] == [])
  }

  /** Taking a grouped channel out of its list (channel_clear_broadcast_group) keeps the links. */
  lemma ClearLinks(n: nat, bcg: seq<Option<nat>>, groups: seq<seq<nat>>, live: seq<bool>, c: nat)
    requires Links(n, bcg, groups, live) && c < n && bcg[c].Some?
    ensures Links(n, bcg[c := None], groups[bcg[c].value := Without(groups[bcg[c].value], c)], live)
  {
    var g := bcg[c].value;
    var bcg2 := bcg[c := None];
    var groups2 := groups[g := Without(groups[g], c)];
    WithoutNoDup(groups[g], c);
    forall d | 0 <= d < n && bcg2[d].Some?
      ensures bcg2[d].value < |groups2| && d in groups2[bcg2[d].value]
    {
      assert d != c;
    }
    forall h, i | 0 <= h < |groups2| && 0 <= i < |groups2[h]|
      ensures groups2[h][i] < n && bcg2[groups2[h][i]] == Some(h)
    {
      var y := groups2[h][i];
      if h == g {
        assert y in Without(groups[g], c);
        var j :| 0 <= j < |groups[g]| && groups[g][j] == y;
      } else {
        assert groups[h][i] != c;
      }
    }
  }

  /** Appending an ungrouped channel to a live group (channel_set_broadcast_group) keeps the
      links. */
  lemma JoinLinks(n: nat, bcg: seq<Option<nat>>, groups: seq<seq<nat>>, live: seq<bool>, c: nat, g: nat)
    requires Links(n, bcg, groups, live) && c < n && bcg[c] == None && g < |groups| && live[g]
    ensures forall h :: 0 <= h < |groups| ==> c !in groups[h]
    ensures Links(n, bcg[c := Some(g)], groups[g := groups[g] + [c]], live)
  {
    var groups2 := groups[g := groups[g] + [c]];
    forall h, i | 0 <= h < |groups2| && 0 <= i < |groups2[h]|
      ensures groups2[h][i] < n && bcg[c := Some(g)][groups2[h][i]] == Some(h)
    {
      if h == g && i < |groups[g]| {
        assert groups2[h][i] == groups[g][i];
      }
    }
  }

  /** Unlinking the first member of a group (one round of broadcast_group_free) keeps the
      links. */
  lemma PopLinks(n: nat, bcg: seq<Option<nat>>, groups: seq<seq<nat>>, live: seq<bool>, g: nat)
    requires Links(n, bcg, groups, live) && g < |groups| && groups[g] != []
    ensures groups[g][0] !in groups[g][1..]
    ensures Links(n, bcg[groups[g][0] := None], groups[g := groups[g][1..]], live)
  {
    var c := groups[g][0];
    assert forall i :: 0 < i < |groups[g]| ==> groups[g][i] != groups[g][0];
    assert groups[g][1..] == Without(groups[g], c);
    ClearLinks(n, bcg, groups, live, c);
  }

  /** The channels, the broadcast groups and the servers. `out[c]` is everything written to
      channel `c`'s output stream; `closeCalls` logs `channel_close` calls in order. */
  class Hub {
    var states: seq<ChannelState>
    var hasProtocol: seq<bool>
    var closed: seq<bool>
    var bcg: seq<Option<nat>>
    var out: seq<seq<int>>
    var groups: seq<seq<nat>>
    var live: seq<bool>
    var servers: seq<nat>
    var closeCalls: seq<nat>
    var serverCloseCalls: seq<nat>

    ghost predicate Valid()
      reads this
    {
      && |hasProtocol| == |states| && |closed| == |states| && |out| == |states|
      && Links(|states|, bcg, groups, live)
    }

    constructor ()
      ensures Valid() && states == [] && groups == [] && servers == []
      ensures closeCalls == [] && serverCloseCalls == []
    {
      states, hasProtocol, closed, bcg, out := [], [], [], [], [];
      groups, live, servers, closeCalls, serverCloseCalls := [], [], [], [], [];
    }

    /** A transport hands over a new channel (outside channel.c): ungrouped, open, no output. */
    method AddChannel(st: ChannelState, protocol: bool) returns (c: nat)
      requires Valid()
      modifies this
      ensures Valid() && c == |old(states)|
      ensures states == old(states) + [st] && hasProtocol == old(hasProtocol) + [protocol]
      ensures closed == old(closed) + [false] && bcg == old(bcg) + [None] && out == old(out) + [[]]
      ensures unchanged(this`groups, this`live, this`servers, this`closeCalls, this`serverCloseCalls)
    {
      c := |states|;
      states, hasProtocol, closed := states + [st], hasProtocol + [protocol], closed + [false];
      bcg, out := bcg + [None], out + [[]];
    }

    /** A transport registers a listening server (outside channel.c). */
    method AddServer(id: nat)
      requires Valid()
      modifies this
      ensures Valid() && servers == old(servers) + [id]
      ensures unchanged(this`states, this`hasProtocol, this`closed, this`bcg, this`out)
      ensures unchanged(this`groups, this`live, this`closeCalls, this`serverCloseCalls)
    {
      servers := servers + [id];
    }

    /** broadcast_group_alloc: a new, empty group. */
    method GroupAlloc() returns (g: nat)
      requires Valid()
      modifies this
      ensures Valid() && g == |old(groups)|
      ensures groups == old(groups) + [[]] && live == old(live) + [true]
      ensures unchanged(this`states, this`hasProtocol, this`closed, this`bcg, this`out)
      ensures unchanged(this`servers, this`closeCalls, this`serverCloseCalls)
    {
      g := |groups|;
      groups, live := groups + [[]], live + [true];
    }

    /** channel_clear_broadcast_group: nothing for an ungrouped channel, otherwise the channel
        leaves its group's list and the rest of the list keeps its order. */
    method ClearGroup(c: nat)
      requires Valid() && c < |states|
      modifies this
      ensures Valid() && bcg == old(bcg)[c := None]
      ensures old(bcg)[c] == None ==> groups == old(groups)
      ensures old(bcg)[c].Some? ==>
        groups == old(groups)[old(bcg)[c].value := Without(old(groups)[old(bcg)[c].value], c)]
      ensures unchanged(this`states, this`hasProtocol, this`closed, this`out, this`live)
      ensures unchanged(this`servers, this`closeCalls, this`serverCloseCalls)
    {
      if bcg[c] == None {
        return;
      }
      ClearLinks(|states|, bcg, groups, live, c);
      var g := bcg[c].value;
      groups := groups[g := Without(groups[g], c)];
      bcg := bcg[c := None];
    }

    /** `c->protocol = p`, done by the code that accepts a connection (outside channel.c). */
    method SetProtocol(c: nat)
      requires Valid() && c < |states|
      modifies this
      ensures Valid() && hasProtocol == old(hasProtocol)[c := true]
      ensures unchanged(this`states, this`closed, this`bcg, this`out, this`groups, this`live)
      ensures unchanged(this`servers, this`closeCalls, this`serverCloseCalls)
    {
      hasProtocol := hasProtocol[c := true];
    }

    /** channel_set_broadcast_group: the channel leaves any group it was in and becomes the
        last member of `g`. */
    method SetGroup(c: nat, g: nat)
      requires Valid() && c < |states| && g < |groups| && live[g]
      modifies this
      ensures Valid() && bcg == old(bcg)[c := Some(g)] && |groups| == |old(groups)|
      ensures groups[g] == Without(old(groups)[g], c) + [c]
      ensures forall h :: 0 <= h < |groups| && h != g ==> groups[h] == Without(old(groups)[h], c)
      ensures unchanged(this`states, this`hasProtocol, this`closed, this`out, this`live)
      ensures unchanged(this`servers, this`closeCalls, this`serverCloseCalls)
    {
      ClearGroup(c);
      JoinLinks(|states|, bcg, groups, live, c, g);
      groups := groups[g := groups[g] + [c]];
      bcg := bcg[c := Some(g)];
    }

    /** broadcast_group_free: every member is unlinked and its `bcg` cleared, in list order;
        the group is then empty and dead. */
    method GroupFree(g: nat)
      requires Valid() && g < |groups| && live[g]
      modifies this
      ensures Valid() && groups == old(groups)[g := []] && live == old(live)[g := false]
      ensures |bcg| == |old(bcg)|
      ensures forall c :: 0 <= c < |bcg| ==>
        bcg[c] == if c in old(groups)[g] then None else old(bcg)[c]
      ensures unchanged(this`states, this`hasProtocol, this`closed, this`out)
      ensures unchanged(this`servers, this`closeCalls, this`serverCloseCalls)
    {
      ghost var members := groups[g];
      while groups[g] != []
        invariant Valid() && g < |groups| && |groups| == |old(groups)| && |bcg| == |old(bcg)|
        invariant forall h :: 0 <= h < |groups| && h != g ==> groups[h] == old(groups)[h]
        invariant unchanged(this`states, this`hasProtocol, this`closed, this`out, this`live)
        invariant unchanged(this`servers, this`closeCalls, this`serverCloseCalls)
        invariant forall c :: c in groups[g] ==> c in members
        invariant forall c :: 0 <= c < |bcg| ==>
          bcg[c] == if c in members && c !in groups[g] then None else old(bcg)[c]
        decreases |groups[g]|
      {
        PopLinks(|states|, bcg, groups, live, g);
        var c := groups[g][0];
        bcg := bcg[c := None];
        groups := groups[g := groups[g][1..]];
      }
      live := live[g := false];
    }

    /** write_block_all: the block goes to every member of the group that is in a broadcast
        state, in list order; every other channel's output is untouched. */
    method WriteBlockAll(g: nat, bytes: seq<int>)
      requires Valid() && g < |groups| && live[g]
      modifies this
      ensures unchanged(this`states, this`hasProtocol, this`closed, this`bcg, this`groups, this`live)
      ensures unchanged(this`servers, this`closeCalls, this`serverCloseCalls)
      ensures Valid() && |out| == |old(out)|
      ensures forall c :: 0 <= c < |out| ==> out[c] == old(out)[c] + Received(groups[g], states, c, bytes)
    {
      var members := groups[g];
      var i := 0;
      while i < |members|
        invariant i <= |members| && Valid() && |out| == |old(out)|
        invariant forall c :: 0 <= c < |out| ==>
          out[c] == old(out)[c] + Received(members[..i], states, c, bytes)
        invariant unchanged(this`states, this`hasProtocol, this`closed, this`bcg, this`groups, this`live)
        invariant unchanged(this`servers, this`closeCalls, this`serverCloseCalls)
      {
        var c := members[i];
        forall d | 0 <= d < |out|
          ensures Received(members[..i + 1], states, d, bytes)
                  == Received(members[..i], states, d, bytes)
                     + (if d == c && BroadcastOk(states[d]) then bytes else [])
        {
          ReceivedStep(members, states, bytes, i, d);
        }
        if BroadcastOk(states[c]) {
          out := out[c := out[c] + bytes];
        }
        i := i + 1;
      }
      assert members[..i] == members;
    }

    /** write_all: one byte, forwarded the same way. */
    method WriteAll(g: nat, b: int)
      requires Valid() && g < |groups| && live[g]
      modifies this
      ensures unchanged(this`states, this`hasProtocol, this`closed, this`bcg, this`groups, this`live)
      ensures unchanged(this`servers, this`closeCalls, this`serverCloseCalls)
      ensures Valid() && |out| == |old(out)|
      ensures forall c :: 0 <= c < |out| ==> out[c] == old(out)[c] + Received(groups[g], states, c, [b])
    {
      WriteBlockAll(g, [b]);
    }

    /** splice_block_all: at most 0x400 bytes are read (from `*offset` when an offset is
        given; `avail` stands for what the file holds there, `failed` for a read error), the
        offset advances by what was read, and only a positive count is forwarded. */
    method SpliceBlockAll(g: nat, size: nat, offset: Option<int>, avail: seq<int>, failed: bool)
      returns (rd: int, offset2: Option<int>)
      requires Valid() && g < |groups| && live[g]
      modifies this
      ensures unchanged(this`states, this`hasProtocol, this`closed, this`bcg, this`groups, this`live)
      ensures unchanged(this`servers, this`closeCalls, this`serverCloseCalls)
      ensures rd == (if failed then -1 else Min(|avail|, Min(size, SPLICE_BUF)))
      ensures rd <= SPLICE_BUF && rd <= size
      ensures offset2 == (if offset.Some? && rd > 0 then Some(offset.value + rd) else offset)
      ensures Valid() && |out| == |old(out)|
      ensures rd > 0 ==> forall c :: 0 <= c < |out| ==>
        out[c] == old(out)[c] + Received(groups[g], states, c, avail[..rd])
      ensures rd <= 0 ==> out == old(out)
    {
      var request := if size > SPLICE_BUF then SPLICE_BUF else size;
      rd := if failed then -1 else Min(|avail|, request);
      offset2 := offset;
      if offset.Some? && rd > 0 {
        offset2 := Some(offset.value + rd);
      }
      if rd > 0 {
        WriteBlockAll(g, avail[..rd]);
      }
    }

    /** channel_start: a channel with a protocol, waiting to start, becomes Started (the
        transport's start_comm is outside this model). */
    method Start(c: nat)
      requires Valid() && c < |states| && hasProtocol[c] && states[c] == StartWait
      modifies this
      ensures Valid() && states == old(states)[c := Started]
      ensures unchanged(this`hasProtocol, this`closed, this`bcg, this`out, this`groups, this`live)
      ensures unchanged(this`servers, this`closeCalls, this`serverCloseCalls)
    {
      states := states[c := Started];
    }

    /** trigger_channel_shutdown: every channel not yet closed is closed, in list order, then
        every server is closed (and leaves the server list). */
    method TriggerShutdown()
      requires Valid()
      modifies this
      ensures unchanged(this`states, this`hasProtocol, this`bcg, this`out, this`groups, this`live)
      ensures Valid() && |closed| == |old(closed)| && forall c :: 0 <= c < |closed| ==> closed[c]
      ensures closeCalls == old(closeCalls) + OpenAmong(old(closed), |old(closed)|)
      ensures serverCloseCalls == old(serverCloseCalls) + old(servers) && servers == []
    {
      CloseChannels();
      CloseServers();
    }

    /** The first loop of trigger_channel_shutdown. */
    method CloseChannels()
      requires Valid()
      modifies this
      ensures unchanged(this`states, this`hasProtocol, this`bcg, this`out, this`groups, this`live)
      ensures unchanged(this`servers, this`serverCloseCalls)
      ensures Valid() && |closed| == |old(closed)| && forall c :: 0 <= c < |closed| ==> closed[c]
      ensures closeCalls == old(closeCalls) + OpenAmong(old(closed), |old(closed)|)
    {
      var cl, calls := CloseAll(closed, closeCalls);
      closed, closeCalls := cl, calls;
    }

    /** The second loop of trigger_channel_shutdown. */
    method CloseServers()
      requires Valid()
      modifies this
      ensures unchanged(this`states, this`hasProtocol, this`closed, this`bcg, this`out, this`groups)
      ensures unchanged(this`live, this`closeCalls)
      ensures Valid() && serverCloseCalls == old(serverCloseCalls) + old(servers) && servers == []
    {
      var k := 0;
      while k < |servers|
        invariant unchanged(this`states, this`hasProtocol, this`closed, this`bcg, this`out, this`groups)
        invariant unchanged(this`live, this`closeCalls)
        invariant k <= |servers| && servers == old(servers)
        invariant serverCloseCalls == old(serverCloseCalls) + servers[..k]
      {
        serverCloseCalls := serverCloseCalls + [servers[k]];
        k := k + 1;
        assert servers[..k] == servers[..k - 1] + [servers[k - 1]];
      }
      assert servers[..k] == servers;
      servers := [];
    }
  }

  /** The capacity of each listener array. */
  const LISTENER_SLOTS: nat := 16

  /** One of the create/open/close listener registries: a 16-slot array and its count.
      Listeners are named by number; notifying calls each of them with the channel. */
  class Registry {
    const slots: array<nat>
    var count: nat

    ghost predicate Valid()
      reads this
    {
      slots.Length == LISTENER_SLOTS && count <= LISTENER_SLOTS
    }

    /** The registered listeners, in registration order. */
    function Contents(): (r: seq<nat>)
      requires Valid()
      reads this, slots
      ensures |r| == count
    {
      slots[..count]
    }

    constructor ()
      ensures Valid() && fresh(slots) && Contents() == []
    {
      slots := new nat[LISTENER_SLOTS];
      count := 0;
    }

    /** add_channel_*_listener: the caller must leave a free slot (the source asserts it);
        the listener goes into the next one. */
    method Add(listener: nat)
      requires Valid() && count < LISTENER_SLOTS
      modifies this, slots
      ensures Valid() && Contents() == old(Contents()) + [listener]
    {
      slots[count] := listener;
      count := count + 1;
    }

    /** notify_channel_*: every registered listener is called with the channel, in order. */
    method Notify(c: nat) returns (calls: seq<(nat, nat)>)
      requires Valid()
      ensures calls == Calls(Contents(), c)
    {
      calls := [];
      var i := 0;
      while i < count
        invariant i <= count
        invariant calls == Calls(slots[..i], c)
      {
        calls := calls + [(slots[i], c)];
        i := i + 1;
      }
    }
  }
}
