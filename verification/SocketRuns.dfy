/**
 * Whole runs of the socket system: every call is settled at most once and never wrongly, a
 * drained connection has nothing pending, and after `close` nothing is pending either.
 */
module SocketRuns {
  import opened Socket
  import opened SocketSystem

  // --------------------------------------------------------------------- numbering

  function Ids(pending: seq<Entry>): seq<nat> {
    seq(|pending|, i requires 0 <= i < |pending| => pending[i].id)
  }

  function SettledIds(settled: seq<(nat, Outcome)>): seq<nat> {
    seq(|settled|, i requires 0 <= i < |settled| => settled[i].0)
  }

  /** How often a call is pending or has been settled. */
  function Times(c: Client, id: nat): nat {
    multiset(Ids(c.pending))[id] + multiset(SettledIds(c.settled))[id]
  }

  /** Every call made so far is pending or settled, and only once. */
  ghost predicate Numbered(c: Client) {
    forall id: nat :: Times(c, id) == if id < |c.issued| then 1 else 0
  }

  lemma SettleOne(settled: seq<(nat, Outcome)>, id: nat, o: Outcome)
    ensures SettledIds(settled + [(id, o)]) == SettledIds(settled) + [id]
  {
  }

  lemma PendOne(pending: seq<Entry>, e: Entry)
    ensures Ids(pending + [e]) == Ids(pending) + [e.id]
  {
  }

  lemma TakeOut(ids: seq<nat>, i: nat)
    requires i < |ids|
    ensures multiset(Without(ids, i)) + multiset{ids[i]} == multiset(ids)
  {
    assert ids == ids[..i] + [ids[i]] + ids[i + 1..];
  }

  lemma FetchNumbered(c: Client, r: Request)
    requires Numbered(c)
    ensures Numbered(Fetch(c, r).0)
  {
    hide HasKey, Ids, SettledIds;
    var id, d := |c.issued|, Fetch(c, r).0;
    assert Times(c, id) == 0;
    SettleOne(c.settled, id, Rejected(SocketClosed));
    SettleOne(c.settled, id, Rejected(AlreadyInFlight));
    if !c.closed && !HasKey(c.pending, r.channel, r.offset) {
      PendOne(c.pending, d.pending[|c.pending|]);
    }
    forall n: nat ensures Times(d, n) == if n < |d.issued| then 1 else 0 {
      assert Times(c, n) == if n < |c.issued| then 1 else 0;
    }
  }

  lemma CloseNumbered(c: Client)
    requires Numbered(c)
    ensures Numbered(Close(c))
  {
    if !c.closed {
      assert SettledIds(c.settled + Rejections(c.pending)) == SettledIds(c.settled) + Ids(c.pending);
      assert Ids([]) == [];
      forall n: nat ensures Times(Close(c), n) == Times(c, n) {}
    }
  }

  lemma AcceptNumbered(c: Client, f: Frame)
    requires Numbered(c)
    ensures Numbered(Accept(c, f))
  {
    hide ReplyComplete;
    var i, d := FindPending(c.pending, f), Accept(c, f);
    if i < |c.pending| {
      var e := Grown(c.pending[i], f);
      if ReplyComplete(e, |f.items|) {
        assert Ids(d.pending) == Without(Ids(c.pending), i);
        TakeOut(Ids(c.pending), i);
        SettleOne(c.settled, e.id, Resolved(e.channel, e.offset, e.items));
      } else {
        assert Ids(d.pending) == Ids(c.pending);
      }
      forall n: nat ensures Times(d, n) == Times(c, n) {}
    }
  }

  // ------------------------------------------------------------------- correctness

  /** The entry is what its call asked for. */
  predicate Faithful(e: Entry, issued: seq<Request>) {
    && e.id < |issued|
    && e.channel == issued[e.id].channel
    && e.offset == issued[e.id].offset
    && e.limit == Min(issued[e.id].limit, MAX_PAGE_LIMIT)
  }

  /** A resolved fetch got the slice it asked for; a refusal for closing came with a close. */
  predicate Right(svc: Service, c: Client, id: nat, o: Outcome) {
    && id < |c.issued|
    && (o.Resolved? ==>
          && o.channel == c.issued[id].channel
          && o.offset == c.issued[id].offset
          && o.items == Answer(svc, c.issued[id]))
    && (o == Rejected(SocketClosed) ==> c.closed)
  }

  predicate Correct(svc: Service, c: Client) {
    && (forall i :: 0 <= i < |c.pending| ==> Faithful(c.pending[i], c.issued))
    && (forall i :: 0 <= i < |c.settled| ==> Right(svc, c, c.settled[i].0, c.settled[i].1))
  }

  /** Pending fetches differ in their keys, as keys of a map. */
  predicate KeysApart(pending: seq<Entry>) {
    forall i, j :: 0 <= i < j < |pending| ==>
      !SameKey(pending[i], pending[j].channel, pending[j].offset)
  }

  lemma FetchCorrect(svc: Service, c: Client, r: Request)
    requires Correct(svc, c) && KeysApart(c.pending)
    ensures Correct(svc, Fetch(c, r).0) && KeysApart(Fetch(c, r).0.pending)
  {
    hide Answer;
    var d := Fetch(c, r).0;
    forall i | 0 <= i < |d.settled| ensures Right(svc, d, d.settled[i].0, d.settled[i].1) {
      if i < |c.settled| {
        assert d.settled[i] == c.settled[i];
        assert Right(svc, c, c.settled[i].0, c.settled[i].1);
      }
    }
  }

  lemma CloseCorrect(svc: Service, c: Client)
    requires Correct(svc, c)
    ensures Correct(svc, Close(c))
  {
    hide Answer;
    var d := Close(c);
    forall i | 0 <= i < |d.settled| ensures Right(svc, d, d.settled[i].0, d.settled[i].1) {
      if i < |c.settled| {
        assert d.settled[i] == c.settled[i];
      } else {
        assert Faithful(c.pending[i - |c.settled|], c.issued);
      }
    }
  }

  lemma AcceptCorrect(svc: Service, c: Client, f: Frame)
    requires Correct(svc, c) && KeysApart(c.pending) && SettlesRight(svc, c.pending, f)
    ensures Correct(svc, Accept(c, f)) && KeysApart(Accept(c, f).pending)
  {
    hide ReplyComplete, Service.Slice;
    var i := FindPending(c.pending, f);
    if i < |c.pending| {
      if ReplyComplete(Grown(c.pending[i], f), |f.items|) {
        SettledCorrect(svc, c, f, i);
      } else {
        GrownCorrect(svc, c, f, i);
      }
    }
  }

  /** The request is whole: it leaves the pending ones with its slice. */
  lemma SettledCorrect(svc: Service, c: Client, f: Frame, i: nat)
    requires Correct(svc, c) && KeysApart(c.pending) && i < |c.pending|
    requires var e := c.pending[i];
      Grown(e, f).items == svc.Slice(e.channel, e.offset, e.offset + e.limit)
    ensures var g := Grown(c.pending[i], f);
      var d := c.(pending := Without(c.pending, i),
                  settled := c.settled + [(g.id, Resolved(g.channel, g.offset, g.items))]);
      Correct(svc, d) && KeysApart(d.pending)
  {
    hide Service.Slice;
    var e, rest := c.pending[i], Without(c.pending, i);
    assert Faithful(e, c.issued);
    assert forall k :: 0 <= k < |rest| ==> rest[k] == c.pending[if k < i then k else k + 1];
  }

  /** The request goes on waiting, with the frame's items added. */
  lemma GrownCorrect(svc: Service, c: Client, f: Frame, i: nat)
    requires Correct(svc, c) && KeysApart(c.pending) && i < |c.pending|
    ensures var d := c.(pending := c.pending[i := Grown(c.pending[i], f)]);
      Correct(svc, d) && KeysApart(d.pending)
  {
    hide Service.Slice;
    assert Faithful(c.pending[i], c.issued);
  }

  // ------------------------------------------------------------------- the invariant

  ghost predicate Good(svc: Service, s: System) {
    && Consistent(svc, s)
    && (s.client.connected ==> s.client.queue == [])
    && (s.client.closed ==> s.client.pending == [])
    && (!s.client.closed ==> Matched(svc, s.client.pending, Future(svc, s)))
    && Numbered(s.client)
    && Correct(svc, s.client)
    && KeysApart(s.client.pending)
  }

  /** A fetch the service answers with frames, capped alike on both sides. */
  predicate Served(svc: Service, r: Request) {
    r.channel in svc.data && Wanted(svc, r) == Min(r.limit, MAX_PAGE_LIMIT)
  }

  predicate Allowed(svc: Service, e: Event) {
    e.CallFetch? ==> Served(svc, e.request)
  }

  lemma StartGood(svc: Service)
    requires svc.Valid()
    ensures Good(svc, START)
  {
    assert Shape(svc, [], [], []);
    assert Future(svc, START) == [];
  }

  lemma FetchFuture(svc: Service, s: System, r: Request)
    requires Consistent(svc, s) && (s.client.connected ==> s.client.queue == [])
    ensures var t := Step(svc, s, CallFetch(r));
      Future(svc, t) == Future(svc, s)
        + (if s.client.closed || HasKey(s.client.pending, r.channel, r.offset) then []
           else Frames(svc, r.channel, r.offset, Wanted(svc, r), 0))
  {
    hide Frames, Replies, HasKey;
    var t := Step(svc, s, CallFetch(r));
    var was, now := s.inbox + s.client.queue, t.inbox + t.client.queue;
    if s.client.closed || HasKey(s.client.pending, r.channel, r.offset) {
      assert now == was;
      assert Future(svc, s) + [] == Future(svc, s);
    } else {
      assert now == was + [r];
      RepliesOn(svc, was, r);
    }
  }

  lemma FetchGood(svc: Service, s: System, r: Request)
    requires Good(svc, s) && Served(svc, r)
    ensures Good(svc, Step(svc, s, CallFetch(r)))
  {
    hide Future, Frames, Numbered, Correct, KeysApart, Matched, Received, HasKey;
    var t := Step(svc, s, CallFetch(r));
    FetchNumbered(s.client, r);
    FetchCorrect(svc, s.client, r);
    FetchFuture(svc, s, r);
    if s.client.closed || HasKey(s.client.pending, r.channel, r.offset) {
      assert Future(svc, s) + [] == Future(svc, s);
    } else {
      var e := t.client.pending[|s.client.pending|];
      FreshReceived(svc, e);
      PushEntry(svc, s.client.pending, Future(svc, s), e);
    }
  }

  lemma FreshReceived(svc: Service, e: Entry)
    requires e.nextOffset == e.offset && e.items == [] && e.frameSize.None? && e.total.None?
    ensures Received(svc, e, 0)
  {
    SliceLength(svc, e.channel, e.offset, e.offset);
  }

  lemma DeliverGood(svc: Service, s: System)
    requires Good(svc, s)
    ensures Good(svc, Step(svc, s, Deliver))
  {
    hide Frames, Numbered, Correct, KeysApart, Matched, Replies, SettlesRight;
    if s.wire != [] {
      var t := Step(svc, s, Deliver);
      var f := s.wire[0];
      var i := FindPending(s.client.pending, f);
      AcceptNumbered(s.client, f);
      assert s.wire == [f] + t.wire;
      assert Future(svc, s) == [f] + Future(svc, t);
      if s.client.closed {
        assert i == 0;
      } else {
        AcceptMatched(svc, s.client, f, Future(svc, t));
        AcceptCorrect(svc, s.client, f);
      }
    }
  }

  lemma StepGood(svc: Service, s: System, e: Event)
    requires Good(svc, s) && Allowed(svc, e)
    ensures Good(svc, Step(svc, s, e))
  {
    hide Future, Numbered, Correct, KeysApart, Matched, Served;
    var t := Step(svc, s, e);
    match e
    case CallFetch(r) => FetchGood(svc, s, r);
    case CallClose =>
      CloseNumbered(s.client);
      CloseCorrect(svc, s.client);
      CloseApart(s.client);
      SameFuture(svc, s, t);
    case Connect =>
      ConnectKeeps(svc, s);
    case Serve =>
      ServeKeepsFuture(svc, s);
    case Deliver => DeliverGood(svc, s);
  }

  lemma CloseApart(c: Client)
    requires KeysApart(c.pending)
    ensures KeysApart(Close(c).pending)
  {
  }

  lemma SameFuture(svc: Service, s: System, t: System)
    requires Consistent(svc, s) && t.(client := s.client) == s && t.client.queue == s.client.queue
    ensures Consistent(svc, t) && Future(svc, t) == Future(svc, s)
  {
  }

  lemma ConnectKeeps(svc: Service, s: System)
    requires Good(svc, s)
    ensures Good(svc, Step(svc, s, Connect))
  {
    hide KeysApart, Matched, Frames, Replies, Right, Faithful;
    var t := Step(svc, s, Connect);
    assert t.inbox + t.client.queue == s.inbox + s.client.queue;
    assert Future(svc, t) == Future(svc, s);
    assert Numbered(t.client) by {
      forall id: nat ensures Times(t.client, id) == Times(s.client, id) {}
    }
    forall i | 0 <= i < |t.client.settled|
      ensures Right(svc, t.client, t.client.settled[i].0, t.client.settled[i].1)
    {
      assert Right(svc, s.client, s.client.settled[i].0, s.client.settled[i].1);
      SameRight(svc, s.client, t.client, s.client.settled[i].0, s.client.settled[i].1);
    }
  }

  lemma SameRight(svc: Service, c: Client, d: Client, id: nat, o: Outcome)
    requires d.issued == c.issued && d.closed == c.closed && Right(svc, c, id, o)
    ensures Right(svc, d, id, o)
  {
  }

  /** Every state of every run is good, however the steps are interleaved. */
  lemma {:induction false} RunGood(svc: Service, s: System, events: seq<Event>)
    requires Consistent(svc, s) && Good(svc, s)
    requires forall i :: 0 <= i < |events| ==> Allowed(svc, events[i])
    ensures Good(svc, Run(svc, s, events))
    decreases |events|
  {
    hide Good, Allowed;
    if events != [] {
      StepGood(svc, s, events[0]);
      RunGood(svc, Step(svc, s, events[0]), events[1..]);
    }
  }

  // ------------------------------------------------------------------- main results

  predicate HasOutcome(c: Client, id: nat) {
    exists i :: 0 <= i < |c.settled| && c.settled[i].0 == id
  }

  /** The calls of a client nothing is pending for: each has exactly one outcome. */
  ghost predicate AllSettledOnce(c: Client) {
    && c.pending == []
    && |c.settled| == |c.issued|
    && (forall id: nat :: id < |c.issued| ==> HasOutcome(c, id))
    && (forall i, j :: 0 <= i < j < |c.settled| ==> c.settled[i].0 != c.settled[j].0)
  }

  lemma SettledIdCount(settled: seq<(nat, Outcome)>, i: nat, j: nat)
    requires i < j < |settled| && settled[i].0 == settled[j].0
    ensures multiset(SettledIds(settled))[settled[i].0] >= 2
  {
    var ids := SettledIds(settled);
    assert ids == ids[..i] + [ids[i]] + ids[i + 1..j] + [ids[j]] + ids[j + 1..];
  }

  lemma FirstCounted(ids: seq<nat>)
    requires ids != []
    ensures multiset(ids)[ids[0]] >= 1
  {
    assert ids[0] in multiset(ids);
  }

  lemma {:induction false} CountedAll(ids: seq<nat>, n: nat)
    requires forall id: nat :: multiset(ids)[id] == if id < n then 1 else 0
    ensures |ids| == n
    decreases n
  {
    if n == 0 {
      if ids != [] {
        FirstCounted(ids);
      }
    } else {
      assert multiset(ids)[n - 1] == 1;
      assert n - 1 in ids;
      var i :| 0 <= i < |ids| && ids[i] == n - 1;
      TakeOut(ids, i);
      forall id: nat ensures multiset(Without(ids, i))[id] == if id < n - 1 then 1 else 0 {
        assert multiset(ids)[id] == if id < n then 1 else 0;
      }
      CountedAll(Without(ids, i), n - 1);
    }
  }

  lemma SettledAll(c: Client)
    requires Numbered(c) && c.pending == []
    ensures AllSettledOnce(c)
  {
    var ids := SettledIds(c.settled);
    assert Ids(c.pending) == [];
    forall id: nat ensures multiset(ids)[id] == if id < |c.issued| then 1 else 0 {
      assert Times(c, id) == multiset(ids)[id];
    }
    CountedAll(ids, |c.issued|);
    forall id: nat | id < |c.issued| ensures HasOutcome(c, id) {
      assert id in multiset(ids);
      var i :| 0 <= i < |ids| && ids[i] == id;
      assert c.settled[i].0 == id;
    }
    forall i, j | 0 <= i < j < |c.settled| ensures c.settled[i].0 != c.settled[j].0 {
      if c.settled[i].0 == c.settled[j].0 {
        SettledIdCount(c.settled, i, j);
      }
    }
  }

  /** With no frame to come, no fetch is waiting. */
  lemma NothingWaits(svc: Service, pending: seq<Entry>)
    requires svc.Valid() && Matched(svc, pending, [])
    ensures pending == []
  {
    hide Received, Stray;
    var segs :| Shape(svc, segs, pending, []);
    NoFramesNoOwners(svc, segs);
  }

  lemma {:induction false} NoFramesNoOwners(svc: Service, segs: seq<Segment>)
    requires svc.Valid() && Flat(segs) == []
    requires segs != [] ==> SegmentOk(svc, segs[0], true) && AllOk(svc, segs[1..])
    ensures Owners(segs) == []
    decreases |segs|
  {
    hide Received, Stray;
    if segs != [] {
      assert segs[0].frames == [];
      var rest := segs[1..];
      if rest != [] {
        assert AllOk(svc, rest[1..]) by {
          assert forall i :: 0 <= i < |rest[1..]| ==> rest[1..][i] == rest[i + 1];
        }
      }
      NoFramesNoOwners(svc, rest);
    }
  }

  /** Any run, over any interleaving of calls, service turns and deliveries: no fetch is settled
      twice or wrongly, and once every frame is in, or after `close`, every fetch has ended.
      A fetch that is not refused for its key then holds exactly the slice it asked for. */
  lemma FetchesEndRight(svc: Service, events: seq<Event>)
    requires svc.Valid() && forall i :: 0 <= i < |events| ==> Allowed(svc, events[i])
    ensures var s := Run(svc, START, events); var c := s.client;
      && Numbered(c) && Correct(svc, c)
      && (Future(svc, s) == [] || c.closed ==> AllSettledOnce(c))
  {
    hide Matched, Future, Correct, AllSettledOnce, Numbered;
    StartGood(svc);
    RunGood(svc, START, events);
    var s := Run(svc, START, events);
    if s.client.closed {
      SettledAll(s.client);
    } else if Future(svc, s) == [] {
      NothingWaits(svc, s.client.pending);
      SettledAll(s.client);
    }
  }

  predicate Quiet(e: Event) { e.Serve? || e.Deliver? }

  /** Left alone, the service and the wire deliver every frame. */
  lemma {:induction false} Finish(svc: Service, s: System) returns (events: seq<Event>)
    requires Consistent(svc, s) && s.client.queue == []
    ensures forall i :: 0 <= i < |events| ==> Quiet(events[i])
    ensures Future(svc, Run(svc, s, events)) == []
    decreases |Future(svc, s)|, |Future(svc, s)| - |s.wire|, |s.inbox|
  {
    hide Frames, LastFrame, FrameAt, ReplyComplete, Replies;
    if s.wire != [] {
      var t := Step(svc, s, Deliver);
      assert s.wire == [s.wire[0]] + t.wire;
      assert Future(svc, s) == [s.wire[0]] + Future(svc, t);
      var more := Finish(svc, t);
      events := [Deliver] + more;
      assert events[1..] == more;
    } else if s.serving.Some? || s.inbox != [] {
      ServeKeepsFuture(svc, s);
      var more := Finish(svc, Step(svc, s, Serve));
      events := [Serve] + more;
      assert events[1..] == more;
    } else {
      events := [];
      assert s.inbox + s.client.queue == [];
      assert Replies(svc, []) == [] by { NoReplies(svc); }
    }
  }

  lemma NoReplies(svc: Service)
    requires svc.Valid()
    ensures Replies(svc, []) == []
  {
  }

  /** From every state of an open connection, turns of the service and deliveries alone end
      every fetch. */
  lemma FetchesCanEnd(svc: Service, s: System) returns (events: seq<Event>)
    requires Consistent(svc, s) && Good(svc, s) && s.client.connected
    ensures forall i :: 0 <= i < |events| ==> Quiet(events[i])
    ensures AllSettledOnce(Run(svc, s, events).client)
    ensures Correct(svc, Run(svc, s, events).client)
  {
    hide Matched, Future, Correct, AllSettledOnce, Numbered;
    events := Finish(svc, s);
    RunGood(svc, s, events);
    var t := Run(svc, s, events);
    if !t.client.closed {
      NothingWaits(svc, t.client.pending);
    }
    SettledAll(t.client);
  }
}
