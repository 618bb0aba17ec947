/**
 * The client, the service and the two directions of the wire as one step system, over one
 * connection.  What the client has still to receive is a run of segments: replies of pending
 * fetches, in the order of the calls, and leftovers of fetches that are already settled.
 */
module SocketSystem {
  import opened Bytes
  import opened Socket

  /** The service has the request it is answering and how far it has got. */
  datatype System = System(
    client: Client,
    inbox: seq<Request>,
    serving: Option<(Request, nat)>,
    wire: seq<Frame>
  )

  datatype Event = CallFetch(request: Request) | CallClose | Connect | Serve | Deliver

  predicate Consistent(svc: Service, s: System) {
    svc.Valid() && (s.serving.Some? ==> s.serving.value.1 <= Wanted(svc, s.serving.value.0))
  }

  const IDLE := Client([], [], false, false, [], [])

  const START := System(IDLE, [], None, [])

  /** The service takes the next request, or sends the next frame of the one it has. */
  function ServeOne(svc: Service, s: System): (t: System)
    requires Consistent(svc, s)
    ensures Consistent(svc, t)
  {
    match s.serving
    case None =>
      if s.inbox == [] then s
      else s.(serving := Some((s.inbox[0], 0)), inbox := s.inbox[1..])
    case Some((r, sent)) =>
      var f := FrameAt(svc, r.channel, r.offset, Wanted(svc, r), sent);
      var last := LastFrame(svc, r.channel, r.offset, Wanted(svc, r), sent);
      s.(wire := s.wire + [f],
         serving := if last then None else Some((r, sent + Take(svc, Wanted(svc, r), sent))))
  }

  function Step(svc: Service, s: System, e: Event): (t: System)
    requires Consistent(svc, s)
    ensures Consistent(svc, t)
  {
    match e
    case CallFetch(r) =>
      var (c, sent) := Fetch(s.client, r);
      s.(client := c, inbox := s.inbox + sent)
    case CallClose => s.(client := Close(s.client))
    case Connect =>
      var (c, sent) := Opened(s.client);
      s.(client := c, inbox := s.inbox + sent)
    case Serve => ServeOne(svc, s)
    case Deliver =>
      if s.wire == [] then s
      else s.(client := Accept(s.client, s.wire[0]), wire := s.wire[1..])
  }

  function Run(svc: Service, s: System, events: seq<Event>): (t: System)
    requires Consistent(svc, s)
    ensures Consistent(svc, t)
    decreases |events|
  {
    if events == [] then s else Run(svc, Step(svc, s, events[0]), events[1..])
  }

  // ----------------------------------------------------------- what is still to come

  function Rest(svc: Service, s: System): seq<Frame>
    requires Consistent(svc, s)
  {
    match s.serving
    case None => []
    case Some((r, sent)) => Frames(svc, r.channel, r.offset, Wanted(svc, r), sent)
  }

  /** Every frame the client has still to receive, in order. */
  function Future(svc: Service, s: System): seq<Frame>
    requires Consistent(svc, s)
  {
    s.wire + Rest(svc, s) + Replies(svc, s.inbox + s.client.queue)
  }

  /** Whatever the service does next, the frames to come are the same. */
  lemma ServeKeepsFuture(svc: Service, s: System)
    requires Consistent(svc, s)
    ensures Future(svc, ServeOne(svc, s)) == Future(svc, s)
  {
    if s.serving.None? {
      TakingKeepsFuture(svc, s);
    } else {
      SendingKeepsFuture(svc, s);
    }
  }

  lemma TakingKeepsFuture(svc: Service, s: System)
    requires Consistent(svc, s) && s.serving.None?
    ensures Future(svc, ServeOne(svc, s)) == Future(svc, s)
  {
    hide Frames, FrameAt, LastFrame;
    if s.inbox != [] {
      assert (s.inbox + s.client.queue)[1..] == s.inbox[1..] + s.client.queue;
    }
  }

  /** A frame goes from what is to be sent to the wire. */
  lemma SendingKeepsFuture(svc: Service, s: System)
    requires Consistent(svc, s) && s.serving.Some?
    ensures Future(svc, ServeOne(svc, s)) == Future(svc, s)
  {
    hide Replies, FrameAt;
    var (r, sent) := s.serving.value;
    var f := FrameAt(svc, r.channel, r.offset, Wanted(svc, r), sent);
    var t := ServeOne(svc, s);
    assert Rest(svc, s) == [f] + Rest(svc, t);
    assert s.wire + ([f] + Rest(svc, t)) == s.wire + [f] + Rest(svc, t);
  }

  // -------------------------------------------------------------------- segments

  /** A run of frames to come, and the pending fetch they answer, if it is still pending. */
  datatype Segment = Segment(frames: seq<Frame>, owner: Option<Entry>)

  function Flat(segs: seq<Segment>): seq<Frame> {
    if segs == [] then [] else segs[0].frames + Flat(segs[1..])
  }

  function Owners(segs: seq<Segment>): seq<Entry> {
    if segs == [] then []
    else (if segs[0].owner.Some? then [segs[0].owner.value] else []) + Owners(segs[1..])
  }

  /** Only the first segment may be under way. */
  predicate SegmentOk(svc: Service, seg: Segment, first: bool)
    requires svc.Valid()
  {
    match seg.owner
    case None => forall i :: 0 <= i < |seg.frames| ==> Stray(svc, seg.frames[i])
    case Some(e) =>
      && e.offset <= e.nextOffset
      && Received(svc, e, e.nextOffset - e.offset)
      && seg.frames == Frames(svc, e.channel, e.offset, e.limit, e.nextOffset - e.offset)
      && (first || e.nextOffset == e.offset)
  }

  predicate AllOk(svc: Service, segs: seq<Segment>)
    requires svc.Valid()
  {
    forall i :: 0 <= i < |segs| ==> SegmentOk(svc, segs[i], false)
  }

  predicate Shape(svc: Service, segs: seq<Segment>, pending: seq<Entry>, future: seq<Frame>)
    requires svc.Valid()
  {
    && Flat(segs) == future
    && Owners(segs) == pending
    && (segs != [] ==> SegmentOk(svc, segs[0], true) && AllOk(svc, segs[1..]))
  }

  ghost predicate Matched(svc: Service, pending: seq<Entry>, future: seq<Frame>)
    requires svc.Valid()
  {
    exists segs :: Shape(svc, segs, pending, future)
  }

  lemma {:induction false} FlatOn(segs: seq<Segment>, seg: Segment)
    ensures Flat(segs + [seg]) == Flat(segs) + seg.frames
    ensures Owners(segs + [seg])
         == Owners(segs) + (if seg.owner.Some? then [seg.owner.value] else [])
  {
    if segs == [] {
      assert [seg][1..] == [];
    } else {
      assert (segs + [seg])[1..] == segs[1..] + [seg];
      FlatOn(segs[1..], seg);
    }
  }

  lemma Cons(svc: Service, seg: Segment, rest: seq<Segment>)
    requires svc.Valid()
    ensures Flat([seg] + rest) == seg.frames + Flat(rest)
    ensures Owners([seg] + rest)
         == (if seg.owner.Some? then [seg.owner.value] else []) + Owners(rest)
    ensures AllOk(svc, [seg] + rest) <==> SegmentOk(svc, seg, false) && AllOk(svc, rest)
  {
    hide SegmentOk;
    var segs := [seg] + rest;
    assert segs[1..] == rest;
    assert forall i :: 0 <= i < |rest| ==> segs[i + 1] == rest[i];
    assert segs[0] == seg;
  }

  lemma WithoutCons<T>(x: T, xs: seq<T>, i: nat)
    requires i < |xs|
    ensures Without([x] + xs, i + 1) == [x] + Without(xs, i)
    ensures ([x] + xs)[i + 1] == xs[i]
  {
  }

  /** A new fetch adds its entry and the frames of its reply. */
  lemma PushEntry(svc: Service, pending: seq<Entry>, future: seq<Frame>, e: Entry)
    requires svc.Valid() && Matched(svc, pending, future) && e.nextOffset == e.offset
    requires Received(svc, e, 0)
    ensures Matched(svc, pending + [e],
                    future + Frames(svc, e.channel, e.offset, e.limit, 0))
  {
    hide Frames, Received, Stray, Flat, Owners;
    var segs :| Shape(svc, segs, pending, future);
    var seg := Segment(Frames(svc, e.channel, e.offset, e.limit, 0), Some(e));
    FlatOn(segs, seg);
    if segs != [] {
      assert (segs + [seg])[1..] == segs[1..] + [seg];
    }
    assert Shape(svc, segs + [seg], pending + [e], future + seg.frames);
  }

  /** Segments with no frames left can be dropped from the front. */
  lemma {:induction false} Trimmed(svc: Service, segs: seq<Segment>, pending: seq<Entry>,
                                   future: seq<Frame>)
    returns (trim: seq<Segment>)
    requires svc.Valid() && Shape(svc, segs, pending, future) && future != []
    ensures Shape(svc, trim, pending, future) && trim != [] && trim[0].frames != []
    decreases |segs|
  {
    hide Received, Stray, Flat, Owners;
    assert segs != [] by { NoOwners(segs); }
    if segs[0].frames == [] {
      assert segs[0].owner.None?;
      var rest := segs[1..];
      assert segs == [segs[0]] + rest;
      Cons(svc, segs[0], rest);
      assert [] + Flat(rest) == Flat(rest) && [] + Owners(rest) == Owners(rest);
      if rest != [] {
        assert AllOk(svc, rest[1..]) by { assert forall i :: 0 <= i < |rest[1..]| ==> rest[1..][i] == rest[i + 1]; }
      }
      trim := Trimmed(svc, rest, pending, future);
    } else {
      trim := segs;
    }
  }

  /** Takes the owner away from the segment of the pending entry at `i`. */
  function Disown(segs: seq<Segment>, i: nat): seq<Segment> {
    if segs == [] then []
    else if segs[0].owner.None? then [segs[0]] + Disown(segs[1..], i)
    else if i == 0 then [segs[0].(owner := None)] + segs[1..]
    else [segs[0]] + Disown(segs[1..], i - 1)
  }

  /** A fetch past the end of its channel may be settled early: its reply is a leftover. */
  lemma LeftOver(svc: Service, seg: Segment)
    requires svc.Valid() && SegmentOk(svc, seg, false) && seg.owner.Some?
    requires seg.owner.value.offset >= svc.Total(seg.owner.value.channel)
    ensures SegmentOk(svc, seg.(owner := None), false)
  {
    hide Received, Stray;
    var e := seg.owner.value;
    PastTheEnd(svc, e.channel, e.offset, e.limit, 0);
  }

  lemma {:induction false} Disowned(svc: Service, segs: seq<Segment>, i: nat)
    requires svc.Valid() && i < |Owners(segs)| && AllOk(svc, segs)
    requires Owners(segs)[i].offset >= svc.Total(Owners(segs)[i].channel)
    ensures Flat(Disown(segs, i)) == Flat(segs)
    ensures Owners(Disown(segs, i)) == Without(Owners(segs), i)
    ensures AllOk(svc, Disown(segs, i))
  {
    hide Flat, Owners, SegmentOk, AllOk, Without;
    assert segs != [] by { NoOwners(segs); }
    var first, rest := segs[0], segs[1..];
    assert segs == [first] + rest;
    Cons(svc, first, rest);
    if first.owner.None? {
      assert Owners(segs) == Owners(rest);
      Disowned(svc, rest, i);
      Cons(svc, first, Disown(rest, i));
    } else if i == 0 {
      LeftOver(svc, first);
      Cons(svc, first.(owner := None), rest);
      assert Without([first.owner.value] + Owners(rest), 0) == Owners(rest) by {
        FirstWithout(first.owner.value, Owners(rest));
      }
      assert [] + Owners(rest) == Owners(rest);
    } else {
      WithoutCons(first.owner.value, Owners(rest), i - 1);
      Disowned(svc, rest, i - 1);
      Cons(svc, first, Disown(rest, i - 1));
    }
  }

  lemma NoOwners(segs: seq<Segment>)
    ensures segs == [] ==> Owners(segs) == [] && Flat(segs) == []
  {
  }

  lemma FirstWithout<T>(x: T, xs: seq<T>)
    ensures Without([x] + xs, 0) == xs
  {
  }

  // ------------------------------------------------------------ receiving a frame

  lemma {:induction false} OwnersFresh(svc: Service, segs: seq<Segment>, i: nat)
    requires svc.Valid() && AllOk(svc, segs) && i < |Owners(segs)|
    ensures Owners(segs)[i].nextOffset == Owners(segs)[i].offset
    ensures Received(svc, Owners(segs)[i], 0)
    decreases |segs|
  {
    hide Received, Stray, Flat;
    var first, rest := segs[0], segs[1..];
    assert segs == [first] + rest;
    Cons(svc, first, rest);
    if first.owner.None? {
      OwnersFresh(svc, rest, i);
    } else if i > 0 {
      OwnersFresh(svc, rest, i - 1);
    }
  }

  /** If the frame settles a fetch, the fetch gets all of what it asked for. */
  predicate SettlesRight(svc: Service, pending: seq<Entry>, f: Frame) {
    var i := FindPending(pending, f);
    i < |pending| && ReplyComplete(Grown(pending[i], f), |f.items|)
    ==> Grown(pending[i], f).items
        == svc.Slice(pending[i].channel, pending[i].offset, pending[i].offset + pending[i].limit)
  }

  lemma SetSegments(svc: Service, first: Segment, rest: seq<Segment>)
    requires svc.Valid() && SegmentOk(svc, first, true) && AllOk(svc, rest)
    ensures Matched(svc, (if first.owner.Some? then [first.owner.value] else []) + Owners(rest),
                    first.frames + Flat(rest))
  {
    hide SegmentOk, AllOk, Flat, Owners;
    var segs := [first] + rest;
    Cons(svc, first, rest);
    assert segs[1..] == rest && segs[0] == first;
    assert Shape(svc, segs, Owners(segs), Flat(segs));
  }

  lemma FramesHead(svc: Service, channel: string, offset: nat, wanted: nat, sent: nat)
    requires svc.Valid() && sent <= wanted
    ensures var fs := Frames(svc, channel, offset, wanted, sent);
      && fs != [] && fs[0] == FrameAt(svc, channel, offset, wanted, sent)
      && fs[1..] == if LastFrame(svc, channel, offset, wanted, sent) then []
                    else Frames(svc, channel, offset, wanted, sent + Take(svc, wanted, sent))
  {
  }

  /** The frame belongs to the fetch that has waited longest. */
  lemma OwnFrame(svc: Service, c: Client, f: Frame, first: Segment, rest: seq<Segment>)
    requires svc.Valid() && SegmentOk(svc, first, true) && AllOk(svc, rest)
    requires first.owner.Some? && c.pending == [first.owner.value] + Owners(rest)
    requires first.frames != [] && f == first.frames[0]
    ensures Matched(svc, Accept(c, f).pending, first.frames[1..] + Flat(rest))
    ensures SettlesRight(svc, c.pending, f)
  {
    hide AllOk, Flat, Owners, Stray, Received, ReplyComplete, LastFrame, Grown, Frames, Take;
    var e := first.owner.value;
    var sent := e.nextOffset - e.offset;
    assert sent <= e.limit by { ReceivedWithin(svc, e, sent); }
    FrameReceived(svc, e, sent);
    FramesHead(svc, e.channel, e.offset, e.limit, sent);
    assert FindPending(c.pending, f) == 0;
    var more, g, take := first.frames[1..], Grown(e, f), Take(svc, e.limit, sent);
    if ReplyComplete(g, |f.items|) {
      assert Without(c.pending, 0) == [] + Owners(rest);
      if LastFrame(svc, e.channel, e.offset, e.limit, sent) {
        assert more == [];
      } else {
        assert more == Frames(svc, e.channel, e.offset, e.limit, sent + take);
        PastTheEnd(svc, e.channel, e.offset, e.limit, sent + take);
      }
      SetSegments(svc, Segment(more, None), rest);
    } else {
      assert more == Frames(svc, e.channel, e.offset, e.limit, sent + take);
      GrownStill(e, f);
      NextOffset(svc, g, sent + take);
      assert c.pending[0 := g] == [g] + Owners(rest);
      SetSegments(svc, Segment(more, Some(g)), rest);
    }
  }

  lemma ReceivedWithin(svc: Service, e: Entry, sent: nat)
    requires Received(svc, e, sent)
    ensures sent <= e.limit
  {
  }

  lemma NextOffset(svc: Service, e: Entry, sent: nat)
    requires Received(svc, e, sent)
    ensures e.nextOffset == e.offset + sent
  {
  }

  lemma GrownStill(e: Entry, f: Frame)
    ensures var g := Grown(e, f);
      g.id == e.id && g.channel == e.channel && g.offset == e.offset && g.limit == e.limit
  {
  }

  /** A leftover frame can only answer a fetch past the end of its channel, and rightly. */
  lemma LeftOverFrame(svc: Service, c: Client, f: Frame, first: Segment, rest: seq<Segment>)
    requires svc.Valid() && SegmentOk(svc, first, true) && AllOk(svc, rest)
    requires first.owner.None? && c.pending == Owners(rest)
    requires first.frames != [] && f == first.frames[0]
    ensures Matched(svc, Accept(c, f).pending, first.frames[1..] + Flat(rest))
    ensures SettlesRight(svc, c.pending, f)
  {
    hide AllOk, Flat, Owners, Received, Without;
    var left := Segment(first.frames[1..], None);
    var i := FindPending(c.pending, f);
    if i == |c.pending| {
      SetSegments(svc, left, rest);
      assert [] + Owners(rest) == Owners(rest);
    } else {
      OwnersFresh(svc, rest, i);
      EmptySoFar(svc, c.pending[i]);
      Disowned(svc, rest, i);
      SetSegments(svc, left, Disown(rest, i));
      assert [] + Owners(Disown(rest, i)) == Owners(Disown(rest, i));
    }
  }

  lemma EmptySoFar(svc: Service, e: Entry)
    requires Received(svc, e, 0)
    ensures e.items == []
    ensures e.offset >= svc.Total(e.channel)
        ==> svc.Slice(e.channel, e.offset, e.offset + e.limit) == []
  {
    SliceLength(svc, e.channel, e.offset, e.offset);
    SliceLength(svc, e.channel, e.offset, e.offset + e.limit);
  }

  /** Receiving the next frame keeps the match and settles nothing wrongly. */
  lemma AcceptMatched(svc: Service, c: Client, f: Frame, later: seq<Frame>)
    requires svc.Valid() && Matched(svc, c.pending, [f] + later)
    ensures Matched(svc, Accept(c, f).pending, later) && SettlesRight(svc, c.pending, f)
  {
    hide SegmentOk, AllOk, Flat, Owners, Accept, SettlesRight;
    var some :| Shape(svc, some, c.pending, [f] + later);
    var segs := Trimmed(svc, some, c.pending, [f] + later);
    var first, rest := segs[0], segs[1..];
    assert segs == [first] + rest;
    Cons(svc, first, rest);
    assert f == (first.frames + Flat(rest))[0] == first.frames[0];
    assert later == ([f] + later)[1..] == first.frames[1..] + Flat(rest);
    if first.owner.Some? {
      OwnFrame(svc, c, f, first, rest);
    } else {
      assert [] + Owners(rest) == Owners(rest);
      LeftOverFrame(svc, c, f, first, rest);
    }
  }
}
