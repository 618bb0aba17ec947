/**
 * The job socket: several outstanding fetches share one connection, the service answers them
 * in order with frames of bounded size, and the client tells the frames apart by channel and
 * offset alone.
 */
module Socket {
  import opened Bytes

  /** One sample, as its JSON text. */
  type Item = string

  const MAX_PAGE_LIMIT := 100000

  datatype Request = Request(channel: string, offset: nat, limit: nat)

  datatype Frame = Frame(channel: string, offset: nat, items: seq<Item>, total: Option<nat>)

  datatype Refusal = SocketClosed | AlreadyInFlight

  datatype Outcome =
    | Resolved(channel: string, offset: nat, items: seq<Item>)
    | Rejected(why: Refusal)

  /** A fetch that waits for its reply. */
  datatype Entry = Entry(
    id: nat,
    channel: string,
    offset: nat,
    limit: nat,
    items: seq<Item>,
    nextOffset: nat,
    frameSize: Option<nat>,
    total: Option<nat>
  )

  function Min(a: nat, b: nat): nat { if a < b then a else b }

  // ------------------------------------------------------------------------ client

  /** The client: the pending fetches in insertion order, the frames queued until the
      connection opens, and, by the number of the call, what was asked and how it ended. */
  datatype Client = Client(
    pending: seq<Entry>,
    queue: seq<Request>,
    connected: bool,
    closed: bool,
    issued: seq<Request>,
    settled: seq<(nat, Outcome)>
  )

  predicate SameKey(e: Entry, channel: string, offset: nat) {
    e.channel == channel && e.offset == offset
  }

  predicate HasKey(pending: seq<Entry>, channel: string, offset: nat) {
    exists i :: 0 <= i < |pending| && SameKey(pending[i], channel, offset)
  }

  /** `fetch`: the client after the call and the frames it puts on the wire. */
  function Fetch(c: Client, r: Request): (Client, seq<Request>) {
    var id := |c.issued|;
    var called := c.(issued := c.issued + [r]);
    if c.closed then
      (called.(settled := c.settled + [(id, Rejected(SocketClosed))]), [])
    else if HasKey(c.pending, r.channel, r.offset) then
      (called.(settled := c.settled + [(id, Rejected(AlreadyInFlight))]), [])
    else
      var e := Entry(id, r.channel, r.offset, Min(r.limit, MAX_PAGE_LIMIT), [], r.offset, None, None);
      var waiting := called.(pending := c.pending + [e]);
      if c.connected then (waiting, [r]) else (waiting.(queue := c.queue + [r]), [])
  }

  /** The connection opens and the queue goes out. */
  function Opened(c: Client): (Client, seq<Request>) {
    (c.(connected := true, queue := []), c.queue)
  }

  function Rejections(pending: seq<Entry>): seq<(nat, Outcome)> {
    seq(|pending|, i requires 0 <= i < |pending| => (pending[i].id, Rejected(SocketClosed)))
  }

  function Close(c: Client): Client {
    if c.closed then c
    else c.(closed := true, pending := [], settled := c.settled + Rejections(c.pending))
  }

  /** The first pending fetch of the frame's channel that expects the frame's offset. */
  function FindPending(pending: seq<Entry>, f: Frame): (i: nat)
    ensures i <= |pending|
    ensures i < |pending| ==>
              pending[i].channel == f.channel && pending[i].nextOffset == f.offset
    ensures forall k :: 0 <= k < i ==>
              !(pending[k].channel == f.channel && pending[k].nextOffset == f.offset)
  {
    if pending == [] then 0
    else if pending[0].channel == f.channel && pending[0].nextOffset == f.offset then 0
    else 1 + FindPending(pending[1..], f)
  }

  function Grown(e: Entry, f: Frame): Entry {
    e.(items := e.items + f.items,
       nextOffset := f.offset + |f.items|,
       frameSize := if e.frameSize.None? && |f.items| > 0 then Some(|f.items|) else e.frameSize,
       total := if f.total.Some? then f.total else e.total)
  }

  /** `replyComplete`: no further frame can belong to the request. */
  predicate ReplyComplete(e: Entry, length: nat) {
    if length == 0 then true
    else if e.frameSize.Some? && length < e.frameSize.value then true
    else if |e.items| >= e.limit then true
    else if e.total.Some? then e.nextOffset >= e.total.value
    else length < e.limit
  }

  function Without<T>(s: seq<T>, i: nat): seq<T>
    requires i < |s|
  {
    s[..i] + s[i + 1..]
  }

  /** `acceptChunk`. */
  function Accept(c: Client, f: Frame): Client {
    var i := FindPending(c.pending, f);
    if i == |c.pending| then c
    else
      var e := Grown(c.pending[i], f);
      if ReplyComplete(e, |f.items|) then
        c.(pending := Without(c.pending, i),
           settled := c.settled + [(e.id, Resolved(e.channel, e.offset, e.items))])
      else c.(pending := c.pending[i := e])
  }

  // ----------------------------------------------------------------------- service

  /** The finished run a job serves, with the two sizes its answers are cut by. */
  datatype Service = Service(data: map<string, seq<Item>>, frameSamples: nat, maxPage: nat) {
    predicate Valid() { frameSamples >= 1 }

    function Total(channel: string): nat {
      if channel in data then |data[channel]| else 0
    }

    /** The samples of a channel from `a` up to `b`, as far as the channel goes. */
    function Slice(channel: string, a: nat, b: nat): seq<Item>
      requires a <= b
    {
      if channel in data then
        data[channel][Min(a, |data[channel]|)..Min(b, |data[channel]|)]
      else []
    }
  }

  /** What a fetch has to give: the slice asked for, capped at the page limit. */
  function Answer(svc: Service, r: Request): seq<Item> {
    svc.Slice(r.channel, r.offset, r.offset + Min(r.limit, MAX_PAGE_LIMIT))
  }

  function Take(svc: Service, wanted: nat, sent: nat): nat
    requires sent <= wanted
  {
    Min(wanted - sent, svc.frameSamples)
  }

  /** One turn of the service's loop: the next frame of a reply of `wanted` samples. */
  function FrameAt(svc: Service, channel: string, offset: nat, wanted: nat, sent: nat): Frame
    requires sent <= wanted
  {
    var start := offset + sent;
    Frame(channel, start, svc.Slice(channel, start, start + Take(svc, wanted, sent)),
          Some(svc.Total(channel)))
  }

  /** The loop returns after this frame. */
  predicate LastFrame(svc: Service, channel: string, offset: nat, wanted: nat, sent: nat)
    requires sent <= wanted
  {
    || FrameAt(svc, channel, offset, wanted, sent).items == []
    || sent + Take(svc, wanted, sent) >= wanted
    || offset + sent >= svc.Total(channel)
  }

  /** The frames of a reply that are still to come. */
  function Frames(svc: Service, channel: string, offset: nat, wanted: nat, sent: nat): seq<Frame>
    requires svc.Valid() && sent <= wanted
    decreases wanted - sent
  {
    var f := FrameAt(svc, channel, offset, wanted, sent);
    if LastFrame(svc, channel, offset, wanted, sent) then [f]
    else [f] + Frames(svc, channel, offset, wanted, sent + Take(svc, wanted, sent))
  }

  function Wanted(svc: Service, r: Request): nat { Min(r.limit, svc.maxPage) }

  /** The replies to a queue of requests, one after the other. */
  function Replies(svc: Service, rs: seq<Request>): seq<Frame>
    requires svc.Valid()
  {
    if rs == [] then []
    else Frames(svc, rs[0].channel, rs[0].offset, Wanted(svc, rs[0]), 0) + Replies(svc, rs[1..])
  }

  lemma {:induction false} RepliesOn(svc: Service, rs: seq<Request>, r: Request)
    requires svc.Valid()
    ensures Replies(svc, rs + [r])
         == Replies(svc, rs) + Frames(svc, r.channel, r.offset, Wanted(svc, r), 0)
  {
    hide Frames;
    if rs == [] {
      assert [r][1..] == [];
    } else {
      assert (rs + [r])[1..] == rs[1..] + [r];
      RepliesOn(svc, rs[1..], r);
    }
  }

  // ------------------------------------------------------------ one reply, one entry

  /** A trailing frame that a finished reply can still have: empty, past the channel's end. */
  predicate Stray(svc: Service, f: Frame) {
    f.items == [] && f.offset >= svc.Total(f.channel)
  }

  /** The entry has received exactly the first `sent` samples of its reply. */
  predicate Received(svc: Service, e: Entry, sent: nat) {
    && sent <= e.limit
    && e.nextOffset == e.offset + sent
    && e.items == svc.Slice(e.channel, e.offset, e.offset + sent)
    && (sent == 0 ==> e.frameSize == None && e.total == None)
    && (sent > 0 ==>
          && e.frameSize == Some(Min(svc.frameSamples, e.limit))
          && sent < e.limit && e.offset + sent < svc.Total(e.channel))
  }

  lemma SliceJoin(svc: Service, channel: string, a: nat, b: nat, c: nat)
    requires a <= b <= c
    ensures svc.Slice(channel, a, b) + svc.Slice(channel, b, c) == svc.Slice(channel, a, c)
  {
  }

  lemma SliceLength(svc: Service, channel: string, a: nat, b: nat)
    requires a <= b
    ensures |svc.Slice(channel, a, b)|
         == Min(b, svc.Total(channel)) - Min(a, svc.Total(channel))
  {
  }

  lemma SliceEnd(svc: Service, channel: string, a: nat, b: nat, c: nat)
    requires a <= b <= c && b >= svc.Total(channel)
    ensures svc.Slice(channel, a, c) == svc.Slice(channel, a, b)
  {
  }

  /** The client calls a reply complete exactly when it has all of the answer. */
  lemma FrameReceived(svc: Service, e: Entry, sent: nat)
    requires svc.Valid() && Received(svc, e, sent)
    ensures var f := FrameAt(svc, e.channel, e.offset, e.limit, sent);
            var g, take := Grown(e, f), Take(svc, e.limit, sent);
      if ReplyComplete(g, |f.items|) then
        && g.items == svc.Slice(e.channel, e.offset, e.offset + e.limit)
        && (!LastFrame(svc, e.channel, e.offset, e.limit, sent) ==>
              sent + take < e.limit && e.offset + sent + take >= svc.Total(e.channel))
      else
        && !LastFrame(svc, e.channel, e.offset, e.limit, sent)
        && sent + take <= e.limit && Received(svc, g, sent + take)
  {
    hide Service.Slice, Service.Total;
    var take := Take(svc, e.limit, sent);
    var start, total := e.offset + sent, svc.Total(e.channel);
    SliceJoin(svc, e.channel, e.offset, start, start + take);
    SliceLength(svc, e.channel, start, start + take);
    SliceLength(svc, e.channel, e.offset, start);
    if start + take >= total {
      SliceEnd(svc, e.channel, e.offset, start + take, e.offset + e.limit);
    }
  }

  /** Past the end of a channel the reply is one stray frame. */
  lemma PastTheEnd(svc: Service, channel: string, offset: nat, wanted: nat, sent: nat)
    requires svc.Valid() && sent <= wanted && offset + sent >= svc.Total(channel)
    ensures var f := FrameAt(svc, channel, offset, wanted, sent);
            Stray(svc, f) && Frames(svc, channel, offset, wanted, sent) == [f]
  {
    SliceLength(svc, channel, offset + sent, offset + sent + Take(svc, wanted, sent));
  }
}
