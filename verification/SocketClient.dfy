/**
 * The job socket as the client keeps it: an object whose fields change with every call and
 * every frame, with the budget of its reconnects, and the walk over a whole channel.
 */
module SocketClient {
  import opened Bytes
  import Grid
  import opened Socket

  /** `Infinity` retries are `None`. */
  class JobSocket {
    const maxRetries: Option<nat>
    const reconnects: bool
    var pending: seq<Entry>
    var queue: seq<Request>
    var connected: bool
    var closed: bool
    var attempt: nat
    var delivered: bool
    /** The calls of `fetch` so far, and the promises resolved or rejected, in order. */
    var issued: seq<Request>
    var settled: seq<(nat, Outcome)>
    /** The fetch frames given to the connection. */
    var sent: seq<Request>

    ghost function View(): Client
      reads this
    {
      Client(pending, queue, connected, closed, issued, settled)
    }

    ghost function Line(): Retry
      reads this
    {
      Retry(attempt, closed)
    }

    constructor (maxRetries: Option<nat>, reconnects: bool)
      ensures View() == Client([], [], false, false, [], []) && sent == []
      ensures Line() == Retry(0, false) && !delivered
      ensures this.maxRetries == maxRetries && this.reconnects == reconnects
    {
      this.maxRetries, this.reconnects := maxRetries, reconnects;
      pending, queue, sent := [], [], [];
      connected, closed, attempt, delivered := false, false, 0, false;
      issued, settled := [], [];
    }

    /** Sends a fetch now, or queues it until the connection opens. */
    method Send(r: Request)
      modifies this`queue, this`sent
      ensures if connected then queue == old(queue) && sent == old(sent) + [r]
              else queue == old(queue) + [r] && sent == old(sent)
    {
      if !connected {
        queue := queue + [r];
        return;
      }
      sent := sent + [r];
    }

    method FetchSlice(channel: string, offset: nat, limit: nat)
      modifies this
      ensures var (c, out) := Fetch(old(View()), Request(channel, offset, limit));
              View() == c && sent == old(sent) + out
      ensures Line() == old(Line()) && delivered == old(delivered)
    {
      var r := Request(channel, offset, limit);
      var id := |issued|;
      issued := issued + [r];
      if closed {
        settled := settled + [(id, Rejected(SocketClosed))];
        return;
      }
      var i := 0;
      while i < |pending|
        invariant 0 <= i <= |pending|
        invariant forall k :: 0 <= k < i ==> !SameKey(pending[k], channel, offset)
      {
        if SameKey(pending[i], channel, offset) {
          settled := settled + [(id, Rejected(AlreadyInFlight))];
          return;
        }
        i := i + 1;
      }
      pending := pending + [Entry(id, channel, offset, Min(limit, MAX_PAGE_LIMIT), [], offset,
                                  None, None)];
      Send(r);
    }

    /** Handles one chunk frame. */
    method AcceptChunk(f: Frame)
      modifies this`pending, this`settled
      ensures View() == Accept(old(View()), f)
    {
      var i := FindPending(pending, f);
      if i == |pending| {
        return;
      }
      var entry := pending[i];
      var items, k := entry.items, 0;
      while k < |f.items|
        invariant 0 <= k <= |f.items|
        invariant items == entry.items + f.items[..k]
      {
        items := items + [f.items[k]];
        k := k + 1;
      }
      assert f.items[..k] == f.items;
      entry := entry.(items := items, nextOffset := f.offset + |f.items|);
      if entry.frameSize.None? && |f.items| > 0 {
        entry := entry.(frameSize := Some(|f.items|));
      }
      if f.total.Some? {
        entry := entry.(total := f.total);
      }
      assert entry == Grown(pending[i], f);
      if ReplyComplete(entry, |f.items|) {
        pending := Without(pending, i);
        settled := settled + [(entry.id, Resolved(entry.channel, entry.offset, entry.items))];
      } else {
        pending := pending[i := entry];
      }
    }

    /** Rejects what is pending and stops. */
    method CloseSession()
      modifies this`closed, this`pending, this`settled
      ensures View() == Close(old(View()))
    {
      if closed {
        return;
      }
      closed := true;
      var entries := pending;
      pending := [];
      var i := 0;
      while i < |entries|
        invariant 0 <= i <= |entries|
        invariant closed && pending == []
        invariant settled == old(settled) + Rejections(entries)[..i]
      {
        settled := settled + [(entries[i].id, Rejected(SocketClosed))];
        i := i + 1;
      }
      assert Rejections(entries)[..i] == Rejections(entries);
    }

    /** The `open` event: what was queued goes out in order. */
    method OnOpen()
      modifies this`connected, this`queue, this`sent
      ensures View() == Opened(old(View())).0 && sent == old(sent) + old(queue)
    {
      connected := true;
      var messages := queue;
      queue := [];
      var i := 0;
      while i < |messages|
        invariant 0 <= i <= |messages|
        invariant connected && queue == []
        invariant sent == old(sent) + messages[..i]
      {
        sent := sent + [messages[i]];
        i := i + 1;
      }
    }

    /** The `message` event, for a chunk frame. */
    method OnMessage(f: Frame)
      modifies this
      ensures View() == Accept(old(View()), f) && sent == old(sent) && delivered
      ensures Line() == if old(delivered) then old(Line()) else old(Line()).(attempt := 0)
    {
      if !delivered {
        delivered := true;
        attempt := 0;
      }
      AcceptChunk(f);
    }

    /** The `close` event.  What is pending stays pending unless the session gives up. */
    method OnDrop()
      modifies this
      ensures Line() == Dropped(old(Line()), maxRetries, reconnects)
      ensures sent == old(sent)
      ensures View() == if old(closed) || !closed then old(View()).(connected := false)
                        else Close(old(View()).(connected := false))
    {
      connected := false;
      if closed {
        return;
      }
      if !reconnects || Spent(attempt, maxRetries) {
        CloseSession();
        return;
      }
      attempt := attempt + 1;
    }

    /** `open`, when the scheduled reconnect runs. */
    method Reopen()
      modifies this`delivered
      ensures delivered == (closed && old(delivered))
    {
      if closed {
        return;
      }
      delivered := false;
    }
  }

  // ---------------------------------------------------------------- the retry budget

  datatype Retry = Retry(attempt: nat, closed: bool)

  predicate Spent(attempt: nat, maxRetries: Option<nat>) {
    maxRetries.Some? && attempt >= maxRetries.value
  }

  /** What a dropped connection does to the budget. */
  function Dropped(l: Retry, maxRetries: Option<nat>, reconnects: bool): Retry {
    if l.closed then l
    else if !reconnects || Spent(l.attempt, maxRetries) then l.(closed := true)
    else l.(attempt := l.attempt + 1)
  }

  /** The events that touch the budget: the first frame of a connection, and a drop. */
  datatype Happening = FirstFrame | Drop

  function Happen(l: Retry, h: Happening, maxRetries: Option<nat>): Retry {
    match h
    case FirstFrame => l.(attempt := 0)
    case Drop => Dropped(l, maxRetries, true)
  }

  function History(l: Retry, hs: seq<Happening>, maxRetries: Option<nat>): Retry
    decreases |hs|
  {
    if hs == [] then l else History(Happen(l, hs[0], maxRetries), hs[1..], maxRetries)
  }

  /** From position `i` on, `n` drops follow each other with no frame between them. */
  predicate DropsFrom(hs: seq<Happening>, i: nat, n: nat) {
    i + n <= |hs| && forall k :: i <= k < i + n ==> hs[k].Drop?
  }

  ghost predicate SomeDrops(hs: seq<Happening>, n: nat) { exists i: nat :: DropsFrom(hs, i, n) }

  /** The session closes exactly when more drops than the budget follow each other with no frame
      between them (the drops counted before the history included), and it never holds more
      attempts than the budget. */
  lemma {:induction false} ClosesExactly(attempt: nat, hs: seq<Happening>, budget: nat)
    requires attempt <= budget
    ensures var l := History(Retry(attempt, false), hs, Some(budget));
      && l.attempt <= budget
      && (l.closed <==> DropsFrom(hs, 0, budget + 1 - attempt) || SomeDrops(hs, budget + 1))
    decreases |hs|
  {
    hide SomeDrops;
    if hs == [] {
      NoDrops(budget + 1);
    } else {
      var rest := hs[1..];
      var next := Happen(Retry(attempt, false), hs[0], Some(budget));
      FirstDrop(hs, budget + 1 - attempt);
      SomeFirst(hs, budget + 1);
      FirstDrop(hs, budget + 1);
      if next.closed {
        StaysClosed(next.attempt, rest, budget);
      } else {
        ClosesExactly(next.attempt, rest, budget);
        if hs[0].FirstFrame? {
          DropsAreSome(rest, 0, budget + 1);
        }
      }
    }
  }

  lemma NoDrops(n: nat)
    requires n > 0
    ensures !SomeDrops([], n)
  {
  }

  lemma DropsAreSome(hs: seq<Happening>, i: nat, n: nat)
    ensures DropsFrom(hs, i, n) ==> SomeDrops(hs, n)
  {
  }

  lemma SomeFirst(hs: seq<Happening>, n: nat)
    requires hs != []
    ensures SomeDrops(hs, n) <==> DropsFrom(hs, 0, n) || SomeDrops(hs[1..], n)
  {
    hide DropsFrom;
    if SomeDrops(hs, n) {
      var i: nat :| DropsFrom(hs, i, n);
      if i > 0 {
        LaterDrops(hs, i - 1, n);
      }
    }
    if SomeDrops(hs[1..], n) {
      var i: nat :| DropsFrom(hs[1..], i, n);
      LaterDrops(hs, i, n);
    }
  }

  lemma LaterDrops(hs: seq<Happening>, i: nat, n: nat)
    requires hs != []
    ensures DropsFrom(hs[1..], i, n) <==> DropsFrom(hs, i + 1, n)
  {
    if DropsFrom(hs[1..], i, n) {
      forall k | i + 1 <= k < i + 1 + n ensures hs[k].Drop? {
        assert hs[1..][k - 1].Drop?;
      }
    }
  }

  lemma FirstDrop(hs: seq<Happening>, n: nat)
    requires hs != [] && n > 0
    ensures DropsFrom(hs, 0, n) <==> hs[0].Drop? && DropsFrom(hs[1..], 0, n - 1)
  {
    LaterDrops(hs, 0, n - 1);
  }

  lemma {:induction false} StaysClosed(attempt: nat, hs: seq<Happening>, budget: nat)
    requires attempt <= budget
    ensures var l := History(Retry(attempt, true), hs, Some(budget));
      l.closed && l.attempt <= budget
    decreases |hs|
  {
    if hs != [] {
      StaysClosed(Happen(Retry(attempt, true), hs[0], Some(budget)).attempt, hs[1..], budget);
    }
  }

  // ----------------------------------------------------------------------- fetchAll

  /** How far a walk in chunks of `limit` reaches. */
  function Reach(limit: nat, maxItems: nat): nat
    requires limit >= 1 || maxItems == 0
  {
    if maxItems == 0 then 0
    else if limit > MAX_PAGE_LIMIT then MAX_PAGE_LIMIT
    else (maxItems - 1) / limit * limit + limit
  }

  /** Multiples of `limit`, seen from the end of a walk. */
  lemma ReachSteps(limit: nat, maxItems: nat, chunks: nat)
    requires 1 <= limit <= MAX_PAGE_LIMIT
    ensures chunks * limit < maxItems ==> chunks * limit + limit <= Reach(limit, maxItems)
    ensures chunks * limit >= maxItems ==> chunks * limit >= Reach(limit, maxItems)
  {
    var q := if maxItems == 0 then 0 else (maxItems - 1) / limit;
    if maxItems > 0 {
      assert q * limit <= maxItems - 1 < q * limit + limit;
      if chunks * limit < maxItems {
        if chunks > q {
          Grid.Multiple(chunks, q, limit);
          assert false;
        } else if chunks < q {
          Grid.Multiple(q, chunks, limit);
        }
      } else if chunks <= q {
        if chunks < q {
          Grid.Multiple(q, chunks, limit);
        }
        assert false;
      } else {
        Grid.Multiple(chunks, q, limit);
      }
    }
  }

  /** The walk after some turns of its loop; `over` once it has left it. */
  datatype Turns = Turns(items: seq<Item>, offset: nat, over: bool)

  function After(svc: Service, channel: string, limit: nat, maxItems: nat, n: nat): Turns {
    if n == 0 then Turns([], 0, maxItems == 0)
    else
      var t := After(svc, channel, limit, maxItems, n - 1);
      if t.over then t
      else
        var chunk := Answer(svc, Request(channel, t.offset, limit));
        Turns(t.items + chunk, t.offset + |chunk|, |chunk| < limit || |t.items + chunk| >= maxItems)
  }

  lemma FirstTurn(svc: Service, channel: string, limit: nat, maxItems: nat)
    ensures After(svc, channel, limit, maxItems, 0) == Turns([], 0, maxItems == 0)
  {
  }

  lemma NextTurn(svc: Service, channel: string, limit: nat, maxItems: nat, n: nat)
    requires !After(svc, channel, limit, maxItems, n).over
    ensures var t := After(svc, channel, limit, maxItems, n); var chunk := Answer(svc, Request(channel, t.offset, limit));
      After(svc, channel, limit, maxItems, n + 1)
      == Turns(t.items + chunk, t.offset + |chunk|, |chunk| < limit || |t.items + chunk| >= maxItems)
  {
    hide Answer;
  }

  ghost predicate Ends(svc: Service, channel: string, limit: nat, maxItems: nat) {
    exists n: nat :: After(svc, channel, limit, maxItems, n).over
  }

  lemma {:induction false} EachTurnAdds(svc: Service, channel: string, limit: nat, maxItems: nat, n: nat)
    requires limit >= 1
    ensures var t := After(svc, channel, limit, maxItems, n); t.over || n <= |t.items| < maxItems
  {
    hide Answer;
    if n > 0 {
      EachTurnAdds(svc, channel, limit, maxItems, n - 1);
    }
  }

  lemma {:induction false} NoTurnAdds(svc: Service, channel: string, maxItems: nat, n: nat)
    requires maxItems > 0
    ensures After(svc, channel, 0, maxItems, n) == Turns([], 0, false)
  {
    if n > 0 {
      NoTurnAdds(svc, channel, maxItems, n - 1);
      SliceLength(svc, channel, 0, 0);
    }
  }

  /** The walk ends exactly when its pages may hold an item, or it is to read none at all: with a
      limit of zero every page is empty and none is short. */
  lemma EndsExactly(svc: Service, channel: string, limit: nat, maxItems: nat)
    ensures Ends(svc, channel, limit, maxItems) <==> limit >= 1 || maxItems == 0
  {
    if maxItems == 0 {
      assert After(svc, channel, limit, maxItems, 0).over;
    } else if limit >= 1 {
      EachTurnAdds(svc, channel, limit, maxItems, maxItems);
    } else {
      forall n: nat ensures !After(svc, channel, limit, maxItems, n).over {
        NoTurnAdds(svc, channel, maxItems, n);
      }
    }
  }

  /** `fetchAll` over a channel that does not change, where it ends: each chunk is the answer to a
      fetch.  It reads the channel up to where the walk reaches, which is all of it exactly when
      the channel is no longer than that. */
  method FetchAll(svc: Service, channel: string, limit: nat, maxItems: nat)
    returns (items: seq<Item>)
    requires limit >= 1 || maxItems == 0
    ensures exists n: nat :: After(svc, channel, limit, maxItems, n) == Turns(items, |items|, true)
    ensures items == svc.Slice(channel, 0, Reach(limit, maxItems))
    ensures |items| == svc.Total(channel) <==> svc.Total(channel) <= Reach(limit, maxItems)
  {
    hide Service.Slice, Service.Total, Reach, After;
    items := [];
    FirstTurn(svc, channel, limit, maxItems);
    var offset: nat := 0;
    ghost var chunks: nat := 0;
    var short := false;
    SliceLength(svc, channel, 0, 0);
    StartOfWalk(limit, maxItems);
    while |items| < maxItems && !short
      invariant !short ==> items == svc.Slice(channel, 0, offset) && |items| == offset
      invariant !short ==> offset == chunks * limit && offset <= Reach(limit, maxItems)
      invariant offset == |items|
      invariant After(svc, channel, limit, maxItems, chunks) == Turns(items, offset, short || |items| >= maxItems)
      invariant !short ==> chunks == 0 || 1 <= limit <= MAX_PAGE_LIMIT
      invariant short ==> items == svc.Slice(channel, 0, Reach(limit, maxItems))
      decreases !short, maxItems - |items|
    {
      var wanted := Min(limit, MAX_PAGE_LIMIT);
      var chunk := Answer(svc, Request(channel, offset, limit));
      NextTurn(svc, channel, limit, maxItems, chunks);
      SliceJoin(svc, channel, 0, offset, offset + wanted);
      SliceLength(svc, channel, offset, offset + wanted);
      SliceLength(svc, channel, 0, offset);
      items := items + chunk;
      if |chunk| < limit {
        short := true;
        WalkEnds(svc, channel, limit, maxItems, chunks);
      } else {
        ReachSteps(limit, maxItems, chunks);
        assert (chunks + 1) * limit == chunks * limit + limit;
      }
      offset := offset + |chunk|;
      chunks := chunks + 1;
    }
    if !short {
      EndOfWalk(limit, maxItems, chunks);
    }
    SliceLength(svc, channel, 0, Reach(limit, maxItems));
  }

  lemma StartOfWalk(limit: nat, maxItems: nat)
    requires limit >= 1 || maxItems == 0
    ensures 0 <= Reach(limit, maxItems)
  {
  }

  lemma EndOfWalk(limit: nat, maxItems: nat, chunks: nat)
    requires (limit >= 1 || maxItems == 0) && (chunks == 0 || 1 <= limit <= MAX_PAGE_LIMIT)
    requires maxItems <= chunks * limit <= Reach(limit, maxItems)
    ensures chunks * limit == Reach(limit, maxItems)
  {
    if 1 <= limit <= MAX_PAGE_LIMIT {
      ReachSteps(limit, maxItems, chunks);
    }
  }

  lemma WalkEnds(svc: Service, channel: string, limit: nat, maxItems: nat, chunks: nat)
    requires limit >= 1 && chunks * limit < maxItems
    requires chunks == 0 || limit <= MAX_PAGE_LIMIT
    requires limit <= MAX_PAGE_LIMIT ==> chunks * limit + limit > svc.Total(channel)
    ensures svc.Slice(channel, 0, chunks * limit + Min(limit, MAX_PAGE_LIMIT))
         == svc.Slice(channel, 0, Reach(limit, maxItems))
  {
    hide Service.Slice, Service.Total;
    if limit <= MAX_PAGE_LIMIT {
      ReachSteps(limit, maxItems, chunks);
      SliceEnd(svc, channel, 0, chunks * limit + limit, Reach(limit, maxItems));
    }
  }
}
