/**
 * Which calls are refused: exactly those made while a fetch of the same channel and offset is
 * pending, or after `close`. Fetches that differ in channel or offset all resolve.
 */
module SocketCalls {
  import opened Bytes
  import opened Socket
  import opened SocketSystem
  import opened SocketRuns
  import opened SocketClient

  /** A fetch of that channel, from that offset, is pending. */
  predicate InFlight(c: Client, r: Request) {
    exists i :: 0 <= i < |c.pending| && c.pending[i].channel == r.channel && c.pending[i].offset == r.offset
  }

  /** What a call does, by the state it is made in. */
  lemma FetchExactly(c: Client, r: Request)
    ensures var (d, out) := Fetch(c, r);
      && d.issued == c.issued + [r] && d.closed == c.closed && d.connected == c.connected
      && (c.closed ==>
            d.settled == c.settled + [(|c.issued|, Rejected(SocketClosed))] && d.pending == c.pending && out == [])
      && (!c.closed && InFlight(c, r) ==>
            d.settled == c.settled + [(|c.issued|, Rejected(AlreadyInFlight))] && d.pending == c.pending && out == [])
      && (!c.closed && !InFlight(c, r) ==>
            && d.settled == c.settled && |d.pending| == |c.pending| + 1 && d.pending[..|c.pending|] == c.pending
            && d.pending[|c.pending|].channel == r.channel && d.pending[|c.pending|].offset == r.offset
            && d.pending[|c.pending|].items == []
            && (if c.connected then out == [r] && d.queue == c.queue else out == [] && d.queue == c.queue + [r]))
  {
    assert HasKey(c.pending, r.channel, r.offset) <==> InFlight(c, r);
  }

  lemma StepIssues(svc: Service, s: System, e: Event)
    requires Consistent(svc, s)
    ensures s.client.issued <= Step(svc, s, e).client.issued
  {
    hide ReplyComplete, HasKey;
    if e.CallFetch? { FetchExactly(s.client, e.request); }
  }

  lemma {:induction false} RunIssues(svc: Service, s: System, events: seq<Event>)
    requires Consistent(svc, s)
    ensures s.client.issued <= Run(svc, s, events).client.issued
    decreases |events|
  {
    hide Step;
    if events != [] {
      StepIssues(svc, s, events[0]);
      RunIssues(svc, Step(svc, s, events[0]), events[1..]);
    }
  }

  const REFUSED := Rejected(AlreadyInFlight)

  /** A step refuses a call for its key only where that call is made, with its like in flight. */
  lemma StepRefuses(svc: Service, s: System, e: Event, id: nat)
    requires Consistent(svc, s)
    requires (id, REFUSED) in Step(svc, s, e).client.settled && (id, REFUSED) !in s.client.settled
    ensures e.CallFetch? && id == |s.client.issued| && InFlight(s.client, e.request)
  {
    hide ReplyComplete, HasKey, InFlight, Frames, FrameAt, LastFrame, ServeOne;
    var c, d := s.client, Step(svc, s, e).client;
    match e
    case CallFetch(r) => FetchExactly(c, r);
    case CallClose => RejectionsClose(c.pending);
    case Connect =>
    case Serve => ServeLeavesClient(svc, s);
    case Deliver =>
  }

  lemma RejectionsClose(pending: seq<Entry>)
    ensures forall o :: o in Rejections(pending) ==> o.1 == Rejected(SocketClosed)
  {
  }

  lemma ServeLeavesClient(svc: Service, s: System)
    requires Consistent(svc, s)
    ensures ServeOne(svc, s).client == s.client
  {
  }

  /** The call with this number was made by event `n`, while its like was in flight. */
  ghost predicate RefusedAt(svc: Service, s: System, events: seq<Event>, n: nat, id: nat)
    requires Consistent(svc, s)
  {
    && n < |events| && events[n].CallFetch?
    && var t := Run(svc, s, events[..n]);
    && |t.client.issued| == id && InFlight(t.client, events[n].request)
  }

  lemma RunStep(svc: Service, s: System, events: seq<Event>, n: nat)
    requires Consistent(svc, s) && 0 < n <= |events|
    ensures Run(svc, s, events[..n]) == Run(svc, Step(svc, s, events[0]), events[1..][..n - 1])
  {
    hide Step;
    assert events[..n][1..] == events[1..][..n - 1];
  }

  /** Every call refused in a run was made while its like was in flight. */
  lemma {:induction false} RefusedWhilePending(svc: Service, s: System, events: seq<Event>, id: nat)
    requires Consistent(svc, s)
    requires (id, REFUSED) in Run(svc, s, events).client.settled && (id, REFUSED) !in s.client.settled
    ensures exists n: nat :: RefusedAt(svc, s, events, n, id)
    decreases |events|
  {
    hide Step, InFlight;
    var t := Step(svc, s, events[0]);
    if (id, REFUSED) in t.client.settled {
      StepRefuses(svc, s, events[0], id);
      assert events[..0] == [];
      assert RefusedAt(svc, s, events, 0, id);
    } else {
      RefusedWhilePending(svc, t, events[1..], id);
      var n: nat :| RefusedAt(svc, t, events[1..], n, id);
      RunStep(svc, s, events, n + 1);
      assert RefusedAt(svc, s, events, n + 1, id);
    }
  }

  lemma {:induction false} RunSplit(svc: Service, s: System, events: seq<Event>, n: nat)
    requires Consistent(svc, s) && n <= |events|
    ensures Run(svc, s, events) == Run(svc, Run(svc, s, events[..n]), events[n..])
    decreases n
  {
    hide Step;
    if n == 0 {
      assert events[..0] == [] && events[0..] == events;
    } else {
      RunSplit(svc, Step(svc, s, events[0]), events[1..], n - 1);
      RunStep(svc, s, events, n);
      assert events[1..][n - 1..] == events[n..];
    }
  }

  lemma {:induction false} NeverClosed(svc: Service, s: System, events: seq<Event>)
    requires Consistent(svc, s) && !s.client.closed
    requires forall i :: 0 <= i < |events| ==> !events[i].CallClose?
    ensures !Run(svc, s, events).client.closed
    decreases |events|
  {
    hide ServeOne, ReplyComplete, HasKey;
    if events != [] {
      ServeLeavesClient(svc, s);
      NeverClosed(svc, Step(svc, s, events[0]), events[1..]);
    }
  }

  /** The requests of a run differ pairwise in channel or offset. */
  predicate AllDiffer(issued: seq<Request>) {
    forall i, j :: 0 <= i < j < |issued| ==> issued[i].channel != issued[j].channel || issued[i].offset != issued[j].offset
  }

  /** A refused call has an earlier one of the same channel and offset before it. */
  lemma RefusedHasEarlier(svc: Service, events: seq<Event>, id: nat) returns (earlier: nat)
    requires svc.Valid() && forall i :: 0 <= i < |events| ==> Allowed(svc, events[i])
    requires (id, REFUSED) in Run(svc, START, events).client.settled
    ensures var issued := Run(svc, START, events).client.issued;
      earlier < id < |issued| && issued[earlier].channel == issued[id].channel
      && issued[earlier].offset == issued[id].offset
  {
    hide Good, Allowed, Step, Matched, Future, Numbered, KeysApart;
    RefusedWhilePending(svc, START, events, id);
    var n: nat :| RefusedAt(svc, START, events, n, id);
    var t, r := Run(svc, START, events[..n]), events[n].request;
    StartGood(svc);
    RunGood(svc, START, events[..n]);
    PendingIssued(svc, t);
    var i :| 0 <= i < |t.client.pending| && t.client.pending[i].channel == r.channel && t.client.pending[i].offset == r.offset;
    earlier := t.client.pending[i].id;
    RunSplit(svc, START, events, n);
    CallIssues(svc, t, events[n..], r);
  }

  lemma PendingIssued(svc: Service, s: System)
    requires Good(svc, s)
    ensures forall i :: 0 <= i < |s.client.pending| ==> Faithful(s.client.pending[i], s.client.issued)
  {
    hide Matched, Future, Numbered, KeysApart, Right;
  }

  lemma CallIssues(svc: Service, s: System, events: seq<Event>, r: Request)
    requires Consistent(svc, s) && events != [] && events[0] == CallFetch(r)
    ensures s.client.issued + [r] <= Run(svc, s, events).client.issued
  {
    FetchExactly(s.client, r);
    RunIssues(svc, Step(svc, s, events[0]), events[1..]);
  }

  lemma Outcomes(o: Outcome)
    ensures o.Resolved? || o == Rejected(SocketClosed) || o == REFUSED
  {
    match o
    case Resolved(_, _, _) =>
    case Rejected(why) => match why { case SocketClosed => case AlreadyInFlight => }
  }

  lemma NotRefused(svc: Service, events: seq<Event>, id: nat)
    requires svc.Valid() && forall i :: 0 <= i < |events| ==> Allowed(svc, events[i])
    requires AllDiffer(Run(svc, START, events).client.issued)
    ensures (id, REFUSED) !in Run(svc, START, events).client.settled
  {
    hide Allowed, Step;
    if (id, REFUSED) in Run(svc, START, events).client.settled {
      var earlier := RefusedHasEarlier(svc, events, id);
    }
  }

  /**
   * Fetches that differ in channel or offset never get in each other's way: in a run without
   * `close`, once every frame is in, each of them has resolved, with its own slice.
   */
  lemma DifferentFetchesResolve(svc: Service, events: seq<Event>)
    requires svc.Valid()
    requires forall i :: 0 <= i < |events| ==> Allowed(svc, events[i]) && !events[i].CallClose?
    requires AllDiffer(Run(svc, START, events).client.issued)
    requires Future(svc, Run(svc, START, events)) == []
    ensures var c := Run(svc, START, events).client;
      AllSettledOnce(c) && Correct(svc, c) && forall i :: 0 <= i < |c.settled| ==> c.settled[i].1.Resolved?
  {
    hide Allowed, Step, Future, Numbered, AllSettledOnce;
    FetchesEndRight(svc, events);
    NeverClosed(svc, START, events);
    var c := Run(svc, START, events).client;
    forall i | 0 <= i < |c.settled| ensures c.settled[i].1.Resolved? {
      var entry := c.settled[i];
      assert Right(svc, c, entry.0, entry.1);
      assert entry == (entry.0, entry.1) && entry in c.settled;
      NotRefused(svc, events, entry.0);
      Outcomes(entry.1);
    }
  }

  // ------------------------------------------------------------------- when a reply ends

  /** A first frame that reports no channel length is taken as the whole reply. */
  lemma UntotalledEnds(e: Entry, f: Frame)
    requires e.items == [] && e.frameSize.None? && e.total.None? && f.total.None?
    ensures ReplyComplete(Grown(e, f), |f.items|)
  {
  }

  /** An empty frame is the last, and so is one shorter than the first frame that held items. */
  lemma ShortFrameEnds(e: Entry, f: Frame)
    requires f.items == [] || (e.frameSize.Some? && |f.items| < e.frameSize.value)
    ensures ReplyComplete(Grown(e, f), |f.items|)
  {
  }

  /** Any other frame of a channel of known length is the last exactly when the request is filled
      or the frame ends where the channel does. */
  lemma FullFrameEnds(e: Entry, f: Frame)
    requires f.items != [] && (e.frameSize.None? || |f.items| >= e.frameSize.value)
    requires e.total.Some? || f.total.Some?
    ensures var total := if f.total.Some? then f.total.value else e.total.value;
      ReplyComplete(Grown(e, f), |f.items|)
      <==> |e.items| + |f.items| >= e.limit || f.offset + |f.items| >= total
  {
  }

  // ----------------------------------------------------------------- the other endings

  /** With reconnecting turned off the first drop closes the session. */
  lemma FirstDropCloses(l: Retry, maxRetries: Option<nat>)
    ensures Dropped(l, maxRetries, false).closed
  {
  }

  /** Without a budget no history of drops and frames closes it. */
  lemma {:induction false} NoBudgetNeverCloses(l: Retry, hs: seq<Happening>)
    requires !l.closed
    ensures !History(l, hs, None).closed
    decreases |hs|
  {
    if hs != [] {
      NoBudgetNeverCloses(Happen(l, hs[0], None), hs[1..]);
    }
  }
}
