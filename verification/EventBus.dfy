/** One publish as a protocol: handlers, a buffered channel, a cancellable collector (eventbus/eventbus.go). */
module EventBus {
  import opened Values

  /** What a handler returned: nil or an error. */
  type Reply = Option<string>

  datatype PublishResult = PublishResult(delivered: nat, pending: nat, errors: seq<string>, cancelled: bool)

  /** The collector goroutine: still counting, or done. */
  datatype Collector = Collecting(remaining: nat, delivered: nat, errors: seq<string>) | Finished

  /**
   * A publish to n subscribers. `running` are the handlers that have not replied; `channel` is the buffered
   * channel of capacity n; `replies` records every reply in the order it was sent; `results` is what the
   * caller's channel has received.
   */
  datatype Publish = Publish(n: nat, running: set<nat>, channel: seq<Reply>, replies: seq<Reply>, cancelled: bool,
                             collector: Collector, results: seq<PublishResult>)

  /** The handlers of a snapshot, numbered. */
  function Handlers(n: nat): (s: set<nat>)
    ensures |s| == n && forall i: nat :: i in s <==> i < n
  {
    if n == 0 then {} else Handlers(n - 1) + {n - 1}
  }

  /** PublishAsync: with no subscribers the empty result is sent at once. */
  function Start(n: nat): Publish {
    if n == 0 then Publish(0, {}, [], [], false, Finished, [PublishResult(0, 0, [], false)])
    else Publish(n, Handlers(n), [], [], false, Collecting(n, 0, []), [])
  }

  datatype Event = Reply(handler: nat, reply: Reply) | Cancel | Receive | GiveUp | Finish

  /** When a goroutine can take this step; a reply needs room in the channel. */
  predicate Enabled(p: Publish, e: Event) {
    match e
    case Reply(h, _) => h in p.running && |p.channel| < p.n
    case Cancel => !p.cancelled
    case Receive => p.collector.Collecting? && p.collector.remaining > 0 && p.channel != []
    case GiveUp => p.collector.Collecting? && p.collector.remaining > 0 && p.cancelled
    case Finish => p.collector.Collecting? && p.collector.remaining == 0
  }

  function WithReply(errors: seq<string>, r: Reply): seq<string> {
    if r.Some? then errors + [r.value] else errors
  }

  function Next(p: Publish, e: Event): Publish
    requires Enabled(p, e)
  {
    match e
    case Reply(h, r) => p.(running := p.running - {h}, channel := p.channel + [r], replies := p.replies + [r])
    case Cancel => p.(cancelled := true)
    case Receive =>
      var c := p.collector;
      p.(channel := p.channel[1..],
         collector := Collecting(c.remaining - 1, c.delivered + 1, WithReply(c.errors, p.channel[0])))
    case GiveUp =>
      var c := p.collector;
      p.(collector := Finished, results := p.results + [PublishResult(c.delivered, c.remaining, c.errors, true)])
    case Finish =>
      var c := p.collector;
      p.(collector := Finished, results := p.results + [PublishResult(c.delivered, 0, c.errors, false)])
  }

  /** The errors among a sequence of replies, in order. */
  function ErrorsOf(replies: seq<Reply>): seq<string> {
    if replies == [] then [] else WithReply(ErrorsOf(replies[..|replies| - 1]), replies[|replies| - 1])
  }

  /** The positions of the errors among the replies: in order, each with its error, and none left out. */
  ghost predicate ErrorsAt(replies: seq<Reply>, errors: seq<string>, at: seq<nat>) {
    && |at| == |errors| && (forall i, j :: 0 <= i < j < |at| ==> at[i] < at[j])
    && (forall i :: 0 <= i < |at| ==> at[i] < |replies| && replies[at[i]] == Some(errors[i]))
    && (forall i: nat :: i < |replies| && replies[i].Some? ==> i in at)
  }

  lemma ErrorsAtMore(replies: seq<Reply>, errors: seq<string>, at: seq<nat>, r: Reply)
    requires ErrorsAt(replies, errors, at)
    ensures r.None? ==> ErrorsAt(replies + [r], errors, at)
    ensures r.Some? ==> ErrorsAt(replies + [r], errors + [r.value], at + [|replies|])
  {
    var more := at + [|replies|];
    assert forall i :: i in more <==> i in at || i == |replies|;
  }

  lemma {:induction false} ErrorsByPosition(replies: seq<Reply>) returns (at: seq<nat>)
    ensures ErrorsAt(replies, ErrorsOf(replies), at)
  {
    hide ErrorsAt;
    if replies == [] {
      at := [];
      NoErrors();
    } else {
      var last := |replies| - 1;
      at := ErrorsByPosition(replies[..last]);
      ErrorsAtMore(replies[..last], ErrorsOf(replies[..last]), at, replies[last]);
      assert replies[..last] + [replies[last]] == replies;
      if replies[last].Some? { at := at + [last]; }
    }
  }

  lemma NoErrors()
    ensures ErrorsAt([], [], [])
  {
  }

  lemma {:induction false} FewErrors(replies: seq<Reply>)
    ensures |ErrorsOf(replies)| <= |replies|
  {
    if replies != [] { FewErrors(replies[..|replies| - 1]); }
  }

  /** How many replies the collector has taken. */
  function Taken(p: Publish): int {
    |p.replies| - |p.channel|
  }

  /** What every interleaving keeps. */
  ghost predicate Inv(p: Publish) {
    && |p.running| + |p.replies| == p.n
    && |p.channel| <= |p.replies| && p.channel == p.replies[Taken(p)..]
    && (p.collector.Collecting? ==>
          && p.results == [] && p.collector.delivered == Taken(p)
          && p.collector.delivered + p.collector.remaining == p.n
          && p.collector.errors == ErrorsOf(p.replies[..Taken(p)]))
    && (p.collector.Finished? ==> |p.results| == 1 && ResultOk(p, p.results[0]))
  }

  /** The one result accounts for every subscriber of the snapshot. */
  ghost predicate ResultOk(p: Publish, r: PublishResult) {
    && r.delivered + r.pending == p.n
    && r.delivered == Taken(p) && r.errors == ErrorsOf(p.replies[..r.delivered])
    && (r.cancelled ==> p.cancelled && r.pending > 0) && (!r.cancelled ==> r.pending == 0)
  }

  lemma StartInv(n: nat)
    ensures Inv(Start(n))
  {
  }

  lemma NextInv(p: Publish, e: Event)
    requires Inv(p) && Enabled(p, e)
    ensures Inv(Next(p, e))
  {
    var q, t := Next(p, e), Taken(p);
    match e
    case Reply(h, r) => assert q.replies[..t] == p.replies[..t] && q.channel == q.replies[t..];
    case Receive =>
      assert p.channel[0] == p.replies[t];
      assert q.replies[..t + 1][..t] == p.replies[..t] && q.replies[..t + 1][t] == p.replies[t];
    case _ =>
  }

  /** A whole interleaving. */
  ghost predicate IsRun(p: Publish, events: seq<Event>, q: Publish)
    decreases |events|
  {
    if events == [] then q == p else Enabled(p, events[0]) && IsRun(Next(p, events[0]), events[1..], q)
  }

  lemma {:induction false} RunInv(p: Publish, events: seq<Event>, q: Publish)
    requires Inv(p) && IsRun(p, events, q)
    ensures Inv(q) && q.n == p.n
    decreases |events|
  {
    if events != [] {
      NextInv(p, events[0]);
      RunInv(Next(p, events[0]), events[1..], q);
    }
  }

  /**
   * Over every interleaving of replies, cancellation and collector choices: never more than one result, and
   * it accounts for the whole snapshot with no more errors than deliveries.
   */
  lemma PublishAccounts(n: nat, events: seq<Event>, q: Publish)
    requires IsRun(Start(n), events, q)
    ensures |q.results| <= 1
    ensures q.results != [] ==>
      var r := q.results[0];
      && r.delivered + r.pending == n && |r.errors| <= r.delivered
      && r.delivered <= |q.replies| && r.errors == ErrorsOf(q.replies[..r.delivered])
  {
    StartInv(n);
    RunInv(Start(n), events, q);
    if q.results != [] { FewErrors(q.replies[..q.results[0].delivered]); }
  }

  /** No handler is ever blocked sending, whatever the collector did. */
  lemma NeverBlocked(n: nat, events: seq<Event>, q: Publish, h: nat, r: Reply)
    requires IsRun(Start(n), events, q) && h in q.running
    ensures Enabled(q, Reply(h, r))
  {
    StartInv(n);
    RunInv(Start(n), events, q);
    assert |q.running - {h}| == |q.running| - 1;
  }

  /** Work left: replies to send, replies to take, the result, the cancellation. */
  function Work(p: Publish): nat {
    |p.running| + (if p.collector.Collecting? then p.collector.remaining + 1 else 0) + (if p.cancelled then 0 else 1)
  }

  /** Every interleaving stops: at most 2n + 2 steps from the start. */
  lemma {:induction false} RunIsBounded(p: Publish, events: seq<Event>, q: Publish)
    requires Inv(p) && IsRun(p, events, q)
    ensures |events| + Work(q) <= Work(p)
    decreases |events|
  {
    if events != [] {
      NextInv(p, events[0]);
      StepWorks(p, events[0]);
      RunIsBounded(Next(p, events[0]), events[1..], q);
    }
  }

  lemma StepWorks(p: Publish, e: Event)
    requires Enabled(p, e)
    ensures Work(Next(p, e)) < Work(p)
  {
    if e.Reply? { assert |p.running - {e.handler}| == |p.running| - 1; }
  }

  /** Where it stops, every handler has replied and the caller has exactly one result. */
  lemma StopsWithResult(n: nat, events: seq<Event>, q: Publish)
    requires IsRun(Start(n), events, q) && forall e :: Enabled(q, e) ==> e.Cancel?
    ensures q.running == {} && |q.results| == 1 && |events| <= 2 * n + 2
  {
    StartInv(n);
    RunInv(Start(n), events, q);
    RunIsBounded(Start(n), events, q);
    if h :| h in q.running {
      NeverBlocked(n, events, q, h, None);
    } else {
      assert q.running == {};
      assert !Enabled(q, Finish) && !Enabled(q, Receive);
    }
  }

  /** The errors of a result are the error replies among those delivered, in the order they were sent. */
  lemma ResultErrors(n: nat, events: seq<Event>, q: Publish) returns (at: seq<nat>)
    requires IsRun(Start(n), events, q) && q.results != []
    ensures var r := q.results[0];
            r.delivered <= |q.replies| && ErrorsAt(q.replies[..r.delivered], r.errors, at)
  {
    PublishAccounts(n, events, q);
    at := ErrorsByPosition(q.replies[..q.results[0].delivered]);
  }

  /** Every reply is recorded where it was sent: a handler's reply is the next of the replies. */
  lemma {:induction false} RepliesAreSent(p: Publish, events: seq<Event>, q: Publish)
    requires IsRun(p, events, q)
    ensures q.replies == p.replies + Sent(events)
    decreases |events|
  {
    if events != [] { RepliesAreSent(Next(p, events[0]), events[1..], q); }
  }

  /** The replies of an interleaving, in order. */
  function Sent(events: seq<Event>): seq<Reply> {
    if events == [] then []
    else (if events[0].Reply? then [events[0].reply] else []) + Sent(events[1..])
  }
}
