/** When a packet is sent, sent again, and given up (src/kernel/sync.rs). */
module PumpRules {
  import opened Wrappers
  import opened Packet
  import opened Wal
  import opened Replicator
  import opened ReplicatorRuns

  // ---- One pump, packet by packet ----

  /** The delay since the last send is over. */
  predicate Waited(config: Config, item: InFlight, frame: nat) {
    config.resendAfter == 0 || item.lastSent + config.resendAfter <= frame
  }

  predicate MustRetry(config: Config, item: InFlight, frame: nat) {
    item.retries < config.maxRetries && Waited(config, item, frame)
  }

  predicate MustGiveUp(config: Config, item: InFlight, frame: nat) {
    item.retries >= config.maxRetries && Waited(config, item, frame)
  }

  /** How many of the first `n` items ask for a retry. */
  function RetriesAsked(config: Config, items: seq<InFlight>, n: nat, frame: nat): nat
    requires n <= |items|
  {
    if n == 0 then 0 else RetriesAsked(config, items, n - 1, frame) + if MustRetry(config, items[n - 1], frame) then 1 else 0
  }

  /** The transport's answer to attempt `k` is yes. */
  predicate Answered(sends: seq<bool>, k: nat) { k < |sends| && sends[k] }

  function SentItems(pending: seq<SyncPacket>, n: nat, frame: nat): (items: seq<InFlight>)
    requires n <= |pending|
    ensures |items| == n
  {
    seq(n, i requires 0 <= i < n => InFlight(pending[i], frame, 0))
  }

  /** `sent` packets leave the front of the queue: as many as there is room for, up to the first send that fails. */
  ghost predicate FreshSent(config: Config, pending: seq<SyncPacket>, inFlight: seq<InFlight>, sends: seq<bool>, k: nat, frame: nat, r: Fresh) {
    && r.sent <= |pending| && (r.sent > 0 ==> |inFlight| + r.sent <= config.maxInFlight)
    && (forall i :: k <= i < k + r.sent ==> Answered(sends, i))
    && r.pending == pending[r.sent..]
    && r.inFlight == inFlight + SentItems(pending, r.sent, frame)
    && (r.blocked <==> r.sent < |pending| && |inFlight| + r.sent < config.maxInFlight)
    && (r.blocked ==> !Answered(sends, k + r.sent))
    && r.attempts == k + r.sent + if r.blocked then 1 else 0
  }

  lemma {:induction false} FreshSentExactly(config: Config, pending: seq<SyncPacket>, inFlight: seq<InFlight>, sends: seq<bool>, k: nat, frame: nat)
    ensures FreshSent(config, pending, inFlight, sends, k, frame, SendFresh(config, pending, inFlight, sends, k, frame))
    decreases |pending|
  {
    if |inFlight| < config.maxInFlight && pending != [] && Answer(sends, k) {
      var next := inFlight + [InFlight(pending[0], frame, 0)];
      FreshSentExactly(config, pending[1..], next, sends, k + 1, frame);
      var rest := SendFresh(config, pending[1..], next, sends, k + 1, frame);
      var n := rest.sent + 1;
      assert rest.inFlight == inFlight + SentItems(pending, n, frame);
      assert rest.pending == pending[n..];
    }
  }

  /** The transport's answer to item `j`, if that asks for a retry. */
  predicate RetrySucceeds(config: Config, items: seq<InFlight>, sends: seq<bool>, k: nat, frame: nat, j: nat)
    requires j < |items|
  {
    MustRetry(config, items[j], frame) && Answered(sends, k + RetriesAsked(config, items, j, frame))
  }

  function RetriesDone(config: Config, items: seq<InFlight>, sends: seq<bool>, k: nat, frame: nat, n: nat): nat
    requires n <= |items|
  {
    if n == 0 then 0
    else RetriesDone(config, items, sends, k, frame, n - 1) + if RetrySucceeds(config, items, sends, k, frame, n - 1) then 1 else 0
  }

  function AfterRetry(item: InFlight, frame: nat, succeeds: bool): InFlight {
    if succeeds then InFlight(item.packet, frame, item.retries + 1) else item
  }

  /** An item is sent again if, and only if, it has waited, has a retry left and its attempt is answered; otherwise it stays as it was. */
  ghost predicate Retried(config: Config, items: seq<InFlight>, sends: seq<bool>, k: nat, frame: nat, r: Resent) {
    && |r.items| == |items|
    && (forall j :: 0 <= j < |items| ==> r.items[j] == AfterRetry(items[j], frame, RetrySucceeds(config, items, sends, k, frame, j)))
    && r.attempts == k + RetriesAsked(config, items, |items|, frame)
    && r.resent == RetriesDone(config, items, sends, k, frame, |items|)
    && (r.blocked <==> r.resent < r.attempts - k)
  }

  lemma {:induction false} AskedOfPrefix(config: Config, items: seq<InFlight>, m: nat, n: nat, frame: nat)
    requires n <= m <= |items|
    ensures RetriesAsked(config, items[..m], n, frame) == RetriesAsked(config, items, n, frame)
  {
    if n > 0 { AskedOfPrefix(config, items, m, n - 1, frame); }
  }

  lemma {:induction false} DoneOfPrefix(config: Config, items: seq<InFlight>, m: nat, sends: seq<bool>, k: nat, frame: nat, n: nat)
    requires n <= m <= |items|
    ensures RetriesDone(config, items[..m], sends, k, frame, n) == RetriesDone(config, items, sends, k, frame, n) <= RetriesAsked(config, items, n, frame)
    ensures n < m ==> RetrySucceeds(config, items[..m], sends, k, frame, n) == RetrySucceeds(config, items, sends, k, frame, n)
  {
    AskedOfPrefix(config, items, m, n, frame);
    if n > 0 { DoneOfPrefix(config, items, m, sends, k, frame, n - 1); }
  }

  lemma {:induction false} RetriedExactly(config: Config, items: seq<InFlight>, sends: seq<bool>, k: nat, frame: nat)
    ensures Retried(config, items, sends, k, frame, Resend(config, items, sends, k, frame))
  {
    if items != [] {
      var n := |items| - 1;
      RetriedExactly(config, items[..n], sends, k, frame);
      forall j | 0 <= j < n
        ensures RetrySucceeds(config, items[..n], sends, k, frame, j) == RetrySucceeds(config, items, sends, k, frame, j)
      {
        DoneOfPrefix(config, items, n, sends, k, frame, j);
      }
      DoneOfPrefix(config, items, n, sends, k, frame, n);
      AskedOfPrefix(config, items, n, n, frame);
    }
  }

  /** What is left is what was not given up, in order: `from` tells where each item was. */
  ghost predicate Survive(config: Config, items: seq<InFlight>, frame: nat, kept: seq<InFlight>, from: seq<nat>) {
    && |from| == |kept|
    && (forall i, j :: 0 <= i < j < |from| ==> from[i] < from[j])
    && (forall i :: 0 <= i < |from| ==> from[i] < |items| && kept[i] == items[from[i]])
    && (forall j: nat :: j < |items| ==> (j in from <==> !MustGiveUp(config, items[j], frame)))
  }

  lemma {:induction false} SurviveExactly(config: Config, items: seq<InFlight>, frame: nat) returns (from: seq<nat>)
    ensures Survive(config, items, frame, Unexpired(config, items, frame), from)
  {
    from := [];
    if items != [] {
      var n := |items| - 1;
      from := SurviveExactly(config, items[..n], frame);
      if !MustGiveUp(config, items[n], frame) { from := from + [n]; }
    }
  }

  /**
    * One pump while online: fresh packets from the front, then retries of the items in flight in order, then the items given up.
    */
  lemma PumpExactly(s: Rep, sends: seq<bool>, frame: nat) returns (first: Fresh, retried: Resent, from: seq<nat>)
    requires s.online
    ensures FreshSent(s.config, s.pending, s.inFlight, sends, 0, frame, first)
    ensures Retried(s.config, first.inFlight, sends, first.attempts, frame, retried)
    ensures var (s', report) := Pump(s, sends, frame);
      && s'.pending == first.pending && Survive(s.config, retried.items, frame, s'.inFlight, from)
      && report.sent == first.sent && report.resent == retried.resent && report.blocked == (first.blocked || retried.blocked)
      && report.failed == |retried.items| - |s'.inFlight|
  {
    first := SendFresh(s.config, s.pending, s.inFlight, sends, 0, frame);
    FreshSentExactly(s.config, s.pending, s.inFlight, sends, 0, frame);
    retried := Resend(s.config, first.inFlight, sends, first.attempts, frame);
    RetriedExactly(s.config, first.inFlight, sends, first.attempts, frame);
    from := SurviveExactly(s.config, retried.items, frame);
  }
}
