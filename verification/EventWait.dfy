/** `wait_for` against any number of publishers (quickdesk-mcp/src/event_bus.rs): one step per
    lock-protected region. A publisher first stores its event in the history and later sends it to
    the broadcast channel; the waiter subscribes, may read the history, and then receives. Events
    are named by their place in `log`, the order in which they were stored. */
module EventWait {
  import opened Options
  import opened Sequences
  import opened EventBus

  /** The size of the broadcast channel: a receiver further behind skips what was overwritten. */
  const CHANNEL: nat := 256

  datatype Phase = Start | Subscribed | Receiving | Returned(event: nat) | TimedOut

  /** `from` is how many events had been sent at the subscription, `read` how many had been stored
      when the history was read, `cursor` the next place of the channel to receive, and `skipped`
      the places lost to lag. */
  datatype Waiter = Waiter(phase: Phase, from: nat, read: Option<nat>, cursor: nat, skipped: set<nat>)

  /** `capacity` is how many events the history holds. */
  datatype State = State(
    capacity: nat, query: Query, checkHistory: bool,
    log: seq<Event>, unsent: set<nat>, sent: seq<nat>, waiter: Waiter)

  datatype Step =
    | Store(event: Event)
    | Send(index: nat)
    | Subscribe
    | ReadHistory
    | SkipHistory
    | Receive
    | Timeout

  function Initial(capacity: nat, query: Query, checkHistory: bool): (s: State) {
    State(capacity, query, checkHistory, [], {}, [], Waiter(Start, 0, None, 0, {}))
  }

  /** The history: what `EventBus.Bus.Publish` has left of the events stored so far. */
  function History(s: State): (h: seq<Event>) {
    LastOf(s.log, s.capacity)
  }

  predicate Enabled(s: State, step: Step) {
    match step
    case Store(_) => true
    case Send(i) => i in s.unsent
    case Subscribe => s.waiter.phase == Start
    case ReadHistory => s.waiter.phase == Subscribed && s.checkHistory
    case SkipHistory => s.waiter.phase == Subscribed && !s.checkHistory
    case Receive => s.waiter.phase == Receiving && s.waiter.cursor < |s.sent|
    case Timeout => s.waiter.phase == Receiving
  }

  function DoRead(s: State): (w: Waiter) {
    var found := Newest(History(s), s.query);
    var phase := if found.Some? then Returned(|s.log| - |History(s)| + found.value) else Receiving;
    s.waiter.(phase := phase, read := Some(|s.log|))
  }

  function Between(lo: nat, hi: nat): (r: set<nat>)
    ensures forall p :: p in r <==> lo <= p < hi
  {
    if lo >= hi then {} else Between(lo, hi - 1) + {hi - 1}
  }

  function DoReceive(s: State): (w: Waiter)
    requires s.waiter.cursor < |s.sent| && forall p :: 0 <= p < |s.sent| ==> s.sent[p] < |s.log|
  {
    var w := s.waiter;
    if w.cursor + CHANNEL < |s.sent| then
      var oldest := |s.sent| - CHANNEL;
      w.(cursor := oldest, skipped := w.skipped + Between(w.cursor, oldest))
    else
      var i := s.sent[w.cursor];
      w.(cursor := w.cursor + 1, phase := if Wanted(s.log[i], s.query) then Returned(i) else Receiving)
  }

  function Apply(s: State, step: Step): (t: State)
    requires Enabled(s, step) && forall p :: 0 <= p < |s.sent| ==> s.sent[p] < |s.log|
  {
    match step
    case Store(e) => s.(log := s.log + [e], unsent := s.unsent + {|s.log|})
    case Send(i) => s.(unsent := s.unsent - {i}, sent := s.sent + [i])
    case Subscribe => s.(waiter := s.waiter.(phase := Subscribed, from := |s.sent|, cursor := |s.sent|))
    case ReadHistory => s.(waiter := DoRead(s))
    case SkipHistory => s.(waiter := s.waiter.(phase := Receiving))
    case Receive => s.(waiter := DoReceive(s))
    case Timeout => s.(waiter := s.waiter.(phase := TimedOut))
  }

  // ---- The invariant ----

  /** Every stored event is unsent or was sent, once. */
  ghost predicate SendsOk(s: State) {
    && (forall i :: i in s.unsent ==> i < |s.log|)
    && (forall p :: 0 <= p < |s.sent| ==> s.sent[p] < |s.log| && s.sent[p] !in s.unsent)
    && (forall p, r :: 0 <= p < r < |s.sent| ==> s.sent[p] != s.sent[r])
    && (forall i :: 0 <= i < |s.log| ==> i in s.unsent || i in s.sent)
  }

  /** What the waiter has passed over on the channel: lost to lag, or not wanted. */
  ghost predicate PassedOk(s: State, p: nat) {
    s.waiter.from <= p < s.waiter.cursor && p < |s.sent| && s.sent[p] < |s.log| ==>
      || p in s.waiter.skipped
      || !Wanted(s.log[s.sent[p]], s.query)
      || s.waiter.phase == Returned(s.sent[p])
  }

  /** Nothing wanted was in the history when it was read, unless the newest such was returned. */
  ghost predicate ReadOk(s: State) {
    s.waiter.read.Some? ==>
      var n := s.waiter.read.value;
      && n <= |s.log|
      && (forall p :: 0 <= p < s.waiter.from && p < |s.sent| ==> s.sent[p] < n)
      && (forall i :: Oldest(s) <= i < n && Wanted(s.log[i], s.query) ==>
            s.waiter.phase.Returned? && i <= s.waiter.phase.event < n)
  }

  /** The place of the oldest event that the history held when it was read. */
  ghost function Oldest(s: State): (n: nat)
    requires s.waiter.read.Some?
  {
    if s.waiter.read.value <= s.capacity then 0 else s.waiter.read.value - s.capacity
  }

  /** Where a returned event came from. */
  ghost predicate ReturnedOk(s: State) {
    s.waiter.phase.Returned? ==>
      var i := s.waiter.phase.event;
      && i < |s.log| && Wanted(s.log[i], s.query)
      && (|| FromHistory(s, i)
          || FromChannel(s, i))
  }

  ghost predicate FromHistory(s: State, i: nat) {
    s.checkHistory && s.waiter.read.Some? && Oldest(s) <= i < s.waiter.read.value && s.waiter.cursor == s.waiter.from
  }

  ghost predicate FromChannel(s: State, i: nat) {
    && s.waiter.from < s.waiter.cursor <= |s.sent| && s.sent[s.waiter.cursor - 1] == i
    && s.waiter.cursor - 1 !in s.waiter.skipped
  }

  ghost predicate WaiterOk(s: State) {
    var w := s.waiter;
    && w.from <= w.cursor <= |s.sent|
    && (forall p :: p in w.skipped ==> w.from <= p < w.cursor && p + CHANNEL < |s.sent|)
    && (w.phase == Start || w.phase == Subscribed ==> w.read.None? && w.cursor == w.from)
    && (w.phase == Receiving || w.phase == TimedOut ==> (w.read.Some? <==> s.checkHistory))
    && (!s.checkHistory ==> w.read.None?)
  }

  ghost predicate Inv(s: State) {
    && SendsOk(s) && WaiterOk(s) && ReadOk(s) && ReturnedOk(s)
    && forall p: nat {:trigger PassedOk(s, p)} :: PassedOk(s, p)
  }

  lemma StoreKeepsInv(s: State, e: Event)
    requires Inv(s)
    ensures Inv(Apply(s, Store(e)))
  {
    hide Wanted;
    var t := Apply(s, Store(e));
    assert forall i :: 0 <= i < |s.log| ==> t.log[i] == s.log[i];
    forall p: nat
      ensures PassedOk(t, p)
    {
      assert PassedOk(s, p);
    }
  }

  lemma SendKeepsInv(s: State, i: nat)
    requires Inv(s) && i in s.unsent
    ensures Inv(Apply(s, Send(i)))
  {
    hide Wanted;
    var t := Apply(s, Send(i));
    assert forall p :: 0 <= p < |s.sent| ==> t.sent[p] == s.sent[p];
    assert t.sent[|s.sent|] == i;
    forall p: nat
      ensures PassedOk(t, p)
    {
      assert PassedOk(s, p);
    }
  }

  lemma ReadFinds(s: State)
    requires Inv(s) && Enabled(s, ReadHistory)
    ensures ReadOk(Apply(s, ReadHistory)) && ReturnedOk(Apply(s, ReadHistory))
  {
    hide Wanted, Newest, PassedOk;
    var t := Apply(s, ReadHistory);
    var h := History(s);
    var shift := |s.log| - |h|;
    assert Oldest(t) == shift;
    var found := Newest(h, s.query);
    forall i | shift <= i < |s.log| && Wanted(s.log[i], s.query)
      ensures found.Some? && i <= shift + found.value
    {
      assert s.log[i] == h[i - shift];
    }
  }

  lemma ReadKeepsInv(s: State)
    requires Inv(s) && Enabled(s, ReadHistory)
    ensures Inv(Apply(s, ReadHistory))
  {
    ReadFinds(s);
    hide Wanted, Newest, ReadOk, ReturnedOk, LastOf;
    var t := Apply(s, ReadHistory);
    forall p: nat
      ensures PassedOk(t, p)
    {
    }
  }

  lemma ReceiveKeepsInv(s: State)
    requires Inv(s) && Enabled(s, Receive)
    ensures Inv(Apply(s, Receive))
  {
    hide Wanted, Between;
    var t := Apply(s, Receive);
    forall p: nat
      ensures PassedOk(t, p)
    {
      assert PassedOk(s, p);
    }
    assert ReadOk(t) by {
      assert ReadOk(s);
    }
  }

  lemma WaiterKeepsInv(s: State, step: Step)
    requires Inv(s) && Enabled(s, step) && (step.Subscribe? || step.SkipHistory? || step.Timeout?)
    ensures Inv(Apply(s, step))
  {
    hide Wanted;
    var t := Apply(s, step);
    forall p: nat
      ensures PassedOk(t, p)
    {
      assert PassedOk(s, p);
    }
  }

  lemma InvStep(s: State, step: Step)
    requires Inv(s) && Enabled(s, step)
    ensures Inv(Apply(s, step))
  {
    hide Inv, Apply;
    match step
    case Store(e) => StoreKeepsInv(s, e);
    case Send(i) => SendKeepsInv(s, i);
    case ReadHistory => ReadKeepsInv(s);
    case Receive => ReceiveKeepsInv(s);
    case _ => WaiterKeepsInv(s, step);
  }

  // ---- Runs ----

  ghost predicate Runs(s: State, steps: seq<Step>)
    requires Inv(s)
    decreases |steps|
  {
    steps == [] || (Enabled(s, steps[0]) && (InvStep(s, steps[0]); Runs(Apply(s, steps[0]), steps[1..])))
  }

  ghost function Final(s: State, steps: seq<Step>): (t: State)
    requires Inv(s) && Runs(s, steps)
    ensures Inv(t)
    decreases |steps|
  {
    if steps == [] then s else InvStep(s, steps[0]); Final(Apply(s, steps[0]), steps[1..])
  }

  /** The states that some interleaving of publishers and the waiter leads to. */
  ghost predicate Reachable(s: State) {
    var start := Initial(s.capacity, s.query, s.checkHistory);
    exists steps :: Runs(start, steps) && Final(start, steps) == s
  }

  lemma InvReachable(s: State)
    requires Reachable(s)
    ensures Inv(s)
  {
    hide Apply, Enabled;
    var start := Initial(s.capacity, s.query, s.checkHistory);
    var steps :| Runs(start, steps) && Final(start, steps) == s;
  }

  // ---- What every interleaving guarantees ----

  /** Stored, but no longer in the history when the waiter read it. */
  ghost predicate Evicted(s: State, i: nat) {
    s.waiter.read.Some? && i < Oldest(s)
  }

  /** Sent on the channel after the subscription, at place `p`, and not received yet. */
  ghost predicate Ahead(s: State, i: nat, p: nat) {
    s.waiter.cursor <= p < |s.sent| && s.sent[p] == i
  }

  /** Sent on the channel at place `p` after the subscription, and overwritten by at least as many
      later events as the channel holds before the waiter got there. */
  ghost predicate Lagged(s: State, i: nat, p: nat) {
    s.waiter.from <= p < |s.sent| && s.sent[p] == i && p in s.waiter.skipped && p + 256 < |s.sent|
  }

  /** With `check_history`, a waiter that has read the history and has returned nothing missed a
      wanted event only if it was evicted before the read or lost to lag; any other is still on its
      way: not sent, or not received yet. */
  lemma MissedOnlyByEvictionOrLag(s: State, i: nat)
    requires Reachable(s) && s.checkHistory && (s.waiter.phase == Receiving || s.waiter.phase == TimedOut)
    requires i < |s.log| && Wanted(s.log[i], s.query)
    ensures Evicted(s, i) || i in s.unsent || exists p :: Ahead(s, i, p) || Lagged(s, i, p)
  {
    InvReachable(s);
    hide Wanted, Reachable;
    if i !in s.unsent && !Evicted(s, i) {
      var p :| 0 <= p < |s.sent| && s.sent[p] == i;
      assert i >= s.waiter.read.value;
      assert PassedOk(s, p);
      assert Ahead(s, i, p) || Lagged(s, i, p);
    }
  }

  /** Hence, when no more events were stored than the history holds, and no more were sent after the
      subscription than the channel holds, a waiter that has received all there is returned. */
  lemma NothingMissed(s: State, i: nat)
    requires Reachable(s) && s.checkHistory && s.waiter.phase != Start && s.waiter.phase != Subscribed
    requires i < |s.log| && Wanted(s.log[i], s.query)
    requires |s.log| <= s.capacity && |s.sent| <= s.waiter.from + 256
    requires s.unsent == {} && s.waiter.cursor == |s.sent|
    ensures s.waiter.phase.Returned?
  {
    InvReachable(s);
    if !s.waiter.phase.Returned? {
      MissedOnlyByEvictionOrLag(s, i);
    }
  }

  /** A returned event is wanted. It is the newest wanted one that the history held when it was read,
      or it was received from the channel, after the subscription, as the first wanted one that was
      not lost to lag. */
  lemma ReturnedIsWanted(s: State)
    requires Reachable(s) && s.waiter.phase.Returned?
    ensures var i := s.waiter.phase.event; i < |s.log| && Wanted(s.log[i], s.query)
    ensures var i := s.waiter.phase.event;
            || (&& FromHistory(s, i)
                && forall j :: i < j < s.waiter.read.value ==> !Wanted(s.log[j], s.query))
            || (&& FromChannel(s, i)
                && forall p :: s.waiter.from <= p < s.waiter.cursor - 1 && p !in s.waiter.skipped ==>
                     !Wanted(s.log[s.sent[p]], s.query))
  {
    InvReachable(s);
    hide Wanted, Reachable;
    var i := s.waiter.phase.event;
    if FromChannel(s, i) {
      forall p | s.waiter.from <= p < s.waiter.cursor - 1 && p !in s.waiter.skipped
        ensures !Wanted(s.log[s.sent[p]], s.query)
      {
        assert PassedOk(s, p);
        assert s.sent[p] != s.sent[s.waiter.cursor - 1];
      }
    }
  }

  /** Without `check_history`, no event sent before the subscription is returned. */
  lemma OnlyNewEvents(s: State, p: nat)
    requires Reachable(s) && !s.checkHistory && s.waiter.phase.Returned?
    requires p < s.waiter.from && p < |s.sent|
    ensures s.waiter.phase.event != s.sent[p]
  {
    InvReachable(s);
    hide Wanted, Reachable;
    var i := s.waiter.phase.event;
    assert FromChannel(s, i);
    assert s.sent[p] != s.sent[s.waiter.cursor - 1];
  }

  // ---- The same, from the moments at which the waiter acts ----

  /** What a step leaves of the log, of the channel and of what the waiter has noted. */
  lemma NotesStay(s: State, step: Step)
    requires Inv(s) && Enabled(s, step) && s.waiter.phase != Start
    ensures var t := Apply(s, step);
            && t.waiter.phase != Start && t.waiter.from == s.waiter.from
            && (s.waiter.read.Some? ==> t.waiter.read == s.waiter.read)
            && s.sent <= t.sent && s.log <= t.log
            && t.capacity == s.capacity && t.query == s.query && t.checkHistory == s.checkHistory
  {
    hide Wanted, Newest;
  }

  lemma {:induction false} NotesStayRun(s: State, steps: seq<Step>)
    requires Inv(s) && Runs(s, steps) && s.waiter.phase != Start
    ensures var t := Final(s, steps);
            && t.waiter.phase != Start && t.waiter.from == s.waiter.from
            && (s.waiter.read.Some? ==> t.waiter.read == s.waiter.read)
            && s.sent <= t.sent && s.log <= t.log
            && t.capacity == s.capacity && t.query == s.query && t.checkHistory == s.checkHistory
    decreases |steps|
  {
    hide PassedOk, ReadOk, ReturnedOk, WaiterOk, Enabled, Apply;
    if steps != [] {
      NotesStay(s, steps[0]);
      InvStep(s, steps[0]);
      NotesStayRun(Apply(s, steps[0]), steps[1..]);
    }
  }

  ghost function Next(s: State, step: Step): (t: State)
    requires Inv(s) && Enabled(s, step)
    ensures Inv(t)
  {
    InvStep(s, step);
    Apply(s, step)
  }

  /** Without `check_history`, a waiter that subscribes never returns an event that had been sent by
      then, in any run that follows. */
  lemma SentBeforeIsNotReturned(s: State, steps: seq<Step>)
    requires Inv(s) && Enabled(s, Subscribe) && !s.checkHistory
    requires Runs(Next(s, Subscribe), steps)
    ensures var t := Final(Next(s, Subscribe), steps);
            t.waiter.phase.Returned? ==> t.waiter.phase.event !in s.sent
  {
    var subscribed := Next(s, Subscribe);
    NotesStayRun(subscribed, steps);
    hide Runs, Final, Wanted;
    var t := Final(subscribed, steps);
    if t.waiter.phase.Returned? {
      var i := t.waiter.phase.event;
      assert FromChannel(t, i);
      forall p | 0 <= p < |s.sent|
        ensures s.sent[p] != i
      {
        assert s.sent[p] == t.sent[p] && t.sent[p] != t.sent[t.waiter.cursor - 1];
      }
    }
  }

  /** With `check_history`, in any run after the history was read: a waiter that has returned nothing
      missed a wanted event only if this was no longer in the history that it read, or was lost to lag;
      any other is not sent or not received yet. */
  lemma MissedAfterRead(s: State, steps: seq<Step>, i: nat)
    requires Inv(s) && Enabled(s, ReadHistory)
    requires Runs(Next(s, ReadHistory), steps)
    requires var t := Final(Next(s, ReadHistory), steps);
             && (t.waiter.phase == Receiving || t.waiter.phase == TimedOut)
             && i < |t.log| && Wanted(t.log[i], s.query)
    ensures var t := Final(Next(s, ReadHistory), steps);
            || i + |History(s)| < |s.log|
            || i in t.unsent
            || exists p :: Ahead(t, i, p) || Lagged(t, i, p)
  {
    var read := Next(s, ReadHistory);
    NotesStayRun(read, steps);
    hide Runs, Final, Wanted;
    var t := Final(read, steps);
    assert t.waiter.read == Some(|s.log|);
    if i !in t.unsent && !(i + |History(s)| < |s.log|) {
      var p :| 0 <= p < |t.sent| && t.sent[p] == i;
      assert i >= t.waiter.read.value;
      assert PassedOk(t, p);
      assert Ahead(t, i, p) || Lagged(t, i, p);
    }
  }

  /** A waiter that has not returned can go on, whatever the publishers do. */
  lemma WaiterGoesOn(s: State)
    requires !s.waiter.phase.Returned? && s.waiter.phase != TimedOut
    ensures exists step: Step :: (step.Subscribe? || step.ReadHistory? || step.SkipHistory? || step.Timeout?) && Enabled(s, step)
  {
    var step := match s.waiter.phase
                case Start => Subscribe
                case Subscribed => if s.checkHistory then ReadHistory else SkipHistory
                case _ => Timeout;
    assert Enabled(s, step);
  }

  /** A receiver more than 256 events behind goes on with the last 256 and loses just those between;
      any other gets the next event, and returns it exactly if it is wanted. */
  lemma ReceiveExactly(s: State)
    requires Inv(s) && Enabled(s, Receive)
    ensures var w, v := s.waiter, Apply(s, Receive).waiter;
            if w.cursor + 256 < |s.sent| then
              && v.cursor == |s.sent| - 256 && v.phase == Receiving
              && forall p :: p in v.skipped <==> p in w.skipped || w.cursor <= p < |s.sent| - 256
            else
              && s.sent[w.cursor] < |s.log| && v.cursor == w.cursor + 1 && v.skipped == w.skipped
              && v.phase == if Wanted(s.log[s.sent[w.cursor]], s.query) then Returned(s.sent[w.cursor]) else Receiving
  {
    hide Wanted, Between;
  }
}
