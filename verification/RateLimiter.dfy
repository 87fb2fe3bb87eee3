/** The request limit per client of `SecurityManager` (QuickDesk/src/api/SecurityManager.cpp).
    Times are milliseconds; the clock is an input. */
module RateLimiter {
  const WINDOW: int := 60000

  type Clients = map<string, seq<int>>

  /** A client that has no entry has no requests. */
  function Times(clients: Clients, client: string): (ts: seq<int>) {
    if client in clients then clients[client] else []
  }

  /** The list without its leading times before `cutoff`. */
  function Prune(ts: seq<int>, cutoff: int): (r: seq<int>) {
    if ts != [] && ts[0] < cutoff then Prune(ts[1..], cutoff) else ts
  }

  class Limiter {
    var limit: int
    var clients: Clients

    constructor (limit: int)
      ensures this.limit == limit && clients == map[]
    {
      this.limit := limit;
      clients := map[];
    }

    method SetRateLimitPerMinute(maxRequests: int)
      modifies this
      ensures limit == maxRequests && clients == old(clients)
    {
      limit := maxRequests;
    }

    /** `checkRateLimit`. A refused request still leaves the pruned list, an entry for a client not
        seen before included. */
    method CheckRateLimit(client: string, now: int) returns (accepted: bool)
      modifies this
      ensures limit == old(limit)
      ensures accepted == Accepts(limit, Times(old(clients), client), now)
      ensures clients == Checked(limit, old(clients), client, now)
    {
      if limit <= 0 {
        return true;
      }
      var cutoff := now - WINDOW;
      var state := if client in clients then clients[client] else [];
      ghost var all := state;
      while state != [] && state[0] < cutoff
        invariant Prune(state, cutoff) == Prune(all, cutoff)
        decreases |state|
      {
        state := state[1..];
      }
      if |state| >= limit {
        clients := clients[client := state];
        return false;
      }
      state := state + [now];
      clients := clients[client := state];
      return true;
    }

    method RemoveClient(client: string)
      modifies this
      ensures clients == old(clients) - {client} && limit == old(limit)
    {
      clients := clients - {client};
    }
  }

  predicate Accepts(limit: int, ts: seq<int>, now: int) {
    limit <= 0 || |Prune(ts, now - WINDOW)| < limit
  }

  function Checked(limit: int, clients: Clients, client: string, now: int): (r: Clients) {
    if limit <= 0 then clients
    else
      var kept := Prune(Times(clients, client), now - WINDOW);
      clients[client := if |kept| < limit then kept + [now] else kept]
  }

  // ---- Sequences of calls ----

  datatype Op = Check(client: string, now: int) | Remove(client: string) | SetLimit(limit: int)

  function LimitAfter(limit: int, op: Op): (r: int) {
    if op.SetLimit? then op.limit else limit
  }

  function After(limit: int, clients: Clients, op: Op): (r: Clients) {
    match op
    case Check(client, now) => Checked(limit, clients, client, now)
    case Remove(client) => clients - {client}
    case SetLimit(_) => clients
  }

  function Front(ops: seq<Op>): (r: seq<Op>)
    requires ops != []
  {
    ops[..|ops| - 1]
  }

  function Last(ops: seq<Op>): (r: Op)
    requires ops != []
  {
    ops[|ops| - 1]
  }

  function Limit(limit: int, ops: seq<Op>): (r: int)
    decreases |ops|
  {
    if ops == [] then limit else LimitAfter(Limit(limit, Front(ops)), Last(ops))
  }

  /** The limit in force is the one set last. */
  lemma {:induction false} LimitIsLastSet(limit: int, ops: seq<Op>, k: nat)
    requires k <= |ops| && forall i :: k <= i < |ops| ==> !ops[i].SetLimit?
    ensures k == 0 ==> Limit(limit, ops) == limit
    ensures k > 0 && ops[k - 1].SetLimit? ==> Limit(limit, ops) == ops[k - 1].limit
    decreases |ops|
  {
    if k < |ops| {
      LimitIsLastSet(limit, Front(ops), k);
    }
  }

  /** The lists after some calls, starting with none. */
  function Run(limit: int, ops: seq<Op>): (r: Clients)
    decreases |ops|
  {
    if ops == [] then map[] else After(Limit(limit, Front(ops)), Run(limit, Front(ops)), Last(ops))
  }

  // ---- The limiter that forgets nothing ----

  /** How many of the times are not before `cutoff`. */
  function Since(ts: seq<int>, cutoff: int): (n: nat)
    decreases |ts|
  {
    if ts == [] then 0
    else Since(ts[..|ts| - 1], cutoff) + if ts[|ts| - 1] >= cutoff then 1 else 0
  }

  /** A request is within the limit when fewer than `limit` of all those accepted lie in the last
      minute. */
  predicate WithinLimit(limit: int, history: seq<int>, now: int) {
    Since(history, now - WINDOW) < limit
  }

  /** All requests of one client that were accepted under a limit since it was last removed. */
  function History(limit: int, ops: seq<Op>, client: string): (h: seq<int>)
    decreases |ops|
  {
    if ops == [] then []
    else
      var h, n := History(limit, Front(ops), client), Limit(limit, Front(ops));
      match Last(ops)
      case Check(c, now) => if c == client && n > 0 && WithinLimit(n, h, now) then h + [now] else h
      case Remove(c) => if c == client then [] else h
      case SetLimit(_) => h
  }

  /** The clock of the calls never goes back. */
  ghost predicate Monotone(ops: seq<Op>) {
    forall i, j :: 0 <= i < j < |ops| && ops[i].Check? && ops[j].Check? ==> ops[i].now <= ops[j].now
  }

  ghost predicate Ordered(ts: seq<int>) {
    forall i, j :: 0 <= i < j < |ts| ==> ts[i] <= ts[j]
  }

  // ---- Pruning ----

  lemma {:induction false} PruneIsSuffix(ts: seq<int>, cutoff: int)
    ensures var r := Prune(ts, cutoff); |r| <= |ts| && r == ts[|ts| - |r|..]
    ensures forall i :: 0 <= i < |ts| - |Prune(ts, cutoff)| ==> ts[i] < cutoff
    ensures Prune(ts, cutoff) != [] ==> Prune(ts, cutoff)[0] >= cutoff
  {
    if ts != [] && ts[0] < cutoff {
      PruneIsSuffix(ts[1..], cutoff);
      var r := Prune(ts, cutoff);
      assert ts[|ts| - |r|..] == ts[1..][|ts| - 1 - |r|..];
      forall i | 0 <= i < |ts| - |r|
        ensures ts[i] < cutoff
      {
        assert i > 0 ==> ts[i] == ts[1..][i - 1];
      }
    }
  }

  /** `kept` is what pruning has left of `history`: an end of it, all before being too old. */
  ghost predicate Remains(history: seq<int>, kept: seq<int>, clock: int) {
    && |kept| <= |history| && kept == history[|history| - |kept|..]
    && forall i :: 0 <= i < |history| - |kept| ==> history[i] < clock - WINDOW
  }

  lemma PruneRemains(history: seq<int>, kept: seq<int>, clock: int, now: int)
    requires Remains(history, kept, clock) && clock <= now
    ensures Remains(history, Prune(kept, now - WINDOW), now)
  {
    var r := Prune(kept, now - WINDOW);
    PruneIsSuffix(kept, now - WINDOW);
    var gap := |history| - |kept|;
    assert history[gap..][|kept| - |r|..] == history[|history| - |r|..];
    forall i | 0 <= i < |history| - |r|
      ensures history[i] < now - WINDOW
    {
      if i >= gap {
        assert history[i] == kept[i - gap];
      }
    }
  }

  lemma {:induction false} SinceSplit(ts: seq<int>, k: nat, cutoff: int)
    requires k <= |ts|
    requires forall i :: 0 <= i < k ==> ts[i] < cutoff
    requires forall i :: k <= i < |ts| ==> ts[i] >= cutoff
    ensures Since(ts, cutoff) == |ts| - k
    decreases |ts|
  {
    if |ts| > 0 {
      SinceSplit(ts[..|ts| - 1], if k < |ts| then k else k - 1, cutoff);
    }
  }

  /** The pruned list is as long as the number of recent requests in the whole history. */
  lemma PrunedCounts(history: seq<int>, kept: seq<int>, clock: int, now: int)
    requires Ordered(history) && Remains(history, kept, clock) && clock <= now
    ensures |Prune(kept, now - WINDOW)| == Since(history, now - WINDOW)
  {
    hide Prune, Since;
    var r := Prune(kept, now - WINDOW);
    PruneIsSuffix(kept, now - WINDOW);
    PruneRemains(history, kept, clock, now);
    var gap := |history| - |r|;
    forall i | gap <= i < |history|
      ensures history[i] >= now - WINDOW
    {
      assert r[0] == history[gap];
    }
    SinceSplit(history, gap, now - WINDOW);
  }

  /** The places of the times that are not before `cutoff`. */
  ghost function Recent(ts: seq<int>, cutoff: int): (places: set<nat>) {
    set i | 0 <= i < |ts| && ts[i] >= cutoff
  }

  lemma {:induction false} SinceCounts(ts: seq<int>, cutoff: int)
    ensures Since(ts, cutoff) == |Recent(ts, cutoff)|
    decreases |ts|
  {
    if ts == [] {
      assert Recent(ts, cutoff) == {};
    } else {
      var front, n := ts[..|ts| - 1], |ts| - 1;
      SinceCounts(front, cutoff);
      assert Recent(ts, cutoff) == Recent(front, cutoff) + if ts[n] >= cutoff then {n} else {};
    }
  }

  // ---- The pruned limiter decides as the one that forgets nothing ----

  ghost predicate NoneAfter(ts: seq<int>, clock: int) {
    forall i :: 0 <= i < |ts| ==> ts[i] <= clock
  }

  /** A client's list `kept` stands for its `history` at a time. */
  ghost predicate Stands(history: seq<int>, kept: seq<int>, clock: int) {
    Ordered(history) && NoneAfter(history, clock) && Remains(history, kept, clock)
  }

  ghost predicate CallsUpTo(ops: seq<Op>, clock: int) {
    forall i :: 0 <= i < |ops| && ops[i].Check? ==> ops[i].now <= clock
  }

  lemma CallsBefore(ops: seq<Op>, clock: int)
    requires Monotone(ops) && CallsUpTo(ops, clock) && ops != []
    ensures |Front(ops)| < |ops| && Monotone(Front(ops)) && CallsUpTo(Front(ops), clock)
    ensures Last(ops).Check? ==> CallsUpTo(Front(ops), Last(ops).now) && Last(ops).now <= clock
  {
  }

  /** What a call about a client does to its list and its history. */
  lemma OwnCall(limit: int, ops: seq<Op>, client: string)
    requires ops != [] && (Last(ops).Check? || Last(ops).Remove?) && Last(ops).client == client
    ensures var h, ts := History(limit, Front(ops), client), Times(Run(limit, Front(ops)), client);
            var n, op := Limit(limit, Front(ops)), Last(ops);
            var h', ts' := History(limit, ops, client), Times(Run(limit, ops), client);
            && (op.Remove? ==> h' == [] && ts' == [])
            && (op.Check? && n <= 0 ==> h' == h && ts' == ts)
            && (op.Check? && n > 0 ==>
                  var kept := Prune(ts, op.now - WINDOW);
                  && h' == (if WithinLimit(n, h, op.now) then h + [op.now] else h)
                  && ts' == if |kept| < n then kept + [op.now] else kept)
  {
  }

  lemma NoCalls(limit: int, client: string, clock: int)
    ensures History(limit, [], client) == [] && Times(Run(limit, []), client) == []
    ensures Stands([], [], clock)
  {
  }

  lemma OtherCall(limit: int, ops: seq<Op>, client: string)
    requires ops != [] && (Last(ops).SetLimit? || Last(ops).client != client)
    ensures History(limit, ops, client) == History(limit, Front(ops), client)
    ensures Times(Run(limit, ops), client) == Times(Run(limit, Front(ops)), client)
  {
  }

  /** After any calls, a client's list stands for its history. */
  lemma {:induction false} ListStands(limit: int, ops: seq<Op>, client: string, clock: int)
    requires Monotone(ops) && CallsUpTo(ops, clock)
    ensures Stands(History(limit, ops, client), Times(Run(limit, ops), client), clock)
    decreases |ops|
  {
    hide *;
    if ops == [] {
      NoCalls(limit, client, clock);
    } else {
      var before, op := Front(ops), Last(ops);
      CallsBefore(ops, clock);
      if op == Remove(client) {
        NoCalls(limit, client, clock);
        OwnCall(limit, ops, client);
      } else if op.Check? && op.client == client {
        var h, ts := History(limit, before, client), Times(Run(limit, before), client);
        ListStands(limit, before, client, op.now);
        ListChecked(Limit(limit, before), h, ts, op.now);
        OwnCall(limit, ops, client);
        StandsLater(History(limit, ops, client), Times(Run(limit, ops), client), op.now, clock);
      } else {
        ListStands(limit, before, client, clock);
        OtherCall(limit, ops, client);
      }
    }
  }

  lemma StandsLater(history: seq<int>, kept: seq<int>, clock: int, later: int)
    requires Stands(history, kept, clock) && clock <= later
    ensures Stands(history, kept, later)
  {
  }

  /** One check, on the pruned list and on the whole history. */
  lemma ListChecked(limit: int, h: seq<int>, ts: seq<int>, now: int)
    requires Stands(h, ts, now)
    ensures limit > 0 ==> (|Prune(ts, now - WINDOW)| < limit <==> WithinLimit(limit, h, now))
    ensures var kept := Prune(ts, now - WINDOW); Stands(h, kept, now) && Stands(h + [now], kept + [now], now)
  {
    PrunedCounts(h, ts, now, now);
    PruneRemains(h, ts, now, now);
    hide Prune, Since;
    StandsSnoc(h, Prune(ts, now - WINDOW), now);
  }

  lemma StandsSnoc(h: seq<int>, kept: seq<int>, now: int)
    requires Stands(h, kept, now)
    ensures Stands(h + [now], kept + [now], now)
  {
    var gap := |h| - |kept|;
    assert (h + [now])[gap..] == h[gap..] + [now];
  }

  /** With a clock that does not go back, every decision is the one that the whole accepted history
      since the client's last removal would give, whatever limits were set in between. */
  lemma DecidesAsHistory(limit: int, ops: seq<Op>, client: string, now: int)
    requires Monotone(ops + [Check(client, now)])
    ensures var n := Limit(limit, ops);
            Accepts(n, Times(Run(limit, ops), client), now) <==>
            n <= 0 || WithinLimit(n, History(limit, ops, client), now)
    ensures var n, h := Limit(limit, ops), History(limit, ops, client);
            Accepts(n, Times(Run(limit, ops), client), now) <==> n <= 0 || |Recent(h, now - 60000)| < n
  {
    SinceCounts(History(limit, ops, client), now - 60000);
    var all := ops + [Check(client, now)];
    assert all[|ops|] == Check(client, now);
    assert forall i :: 0 <= i < |ops| ==> all[i] == ops[i];
    ListStands(limit, ops, client, now);
    ListChecked(Limit(limit, ops), History(limit, ops, client), Times(Run(limit, ops), client), now);
  }

  // ---- No minute holds too many ----

  /** How many of the times lie in the closed window that starts at `from`. */
  function InWindow(ts: seq<int>, from: int): (n: nat)
    decreases |ts|
  {
    if ts == [] then 0
    else InWindow(ts[..|ts| - 1], from) + if from <= ts[|ts| - 1] <= from + WINDOW then 1 else 0
  }

  lemma {:induction false} InWindowCounts(ts: seq<int>, from: int)
    ensures InWindow(ts, from) == |set i | 0 <= i < |ts| && from <= ts[i] <= from + 60000|
    decreases |ts|
  {
    var inside := set i | 0 <= i < |ts| && from <= ts[i] <= from + 60000;
    if ts == [] {
      assert inside == {};
    } else {
      var front, n := ts[..|ts| - 1], |ts| - 1;
      InWindowCounts(front, from);
      assert inside == (set i | 0 <= i < |front| && from <= front[i] <= from + 60000)
                       + if from <= ts[n] <= from + 60000 then {n} else {};
    }
  }

  lemma {:induction false} WindowWithinSince(ts: seq<int>, from: int, cutoff: int)
    requires cutoff <= from
    ensures InWindow(ts, from) <= Since(ts, cutoff)
    decreases |ts|
  {
    if ts != [] {
      WindowWithinSince(ts[..|ts| - 1], from, cutoff);
    }
  }

  lemma {:induction false} HistoryBound(limit: int, ops: seq<Op>, client: string, from: int, most: nat)
    requires limit <= most && forall i :: 0 <= i < |ops| && ops[i].SetLimit? ==> ops[i].limit <= most
    ensures InWindow(History(limit, ops, client), from) <= most && Limit(limit, ops) <= most
    decreases |ops|
  {
    if ops != [] {
      var before, op := Front(ops), Last(ops);
      HistoryBound(limit, before, client, from, most);
      var h, n := History(limit, before, client), Limit(limit, before);
      if op.Check? && op.client == client && n > 0 && WithinLimit(n, h, op.now) {
        assert (h + [op.now])[..|h|] == h;
        if from <= op.now <= from + WINDOW {
          WindowWithinSince(h, from, op.now - WINDOW);
        }
      }
    }
  }

  /** The times of the requests of one client that the pruning limiter itself has accepted under a
      limit since it was last removed. */
  function Accepted(limit: int, ops: seq<Op>, client: string): (ts: seq<int>)
    decreases |ops|
  {
    if ops == [] then []
    else
      var h, n := Accepted(limit, Front(ops), client), Limit(limit, Front(ops));
      match Last(ops)
      case Check(c, now) =>
        if c == client && n > 0 && Accepts(n, Times(Run(limit, Front(ops)), client), now) then h + [now] else h
      case Remove(c) => if c == client then [] else h
      case SetLimit(_) => h
  }

  lemma {:induction false} AcceptedIsHistory(limit: int, ops: seq<Op>, client: string)
    requires Monotone(ops)
    ensures Accepted(limit, ops, client) == History(limit, ops, client)
    decreases |ops|
  {
    if ops != [] {
      var before, op := Front(ops), Last(ops);
      assert ops == before + [op];
      AcceptedIsHistory(limit, before, client);
      if op.Check? && op.client == client {
        DecidesAsHistory(limit, before, client, op.now);
      }
      hide Accepts, WithinLimit, Times, Monotone;
    }
  }

  /** With a clock that does not go back, no closed window of 60000 ms between removals holds more
      requests of a client that were accepted under a limit than the greatest limit in force.
      Requests let through while the limit is zero or less are not recorded and not counted. */
  lemma WindowBound(limit: int, ops: seq<Op>, client: string, from: int, most: nat)
    requires Monotone(ops)
    requires limit <= most && forall i :: 0 <= i < |ops| && ops[i].SetLimit? ==> ops[i].limit <= most
    ensures InWindow(Accepted(limit, ops, client), from) <= most
    ensures var ts := Accepted(limit, ops, client); |set i | 0 <= i < |ts| && from <= ts[i] <= from + 60000| <= most
  {
    InWindowCounts(Accepted(limit, ops, client), from);
    AcceptedIsHistory(limit, ops, client);
    HistoryBound(limit, ops, client, from, most);
  }

  // ---- Clients do not affect each other ----

  predicate Concerns(op: Op, client: string) {
    op.SetLimit? || op.client == client
  }

  /** The calls without those of other clients. */
  function Only(ops: seq<Op>, client: string): (r: seq<Op>)
    decreases |ops|
  {
    if ops == [] then []
    else Only(Front(ops), client) + if Concerns(Last(ops), client) then [Last(ops)] else []
  }

  /** A client's list, and so every decision about it, is what it would be if no other client had
      ever called; the clock may do anything. */
  lemma {:induction false} ClientsIndependent(limit: int, ops: seq<Op>, client: string)
    ensures Times(Run(limit, ops), client) == Times(Run(limit, Only(ops, client)), client)
    ensures Limit(limit, ops) == Limit(limit, Only(ops, client))
    decreases |ops|
  {
    if ops != [] {
      var before, op := Front(ops), Last(ops);
      ClientsIndependent(limit, before, client);
      var only := Only(before, client);
      if Concerns(op, client) {
        assert Front(only + [op]) == only && Last(only + [op]) == op;
      } else {
        assert only + [] == only;
      }
    }
  }
}
