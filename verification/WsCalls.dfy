/** What the calls of the WebSocket client return, in terms of how their attempts ended and of the
    frames that arrived (quickdesk-mcp/src/ws_client.rs). */
module WsCalls {
  import opened Options
  import opened WsClient

  // ---- From frames to attempts ----

  /** A frame that carries the id of an attempt without a reply, on the attempt's connection, is its
      reply. No other attempt is touched. */
  lemma ReceiveDelivers<V(!new)>(s: State<V>, k: nat, frame: Frame<V>, i: nat)
    requires Reachable(s) && Enabled(s, k, Receive(frame)) && i < |s.attempts|
    ensures var t := Apply(s, k, Receive(frame));
            && |t.attempts| == |s.attempts| && k < |t.conns|
            && t.conns[k].frames == s.conns[k].frames + [frame]
            && t.attempts[i].reply ==
               (if s.attempts[i].conn == k && s.attempts[i].id == frame.id && s.attempts[i].reply.None?
                then Some(Answer(|s.conns[k].frames|)) else s.attempts[i].reply)
            && t.attempts[i].ended == s.attempts[i].ended
  {
    InvReachable(s);
    hide Reachable, Decode, Told, After;
    assert AttemptOk(s, i);
    if frame.id in s.conns[k].pending {
      assert EntryOk(s, k, frame.id);
    }
  }

  /** What an attempt ends with when its channel has something: the error or the result of its frame,
      the whole frame when it has neither, a lost connection, or a dropped channel. */
  lemma CollectTells<V(!new)>(s: State<V>, n: nat)
    requires Reachable(s) && Enabled(s, n, Collect)
    ensures var i := s.calls[n].pc.attempt;
            var a, t := s.attempts[i], Apply(s, n, Collect);
            && |t.attempts| == |s.attempts| && t.attempts[i].ended.Some?
            && var o := t.attempts[i].ended.value;
            match a.reply
            case None => o == Failed(ChannelClosed)
            case Some(Lost) => o == Failed(ConnectionClosed)
            case Some(Answer(f)) =>
              && f < |s.conns[a.conn].frames|
              && match s.conns[a.conn].frames[f].body
                 case ErrorBody(message) => o == Failed(Remote(message))
                 case ResultBody(value) => o == Success(value)
                 case Bare(value) => o == Success(value)
  {
    InvReachable(s);
    hide Reachable, After;
    assert AttemptOk(s, s.calls[n].pc.attempt);
  }

  /** What an attempt ends with otherwise: its send failed, or its time was up. */
  lemma OtherEndsSay<V(!new)>(s: State<V>, n: nat)
    requires Reachable(s) && n in s.calls && (s.calls[n].pc.Sending? || s.calls[n].pc.Awaiting?)
    ensures var i := s.calls[n].pc.attempt;
            && i < |s.attempts|
            && (Enabled(s, n, SendFail) ==> Apply(s, n, SendFail).attempts[i].ended == Some(Failed(SendFailed)))
            && (Enabled(s, n, Expire) ==> Apply(s, n, Expire).attempts[i].ended == Some(Failed(TimedOut)))
            && (s.calls[n].pc.Sending? <==> Enabled(s, n, SendFail))
            && (s.calls[n].pc.Awaiting? <==> Enabled(s, n, Expire))
  {
    InvReachable(s);
    hide Reachable, After, Told;
    assert CallOk(s, n);
  }

  /** No call is stuck: one that has not returned can make a step, or the call that is sending on the
      shared slot can; and one that has something to collect can collect it. */
  lemma CallsGoOn<V(!new)>(s: State<V>, n: nat)
    requires Reachable(s) && n in s.calls && !s.calls[n].pc.Done?
    ensures exists m, step: Step<V> :: m in s.calls && !ReaderStep(step) && !step.Begin? && Enabled(s, m, step)
                              && (m == n || s.innerOwner == Some(m))
    ensures s.calls[n].pc.Awaiting? ==>
              && s.calls[n].pc.attempt < |s.attempts| && s.attempts[s.calls[n].pc.attempt].conn < |s.conns|
              && (Told(s, s.calls[n].pc.attempt).Some? <==> Enabled(s, n, Collect))
  {
    InvReachable(s);
    hide Reachable, Told, After;
    assert CallOk(s, n);
    if s.calls[n].pc.Awaiting? {
      assert AttemptOk(s, s.calls[n].pc.attempt);
    }
    if s.innerOwner.Some? {
      var m := s.innerOwner.value;
      assert CallOk(s, m);
      assert Enabled(s, m, SendOk);
    } else {
      var step: Step<V> := match s.calls[n].pc
                           case Try(_) => if s.inner.Some? then Register else NoConnection
                           case Sending(_, _) => SendOk
                           case Awaiting(_, _) => Expire
                           case Dial => DialFail
                           case _ => Put;
      assert Enabled(s, n, step);
    }
  }

  // ---- From attempts to calls ----

  /** How the attempt of a kind ended, if it was made and has. */
  ghost function Ended<V>(s: State<V>, n: nat, p: Purpose): (r: Option<Outcome<V>>)
    requires n in s.calls
  {
    var made := s.calls[n].made;
    if p in made && made[p] < |s.attempts| then s.attempts[made[p]].ended else None
  }

  ghost predicate Made<V>(s: State<V>, n: nat, p: Purpose)
    requires n in s.calls
  {
    p in s.calls[n].made
  }

  /** The first attempt was made and failed, or there was no connection for it, or none is due. */
  ghost predicate FirstFailed<V>(s: State<V>, n: nat)
    requires n in s.calls
  {
    if s.calls[n].connecting then !Made(s, n, First)
    else Made(s, n, First) ==> Ended(s, n, First).Some? && Ended(s, n, First).value.Failed?
  }

  /** The login was accepted, or none is due. */
  ghost predicate LoggedIn<V>(s: State<V>, n: nat)
    requires n in s.calls
  {
    if !s.token then !Made(s, n, Login)
    else
      && Made(s, n, Login) && Ended(s, n, Login).Some?
      && Ended(s, n, Login).value.Success? && s.accepts(Ended(s, n, Login).value.value)
  }

  /** The login failed, was refused, or found no connection, and `o` says so. */
  ghost predicate LoginFailed<V>(s: State<V>, n: nat, o: Outcome<V>)
    requires n in s.calls
  {
    s.token &&
    if !Made(s, n, Login) then o == Failed(NotConnected)
    else
      && Ended(s, n, Login).Some?
      && var l := Ended(s, n, Login).value;
      if l.Failed? then o == l else !s.accepts(l.value) && o == Failed(AuthenticationFailed)
  }

  /** What a call has behind it, by where it stands. */
  ghost predicate ResultOk<V>(s: State<V>, n: nat)
    requires n in s.calls
  {
    var call := s.calls[n];
    match call.pc
    case Try(First) => !call.connecting && call.made == map[]
    case Sending(First, _) => !call.connecting && OnlyMade(s, n, First)
    case Awaiting(First, _) => !call.connecting && OnlyMade(s, n, First)
    case Dial => FirstFailed(s, n) && !Made(s, n, Login) && !Made(s, n, Second)
    case Install(_) => FirstFailed(s, n) && !Made(s, n, Login) && !Made(s, n, Second)
    case Try(Login) => s.token && FirstFailed(s, n) && !Made(s, n, Login) && !Made(s, n, Second)
    case Sending(Login, _) => s.token && FirstFailed(s, n) && Made(s, n, Login) && !Made(s, n, Second)
    case Awaiting(Login, _) => s.token && FirstFailed(s, n) && Made(s, n, Login) && !Made(s, n, Second)
    case Try(Second) => !call.connecting && FirstFailed(s, n) && LoggedIn(s, n) && !Made(s, n, Second)
    case Sending(Second, _) => !call.connecting && FirstFailed(s, n) && LoggedIn(s, n) && Made(s, n, Second)
    case Awaiting(Second, _) => !call.connecting && FirstFailed(s, n) && LoggedIn(s, n) && Made(s, n, Second)
    case Done(o) => DoneOk(s, n, o)
  }

  ghost predicate OnlyMade<V>(s: State<V>, n: nat, p: Purpose)
    requires n in s.calls
  {
    s.calls[n].made.Keys == {p}
  }

  /** The ways for a call to return: with the value of its first attempt; without a new connection;
      without a login; connected; or with how its second attempt ended. */
  ghost predicate DoneOk<V>(s: State<V>, n: nat, o: Outcome<V>)
    requires n in s.calls
  {
    var call := s.calls[n];
    || (!call.connecting && OnlyMade(s, n, First) && Ended(s, n, First) == Some(o) && o.Success?)
    || (FirstFailed(s, n) && !Made(s, n, Login) && !Made(s, n, Second) && o == Failed(ConnectFailed))
    || (FirstFailed(s, n) && !Made(s, n, Second) && LoginFailed(s, n, o))
    || (call.connecting && FirstFailed(s, n) && LoggedIn(s, n) && !Made(s, n, Second) && o == Success(s.unit))
    || (&& !call.connecting && FirstFailed(s, n) && LoggedIn(s, n)
        && if Made(s, n, Second) then Ended(s, n, Second) == Some(o) else o == Failed(NotConnected))
  }

  /** The attempts that a call has on record are its own. */
  ghost predicate MadeOk<V>(s: State<V>, n: nat, p: Purpose)
    requires n in s.calls
  {
    p in s.calls[n].made ==>
      && s.calls[n].made[p] < |s.attempts|
      && s.attempts[s.calls[n].made[p]].call == n && s.attempts[s.calls[n].made[p]].purpose == p
  }

  ghost predicate Results<V>(s: State<V>) {
    && (forall n {:trigger ResultOk(s, n)} :: n in s.calls ==> ResultOk(s, n))
    && (forall n, p {:trigger MadeOk(s, n, p)} :: n in s.calls ==> MadeOk(s, n, p))
  }

  /** Only the registration of an attempt adds to the record of a call. */
  lemma MadeGrows<V>(s: State<V>, m: nat, step: Step<V>, n: nat)
    requires Enabled(s, m, step) && n in Apply(s, m, step).calls
    ensures var made, t := Apply(s, m, step).calls[n].made, Apply(s, m, step);
            if n !in s.calls then made == map[]
            else
              || made == s.calls[n].made
              || (&& made == s.calls[n].made[s.calls[n].pc.purpose := |s.attempts|] && |t.attempts| == |s.attempts| + 1
                  && t.attempts[|s.attempts|].call == n && t.attempts[|s.attempts|].purpose == s.calls[n].pc.purpose)
  {
    hide Decode, Told, After;
  }

  lemma MadeKept<V>(s: State<V>, m: nat, step: Step<V>, n: nat, p: Purpose)
    requires Inv(s) && Results(s) && Enabled(s, m, step) && n in Apply(s, m, step).calls
    ensures MadeOk(Apply(s, m, step), n, p)
  {
    MadeGrows(s, m, step, n);
    hide Apply, Enabled, Inv, ResultOk;
    if n in s.calls {
      assert MadeOk(s, n, p);
      if p in s.calls[n].made {
        AttemptStays(s, m, step, s.calls[n].made[p]);
      }
    }
  }

  /** What a step leaves as it is for a call that does not make it. */
  lemma OthersStay<V>(s: State<V>, m: nat, step: Step<V>, n: nat)
    requires Inv(s) && Enabled(s, m, step) && n in s.calls && (ReaderStep(step) || n != m)
    ensures var t := Apply(s, m, step);
            n in t.calls && t.calls[n] == s.calls[n] && t.token == s.token && t.unit == s.unit && t.accepts == s.accepts
  {
    hide Decode, Told, After, AttemptOk, ConnOk, EntryOk, CallOk;
  }

  lemma EndedStays<V>(s: State<V>, m: nat, step: Step<V>, n: nat, p: Purpose)
    requires Inv(s) && Results(s) && Enabled(s, m, step) && n in s.calls
    requires n in Apply(s, m, step).calls && Made(s, n, p)
    requires p in Apply(s, m, step).calls[n].made && Apply(s, m, step).calls[n].made[p] == s.calls[n].made[p]
    ensures Ended(s, n, p).Some? ==> Ended(Apply(s, m, step), n, p) == Ended(s, n, p)
  {
    hide Apply, Enabled, Inv, ResultOk;
    assert MadeOk(s, n, p);
    AttemptStays(s, m, step, s.calls[n].made[p]);
  }

  lemma ResultKeptByOther<V>(s: State<V>, m: nat, step: Step<V>, n: nat)
    requires Inv(s) && Results(s) && Enabled(s, m, step) && n in s.calls && (ReaderStep(step) || n != m)
    ensures n in Apply(s, m, step).calls && ResultOk(Apply(s, m, step), n)
  {
    hide Apply, Enabled, Inv;
    OthersStay(s, m, step, n);
    assert ResultOk(s, n);
    if Made(s, n, First) {
      EndedStays(s, m, step, n, First);
    }
    if Made(s, n, Login) {
      EndedStays(s, m, step, n, Login);
    }
    if Made(s, n, Second) {
      EndedStays(s, m, step, n, Second);
    }
  }

  /** A call's own steps that end no attempt. */
  lemma ResultKeptByMove<V>(s: State<V>, n: nat, step: Step<V>)
    requires Inv(s) && Results(s) && Enabled(s, n, step) && !ReaderStep(step) && !EndStep(step)
    ensures n in Apply(s, n, step).calls && ResultOk(Apply(s, n, step), n)
  {
    hide Decode, Told, AttemptOk, ConnOk, EntryOk;
    var t := Apply(s, n, step);
    if n in s.calls {
      assert ResultOk(s, n);
      assert CallOk(s, n);
      assert MadeOk(s, n, First);
      assert MadeOk(s, n, Login);
      assert MadeOk(s, n, Second);
    }
  }

  /** What the end of an attempt does to the call: only the record of this attempt changes. */
  lemma EndEffect<V>(s: State<V>, n: nat, step: Step<V>)
    requires Inv(s) && Results(s) && Enabled(s, n, step) && EndStep(step)
    ensures var t, p := Apply(s, n, step), s.calls[n].pc.purpose;
            && n in t.calls && t.calls[n].made == s.calls[n].made && t.calls[n].connecting == s.calls[n].connecting
            && t.token == s.token && t.unit == s.unit && t.accepts == s.accepts
            && Made(s, n, p) && Ended(t, n, p).Some?
            && t.calls[n].pc == After(s, s.calls[n], p, Ended(t, n, p).value)
            && forall q: Purpose :: q != p ==> Ended(t, n, q) == Ended(s, n, q)
  {
    hide Decode, Told, After, ResultOk, ConnOk, EntryOk;
    var p, i := s.calls[n].pc.purpose, s.calls[n].pc.attempt;
    assert CallOk(s, n);
    assert AttemptOk(s, i);
    assert s.calls[n].made[p] == i;
    forall q: Purpose | q != p
      ensures Ended(Apply(s, n, step), n, q) == Ended(s, n, q)
    {
      assert MadeOk(s, n, q);
    }
  }

  lemma ResultKeptByEnd<V>(s: State<V>, n: nat, step: Step<V>)
    requires Inv(s) && Results(s) && Enabled(s, n, step) && EndStep(step)
    ensures n in Apply(s, n, step).calls && ResultOk(Apply(s, n, step), n)
  {
    EndEffect(s, n, step);
    assert ResultOk(s, n);
    assert s.calls[n].pc.Sending? || s.calls[n].pc.Awaiting?;
    hide Apply, Enabled, Inv, Results, Ended;
    var p := s.calls[n].pc.purpose;
    assert p != First ==> Ended(Apply(s, n, step), n, First) == Ended(s, n, First);
    assert p != Login ==> Ended(Apply(s, n, step), n, Login) == Ended(s, n, Login);
  }

  lemma ResultsStep<V>(s: State<V>, m: nat, step: Step<V>)
    requires Inv(s) && Results(s) && Enabled(s, m, step)
    ensures Results(Apply(s, m, step))
  {
    hide ResultOk, MadeOk, Enabled, Inv;
    var t := Apply(s, m, step);
    forall n | n in t.calls
      ensures ResultOk(t, n)
    {
      if n in s.calls && (ReaderStep(step) || n != m) {
        ResultKeptByOther(s, m, step, n);
      } else {
        OnlyOwnCall(s, m, step, n);
        if EndStep(step) {
          ResultKeptByEnd(s, n, step);
        } else {
          ResultKeptByMove(s, n, step);
        }
      }
    }
    hide Apply;
    forall n, p | n in t.calls
      ensures MadeOk(t, n, p)
    {
      MadeKept(s, m, step, n, p);
    }
  }

  lemma OnlyOwnCall<V>(s: State<V>, m: nat, step: Step<V>, n: nat)
    requires Enabled(s, m, step) && n in Apply(s, m, step).calls && !(n in s.calls && (ReaderStep(step) || n != m))
    ensures n == m && !ReaderStep(step)
  {
    hide Decode, Told, After;
  }

  lemma {:induction false} ResultsRun<V>(s: State<V>, moves: seq<Move<V>>)
    requires Inv(s) && Results(s) && Runs(s, moves)
    ensures Results(Final(s, moves))
    decreases |moves|
  {
    hide Inv, Results, Enabled, Apply;
    if moves != [] {
      ResultsStep(s, moves[0].n, moves[0].step);
      InvStep(s, moves[0].n, moves[0].step);
      ResultsRun(Apply(s, moves[0].n, moves[0].step), moves[1..]);
    }
  }

  lemma ResultsReachable<V(!new)>(s: State<V>)
    requires Reachable(s)
    ensures Results(s)
  {
    var start := Start(s.token, s.unit, s.accepts);
    var moves: seq<Move<V>> :| Runs(start, moves) && Final(start, moves) == s;
    assert Inv(start) && Results(start);
    hide Runs, Final, Inv, Results;
    ResultsRun(start, moves);
  }

  // ---- What calls return ----

  /** In every interleaving, a request returns a value exactly when its first or its second attempt
      ended with this value. */
  lemma RequestReturnsItsValue<V(!new)>(s: State<V>, n: nat, o: Outcome<V>, v: V)
    requires Reachable(s) && n in s.calls && s.calls[n].pc == Done(o) && !s.calls[n].connecting
    ensures o == Success(v) <==> Ended(s, n, First) == Some(Success(v)) || Ended(s, n, Second) == Some(Success(v))
  {
    ResultsReachable(s);
    hide Reachable;
    assert ResultOk(s, n);
    assert MadeOk(s, n, First);
  }

  /** A request that fails reports why: no new connection, no connection in the slot, a refused login,
      or how its login or its second attempt failed. */
  lemma RequestReportsFailure<V(!new)>(s: State<V>, n: nat, f: Failure)
    requires Reachable(s) && n in s.calls && s.calls[n].pc == Done(Failed(f)) && !s.calls[n].connecting
    ensures f == ConnectFailed || f == NotConnected || f == AuthenticationFailed
            || Ended(s, n, Login) == Some(Failed(f)) || Ended(s, n, Second) == Some(Failed(f))
  {
    ResultsReachable(s);
    hide Reachable;
    assert ResultOk(s, n);
  }

  /** And so the value came in a frame that carries the id of that attempt, on its connection, as its
      result or as the whole frame. */
  lemma RequestReturnsItsFrame<V(!new)>(s: State<V>, n: nat, v: V)
    requires Reachable(s) && n in s.calls && s.calls[n].pc == Done(Success(v)) && !s.calls[n].connecting
    ensures exists i, f :: FrameOf(s, n, i, f, v)
  {
    RequestReturnsItsValue(s, n, Success(v), v);
    ResultsReachable(s);
    var p := if Ended(s, n, First) == Some(Success(v)) then First else Second;
    var i := s.calls[n].made[p];
    assert MadeOk(s, n, p);
    ValueIsOwn(s, i);
    hide Reachable, Results;
    var a := s.attempts[i];
    var f :| 0 <= f < |s.conns[a.conn].frames| && s.conns[a.conn].frames[f].id == a.id
             && a.ended.value == Decode(s.conns[a.conn].frames[f].body);
    assert FrameOf(s, n, i, f, v);
  }

  /** Frame `f` of the connection of attempt `i` of call `n` answers the attempt with `v`. */
  ghost predicate FrameOf<V>(s: State<V>, n: nat, i: nat, f: nat, v: V) {
    && i < |s.attempts| && s.attempts[i].call == n && s.attempts[i].conn < |s.conns|
    && f < |s.conns[s.attempts[i].conn].frames|
    && s.conns[s.attempts[i].conn].frames[f].id == s.attempts[i].id
    && (|| s.conns[s.attempts[i].conn].frames[f].body == ResultBody(v)
        || s.conns[s.attempts[i].conn].frames[f].body == Bare(v))
  }

  /** A first attempt that fails, or finds no connection, is followed by a dial; one that succeeds
      ends the call. */
  lemma FirstFailureDials<V(!new)>(s: State<V>, n: nat, step: Step<V>)
    requires Reachable(s) && Enabled(s, n, step) && (EndStep(step) || step.NoConnection?)
    requires s.calls[n].pc.purpose == First
    ensures n in Apply(s, n, step).calls
    ensures Apply(s, n, step).calls[n].pc ==
            var e := Ended(Apply(s, n, step), n, First);
            if e.Some? && e.value.Success? then Done(e.value) else Dial
  {
    InvReachable(s);
    ResultsReachable(s);
    hide Reachable;
    assert ResultOk(s, n);
    if EndStep(step) {
      EndEffect(s, n, step);
    } else {
      hide Results, Inv;
    }
  }

  /** With a token, no request is repeated and no client is connected before a login on the new
      connection ended with a value that says it was accepted; a refused one ends the call. */
  lemma LoginIsRequired<V(!new)>(s: State<V>, n: nat)
    requires Reachable(s) && n in s.calls && s.token
    ensures Made(s, n, Second) || (s.calls[n].connecting && s.calls[n].pc.Done? && s.calls[n].pc.outcome.Success?) ==>
              var l := Ended(s, n, Login); l.Some? && l.value.Success? && s.accepts(l.value.value)
    ensures var l := Ended(s, n, Login);
            l.Some? && l.value.Success? && !s.accepts(l.value.value) && s.calls[n].pc.Done? ==>
              s.calls[n].pc.outcome == Failed(AuthenticationFailed)
  {
    ResultsReachable(s);
    hide Reachable;
    assert ResultOk(s, n);
    assert MadeOk(s, n, Login);
  }
}
