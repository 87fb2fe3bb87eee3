/** `WsClient` (quickdesk-mcp/src/ws_client.rs): requests that share one reconnecting WebSocket.

    Every connection has its own pending map, filled by requests and emptied by that connection's
    reader task. Request counters restart with each connection, readers of replaced connections may
    still be running, and the reader of a new connection is started before the connection is
    installed in the shared slot. A step is what is done under one lock; the slot's lock is held from
    the insertion of a request until it has been sent. Timeouts can happen at any time. */
module WsClient {
  import opened Options

  /** What a text frame with an "id" can carry. */
  datatype Body<+V> = ErrorBody(message: string) | ResultBody(value: V) | Bare(value: V)

  datatype Frame<+V> = Frame(id: nat, body: Body<V>)

  /** How a reader is doing: reading, past the draining of its pending map, or gone. */
  datatype Reader = Reading | Drained | Exited

  /** The `WsInner` of a connection: not yet in the shared slot, in it, or dropped from it. */
  datatype Place = NotYet | Current | Dropped

  /** A connection, opened by call `dialer`. `frames` records what its reader read, `deadOnArrival` that the reader was
      gone before the connection reached the shared slot. */
  datatype Conn<+V> = Conn(
    pending: map<nat, nat>, counter: nat, frames: seq<Frame<V>>, reader: Reader, place: Place,
    dialer: nat, deadOnArrival: bool)

  /** What is sent into the channel of an attempt: the frame with this number, or "Connection closed". */
  datatype Reply = Answer(frame: nat) | Lost

  datatype Failure =
    | ConnectFailed | NotConnected | SendFailed | ChannelClosed | TimedOut | ConnectionClosed | Remote(message: string)
    | AuthenticationFailed

  datatype Outcome<+V> = Success(value: V) | Failed(failure: Failure)

  /** Why a `try_request` is made: the request itself, its repetition, or the login in between. */
  datatype Purpose = First | Login | Second

  /** One registered `try_request`, with what its channel received and what it ended with. */
  datatype Attempt<+V> = Attempt(
    call: nat, purpose: Purpose, conn: nat, id: nat, reply: Option<Reply>, ended: Option<Outcome<V>>)

  datatype CallPc<+V> =
    | Try(purpose: Purpose)
    | Sending(purpose: Purpose, attempt: nat)
    | Awaiting(purpose: Purpose, attempt: nat)
    | Dial
    | Install(conn: nat)
    | Done(outcome: Outcome<V>)

  /** A call of `request_with_timeout`, or of `connect` when `connecting`; and the attempts it made. */
  datatype Call<+V> = Call(connecting: bool, pc: CallPc<V>, made: map<Purpose, nat>)

  /** `accepts` is whether the value that a login returned says that it was accepted. */
  datatype State<!V> = State(
    token: bool, unit: V, accepts: V -> bool, inner: Option<nat>, innerOwner: Option<nat>,
    conns: seq<Conn<V>>, attempts: seq<Attempt<V>>, calls: map<nat, Call<V>>)

  /** A step of call `n`, or of the reader of connection `n`. */
  datatype Step<+V> =
    | Begin(connecting: bool)
    | NoConnection
    | Register
    | SendOk
    | SendFail
    | Collect
    | Expire
    | DialOk
    | DialFail
    | Put
    | Receive(frame: Frame<V>)
    | Drain
    | Exit

  // ---- Results ----

  /** What the receiver of a frame makes of it. */
  function Decode<V>(body: Body<V>): (r: Outcome<V>) {
    match body
    case ErrorBody(message) => Failed(Remote(message))
    case ResultBody(value) => Success(value)
    case Bare(value) => Success(value)
  }

  /** All owners of the pending map are gone, so the senders left in it are dropped. */
  predicate Abandoned(c: Conn) {
    c.reader.Exited? && c.place.Dropped?
  }

  /** What an awaiting attempt can be told, if anything. */
  function Told<V>(s: State<V>, i: nat): (r: Option<Outcome<V>>)
    requires i < |s.attempts| && s.attempts[i].conn < |s.conns|
  {
    var a, c := s.attempts[i], s.conns[s.attempts[i].conn];
    match a.reply
    case Some(Answer(n)) => if n < |c.frames| then Some(Decode(c.frames[n].body)) else None
    case Some(Lost) => Some(Failed(ConnectionClosed))
    case None => if Abandoned(c) then Some(Failed(ChannelClosed)) else None
  }

  /** Where a call goes when an attempt has ended, or when it found no connection. */
  function After<V>(s: State<V>, call: Call<V>, purpose: Purpose, outcome: Outcome<V>): (pc: CallPc<V>) {
    match purpose
    case First => if outcome.Success? then Done(outcome) else Dial
    case Second => Done(outcome)
    case Login =>
      if outcome.Failed? then Done(outcome)
      else if !s.accepts(outcome.value) then Done(Failed(AuthenticationFailed))
      else Connected(s, call)
  }

  /** Where a call goes once the connection is up. */
  function Connected<V>(s: State<V>, call: Call<V>): (pc: CallPc<V>) {
    if call.connecting then Done(Success(s.unit)) else Try(Second)
  }

  // ---- Steps ----

  predicate Enabled<V>(s: State<V>, n: nat, step: Step<V>) {
    match step
    case Begin(_) => n !in s.calls
    case NoConnection => n in s.calls && s.calls[n].pc.Try? && s.innerOwner.None? && s.inner.None?
    case Register =>
      n in s.calls && s.calls[n].pc.Try? && s.innerOwner.None? && s.inner.Some? && s.inner.value < |s.conns|
    case SendOk => n in s.calls && s.calls[n].pc.Sending?
    case SendFail => n in s.calls && s.calls[n].pc.Sending? && s.calls[n].pc.attempt < |s.attempts|
    case Collect =>
      && n in s.calls && s.calls[n].pc.Awaiting? && s.calls[n].pc.attempt < |s.attempts|
      && s.attempts[s.calls[n].pc.attempt].conn < |s.conns| && Told(s, s.calls[n].pc.attempt).Some?
    case Expire => n in s.calls && s.calls[n].pc.Awaiting? && s.calls[n].pc.attempt < |s.attempts|
    case DialOk => n in s.calls && s.calls[n].pc.Dial?
    case DialFail => n in s.calls && s.calls[n].pc.Dial?
    case Put => n in s.calls && s.calls[n].pc.Install? && s.innerOwner.None? && s.calls[n].pc.conn < |s.conns|
    case Receive(_) => n < |s.conns| && s.conns[n].reader.Reading?
    case Drain => n < |s.conns| && s.conns[n].reader.Reading?
    case Exit => n < |s.conns| && s.conns[n].reader.Drained? && s.innerOwner.None?
  }

  function SetPc<V>(s: State<V>, n: nat, pc: CallPc<V>): (r: State<V>)
    requires n in s.calls
  {
    s.(calls := s.calls[n := s.calls[n].(pc := pc)])
  }

  /** An attempt has ended with `outcome`. */
  function EndAttempt<V>(s: State<V>, n: nat, purpose: Purpose, i: nat, outcome: Outcome<V>): (r: State<V>)
    requires n in s.calls && i < |s.attempts|
  {
    SetPc(s, n, After(s, s.calls[n], purpose, outcome))
      .(attempts := s.attempts[i := s.attempts[i].(ended := Some(outcome))])
  }

  /** Whatever is in the shared slot is dropped from it. */
  function DropCurrent<V>(s: State<V>): (conns: seq<Conn<V>>)
    ensures |conns| == |s.conns|
  {
    if s.inner.Some? && s.inner.value < |s.conns| then
      s.conns[s.inner.value := s.conns[s.inner.value].(place := Dropped)]
    else s.conns
  }

  /** The reader of connection `n` handles a frame that carries an id. */
  function DoReceive<V>(s: State<V>, n: nat, frame: Frame<V>): (r: State<V>)
    requires n < |s.conns|
  {
    var c := s.conns[n];
    var read := c.(frames := c.frames + [frame]);
    if frame.id in c.pending && c.pending[frame.id] < |s.attempts| then
      var i := c.pending[frame.id];
      s.(conns := s.conns[n := read.(pending := c.pending - {frame.id})],
         attempts := s.attempts[i := s.attempts[i].(reply := Some(Answer(|c.frames|)))])
    else s.(conns := s.conns[n := read])
  }

  /** It fails what is left in its pending map. */
  function DoDrain<V>(s: State<V>, n: nat): (r: State<V>)
    requires n < |s.conns|
  {
    var c := s.conns[n];
    s.(conns := s.conns[n := c.(pending := map[], reader := Drained)],
       attempts := seq(|s.attempts|, i requires 0 <= i < |s.attempts| =>
         if s.attempts[i].conn == n && s.attempts[i].id in c.pending && c.pending[s.attempts[i].id] == i
         then s.attempts[i].(reply := Some(Lost)) else s.attempts[i]))
  }

  /** It clears the shared slot, whatever is in it, and is gone. */
  function DoExit<V>(s: State<V>, n: nat): (r: State<V>)
    requires n < |s.conns|
  {
    var conns := DropCurrent(s);
    s.(conns := conns[n := conns[n].(reader := Exited, deadOnArrival := conns[n].place.NotYet?)], inner := None)
  }

  function Apply<V>(s: State<V>, n: nat, step: Step<V>): (r: State<V>)
    requires Enabled(s, n, step)
  {
    match step
    case Begin(connecting) =>
      s.(calls := s.calls[n := Call(connecting, if connecting then Dial else Try(First), map[])])
    case NoConnection =>
      SetPc(s, n, After(s, s.calls[n], s.calls[n].pc.purpose, Failed(NotConnected)))
    case Register =>
      var k, i, p := s.inner.value, |s.attempts|, s.calls[n].pc.purpose;
      var c := s.conns[k];
      s.(conns := s.conns[k := c.(counter := c.counter + 1, pending := c.pending[c.counter + 1 := i])],
         attempts := s.attempts + [Attempt(n, p, k, c.counter + 1, None, None)],
         innerOwner := Some(n),
         calls := s.calls[n := Call(s.calls[n].connecting, Sending(p, i), s.calls[n].made[p := i])])
    case SendOk =>
      SetPc(s, n, Awaiting(s.calls[n].pc.purpose, s.calls[n].pc.attempt)).(innerOwner := None)
    case SendFail =>
      EndAttempt(s, n, s.calls[n].pc.purpose, s.calls[n].pc.attempt, Failed(SendFailed)).(innerOwner := None)
    case Collect =>
      var Awaiting(p, i) := s.calls[n].pc;
      EndAttempt(s, n, p, i, Told(s, i).value)
    case Expire =>
      EndAttempt(s, n, s.calls[n].pc.purpose, s.calls[n].pc.attempt, Failed(TimedOut))
    case DialOk =>
      SetPc(s, n, Install(|s.conns|)).(conns := s.conns + [Conn(map[], 0, [], Reading, NotYet, n, false)])
    case DialFail =>
      SetPc(s, n, Done(Failed(ConnectFailed)))
    case Put =>
      var k := s.calls[n].pc.conn;
      var conns := DropCurrent(s);
      SetPc(s, n, if s.token then Try(Login) else Connected(s, s.calls[n]))
        .(conns := conns[k := conns[k].(place := Current)], inner := Some(k))
    case Receive(frame) => DoReceive(s, n, frame)
    case Drain => DoDrain(s, n)
    case Exit => DoExit(s, n)
  }

  // ---- What every step keeps ----

  /** How an attempt ended agrees with what it was told. */
  ghost predicate EndedOk<V>(a: Attempt<V>, c: Conn<V>, outcome: Outcome<V>) {
    || outcome == Failed(SendFailed)
    || outcome == Failed(TimedOut)
    || (outcome == Failed(ConnectionClosed) && a.reply == Some(Lost))
    || (outcome == Failed(ChannelClosed) && a.reply.None? && Abandoned(c))
    || (a.reply.Some? && a.reply.value.Answer? && a.reply.value.frame < |c.frames|
        && outcome == Decode(c.frames[a.reply.value.frame].body))
  }

  /** An attempt that has no reply is in the pending map of its connection; a reply is a frame
      that this connection's reader read and that carries the attempt's id, or the drain. */
  ghost predicate AttemptOk<V>(s: State<V>, i: nat)
    requires i < |s.attempts|
  {
    var a := s.attempts[i];
    && a.call in s.calls && a.purpose in s.calls[a.call].made && s.calls[a.call].made[a.purpose] == i
    && a.conn < |s.conns|
    && var c := s.conns[a.conn];
    && 1 <= a.id <= c.counter && !c.place.NotYet?
    && (match a.reply
        case None => a.id in c.pending && c.pending[a.id] == i
        case Some(Lost) => !c.reader.Reading?
        case Some(Answer(n)) => n < |c.frames| && c.frames[n].id == a.id)
    && (c.deadOnArrival ==> a.reply.None?)
    && (a.ended.Some? ==> EndedOk(a, c, a.ended.value))
  }

  /** An entry of a pending map belongs to an unanswered attempt made on this connection. */
  ghost predicate EntryOk<V>(s: State<V>, k: nat, id: nat)
    requires k < |s.conns| && id in s.conns[k].pending
  {
    var i := s.conns[k].pending[id];
    i < |s.attempts| && s.attempts[i].conn == k && s.attempts[i].id == id && s.attempts[i].reply.None?
  }

  ghost predicate ConnOk<V>(s: State<V>, k: nat)
    requires k < |s.conns|
  {
    var c := s.conns[k];
    && (s.inner == Some(k) <==> c.place.Current?)
    && (c.reader.Exited? && !c.place.Dropped? ==> c.deadOnArrival)
    && (c.deadOnArrival ==> c.reader.Exited?)
  }

  /** The purposes for which a call may still register an attempt. */
  function Ahead<V>(pc: CallPc<V>): (ps: set<Purpose>) {
    match pc
    case Try(First) => {First, Login, Second}
    case Sending(First, _) => {Login, Second}
    case Awaiting(First, _) => {Login, Second}
    case Dial => {Login, Second}
    case Install(_) => {Login, Second}
    case Try(Login) => {Login, Second}
    case Sending(Login, _) => {Second}
    case Awaiting(Login, _) => {Second}
    case Try(Second) => {Second}
    case _ => {}
  }

  ghost predicate CallOk<V>(s: State<V>, n: nat)
    requires n in s.calls
  {
    var call := s.calls[n];
    && (s.innerOwner == Some(n) <==> call.pc.Sending?)
    && Ahead(call.pc) !! call.made.Keys
    && (call.pc.Sending? || call.pc.Awaiting? ==>
          && call.pc.attempt < |s.attempts|
          && s.attempts[call.pc.attempt].call == n && s.attempts[call.pc.attempt].purpose == call.pc.purpose
          && s.attempts[call.pc.attempt].ended.None?)
    && (call.pc.Install? ==>
          && call.pc.conn < |s.conns|
          && s.conns[call.pc.conn].place.NotYet? && s.conns[call.pc.conn].dialer == n)
  }

  ghost predicate Inv<V>(s: State<V>) {
    && (s.inner.Some? ==> s.inner.value < |s.conns|)
    && (s.innerOwner.Some? ==> s.innerOwner.value in s.calls)
    && (forall i {:trigger AttemptOk(s, i)} :: 0 <= i < |s.attempts| ==> AttemptOk(s, i))
    && (forall k {:trigger ConnOk(s, k)} :: 0 <= k < |s.conns| ==> ConnOk(s, k))
    && (forall k, id {:trigger EntryOk(s, k, id)} ::
          0 <= k < |s.conns| && id in s.conns[k].pending ==> EntryOk(s, k, id))
    && (forall n {:trigger CallOk(s, n)} :: n in s.calls ==> CallOk(s, n))
  }

  function Start<V>(token: bool, unit: V, accepts: V -> bool): (s: State<V>) {
    State(token, unit, accepts, None, None, [], [], map[])
  }

  /** Steps of a reader task. */
  predicate ReaderStep(step: Step) {
    step.Receive? || step.Drain? || step.Exit?
  }

  /** Steps in which an attempt ends. */
  predicate EndStep(step: Step) {
    step.SendFail? || step.Collect? || step.Expire?
  }

  lemma InvReceive<V>(s: State<V>, n: nat, frame: Frame<V>)
    requires Inv(s) && n < |s.conns| && s.conns[n].reader.Reading?
    ensures Inv(DoReceive(s, n, frame))
  {
    hide Decode, Ahead;
    var t := DoReceive(s, n, frame);
    assert ConnOk(s, n);
    if frame.id in s.conns[n].pending {
      assert EntryOk(s, n, frame.id);
    }
    forall i | 0 <= i < |t.attempts|
      ensures AttemptOk(t, i)
    {
      assert AttemptOk(s, i);
    }
    forall k | 0 <= k < |t.conns|
      ensures ConnOk(t, k)
    {
      assert ConnOk(s, k);
    }
    forall k, id | 0 <= k < |t.conns| && id in t.conns[k].pending
      ensures EntryOk(t, k, id)
    {
      assert EntryOk(s, k, id);
    }
    forall m | m in t.calls
      ensures CallOk(t, m)
    {
      assert CallOk(s, m);
    }
  }

  lemma InvDrain<V>(s: State<V>, n: nat)
    requires Inv(s) && n < |s.conns| && s.conns[n].reader.Reading?
    ensures Inv(DoDrain(s, n))
  {
    hide Decode, Ahead;
    var t := DoDrain(s, n);
    assert ConnOk(s, n);
    forall i | 0 <= i < |t.attempts|
      ensures AttemptOk(t, i)
    {
      assert AttemptOk(s, i);
      if s.attempts[i].conn == n && s.attempts[i].id in s.conns[n].pending {
        assert EntryOk(s, n, s.attempts[i].id);
      }
    }
    forall k | 0 <= k < |t.conns|
      ensures ConnOk(t, k)
    {
      assert ConnOk(s, k);
    }
    forall k, id | 0 <= k < |t.conns| && id in t.conns[k].pending
      ensures EntryOk(t, k, id)
    {
      assert EntryOk(s, k, id);
    }
    forall m | m in t.calls
      ensures CallOk(t, m)
    {
      assert CallOk(s, m);
    }
  }

  lemma InvExit<V>(s: State<V>, n: nat)
    requires Inv(s) && n < |s.conns| && s.conns[n].reader.Drained?
    ensures Inv(DoExit(s, n))
  {
    hide Decode, Ahead;
    var t := DoExit(s, n);
    if s.inner.Some? {
      assert ConnOk(s, s.inner.value);
    }
    forall i | 0 <= i < |t.attempts|
      ensures AttemptOk(t, i)
    {
      assert AttemptOk(s, i);
    }
    forall k | 0 <= k < |t.conns|
      ensures ConnOk(t, k)
    {
      assert ConnOk(s, k);
    }
    forall k, id | 0 <= k < |t.conns| && id in t.conns[k].pending
      ensures EntryOk(t, k, id)
    {
      assert EntryOk(s, k, id);
    }
    forall m | m in t.calls
      ensures CallOk(t, m)
    {
      assert CallOk(s, m);
    }
  }

  lemma AttemptKeptByEnd<V>(s: State<V>, n: nat, step: Step<V>, i: nat)
    requires Inv(s) && Enabled(s, n, step) && EndStep(step) && i < |Apply(s, n, step).attempts|
    ensures AttemptOk(Apply(s, n, step), i)
  {
    hide Decode, After;
    assert AttemptOk(s, i);
    assert CallOk(s, n);
  }

  lemma AttemptKeptByRegister<V>(s: State<V>, n: nat, i: nat)
    requires Inv(s) && Enabled(s, n, Register) && i < |Apply(s, n, Register).attempts|
    ensures AttemptOk(Apply(s, n, Register), i)
  {
    hide Decode, After;
    if i < |s.attempts| {
      assert AttemptOk(s, i);
    }
    assert CallOk(s, n);
    assert ConnOk(s, s.inner.value);
  }

  lemma AttemptKeptByCall<V>(s: State<V>, n: nat, step: Step<V>, i: nat)
    requires Inv(s) && Enabled(s, n, step) && !ReaderStep(step) && !EndStep(step) && !step.Register?
    requires i < |Apply(s, n, step).attempts|
    ensures AttemptOk(Apply(s, n, step), i)
  {
    hide Decode, After;
    assert AttemptOk(s, i);
    if n in s.calls {
      assert CallOk(s, n);
    }
    if s.inner.Some? {
      assert ConnOk(s, s.inner.value);
    }
  }

  lemma ConnKeptByCall<V>(s: State<V>, n: nat, step: Step<V>, k: nat)
    requires Inv(s) && Enabled(s, n, step) && !ReaderStep(step) && k < |Apply(s, n, step).conns|
    ensures ConnOk(Apply(s, n, step), k)
  {
    hide Decode, Told, After;
    if k < |s.conns| {
      assert ConnOk(s, k);
    }
    if n in s.calls {
      assert CallOk(s, n);
    }
  }

  lemma EntryKeptByCall<V>(s: State<V>, n: nat, step: Step<V>, k: nat, id: nat)
    requires Inv(s) && Enabled(s, n, step) && !ReaderStep(step)
    requires k < |Apply(s, n, step).conns| && id in Apply(s, n, step).conns[k].pending
    ensures EntryOk(Apply(s, n, step), k, id)
  {
    hide Decode, Told, After;
    if k < |s.conns| && id in s.conns[k].pending {
      assert EntryOk(s, k, id);
    }
  }

  lemma CallKeptByCall<V>(s: State<V>, n: nat, step: Step<V>, m: nat)
    requires Inv(s) && Enabled(s, n, step) && !ReaderStep(step) && m in Apply(s, n, step).calls && m != n
    ensures CallOk(Apply(s, n, step), m)
  {
    hide Ahead, Decode, Told, After;
    assert CallOk(s, m);
    if n in s.calls {
      assert CallOk(s, n);
    }
    if s.inner.Some? {
      assert ConnOk(s, s.inner.value);
    }
  }

  lemma CallKeptBySelf<V>(s: State<V>, n: nat, step: Step<V>)
    requires Inv(s) && Enabled(s, n, step) && !ReaderStep(step)
    ensures n in Apply(s, n, step).calls && CallOk(Apply(s, n, step), n)
  {
    hide Decode, Told;
    if n in s.calls {
      assert CallOk(s, n);
    }
  }

  lemma InvStep<V>(s: State<V>, n: nat, step: Step<V>)
    requires Inv(s) && Enabled(s, n, step)
    ensures Inv(Apply(s, n, step))
  {
    match step
    case Receive(frame) => InvReceive(s, n, frame);
    case Drain => InvDrain(s, n);
    case Exit => InvExit(s, n);
    case _ => InvCallStep(s, n, step);
  }

  lemma InvCallStep<V>(s: State<V>, n: nat, step: Step<V>)
    requires Inv(s) && Enabled(s, n, step) && !ReaderStep(step)
    ensures Inv(Apply(s, n, step))
  {
    hide AttemptOk, ConnOk, EntryOk, CallOk, Decode, Told, After;
    var t := Apply(s, n, step);
    forall i | 0 <= i < |t.attempts|
      ensures AttemptOk(t, i)
    {
      if EndStep(step) {
        AttemptKeptByEnd(s, n, step, i);
      } else if step.Register? {
        AttemptKeptByRegister(s, n, i);
      } else {
        AttemptKeptByCall(s, n, step, i);
      }
    }
    forall k | 0 <= k < |t.conns|
      ensures ConnOk(t, k)
    {
      ConnKeptByCall(s, n, step, k);
    }
    forall k, id | 0 <= k < |t.conns| && id in t.conns[k].pending
      ensures EntryOk(t, k, id)
    {
      EntryKeptByCall(s, n, step, k, id);
    }
    forall m | m in t.calls
      ensures CallOk(t, m)
    {
      if m == n {
        CallKeptBySelf(s, n, step);
      } else {
        CallKeptByCall(s, n, step, m);
      }
    }
    OwnersKept(s, n, step);
  }

  lemma OwnersKept<V>(s: State<V>, n: nat, step: Step<V>)
    requires Inv(s) && Enabled(s, n, step) && !ReaderStep(step)
    ensures var t := Apply(s, n, step);
            && (t.inner.Some? ==> t.inner.value < |t.conns|)
            && (t.innerOwner.Some? ==> t.innerOwner.value in t.calls)
            && |s.conns| <= |t.conns| && s.calls.Keys <= t.calls.Keys
  {
    hide Decode, Told, After;
  }

  /** What a step leaves of an attempt: where it was made, and any reply or end it already has. */
  lemma AttemptStays<V>(s: State<V>, n: nat, step: Step<V>, i: nat)
    requires Inv(s) && Enabled(s, n, step) && i < |s.attempts|
    ensures var t := Apply(s, n, step);
            && i < |t.attempts|
            && var a, b := s.attempts[i], t.attempts[i];
            && b.call == a.call && b.purpose == a.purpose && b.conn == a.conn && b.id == a.id
            && (a.reply.Some? ==> b.reply == a.reply)
            && (a.ended.Some? ==> b.ended == a.ended)
  {
    hide Decode, Told, After;
    if step.Receive? && step.frame.id in s.conns[n].pending {
      assert EntryOk(s, n, step.frame.id);
    }
    if step.Drain? && s.attempts[i].conn == n && s.attempts[i].id in s.conns[n].pending {
      assert EntryOk(s, n, s.attempts[i].id);
    }
    if n in s.calls {
      assert CallOk(s, n);
    }
  }

  /** Later attempts on a connection carry larger ids. */
  ghost predicate Ordered<V>(s: State<V>) {
    forall i, j :: 0 <= i < j < |s.attempts| && s.attempts[i].conn == s.attempts[j].conn ==>
      s.attempts[i].id < s.attempts[j].id
  }

  lemma OnlyRegisterAdds<V>(s: State<V>, n: nat, step: Step<V>)
    requires Inv(s) && Enabled(s, n, step)
    ensures var t := Apply(s, n, step);
            if step.Register? then
              && |t.attempts| == |s.attempts| + 1
              && t.attempts[|s.attempts|].conn == s.inner.value
              && t.attempts[|s.attempts|].id == s.conns[s.inner.value].counter + 1
            else |t.attempts| == |s.attempts|
  {
    hide Decode, Told, After;
  }

  lemma OrderedStep<V>(s: State<V>, n: nat, step: Step<V>)
    requires Inv(s) && Ordered(s) && Enabled(s, n, step)
    ensures Ordered(Apply(s, n, step))
  {
    hide Apply, Enabled;
    var t := Apply(s, n, step);
    OnlyRegisterAdds(s, n, step);
    forall i, j | 0 <= i < j < |t.attempts| && t.attempts[i].conn == t.attempts[j].conn
      ensures t.attempts[i].id < t.attempts[j].id
    {
      AttemptStays(s, n, step, i);
      assert AttemptOk(s, i);
      if j < |s.attempts| {
        AttemptStays(s, n, step, j);
      }
    }
  }

  // ---- Runs ----

  datatype Move<+V> = Move(n: nat, step: Step<V>)

  ghost predicate Runs<V>(s: State<V>, moves: seq<Move<V>>)
    decreases |moves|
  {
    moves == [] || (Enabled(s, moves[0].n, moves[0].step) && Runs(Apply(s, moves[0].n, moves[0].step), moves[1..]))
  }

  ghost function Final<V>(s: State<V>, moves: seq<Move<V>>): (t: State<V>)
    requires Runs(s, moves)
    decreases |moves|
  {
    if moves == [] then s else Final(Apply(s, moves[0].n, moves[0].step), moves[1..])
  }

  lemma {:induction false} InvRun<V>(s: State<V>, moves: seq<Move<V>>)
    requires Inv(s) && Ordered(s) && Runs(s, moves)
    ensures Inv(Final(s, moves)) && Ordered(Final(s, moves))
    decreases |moves|
  {
    hide Inv, Ordered, Enabled, Apply;
    if moves != [] {
      OrderedStep(s, moves[0].n, moves[0].step);
      InvStep(s, moves[0].n, moves[0].step);
      InvRun(Apply(s, moves[0].n, moves[0].step), moves[1..]);
    }
  }

  /** A state that some interleaving of calls, readers, timeouts and reconnects leads to. */
  ghost predicate Reachable<V(!new)>(s: State<V>) {
    exists moves: seq<Move<V>> :: Runs(Start(s.token, s.unit, s.accepts), moves) && Final(Start(s.token, s.unit, s.accepts), moves) == s
  }

  lemma InvReachable<V(!new)>(s: State<V>)
    requires Reachable(s)
    ensures Inv(s) && Ordered(s)
  {
    hide Decode, Told, After, Apply, Enabled;
    var moves: seq<Move<V>> :| Runs(Start(s.token, s.unit, s.accepts), moves) && Final(Start(s.token, s.unit, s.accepts), moves) == s;
    assert Inv(Start(s.token, s.unit, s.accepts));
    InvRun(Start(s.token, s.unit, s.accepts), moves);
  }

  // ---- What follows for every interleaving ----

  /** A value, or an error of the remote side, that an attempt ended with was decoded from a frame
      that the reader of the attempt's own connection read and that carries the attempt's id. */
  lemma ValueIsOwn<V(!new)>(s: State<V>, i: nat)
    requires Reachable(s) && i < |s.attempts| && s.attempts[i].ended.Some?
    requires var o := s.attempts[i].ended.value; o.Success? || o.failure.Remote?
    ensures var a := s.attempts[i];
            && a.conn < |s.conns|
            && exists n :: 0 <= n < |s.conns[a.conn].frames|
                 && s.conns[a.conn].frames[n].id == a.id
                 && a.ended.value == Decode(s.conns[a.conn].frames[n].body)
  {
    InvReachable(s);
    hide Reachable;
    assert AttemptOk(s, i);
  }

  /** Two attempts on one connection never carry the same id, although ids repeat across
      connections; so an entry of a pending map is never overwritten. */
  lemma IdsDiffer<V(!new)>(s: State<V>, i: nat, j: nat)
    requires Reachable(s) && i < j < |s.attempts| && s.attempts[i].conn == s.attempts[j].conn
    ensures s.attempts[i].id != s.attempts[j].id
  {
    InvReachable(s);
  }

  /** An attempt receives at most one reply and ends at most once, along any run. */
  lemma {:induction false} EndsOnce<V>(s: State<V>, moves: seq<Move<V>>, i: nat)
    requires Inv(s) && Runs(s, moves) && i < |s.attempts|
    ensures i < |Final(s, moves).attempts|
    ensures s.attempts[i].reply.Some? ==> Final(s, moves).attempts[i].reply == s.attempts[i].reply
    ensures s.attempts[i].ended.Some? ==> Final(s, moves).attempts[i].ended == s.attempts[i].ended
    decreases |moves|
  {
    hide Inv, Enabled, Apply;
    if moves != [] {
      AttemptStays(s, moves[0].n, moves[0].step, i);
      InvStep(s, moves[0].n, moves[0].step);
      EndsOnce(Apply(s, moves[0].n, moves[0].step), moves[1..], i);
    }
  }

  /** A call makes at most one attempt of each kind: the request is sent at most twice, with at
      most one login in between. */
  lemma AtMostTwoAttempts<V(!new)>(s: State<V>, i: nat, j: nat)
    requires Reachable(s) && i < |s.attempts| && j < |s.attempts| && i != j
    requires s.attempts[i].call == s.attempts[j].call
    ensures s.attempts[i].purpose != s.attempts[j].purpose
  {
    InvReachable(s);
    hide Reachable;
    assert AttemptOk(s, i);
    assert AttemptOk(s, j);
  }

  // ---- Attempts whose reader is gone ----

  /** Nothing can be told to the attempt: no reply has come, and the sender of its channel is still
      held in the pending map of a connection that somebody owns. */
  predicate Unanswered<V>(s: State<V>, i: nat) {
    i < |s.attempts| && s.attempts[i].conn < |s.conns| && Told(s, i).None?
  }

  ghost predicate ReaderGone<V>(s: State<V>, i: nat) {
    i < |s.attempts| && s.attempts[i].conn < |s.conns| && s.conns[s.attempts[i].conn].reader.Exited?
  }

  /** Once the reader of its connection is gone, an attempt is left unanswered exactly when that
      reader was gone before the connection reached the shared slot and the connection is still
      there. */
  lemma UnansweredExactly<V(!new)>(s: State<V>, i: nat)
    requires Reachable(s) && ReaderGone(s, i)
    ensures var k := s.attempts[i].conn;
            Unanswered(s, i) <==> s.conns[k].deadOnArrival && s.inner == Some(k)
  {
    InvReachable(s);
    hide Reachable;
    assert AttemptOk(s, i);
    assert ConnOk(s, s.attempts[i].conn);
  }

  /** What a step leaves of a connection that has reached the shared slot. */
  lemma ConnStays<V>(s: State<V>, n: nat, step: Step<V>, k: nat)
    requires Inv(s) && Enabled(s, n, step) && k < |s.conns| && !s.conns[k].place.NotYet?
    ensures var t := Apply(s, n, step);
            && k < |t.conns| && !t.conns[k].place.NotYet?
            && t.conns[k].deadOnArrival == s.conns[k].deadOnArrival
  {
    hide Decode, Told, After;
    assert ConnOk(s, k);
    if n in s.calls {
      assert CallOk(s, n);
    }
  }

  /** Along any run an attempt stays on its connection, which stays dead on arrival or not. */
  lemma {:induction false} DeadStays<V>(s: State<V>, moves: seq<Move<V>>, i: nat)
    requires Inv(s) && Ordered(s) && Runs(s, moves) && i < |s.attempts|
    ensures Inv(Final(s, moves))
    ensures var t, k := Final(s, moves), s.attempts[i].conn;
            && i < |t.attempts| && t.attempts[i].conn == k && k < |s.conns| && k < |t.conns|
            && t.conns[k].deadOnArrival == s.conns[k].deadOnArrival
    decreases |moves|
  {
    assert AttemptOk(s, i);
    hide Inv, Ordered, Enabled, Apply;
    if moves != [] {
      var n, step := moves[0].n, moves[0].step;
      AttemptStays(s, n, step, i);
      ConnStays(s, n, step, s.attempts[i].conn);
      OrderedStep(s, n, step);
      InvStep(s, n, step);
      DeadStays(Apply(s, n, step), moves[1..], i);
    }
  }

  /** Along every run, an attempt on a connection that was dead on arrival never gets a reply. It
      can end only because sending failed, by its timeout, or because the connection was replaced in
      or cleared from the shared slot. */
  lemma DeadNeverAnswered<V(!new)>(s: State<V>, moves: seq<Move<V>>, i: nat)
    requires Reachable(s) && Runs(s, moves)
    requires i < |s.attempts| && s.attempts[i].conn < |s.conns| && s.conns[s.attempts[i].conn].deadOnArrival
    ensures i < |Final(s, moves).attempts|
    ensures var a := Final(s, moves).attempts[i];
            && a.reply.None?
            && (a.ended.Some? ==>
                  || a.ended.value == Failed(SendFailed)
                  || a.ended.value == Failed(TimedOut)
                  || (a.ended.value == Failed(ChannelClosed) && Final(s, moves).inner != Some(a.conn)))
  {
    InvReachable(s);
    DeadStays(s, moves, i);
    hide Reachable, Runs, Final;
    var t := Final(s, moves);
    assert AttemptOk(t, i);
    assert ConnOk(t, t.attempts[i].conn);
  }

  /** Some run from `s` leaves the attempt unanswered with its reader gone. */
  ghost predicate CanStrand<V(!new)>(s: State<V>, i: nat) {
    exists moves: seq<Move<V>> :: StrandedBy(s, moves, i)
  }

  ghost predicate StrandedBy<V>(s: State<V>, moves: seq<Move<V>>, i: nat) {
    Runs(s, moves) && ReaderGone(Final(s, moves), i) && Unanswered(Final(s, moves), i)
  }

  /** Whether an attempt can ever be left unanswered by a reader that is gone is settled when it is
      made: it can exactly when the reader of the connection it finds in the shared slot is gone
      already. If that reader still runs, its exit answers the attempt in every run. */
  lemma StrandsExactly<V(!new)>(s: State<V>, n: nat)
    requires Reachable(s) && Enabled(s, n, Register)
    ensures CanStrand(Apply(s, n, Register), |s.attempts|) <==> s.conns[s.inner.value].reader.Exited?
  {
    InvReachable(s);
    var t, i, k := Apply(s, n, Register), |s.attempts|, s.inner.value;
    assert ConnOk(s, k);
    assert t.attempts[i].conn == k && t.attempts[i].reply.None? && t.conns[k].place == s.conns[k].place;
    assert t.conns[k].reader == s.conns[k].reader && t.conns[k].deadOnArrival == s.conns[k].deadOnArrival;
    InvStep(s, n, Register);
    OrderedStep(s, n, Register);
    hide Reachable, Enabled, Apply, Inv, Ordered;
    if s.conns[k].reader.Exited? {
      assert Runs(t, []) && Final(t, []) == t;
      assert StrandedBy(t, [], i);
    }
    if CanStrand(t, i) {
      var moves: seq<Move<V>> :| StrandedBy(t, moves, i);
      DeadStays(t, moves, i);
      GoneUnanswered(Final(t, moves), i);
    }
  }

  lemma GoneUnanswered<V>(s: State<V>, i: nat)
    requires Inv(s) && ReaderGone(s, i) && Unanswered(s, i)
    ensures s.conns[s.attempts[i].conn].deadOnArrival
  {
    assert AttemptOk(s, i);
    assert ConnOk(s, s.attempts[i].conn);
  }

  /** An attempt that is left unanswered stays so until another connection is put into the shared
      slot or another reader clears it; then it is told that its channel was closed. */
  lemma UnansweredUntilReplaced<V(!new)>(s: State<V>, i: nat, n: nat, step: Step<V>)
    requires Reachable(s) && ReaderGone(s, i) && Unanswered(s, i) && Enabled(s, n, step)
    ensures var t := Apply(s, n, step);
            && ReaderGone(t, i)
            && (Unanswered(t, i) <==> !step.Put? && !step.Exit?)
            && (!Unanswered(t, i) ==> Told(t, i) == Some(Failed(ChannelClosed)))
  {
    UnansweredExactly(s, i);
    InvReachable(s);
    var t, k := Apply(s, n, step), s.attempts[i].conn;
    AttemptStays(s, n, step, i);
    InvStep(s, n, step);
    assert AttemptOk(s, i);
    ConnStays(s, n, step, k);
    SlotChanges(s, n, step, k);
    hide Reachable, Enabled, Apply;
    assert AttemptOk(t, i);
    assert ConnOk(t, k);
  }

  /** Only these steps take a connection out of the shared slot. */
  lemma SlotChanges<V>(s: State<V>, n: nat, step: Step<V>, k: nat)
    requires Inv(s) && Enabled(s, n, step) && s.inner == Some(k)
    ensures Apply(s, n, step).inner == Some(k) <==> !step.Put? && !step.Exit?
  {
    hide Decode, Told, After;
    assert ConnOk(s, k);
    if n in s.calls {
      assert CallOk(s, n);
    }
  }

  // ---- A run that strands a request ----

  function Zero(v: int): (r: bool) { v == 0 }

  /** A client without a token, with what else there is by then. */
  function Stage(inner: Option<nat>, owner: Option<nat>, conns: seq<Conn<int>>, attempts: seq<Attempt<int>>,
                 calls: map<nat, Call<int>>): (s: State<int>)
  {
    State(false, 0, Zero, inner, owner, conns, attempts, calls)
  }

  function Opened(reader: Reader, place: Place, dead: bool): (c: Conn<int>) {
    Conn(map[], 0, [], reader, place, 0, dead)
  }

  /** Call 0 connects the client. */
  function Connecting(pc: CallPc<int>): (calls: map<nat, Call<int>>) {
    map[0 := Call(true, pc, map[])]
  }

  /** Then call 1 is a request. */
  function Requesting(pc: CallPc<int>, made: map<Purpose, nat>): (calls: map<nat, Call<int>>) {
    Connecting(Done(Success(0)))[1 := Call(false, pc, made)]
  }

  // The states that lead there: the client dials a connection, whose reader loses it at once; the
  // dead connection is put into the slot, so connecting succeeds, and a request is sent on it.
  const STRAND1 := Stage(None, None, [], [], Connecting(Dial))
  const STRAND2 := Stage(None, None, [Opened(Reading, NotYet, false)], [], Connecting(Install(0)))
  const STRAND3 := Stage(None, None, [Opened(Drained, NotYet, false)], [], Connecting(Install(0)))
  const STRAND4 := Stage(None, None, [Opened(Exited, NotYet, true)], [], Connecting(Install(0)))
  const STRAND5 := Stage(Some(0), None, [Opened(Exited, Current, true)], [], Connecting(Done(Success(0))))
  const STRAND6 := Stage(Some(0), None, [Opened(Exited, Current, true)], [], Requesting(Try(First), map[]))
  const STRAND7 := Stage(
    Some(0), Some(1), [Conn(map[1 := 0], 1, [], Exited, Current, 0, true)],
    [Attempt(1, First, 0, 1, None, None)], Requesting(Sending(First, 0), map[First := 0]))

  /** The state in which the request waits for a reply that nobody will send. */
  const STRANDED := Stage(
    Some(0), None, [Conn(map[1 := 0], 1, [], Exited, Current, 0, true)],
    [Attempt(1, First, 0, 1, None, None)], Requesting(Awaiting(First, 0), map[First := 0]))

  lemma StrandDials()
    ensures Enabled(Start(false, 0, Zero), 0, Begin(true)) && Apply(Start(false, 0, Zero), 0, Begin(true)) == STRAND1
    ensures Enabled(STRAND1, 0, DialOk) && Apply(STRAND1, 0, DialOk) == STRAND2
  {
  }

  lemma StrandCloses()
    ensures Enabled(STRAND2, 0, Drain) && Apply(STRAND2, 0, Drain) == STRAND3
    ensures Enabled(STRAND3, 0, Exit) && Apply(STRAND3, 0, Exit) == STRAND4
    ensures Enabled(STRAND4, 0, Put) && Apply(STRAND4, 0, Put) == STRAND5
  {
  }

  lemma StrandSends()
    ensures Enabled(STRAND5, 1, Begin(false)) && Apply(STRAND5, 1, Begin(false)) == STRAND6
    ensures Enabled(STRAND6, 1, Register) && Apply(STRAND6, 1, Register) == STRAND7
    ensures Enabled(STRAND7, 1, SendOk) && Apply(STRAND7, 1, SendOk) == STRANDED
  {
  }

  /** That can happen: a reader that loses its connection before the connection reaches the shared
      slot leaves a dead connection there, and a request that the socket still takes is left
      unanswered on a client that was connected successfully. */
  lemma DeadOnArrivalStrands()
    ensures Reachable(STRANDED) && ReaderGone(STRANDED, 0) && Unanswered(STRANDED, 0)
    ensures STRANDED.calls[0].pc == Done(Success(0)) && STRANDED.calls[1].pc == Awaiting(First, 0)
  {
    hide Apply, Enabled;
    StrandDials();
    StrandCloses();
    StrandSends();
    var m: seq<Move<int>> := [];
    RunsCons(STRAND7, 1, SendOk, m);
    m := [Move(1, SendOk)] + m;
    RunsCons(STRAND6, 1, Register, m);
    m := [Move(1, Register)] + m;
    RunsCons(STRAND5, 1, Begin(false), m);
    m := [Move(1, Begin(false))] + m;
    RunsCons(STRAND4, 0, Put, m);
    m := [Move(0, Put)] + m;
    RunsCons(STRAND3, 0, Exit, m);
    m := [Move(0, Exit)] + m;
    RunsCons(STRAND2, 0, Drain, m);
    m := [Move(0, Drain)] + m;
    RunsCons(STRAND1, 0, DialOk, m);
    m := [Move(0, DialOk)] + m;
    RunsCons(Start(false, 0, Zero), 0, Begin(true), m);
    m := [Move(0, Begin(true))] + m;
    assert Final(Start(STRANDED.token, STRANDED.unit, STRANDED.accepts), m) == STRANDED;
  }

  lemma RunsCons<V>(s: State<V>, n: nat, step: Step<V>, moves: seq<Move<V>>)
    requires Enabled(s, n, step) && Runs(Apply(s, n, step), moves)
    ensures Runs(s, [Move(n, step)] + moves)
    ensures Final(s, [Move(n, step)] + moves) == Final(Apply(s, n, step), moves)
  {
    hide Enabled, Apply;
    assert ([Move(n, step)] + moves)[1..] == moves;
  }
}
