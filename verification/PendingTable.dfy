/** The rendezvous that `TrustHandler::handleRequestConfirmation` and
    `SkillHandler::sendAndWait` share: a worker thread publishes pointers to its own stack in a
    table, waits on a condition, and takes the entry out again, while other threads write through
    the pointers or clear the whole table.

    Threads are interleaved between lock operations. A region under one mutex in which no second
    mutex is taken is one step; a writer that holds the table mutex takes the mutexes of the entries
    one at a time, and a worker holds its own mutex while it decides whether to wait. A waiting worker
    can wake at any time: by the signal, by the timeout or spuriously. */
module PendingTable {
  import opened Options
  import opened Sequences

  /** The identity of one running call, worker or writer. */
  type Actor = nat

  /** Where a worker stands. It holds its own mutex while Checking. */
  datatype Pc = Ticketed | Inserted | Checking | Waiting | Leaving | Removed | Returned

  /** A write through the pointers of an entry, kept as history. */
  datatype Write<+V> = Write(who: Actor, value: V, stop: bool)

  /** A worker call: `slot` is the result with its `done` flag, `owner` who holds its mutex,
      `outcome` what it returned (None for a timeout). `writes` and `stopped` record what
      happened to it. */
  datatype Worker<+V> = Worker(
    pc: Pc, ticket: nat, slot: Option<V>, owner: Option<Actor>, signalled: bool,
    writes: seq<Write<V>>, stopped: bool, outcome: Option<V>)

  /** Where a writer stands: holding nothing, the table, the table and one slot, or finished. */
  datatype WriterPc = Idle | Table | Both(id: int, target: Actor) | Finished

  /** A call resolving one id, or stopping everything in the table with `todo` still to visit. */
  datatype Job<+V> = Resolve(id: int, value: V) | Stop

  datatype Writer<+V> = Writer(pc: WriterPc, job: Job<V>, todo: set<int>)

  datatype State<+V> = State(
    stopValue: V, next: nat, pending: map<int, Actor>, tableOwner: Option<Actor>,
    workers: map<Actor, Worker<V>>, writers: map<Actor, Writer<V>>)

  datatype Step<+V> =
    | Begin
    | Insert
    | LockOwn
    | Check
    | Wake
    | Remove
    | Return
    | BeginWrite(job: Job<V>)
    | LockTable
    | Miss
    | LockSlot(id: int)
    | WriteSlot
    | Clear

  /** The id made from a ticket: the 32-bit counter wraps around. */
  function Id(ticket: nat): (id: int) {
    (ticket + 0x8000_0000) % 0x1_0000_0000 - 0x8000_0000
  }

  // ---- Steps of actor `a` ----

  predicate WorkerAt(s: State, a: Actor, pc: Pc) {
    a in s.workers && s.workers[a].pc == pc
  }

  predicate WriterAt(s: State, a: Actor, pc: WriterPc) {
    a in s.writers && s.writers[a].pc == pc
  }

  predicate Unused(s: State, a: Actor) {
    a !in s.workers && a !in s.writers
  }

  /** The worker's entry is in the table. */
  predicate Listed(s: State, b: Actor)
    requires b in s.workers
  {
    var id := Id(s.workers[b].ticket);
    id in s.pending && s.pending[id] == b
  }

  predicate Enabled(s: State, a: Actor, step: Step) {
    match step
    case Begin => Unused(s, a)
    case Insert => WorkerAt(s, a, Ticketed) && s.tableOwner.None?
    case LockOwn => WorkerAt(s, a, Inserted) && s.workers[a].owner.None?
    case Check => WorkerAt(s, a, Checking)
    case Wake => WorkerAt(s, a, Waiting) && s.workers[a].owner.None?
    case Remove => WorkerAt(s, a, Leaving) && s.tableOwner.None?
    case Return => WorkerAt(s, a, Removed)
    case BeginWrite(job) => Unused(s, a)
    case LockTable => WriterAt(s, a, Idle) && s.tableOwner.None?
    case Miss => WriterAt(s, a, Table) && s.writers[a].job.Resolve? && s.writers[a].job.id !in s.pending
    case LockSlot(id) =>
      && WriterAt(s, a, Table)
      && (if s.writers[a].job.Resolve? then id == s.writers[a].job.id else id in s.writers[a].todo)
      && id in s.pending && s.pending[id] in s.workers && s.workers[s.pending[id]].owner.None?
    case WriteSlot => a in s.writers && s.writers[a].pc.Both? && s.writers[a].pc.target in s.workers
    case Clear => WriterAt(s, a, Table) && s.writers[a].job.Stop? && s.writers[a].todo == {}
  }

  function SetWorker<V>(s: State<V>, a: Actor, w: Worker<V>): (r: State<V>) {
    s.(workers := s.workers[a := w])
  }

  function SetWriter<V>(s: State<V>, a: Actor, w: Writer<V>): (r: State<V>) {
    s.(writers := s.writers[a := w])
  }

  /** What a writer stores: the resolved value, or the value for a stop. */
  function ValueOf<V>(s: State<V>, job: Job<V>): (v: V) {
    if job.Resolve? then job.value else s.stopValue
  }

  /** Result, flag and wake-up, written under both mutexes. */
  function Written<V>(w: Worker<V>, who: Actor, value: V, stop: bool): (r: Worker<V>) {
    w.(slot := Some(value), signalled := w.signalled || w.pc == Waiting, owner := None,
       writes := w.writes + [Write(who, value, stop)])
  }

  function Apply<V>(s: State<V>, a: Actor, step: Step<V>): (r: State<V>)
    requires Enabled(s, a, step)
  {
    match step
    case Begin =>
      SetWorker(s, a, Worker(Ticketed, s.next, None, None, false, [], false, None)).(next := s.next + 1)
    case Insert =>
      SetWorker(s, a, s.workers[a].(pc := Inserted)).(pending := s.pending[Id(s.workers[a].ticket) := a])
    case LockOwn =>
      SetWorker(s, a, s.workers[a].(pc := Checking, owner := Some(a)))
    case Check =>
      SetWorker(s, a, s.workers[a].(pc := if s.workers[a].slot.Some? then Leaving else Waiting, owner := None))
    case Wake =>
      SetWorker(s, a, s.workers[a].(pc := Leaving))
    case Remove =>
      SetWorker(s, a, s.workers[a].(pc := Removed)).(pending := s.pending - {Id(s.workers[a].ticket)})
    case Return =>
      SetWorker(s, a, s.workers[a].(pc := Returned, outcome := s.workers[a].slot))
    case BeginWrite(job) =>
      SetWriter(s, a, Writer(Idle, job, {}))
    case LockTable =>
      SetWriter(s, a, s.writers[a].(pc := Table, todo := s.pending.Keys)).(tableOwner := Some(a))
    case Miss =>
      SetWriter(s, a, s.writers[a].(pc := Finished)).(tableOwner := None)
    case LockSlot(id) =>
      var b := s.pending[id];
      SetWriter(SetWorker(s, b, s.workers[b].(owner := Some(a))), a, s.writers[a].(pc := Both(id, b)))
    case WriteSlot =>
      var Both(id, b) := s.writers[a].pc;
      var job := s.writers[a].job;
      var t := SetWorker(s, b, Written(s.workers[b], a, ValueOf(s, job), job.Stop?));
      if job.Stop? then SetWriter(t, a, Writer(Table, job, s.writers[a].todo - {id}))
      else SetWriter(t, a, Writer(Finished, job, s.writers[a].todo)).(tableOwner := None)
    case Clear =>
      SetWriter(s, a, s.writers[a].(pc := Finished))
        .(pending := map[], tableOwner := None,
          workers := map b | b in s.workers ::
            s.workers[b].(stopped := s.workers[b].stopped || Listed(s, b)))
  }

  // ---- What every step keeps ----

  predicate InTable(pc: Pc) {
    pc.Inserted? || pc.Checking? || pc.Waiting? || pc.Leaving?
  }

  /** The last thing that happened to the slot was a stop. */
  ghost predicate StoppedLast<V>(s: State<V>, w: Worker<V>) {
    w.writes != [] && w.writes[|w.writes| - 1].stop && w.slot == Some(s.stopValue)
  }

  /** A write in a worker's history came from a stop, or from a resolver for the worker's id. */
  ghost predicate Authentic<V>(s: State<V>, w: Worker<V>, write: Write<V>) {
    && write.who in s.writers
    && var job := s.writers[write.who].job;
    && write.value == ValueOf(s, job)
    && (write.stop <==> job.Stop?)
    && (job.Resolve? ==> job.id == Id(w.ticket))
  }

  /** What holds of every worker call. Its mutex is held by itself while it checks, or by the
      writer that targets it. The slot holds the last write; a waiter whose slot is filled has been
      signalled; what the call returned is what its slot holds. A stopped worker is out of the
      table for good and keeps the stop as its last write. */
  ghost predicate WorkerOk<V>(s: State<V>, a: Actor)
    requires a in s.workers
  {
    var w := s.workers[a];
    && a !in s.writers
    && w.ticket < s.next
    && (w.owner == Some(a) <==> w.pc.Checking?)
    && (w.owner.Some? && w.owner.value != a ==>
          w.owner.value in s.writers && s.writers[w.owner.value].pc == Both(Id(w.ticket), a))
    && w.slot == (if w.writes == [] then None else Some(w.writes[|w.writes| - 1].value))
    && (w.pc.Ticketed? ==> w.writes == [] && !w.stopped && w.owner.None?)
    && (w.pc.Waiting? && w.slot.Some? ==> w.signalled)
    && (w.pc.Returned? ==> w.outcome == w.slot)
    && (w.stopped ==> StoppedLast(s, w) && !Listed(s, a))
  }

  /** Every write to a worker's slot came from a writer entitled to it. */
  ghost predicate HistoryOk<V>(s: State<V>, a: Actor)
    requires a in s.workers
  {
    forall i :: 0 <= i < |s.workers[a].writes| ==> Authentic(s, s.workers[a], s.workers[a].writes[i])
  }

  /** What holds of every writer. It owns the table mutex exactly between its lock and unlock; it
      holds the mutex of the entry it is about to write; a stop in progress has already overwritten
      every entry it has visited. */
  ghost predicate WriterOk<V>(s: State<V>, r: Actor)
    requires r in s.writers
  {
    var w := s.writers[r];
    && r !in s.workers
    && (s.tableOwner == Some(r) <==> w.pc.Table? || w.pc.Both?)
    && (w.pc.Both? ==>
          && w.pc.target in s.workers && s.workers[w.pc.target].owner == Some(r)
          && w.pc.id in s.pending && s.pending[w.pc.id] == w.pc.target
          && (if w.job.Resolve? then w.pc.id == w.job.id else w.pc.id in w.todo))
    && (w.job.Stop? && (w.pc.Table? || w.pc.Both?) ==>
          && w.todo <= s.pending.Keys
          && forall id :: id in s.pending && id !in w.todo ==>
            s.pending[id] in s.workers && StoppedLast(s, s.workers[s.pending[id]]))
  }

  /** A table entry points into a worker call that has not returned, and carries its id. */
  ghost predicate EntryOk(s: State, id: int)
    requires id in s.pending
  {
    && s.pending[id] in s.workers
    && Id(s.workers[s.pending[id]].ticket) == id
    && InTable(s.workers[s.pending[id]].pc)
  }

  ghost predicate TicketsDiffer(s: State, a: Actor, b: Actor) {
    a in s.workers && b in s.workers && a != b ==> s.workers[a].ticket != s.workers[b].ticket
  }

  ghost predicate Inv<V>(s: State<V>) {
    && (s.tableOwner.Some? ==> s.tableOwner.value in s.writers)
    && (forall a {:trigger WorkerOk(s, a)} :: a in s.workers ==> WorkerOk(s, a))
    && (forall a {:trigger HistoryOk(s, a)} :: a in s.workers ==> HistoryOk(s, a))
    && (forall a {:trigger ListedOk(s, a)} :: a in s.workers ==> ListedOk(s, a))
    && (forall r {:trigger WriterOk(s, r)} :: r in s.writers ==> WriterOk(s, r))
    && (forall id {:trigger EntryOk(s, id)} :: id in s.pending ==> EntryOk(s, id))
    && (forall a, b {:trigger TicketsDiffer(s, a, b)} :: TicketsDiffer(s, a, b))
  }

  /** Until the ticket counter has wrapped around, a call between insertion and removal that was
      not stopped is in the table. */
  ghost predicate ListedOk<V>(s: State<V>, a: Actor)
    requires a in s.workers
  {
    s.next <= 0x1_0000_0000 && InTable(s.workers[a].pc) && !s.workers[a].stopped ==> Listed(s, a)
  }

  function Start<V>(stopValue: V): (s: State<V>) {
    State(stopValue, 1, map[], None, map[], map[])
  }

  predicate WorkerStep(step: Step) {
    step.Begin? || step.Insert? || step.LockOwn? || step.Check? || step.Wake? || step.Remove? || step.Return?
  }

  predicate TableStep(step: Step) {
    step.Begin? || step.Insert? || step.Remove?
  }

  /** A worker's steps on the table, seen from any worker. */
  lemma WorkerKeptByInsertRemove<V>(s: State<V>, a: Actor, step: Step<V>, b: Actor)
    requires Inv(s) && Enabled(s, a, step) && TableStep(step)
    requires b in Apply(s, a, step).workers
    ensures WorkerOk(Apply(s, a, step), b)
  {
    hide Id;
    if b in s.workers {
      assert WorkerOk(s, b);
    }
  }

  /** A worker's steps on its own slot, seen from any worker. */
  lemma WorkerKeptByWorker<V>(s: State<V>, a: Actor, step: Step<V>, b: Actor)
    requires Inv(s) && Enabled(s, a, step) && WorkerStep(step) && !TableStep(step)
    requires b in Apply(s, a, step).workers
    ensures WorkerOk(Apply(s, a, step), b)
  {
    hide Id;
    assert WorkerOk(s, b);
  }

  /** A writer's steps on the table, seen from any worker. */
  lemma WorkerKeptByTable<V>(s: State<V>, a: Actor, step: Step<V>, b: Actor)
    requires Inv(s) && Enabled(s, a, step) && (step.BeginWrite? || step.LockTable? || step.Miss?)
    requires b in Apply(s, a, step).workers
    ensures WorkerOk(Apply(s, a, step), b)
  {
    hide Id;
    assert WorkerOk(s, b);
    if a in s.writers {
      assert WriterOk(s, a);
    }
  }

  lemma WorkerKeptByLockSlot<V>(s: State<V>, a: Actor, step: Step<V>, b: Actor)
    requires Inv(s) && Enabled(s, a, step) && step.LockSlot?
    requires b in Apply(s, a, step).workers
    ensures WorkerOk(Apply(s, a, step), b)
  {
    hide Id;
    assert WorkerOk(s, b);
    assert WriterOk(s, a);
    assert EntryOk(s, step.id);
  }

  lemma WorkerKeptByWriteSlot<V>(s: State<V>, a: Actor, step: Step<V>, b: Actor)
    requires Inv(s) && Enabled(s, a, step) && step.WriteSlot?
    requires b in Apply(s, a, step).workers
    ensures WorkerOk(Apply(s, a, step), b)
  {
    hide Id;
    assert WorkerOk(s, b);
    assert WriterOk(s, a);
    assert EntryOk(s, s.writers[a].pc.id);
  }

  lemma WorkerKeptByClear<V>(s: State<V>, a: Actor, step: Step<V>, b: Actor)
    requires Inv(s) && Enabled(s, a, step) && step.Clear?
    requires b in Apply(s, a, step).workers
    ensures WorkerOk(Apply(s, a, step), b)
  {
    hide Id;
    assert WorkerOk(s, b);
    assert WriterOk(s, a);
  }

  /** What a step does to a worker: its ticket stays, and its history grows only by a write of
      the writer that holds its mutex. */
  lemma Effect<V>(s: State<V>, a: Actor, step: Step<V>, b: Actor)
    requires Enabled(s, a, step) && b in s.workers
    ensures var t := Apply(s, a, step);
            && b in t.workers && t.workers[b].ticket == s.workers[b].ticket
            && (if step.WriteSlot? && s.writers[a].pc.target == b
                then t.workers[b] == Written(s.workers[b], a, ValueOf(s, s.writers[a].job), s.writers[a].job.Stop?)
                else t.workers[b].writes == s.workers[b].writes && t.workers[b].slot == s.workers[b].slot)
            && (s.workers[b].stopped ==> t.workers[b].stopped)
            && (s.workers[b].pc.Returned? ==> t.workers[b].pc.Returned?)
            && (s.workers[b].pc.Removed? ==> t.workers[b].pc.Removed? || t.workers[b].pc.Returned?)
  {
    hide Id;
  }

  /** What a step does to the writers: none is forgotten and none changes its job. */
  lemma JobsStay<V>(s: State<V>, a: Actor, step: Step<V>, r: Actor)
    requires Enabled(s, a, step) && r in s.writers
    ensures var t := Apply(s, a, step);
            r in t.writers && t.writers[r].job == s.writers[r].job && t.stopValue == s.stopValue
  {
    hide Id, Written;
  }

  lemma OnlyBegin<V>(s: State<V>, a: Actor, step: Step<V>, b: Actor)
    requires Enabled(s, a, step) && b !in s.workers && b in Apply(s, a, step).workers
    ensures b == a && step.Begin?
  {
    hide Id, Written;
  }

  lemma HistoryKept<V>(s: State<V>, a: Actor, step: Step<V>, b: Actor)
    requires Inv(s) && Enabled(s, a, step)
    requires b in Apply(s, a, step).workers
    ensures HistoryOk(Apply(s, a, step), b)
  {
    hide Id;
    var t := Apply(s, a, step);
    if b !in s.workers {
      OnlyBegin(s, a, step, b);
    } else {
      Effect(s, a, step, b);
      HistoryGrows(s, a, step, b, t);
    }
  }

  lemma HistoryGrows<V>(s: State<V>, a: Actor, step: Step<V>, b: Actor, t: State<V>)
    requires Inv(s) && Enabled(s, a, step) && b in s.workers
    requires t == Apply(s, a, step) && b in t.workers
    ensures HistoryOk(t, b)
  {
    hide Id, Apply;
    Effect(s, a, step, b);
    assert HistoryOk(s, b);
    forall i | 0 <= i < |t.workers[b].writes|
      ensures Authentic(t, t.workers[b], t.workers[b].writes[i])
    {
      if i < |s.workers[b].writes| {
        assert Authentic(s, s.workers[b], s.workers[b].writes[i]);
        JobsStay(s, a, step, s.workers[b].writes[i].who);
      } else {
        JobsStay(s, a, step, a);
        assert WriterOk(s, a);
        assert EntryOk(s, s.writers[a].pc.id);
      }
    }
  }

  /** A worker's own steps, seen from any writer. */
  lemma WriterKeptByWorker<V>(s: State<V>, a: Actor, step: Step<V>, r: Actor)
    requires Inv(s) && Enabled(s, a, step) && WorkerStep(step)
    requires r in Apply(s, a, step).writers
    ensures WriterOk(Apply(s, a, step), r)
  {
    hide Id;
    assert WriterOk(s, r);
    if a in s.workers {
      assert WorkerOk(s, a);
    }
  }

  /** A writer's steps, seen from any writer. */
  lemma WriterKeptByWriter<V>(s: State<V>, a: Actor, step: Step<V>, r: Actor)
    requires Inv(s) && Enabled(s, a, step) && !WorkerStep(step)
    requires r in Apply(s, a, step).writers
    ensures WriterOk(Apply(s, a, step), r)
  {
    hide Id;
    if r in s.writers {
      assert WriterOk(s, r);
    }
    if a in s.writers {
      assert WriterOk(s, a);
      forall id | id in s.pending
        ensures EntryOk(s, id)
      {
      }
    }
  }

  lemma EntryKept<V>(s: State<V>, a: Actor, step: Step<V>, id: int)
    requires Inv(s) && Enabled(s, a, step)
    requires id in Apply(s, a, step).pending
    ensures EntryOk(Apply(s, a, step), id)
  {
    hide Id;
    if id in s.pending {
      assert EntryOk(s, id);
    }
  }

  lemma TicketsKept<V>(s: State<V>, a: Actor, step: Step<V>, b: Actor, c: Actor)
    requires Inv(s) && Enabled(s, a, step)
    ensures TicketsDiffer(Apply(s, a, step), b, c)
  {
    hide Id;
    var t := Apply(s, a, step);
    assert TicketsDiffer(s, b, c);
    if b in s.workers {
      assert WorkerOk(s, b);
      Effect(s, a, step, b);
    }
    if c in s.workers {
      assert WorkerOk(s, c);
      Effect(s, a, step, c);
    }
    if b in t.workers && b !in s.workers {
      OnlyBegin(s, a, step, b);
    }
    if c in t.workers && c !in s.workers {
      OnlyBegin(s, a, step, c);
    }
  }

  /** Two tickets make the same id exactly when they are a multiple of 2^32 apart. */
  lemma SameId(t: nat, u: nat)
    ensures Id(t) == Id(u) <==> (t - u) % 0x1_0000_0000 == 0
  {
  }

  lemma ListedKeptByWorker<V>(s: State<V>, a: Actor, step: Step<V>, b: Actor)
    requires Inv(s) && Enabled(s, a, step) && TableStep(step)
    requires b in Apply(s, a, step).workers
    ensures ListedOk(Apply(s, a, step), b)
  {
    hide Id;
    if b in s.workers {
      assert ListedOk(s, b);
      assert WorkerOk(s, b);
      if a in s.workers {
        assert WorkerOk(s, a);
        assert TicketsDiffer(s, a, b);
        SameId(s.workers[a].ticket, s.workers[b].ticket);
      }
    }
  }

  lemma ListedKept<V>(s: State<V>, a: Actor, step: Step<V>, b: Actor)
    requires Inv(s) && Enabled(s, a, step)
    requires b in Apply(s, a, step).workers
    ensures ListedOk(Apply(s, a, step), b)
  {
    hide Id;
    if TableStep(step) {
      ListedKeptByWorker(s, a, step, b);
    } else {
      assert ListedOk(s, b);
    }
  }

  lemma WorkerKept<V>(s: State<V>, a: Actor, step: Step<V>, b: Actor)
    requires Inv(s) && Enabled(s, a, step)
    requires b in Apply(s, a, step).workers
    ensures WorkerOk(Apply(s, a, step), b)
  {
    hide Apply, Inv, WorkerOk;
    match step
    case LockSlot(_) => WorkerKeptByLockSlot(s, a, step, b);
    case WriteSlot => WorkerKeptByWriteSlot(s, a, step, b);
    case Clear => WorkerKeptByClear(s, a, step, b);
    case BeginWrite(_) => WorkerKeptByTable(s, a, step, b);
    case LockTable => WorkerKeptByTable(s, a, step, b);
    case Miss => WorkerKeptByTable(s, a, step, b);
    case _ =>
      if TableStep(step) {
        WorkerKeptByInsertRemove(s, a, step, b);
      } else {
        WorkerKeptByWorker(s, a, step, b);
      }
  }

  lemma WriterKept<V>(s: State<V>, a: Actor, step: Step<V>, r: Actor)
    requires Inv(s) && Enabled(s, a, step)
    requires r in Apply(s, a, step).writers
    ensures WriterOk(Apply(s, a, step), r)
  {
    hide Apply, Inv, WriterOk;
    if WorkerStep(step) {
      WriterKeptByWorker(s, a, step, r);
    } else {
      WriterKeptByWriter(s, a, step, r);
    }
  }

  lemma InvStep<V>(s: State<V>, a: Actor, step: Step<V>)
    requires Inv(s) && Enabled(s, a, step)
    ensures Inv(Apply(s, a, step))
  {
    hide WorkerOk, HistoryOk, ListedOk, WriterOk, EntryOk, TicketsDiffer;
    var t := Apply(s, a, step);
    forall b | b in t.workers
      ensures WorkerOk(t, b) && HistoryOk(t, b) && ListedOk(t, b)
    {
      WorkerKept(s, a, step, b);
      ListedKept(s, a, step, b);
      HistoryKept(s, a, step, b);
    }
    forall r | r in t.writers
      ensures WriterOk(t, r)
    {
      WriterKept(s, a, step, r);
    }
    forall id | id in t.pending
      ensures EntryOk(t, id)
    {
      EntryKept(s, a, step, id);
    }
    forall b, c
      ensures TicketsDiffer(t, b, c)
    {
      TicketsKept(s, a, step, b, c);
    }
  }

  // ---- Runs ----

  datatype Move<+V> = Move(a: Actor, step: Step<V>)

  /** `moves` can be made one after the other from `s`. */
  ghost predicate Runs<V>(s: State<V>, moves: seq<Move<V>>)
    decreases |moves|
  {
    moves == [] || (Enabled(s, moves[0].a, moves[0].step) && Runs(Apply(s, moves[0].a, moves[0].step), moves[1..]))
  }

  ghost function Final<V>(s: State<V>, moves: seq<Move<V>>): (t: State<V>)
    requires Runs(s, moves)
    decreases |moves|
  {
    if moves == [] then s else Final(Apply(s, moves[0].a, moves[0].step), moves[1..])
  }

  lemma {:induction false} InvRun<V>(s: State<V>, moves: seq<Move<V>>)
    requires Inv(s) && Runs(s, moves)
    ensures Inv(Final(s, moves))
    decreases |moves|
  {
    hide Inv, Enabled, Apply;
    if moves != [] {
      InvStep(s, moves[0].a, moves[0].step);
      InvRun(Apply(s, moves[0].a, moves[0].step), moves[1..]);
    }
  }

  /** A state that some interleaving of any calls leads to. */
  ghost predicate Reachable<V(!new)>(s: State<V>) {
    exists moves: seq<Move<V>> :: Runs(Start(s.stopValue), moves) && Final(Start(s.stopValue), moves) == s
  }

  lemma InvReachable<V(!new)>(s: State<V>)
    requires Reachable(s)
    ensures Inv(s)
  {
    var moves: seq<Move<V>> :| Runs(Start(s.stopValue), moves) && Final(Start(s.stopValue), moves) == s;
    InvRun(Start(s.stopValue), moves);
  }

  // ---- What follows for every interleaving ----

  /** Every table entry points into a call that has not returned and whose id it carries, so no
      writer follows a dangling pointer. */
  lemma EntriesAreLive<V(!new)>(s: State<V>, id: int)
    requires Reachable(s) && id in s.pending
    ensures s.pending[id] in s.workers
    ensures InTable(s.workers[s.pending[id]].pc) && Id(s.workers[s.pending[id]].ticket) == id
  {
    InvReachable(s);
    assert EntryOk(s, id);
  }

  /** Two different calls get the same id exactly when the counter has gone round in between. */
  lemma IdsCollideExactly<V(!new)>(s: State<V>, a: Actor, b: Actor)
    requires Reachable(s) && a in s.workers && b in s.workers && a != b
    ensures s.workers[a].ticket != s.workers[b].ticket
    ensures Id(s.workers[a].ticket) == Id(s.workers[b].ticket)
            <==> (s.workers[a].ticket - s.workers[b].ticket) % 0x1_0000_0000 == 0
    ensures s.next <= 0x1_0000_0000 ==> Id(s.workers[a].ticket) != Id(s.workers[b].ticket)
  {
    InvReachable(s);
    hide Id;
    assert TicketsDiffer(s, a, b);
    assert WorkerOk(s, a);
    assert WorkerOk(s, b);
    SameId(s.workers[a].ticket, s.workers[b].ticket);
  }

  lemma {:induction false} RunsSnoc<V>(s: State<V>, moves: seq<Move<V>>, a: Actor, step: Step<V>)
    requires Runs(s, moves) && Enabled(Final(s, moves), a, step)
    ensures Runs(s, moves + [Move(a, step)])
    ensures Final(s, moves + [Move(a, step)]) == Apply(Final(s, moves), a, step)
    decreases |moves|
  {
    hide Enabled, Apply;
    var all := moves + [Move(a, step)];
    if moves == [] {
      assert all == [Move(a, step)] && all[1..] == [];
      assert Runs(Apply(s, a, step), all[1..]);
    } else {
      assert all[0] == moves[0] && all[1..] == moves[1..] + [Move(a, step)];
      RunsSnoc(Apply(s, moves[0].a, moves[0].step), moves[1..], a, step);
    }
  }

  lemma ReachableStep<V(!new)>(s: State<V>, a: Actor, step: Step<V>)
    requires Reachable(s) && Enabled(s, a, step)
    ensures Reachable(Apply(s, a, step))
  {
    var moves: seq<Move<V>> :| Runs(Start(s.stopValue), moves) && Final(Start(s.stopValue), moves) == s;
    RunsSnoc(Start(s.stopValue), moves, a, step);
    StopValueStays(s, a, step);
  }

  /** The calls 0 to `n` - 1 with the tickets they have taken, in order. */
  function Ticketholders<V>(n: nat): (ws: map<Actor, Worker<V>>)
    ensures forall a: nat :: a in ws <==> a < n
    ensures forall a: nat :: a in ws ==> ws[a] == Worker(Ticketed, a + 1, None, None, false, [], false, None)
  {
    if n == 0 then map[]
    else Ticketholders(n - 1)[n - 1 := Worker(Ticketed, n, None, None, false, [], false, None)]
  }

  /** The state after `n` calls have taken their tickets. */
  function Crowd<V>(stopValue: V, n: nat): (s: State<V>) {
    State(stopValue, n + 1, map[], None, Ticketholders(n), map[])
  }

  lemma {:induction false} CrowdReachable<V(!new)>(stopValue: V, n: nat)
    ensures Reachable(Crowd(stopValue, n))
    decreases n
  {
    if n == 0 {
      assert Crowd(stopValue, 0) == Start(stopValue);
      assert Runs(Start(stopValue), []) && Final(Start(stopValue), []) == Start(stopValue);
    } else {
      CrowdReachable(stopValue, n - 1);
      var s := Crowd(stopValue, n - 1);
      assert Enabled(s, n - 1, Begin);
      ReachableStep(s, n - 1, Begin);
      assert Apply(s, n - 1, Begin) == Crowd(stopValue, n);
    }
  }

  /** The counter can go round while a call is running: there is a run after which two calls that
      have not returned share an id, and the entry of the first has been overwritten, so that no
      resolver can reach it. */
  lemma IdsCanCollide<V(!new)>(stopValue: V) returns (s: State<V>, a: Actor, b: Actor)
    ensures Reachable(s) && a in s.workers && b in s.workers && a != b
    ensures InTable(s.workers[a].pc) && InTable(s.workers[b].pc)
    ensures Id(s.workers[a].ticket) == Id(s.workers[b].ticket)
    ensures !s.workers[a].stopped && !Listed(s, a) && Listed(s, b)
  {
    a, b := 0, 0x1_0000_0000;
    var crowd := Crowd(stopValue, b + 1);
    CrowdReachable(stopValue, b + 1);
    SameId(a + 1, b + 1);
    hide Id, Reachable;
    assert crowd.workers[a].ticket == a + 1 && crowd.workers[b].ticket == b + 1;
    ReachableStep(crowd, a, Insert);
    var first := Apply(crowd, a, Insert);
    ReachableStep(first, b, Insert);
    s := Apply(first, b, Insert);
  }

  /** A call that waits with its result already written has been signalled. */
  lemma NoLostWakeup<V(!new)>(s: State<V>, a: Actor)
    requires Reachable(s) && WorkerAt(s, a, Waiting) && s.workers[a].slot.Some?
    ensures s.workers[a].signalled
  {
    InvReachable(s);
    assert WorkerOk(s, a);
  }

  /** Before the counter wraps around, a writer that resolves the id of a call in the table that
      has not been stopped finds that call. */
  lemma ResolveFinds<V(!new)>(s: State<V>, a: Actor)
    requires Reachable(s) && a in s.workers && InTable(s.workers[a].pc) && !s.workers[a].stopped
    requires s.next <= 0x1_0000_0000
    ensures Id(s.workers[a].ticket) in s.pending && s.pending[Id(s.workers[a].ticket)] == a
  {
    InvReachable(s);
    assert ListedOk(s, a);
  }

  /** A result that was returned was the last thing written to the call's slot, by a stop or by
      a resolver for the call's own id. */
  lemma OutcomeIsLastWrite<V(!new)>(s: State<V>, a: Actor)
    requires Reachable(s) && WorkerAt(s, a, Returned) && s.workers[a].outcome.Some?
    ensures var w := s.workers[a];
            && w.writes != []
            && w.outcome.value == w.writes[|w.writes| - 1].value
            && Authentic(s, w, w.writes[|w.writes| - 1])
  {
    InvReachable(s);
    assert WorkerOk(s, a);
    assert HistoryOk(s, a);
  }

  /** Once a call has left the table its slot never changes again: the unlocked reads after the
      removal see what was there at the removal. */
  lemma {:induction false} RemovedIsFrozen<V>(s: State<V>, moves: seq<Move<V>>, a: Actor)
    requires Inv(s) && Runs(s, moves)
    requires a in s.workers && (s.workers[a].pc.Removed? || s.workers[a].pc.Returned?)
    ensures a in Final(s, moves).workers && Final(s, moves).workers[a].slot == s.workers[a].slot
    decreases |moves|
  {
    hide Apply, Id;
    if moves != [] {
      var b, step := moves[0].a, moves[0].step;
      Effect(s, b, step, a);
      if step.WriteSlot? {
        assert WriterOk(s, b);
        assert EntryOk(s, s.writers[b].pc.id);
      }
      InvStep(s, b, step);
      RemovedIsFrozen(Apply(s, b, step), moves[1..], a);
    }
  }

  lemma StopValueStays<V>(s: State<V>, a: Actor, step: Step<V>)
    requires Enabled(s, a, step)
    ensures Apply(s, a, step).stopValue == s.stopValue
  {
    hide Id;
  }

  // ---- Delivery ----

  /** What a write does: the slot of the call it targets holds the resolved value, or the stop value,
      a call that waits is signalled, and no other call is touched. The call carries the id resolved. */
  lemma WriteDelivers<V(!new)>(s: State<V>, r: Actor)
    requires Reachable(s) && Enabled(s, r, WriteSlot)
    ensures var b, t := s.writers[r].pc.target, Apply(s, r, WriteSlot);
            && b in t.workers && t.workers[b].pc == s.workers[b].pc
            && (t.workers[b].pc.Waiting? ==> t.workers[b].signalled)
            && (match s.writers[r].job
                case Resolve(id, v) => t.workers[b].slot == Some(v) && Id(t.workers[b].ticket) == id
                case Stop => t.workers[b].slot == Some(s.stopValue))
            && forall c :: c in s.workers && c != b ==> c in t.workers && t.workers[c] == s.workers[c]
  {
    InvReachable(s);
    hide Reachable, Id;
    assert WriterOk(s, r);
    assert EntryOk(s, s.writers[r].pc.id);
  }

  /** A call goes its way in order, and gives up without a result only after it has waited: it leaves
      from its wait, or with a filled slot, and returns what was in its slot when it left the table. */
  lemma LeavesAfterWaiting<V>(s: State<V>, a: Actor, step: Step<V>, b: Actor)
    requires Enabled(s, a, step) && b in s.workers
    ensures var w, v := s.workers[b], Apply(s, a, step).workers[b];
            && b in Apply(s, a, step).workers
            && (v.pc != w.pc ==>
                  match v.pc
                  case Ticketed => false
                  case Inserted => w.pc == Ticketed
                  case Checking => w.pc == Inserted
                  case Waiting => w.pc == Checking && w.slot == None
                  case Leaving => w.pc == Waiting || (w.pc == Checking && w.slot != None)
                  case Removed => w.pc == Leaving && v.slot == w.slot
                  case Returned => w.pc == Removed && v.outcome == w.slot)
  {
    hide Id;
  }

  predicate WritesTo<V>(s: State<V>, r: Actor, step: Step<V>, b: Actor) {
    step.WriteSlot? && r in s.writers && s.writers[r].pc.Both? && s.writers[r].pc.target == b
  }

  /** No move of the run writes to the call. */
  ghost predicate Untouched<V>(s: State<V>, moves: seq<Move<V>>, b: Actor)
    requires Runs(s, moves)
    decreases |moves|
  {
    moves == [] ||
    (!WritesTo(s, moves[0].a, moves[0].step, b) && Untouched(Apply(s, moves[0].a, moves[0].step), moves[1..], b))
  }

  lemma {:induction false} SlotStays<V>(s: State<V>, moves: seq<Move<V>>, b: Actor)
    requires Runs(s, moves) && Untouched(s, moves, b) && b in s.workers
    ensures b in Final(s, moves).workers && Final(s, moves).workers[b].slot == s.workers[b].slot
    decreases |moves|
  {
    hide Apply, Id;
    if moves != [] {
      Effect(s, moves[0].a, moves[0].step, b);
      SlotStays(Apply(s, moves[0].a, moves[0].step), moves[1..], b);
    }
  }

  /** A value resolved for a call is what the call returns, unless something is written to it later. */
  lemma ResolvedIsReturned<V(!new)>(s: State<V>, r: Actor, moves: seq<Move<V>>)
    requires Reachable(s) && Enabled(s, r, WriteSlot) && s.writers[r].job.Resolve?
    requires var t := Apply(s, r, WriteSlot);
             && Runs(t, moves) && Untouched(t, moves, s.writers[r].pc.target)
             && WorkerAt(Final(t, moves), s.writers[r].pc.target, Returned)
    ensures var f := Final(Apply(s, r, WriteSlot), moves);
            f.workers[s.writers[r].pc.target].outcome == Some(s.writers[r].job.value)
  {
    var t, b := Apply(s, r, WriteSlot), s.writers[r].pc.target;
    WriteDelivers(s, r);
    InvReachable(s);
    InvStep(s, r, WriteSlot);
    hide Apply, Enabled, Reachable, Id;
    SlotStays(t, moves, b);
    InvRun(t, moves);
    assert WorkerOk(Final(t, moves), b);
  }

  /** A resolver that holds the table with the entry of the call in it will write to the call, or has. */
  ghost predicate Reaching<V>(s: State<V>, r: Actor, v: V, b: Actor) {
    && b in s.workers && r in s.writers && s.writers[r].job == Resolve(Id(s.workers[b].ticket), v)
    && (|| ((s.writers[r].pc.Table? || s.writers[r].pc.Both?) && Listed(s, b))
        || Write(r, v, false) in s.workers[b].writes)
  }

  lemma ReachingStep<V>(s: State<V>, r: Actor, v: V, b: Actor, a: Actor, step: Step<V>)
    requires Inv(s) && Enabled(s, a, step) && Reaching(s, r, v, b)
    ensures Reaching(Apply(s, a, step), r, v, b)
  {
    hide Id;
    JobsStay(s, a, step, r);
    Effect(s, a, step, b);
    assert WriterOk(s, r);
    if Write(r, v, false) in s.workers[b].writes {
    } else if a in s.writers {
      assert WriterOk(s, a);
    }
  }

  lemma {:induction false} ReachingStays<V>(s: State<V>, r: Actor, v: V, b: Actor, moves: seq<Move<V>>)
    requires Inv(s) && Runs(s, moves) && Reaching(s, r, v, b)
    ensures Reaching(Final(s, moves), r, v, b)
    decreases |moves|
  {
    hide Apply, Enabled, Inv, Reaching;
    if moves != [] {
      ReachingStep(s, r, v, b, moves[0].a, moves[0].step);
      InvStep(s, moves[0].a, moves[0].step);
      ReachingStays(Apply(s, moves[0].a, moves[0].step), r, v, b, moves[1..]);
    }
  }

  /** A resolver that takes the table while the call is listed does not finish without having written
      its value to the call. */
  lemma ResolverWrites<V(!new)>(s: State<V>, r: Actor, v: V, b: Actor, moves: seq<Move<V>>)
    requires Reachable(s) && Enabled(s, r, LockTable) && b in s.workers && Listed(s, b)
    requires s.writers[r].job == Resolve(Id(s.workers[b].ticket), v)
    requires Runs(Apply(s, r, LockTable), moves) && WriterAt(Final(Apply(s, r, LockTable), moves), r, Finished)
    ensures b in Final(Apply(s, r, LockTable), moves).workers
    ensures Write(r, v, false) in Final(Apply(s, r, LockTable), moves).workers[b].writes
  {
    InvReachable(s);
    var t := Apply(s, r, LockTable);
    InvStep(s, r, LockTable);
    assert Reaching(t, r, v, b);
    hide Apply, Enabled, Reachable, Inv, Id;
    ReachingStays(t, r, v, b, moves);
  }

  /** A stop holds the table. */
  ghost predicate Stopping<V>(s: State<V>, stopper: Actor) {
    stopper in s.writers && s.writers[stopper].job.Stop? && (s.writers[stopper].pc.Table? || s.writers[stopper].pc.Both?)
  }

  /** The stop that holds the table will reach the call, or has. */
  ghost predicate Doomed<V>(s: State<V>, stopper: Actor, a: Actor) {
    a in s.workers && (s.workers[a].stopped || (Stopping(s, stopper) && Listed(s, a)))
  }

  /** A call in the table when a stop takes it cannot get out before the stop clears the table. */
  lemma DoomedStep<V>(s: State<V>, stopper: Actor, a: Actor, b: Actor, step: Step<V>)
    requires Inv(s) && Enabled(s, b, step) && Doomed(s, stopper, a)
    ensures Doomed(Apply(s, b, step), stopper, a)
  {
    hide Id;
    if !s.workers[a].stopped {
      assert WriterOk(s, stopper);
      if b in s.writers {
        assert WriterOk(s, b);
      }
    }
  }

  lemma {:induction false} DoomedStays<V>(s: State<V>, stopper: Actor, moves: seq<Move<V>>, a: Actor)
    requires Inv(s) && Runs(s, moves) && Doomed(s, stopper, a)
    ensures Inv(Final(s, moves)) && Doomed(Final(s, moves), stopper, a)
    ensures Final(s, moves).stopValue == s.stopValue
    decreases |moves|
  {
    hide Apply, Enabled, Inv, Doomed;
    if moves != [] {
      var b, step := moves[0].a, moves[0].step;
      DoomedStep(s, stopper, a, b, step);
      StopValueStays(s, b, step);
      InvStep(s, b, step);
      DoomedStays(Apply(s, b, step), stopper, moves[1..], a);
    }
  }

  /** A call whose entry is in the table at any moment at which a stop holds it, from the stop's lock
      to its clearing, returns the stop value, whatever had been written to it before and whatever
      happens afterwards. */
  lemma StopWins<V(!new)>(s: State<V>, stopper: Actor, moves: seq<Move<V>>, a: Actor)
    requires Reachable(s) && Stopping(s, stopper) && a in s.workers && Listed(s, a)
    requires Runs(s, moves) && WorkerAt(Final(s, moves), a, Returned)
    ensures Final(s, moves).workers[a].outcome == Some(s.stopValue)
  {
    InvReachable(s);
    DoomedStays(s, stopper, moves, a);
    hide Reachable, Runs, Final, Id;
    var t := Final(s, moves);
    assert WorkerOk(t, a);
    assert Listed(t, a) ==> EntryOk(t, Id(t.workers[a].ticket));
  }

  // ---- Lock order ----

  /** `a` cannot go on until `b` releases a mutex. */
  ghost predicate WaitsFor<V>(s: State<V>, a: Actor, b: Actor) {
    || (a in s.workers && (s.workers[a].pc.Ticketed? || s.workers[a].pc.Leaving?) && s.tableOwner == Some(b))
    || (a in s.workers && (s.workers[a].pc.Inserted? || s.workers[a].pc.Waiting?) && s.workers[a].owner == Some(b))
    || (WriterAt(s, a, Idle) && s.tableOwner == Some(b))
    || (WriterAt(s, a, Table) && (exists id :: WantsSlotOf(s, a, id, b)))
  }

  predicate WantsSlotOf(s: State, a: Actor, id: int, b: Actor)
    requires a in s.writers
  {
    && (if s.writers[a].job.Resolve? then id == s.writers[a].job.id else id in s.writers[a].todo)
    && id in s.pending && s.pending[id] in s.workers && s.workers[s.pending[id]].owner == Some(b)
  }

  /** Holders of a worker's mutex come first, then the holder of the table, then everybody else. */
  ghost function Rank<V>(s: State<V>, a: Actor): (r: nat) {
    if WorkerAt(s, a, Checking) || (a in s.writers && s.writers[a].pc.Both?) then 0
    else if WriterAt(s, a, Table) then 1
    else 2
  }

  /** Waiting goes down in rank, so no actors wait for each other in a circle. */
  lemma WaitsDescend<V(!new)>(s: State<V>, a: Actor, b: Actor)
    requires Reachable(s) && WaitsFor(s, a, b)
    ensures Rank(s, b) < Rank(s, a)
  {
    InvReachable(s);
    hide Id, Reachable;
    if a in s.workers {
      assert WorkerOk(s, a);
    } else {
      assert WriterOk(s, a);
      if WriterAt(s, a, Table) {
        var id :| WantsSlotOf(s, a, id, b);
        assert WorkerOk(s, s.pending[id]);
      }
    }
    if b in s.writers {
      assert WriterOk(s, b);
    }
  }

  predicate Unfinished(s: State, a: Actor) {
    (a in s.workers && !s.workers[a].pc.Returned?) || (a in s.writers && !s.writers[a].pc.Finished?)
  }

  /** An unfinished actor that waits for nobody can make a step. */
  lemma UnblockedMoves<V(!new)>(s: State<V>, a: Actor)
    requires Reachable(s) && Unfinished(s, a)
    requires forall b :: !WaitsFor(s, a, b)
    ensures exists step :: Enabled(s, a, step)
  {
    InvReachable(s);
    hide Id, Reachable;
    if a in s.workers {
      assert WorkerOk(s, a);
      WorkerMoves(s, a);
    } else {
      assert WriterOk(s, a);
      WriterMoves(s, a);
    }
  }

  /** There is no deadlock: as long as some actor is unfinished, some unfinished actor can make a
      step. */
  lemma {:induction false} NoDeadlock<V(!new)>(s: State<V>, a: Actor)
    requires Reachable(s) && Unfinished(s, a)
    ensures exists b, step :: Unfinished(s, b) && Enabled(s, b, step)
    decreases Rank(s, a)
  {
    hide Reachable, Enabled, WaitsFor;
    if b :| WaitsFor(s, a, b) {
      WaitsDescend(s, a, b);
      NoDeadlock(s, b);
    } else {
      UnblockedMoves(s, a);
    }
  }

  lemma WorkerMoves<V>(s: State<V>, a: Actor)
    requires a in s.workers && !s.workers[a].pc.Returned? && (forall b :: !WaitsFor(s, a, b))
    ensures exists step :: Enabled(s, a, step)
  {
    assert s.tableOwner.Some? ==> !WaitsFor(s, a, s.tableOwner.value);
    assert s.workers[a].owner.Some? ==> !WaitsFor(s, a, s.workers[a].owner.value);
    var step: Step<V> := match s.workers[a].pc
                         case Ticketed => Insert
                         case Inserted => LockOwn
                         case Checking => Check
                         case Waiting => Wake
                         case Leaving => Remove
                         case _ => Return;
    assert Enabled(s, a, step);
  }

  lemma WriterMoves<V>(s: State<V>, a: Actor)
    requires Inv(s) && a in s.writers && !s.writers[a].pc.Finished? && (forall b :: !WaitsFor(s, a, b))
    ensures exists step :: Enabled(s, a, step)
  {
    hide Id;
    var w := s.writers[a];
    assert WriterOk(s, a);
    assert s.tableOwner.Some? ==> !WaitsFor(s, a, s.tableOwner.value);
    match w.pc {
      case Idle => assert Enabled(s, a, LockTable);
      case Both(_, _) => assert Enabled(s, a, WriteSlot);
      case Table =>
        if w.job.Resolve? && w.job.id !in s.pending {
          assert Enabled(s, a, Miss);
        } else if w.job.Stop? && w.todo == {} {
          assert Enabled(s, a, Clear);
        } else {
          var id: int;
          if w.job.Resolve? {
            id := w.job.id;
          } else {
            id := ElementOf(w.todo);
          }
          assert EntryOk(s, id);
          var owner := s.workers[s.pending[id]].owner;
          assert owner.Some? ==> WantsSlotOf(s, a, id, owner.value);
          assert owner.Some? ==> WaitsFor(s, a, owner.value);
          assert Enabled(s, a, LockSlot(id));
        }
    }
  }
}
