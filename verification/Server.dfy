/**
 The request server as a transition system. Producers push, any number of workers take,
 look up, store, execute and reply; each step is one lock-delimited section of the source
 and steps interleave freely. `arrivals`, `dropped`, `log` and `replies` are history.
 */
module Server {
  import opened FieldCodec
  import opened CliProtocol
  import Dedup
  import Rooms
  import WorkQueue

  datatype Config = Config(workers: nat, depth: nat, slots: nat, rooms: nat)

  predicate Sensible(c: Config) {
    c.workers > 0 && c.depth > 0 && c.slots > 0
  }

  /** What the workers make of a payload: it depends on nothing else. */
  datatype Kind =
    | OldStyle(id: string, ok: bool)   // legacy request: effective id and uncached verdict
    | Malformed                        // has a "cmd" but is no command on a room
    | OnRegistry(op: Command, name: string)

  function Classify(payload: string): (k: Kind)
    ensures k.OldStyle? ==> |k.id| < Dedup.ID_SIZE
  {
    if !IsCli(payload) then OldStyle(EffectiveId(payload), Verdict(payload))
    else
      match ParseCli(payload)
      case BadRequest => Malformed
      case OnRoom(op, name) => OnRegistry(op, name)
  }

  /** A request is named by its position in the order of pushes. */
  datatype Arrival = Arrival(payload: string, fd: int, kind: Kind, born: nat)    // born: room commands executed before it came

  datatype Answer =
    | Legacy(id: string, ok: bool)
    | Refused                          // 1001, without touching the registry
    | Room(code: int, at: nat)         // reply of the at-th registry command

  datatype Worker =
    | Ready                            // about to take qlock, or woken and waiting for it
    | Asleep                           // inside pthread_cond_wait
    | Dispatching(t: nat)              // holds a request it has not looked at
    | Missed(t: nat)                   // searched the cache in vain, has not stored yet
    | Answering(t: nat, a: Answer)     // has its answer, has not sent it

  datatype RoomCall = RoomCall(t: nat, op: Command, name: string, code: int)
  datatype Reply = Reply(t: nat, fd: int, a: Answer, done: nat)      // done: room commands executed before it left

  datatype State = State(
    queue: seq<nat>,
    workers: seq<Worker>,
    table: Dedup.Table,
    rooms: seq<string>,
    arrivals: seq<Arrival>,
    dropped: seq<nat>,
    log: seq<RoomCall>,
    replies: seq<Reply>)

  datatype Step =
    | Push(payload: string, fd: int, woken: set<nat>)
    | Sleep(w: nat)
    | Spurious(w: nat)
    | Take(w: nat)
    | LegacyFind(w: nat)
    | LegacyPut(w: nat)
    | CliExecute(w: nat)
    | Send(w: nat)

  function Initial(c: Config): State {
    State([], seq(c.workers, _ => Ready), Dedup.Empty(c.slots), [], [], [], [], [])
  }

  function Sleepers(ws: seq<Worker>): set<nat> {
    set w: nat | w < |ws| && ws[w] == Asleep
  }

  function Wake(ws: seq<Worker>, woken: set<nat>): (r: seq<Worker>)
    ensures |r| == |ws|
  {
    seq(|ws|, i requires 0 <= i < |ws| => if i in woken then Ready else ws[i])
  }

  predicate Enabled(s: State, step: Step) {
    match step
    case Push(_, _, woken) =>
      // the signal wakes at least one waiter if there is one
      woken <= Sleepers(s.workers) && (woken == {} ==> Sleepers(s.workers) == {})
    case Sleep(w) => w < |s.workers| && s.workers[w] == Ready && s.queue == []
    case Spurious(w) => w < |s.workers| && s.workers[w] == Asleep
    case Take(w) => w < |s.workers| && s.workers[w] == Ready && s.queue != []
    case LegacyFind(w) =>
      && w < |s.workers| && s.workers[w].Dispatching?
      && s.workers[w].t < |s.arrivals| && s.arrivals[s.workers[w].t].kind.OldStyle?
    case LegacyPut(w) =>
      && w < |s.workers| && s.workers[w].Missed?
      && s.workers[w].t < |s.arrivals| && s.arrivals[s.workers[w].t].kind.OldStyle? && Dedup.Shaped(s.table)
    case CliExecute(w) =>
      && w < |s.workers| && s.workers[w].Dispatching?
      && s.workers[w].t < |s.arrivals| && !s.arrivals[s.workers[w].t].kind.OldStyle?
    case Send(w) => w < |s.workers| && s.workers[w].Answering? && s.workers[w].t < |s.arrivals|
  }

  function Apply(c: Config, s: State, step: Step): State
    requires Enabled(s, step)
  {
    match step
    case Push(payload, fd, woken) =>
      var (gone, kept) := WorkQueue.Displaced(s.queue, c.depth);
      s.(queue := kept + [|s.arrivals|], workers := Wake(s.workers, woken),
         arrivals := s.arrivals + [Arrival(payload, fd, Classify(payload), |s.log|)], dropped := s.dropped + gone)
    case Sleep(w) => s.(workers := s.workers[w := Asleep])
    case Spurious(w) => s.(workers := s.workers[w := Ready])
    case Take(w) => s.(queue := s.queue[1..], workers := s.workers[w := Dispatching(s.queue[0])])
    case LegacyFind(w) => s.(workers := s.workers[w := AfterFind(s, s.workers[w].t)])
    case LegacyPut(w) =>
      var t := s.workers[w].t;
      var k := s.arrivals[t].kind;
      s.(table := Dedup.Put(s.table, k.id, k.ok), workers := s.workers[w := Answering(t, Legacy(k.id, k.ok))])
    case CliExecute(w) => Executed(c, s, w, s.workers[w].t)
    case Send(w) =>
      var t := s.workers[w].t;
      s.(replies := s.replies + [Reply(t, s.arrivals[t].fd, s.workers[w].a, |s.log|)], workers := s.workers[w := Ready])
  }

  /** The first half of handle_legacy, up to releasing the cache lock. */
  function AfterFind(s: State, t: nat): Worker
    requires t < |s.arrivals| && s.arrivals[t].kind.OldStyle?
  {
    var k := s.arrivals[t].kind;
    if k.id == "" then Answering(t, Legacy(k.id, k.ok))
    else
      match Dedup.Cached(s.table.slots, k.id)
      case Some(cached) => Answering(t, Legacy(k.id, cached))
      case None => Missed(t)
  }

  /** handle_cli up to its reply. */
  function Executed(c: Config, s: State, w: nat, t: nat): State
    requires t < |s.arrivals| && w < |s.workers| && !s.arrivals[t].kind.OldStyle?
  {
    match s.arrivals[t].kind
    case Malformed => s.(workers := s.workers[w := Answering(t, Refused)])
    case OnRegistry(op, name) =>
      var (code, after) := Rooms.Execute(s.rooms, c.rooms, op, name);
      s.(rooms := after, log := s.log + [RoomCall(t, op, name, code)],
         workers := s.workers[w := Answering(t, Room(code, |s.log|))])
  }

  /** A legacy request nobody interferes with is handled as by the cache alone. */
  lemma UndisturbedLegacy(c: Config, s: State, w: nat)
    requires Dedup.Shaped(s.table) && Enabled(s, LegacyFind(w))
    ensures var k := s.arrivals[s.workers[w].t].kind;
            var (reply, table) := Dedup.Handle(s.table, Dedup.Query(k.id, k.ok));
            var s1 := Apply(c, s, LegacyFind(w));
            var s2 := if s1.workers[w].Missed? then Apply(c, s1, LegacyPut(w)) else s1;
            s2.workers[w] == Answering(s.workers[w].t, Legacy(k.id, reply)) && s2.table == table
  {
  }

  /**
   Two deletes or shows, of different rooms and with different request numbers, are one
   request to the cache: the second is answered from it.
   */
  lemma RoomRequestsCollide(table: Dedup.Table, kind: string, number: string, room: string,
                            kind': string, number': string, room': string)
    requires Dedup.Shaped(table) && |number| <= 20 && |number'| <= 20
    requires (kind == "room.delete" || kind == "room.show") && (kind' == "room.delete" || kind' == "room.show")
    requires QUOTE !in number && QUOTE !in room && '\0' !in RoomText(kind, number, room) && room != "cmd"
    requires QUOTE !in number' && QUOTE !in room' && '\0' !in RoomText(kind', number', room') && room' != "cmd"
    ensures var k := Classify(Cut(RoomText(kind, number, room), ROOM_SIZE));
            var k' := Classify(Cut(RoomText(kind', number', room'), ROOM_SIZE));
            && k.OldStyle? && k'.OldStyle?
            && var first := Dedup.Handle(table, Dedup.Query(k.id, k.ok));
               Dedup.Handle(first.1, Dedup.Query(k'.id, k'.ok)) == first
  {
    RoomRequest(kind, number, room);
    RoomRequest(kind', number', room');
    Dedup.Repeats(table, Dedup.Query("id", true), Dedup.Query("id", true));
  }

  // ----- 1. The queue: first in, first out, bounded -----

  function Base(s: State): int {
    |s.arrivals| - |s.queue|
  }

  predicate Consecutive(q: seq<nat>, from: int) {
    forall i :: 0 <= i < |q| ==> q[i] == from + i
  }

  /** The queue is exactly the youngest arrivals in order; all older ones have left it. */
  predicate QueueInOrder(c: Config, s: State) {
    |s.queue| <= c.depth && |s.queue| <= |s.arrivals| && Consecutive(s.queue, Base(s))
  }

  lemma PushKeepsOrder(q: seq<nat>, from: int, depth: nat, n: nat)
    requires Consecutive(q, from) && |q| <= depth && depth > 0 && n == from + |q|
    ensures var (gone, kept) := WorkQueue.Displaced(q, depth);
            |kept| < depth && Consecutive(kept + [n], from + |gone|)
  {
    if |q| >= depth {
      assert forall i :: 0 <= i < |q[1..]| ==> q[1..][i] == q[i + 1];
    }
  }

  lemma QueueStep(c: Config, s: State, step: Step)
    requires Sensible(c) && QueueInOrder(c, s) && Enabled(s, step)
    ensures QueueInOrder(c, Apply(c, s, step))
  {
    if step.Push? {
      PushKeepsOrder(s.queue, Base(s), c.depth, |s.arrivals|);
    } else if step.Take? {
      assert forall i :: 0 <= i < |s.queue[1..]| ==> s.queue[1..][i] == s.queue[i + 1];
    }
  }

  // ----- 2. Every request that left the queue is in exactly one place -----

  predicate Holds(w: Worker, t: nat) {
    !w.Ready? && !w.Asleep? && w.t == t
  }

  /** How many workers hold request t. */
  function HeldCount(ws: seq<Worker>, t: nat): nat {
    if ws == [] then 0
    else HeldCount(ws[..|ws| - 1], t) + if Holds(ws[|ws| - 1], t) then 1 else 0
  }

  /** How many replies answer request t. */
  function ReplyCount(rs: seq<Reply>, t: nat): nat {
    if rs == [] then 0
    else ReplyCount(rs[..|rs| - 1], t) + if rs[|rs| - 1].t == t then 1 else 0
  }

  /** How often request t was dropped. */
  function DropCount(ds: seq<nat>, t: nat): nat {
    if ds == [] then 0
    else DropCount(ds[..|ds| - 1], t) + if ds[|ds| - 1] == t then 1 else 0
  }

  function Places(s: State, t: nat): nat {
    DropCount(s.dropped, t) + HeldCount(s.workers, t) + ReplyCount(s.replies, t)
  }

  /** Dropped, in one worker's hands or answered: exactly one of them, exactly once. */
  ghost predicate EachOnce(s: State) {
    forall t: nat :: Places(s, t) == if t < Base(s) then 1 else 0
  }

  lemma {:induction false} HeldUpdate(ws: seq<Worker>, w: nat, x: Worker, t: nat)
    requires w < |ws|
    ensures HeldCount(ws[w := x], t) ==
            HeldCount(ws, t) - (if Holds(ws[w], t) then 1 else 0) + if Holds(x, t) then 1 else 0
  {
    var last := |ws| - 1;
    if w == last {
      assert ws[w := x][..last] == ws[..last];
    } else {
      HeldUpdate(ws[..last], w, x, t);
      assert ws[w := x][..last] == ws[..last][w := x];
    }
  }

  lemma {:induction false} HeldWake(ws: seq<Worker>, woken: set<nat>, t: nat)
    requires woken <= Sleepers(ws)
    ensures HeldCount(Wake(ws, woken), t) == HeldCount(ws, t)
  {
    if ws != [] {
      var last := |ws| - 1;
      var fewer := woken - {last};
      assert fewer <= Sleepers(ws[..last]);
      HeldWake(ws[..last], fewer, t);
      assert Wake(ws, woken)[..last] == Wake(ws[..last], fewer);
    }
  }

  lemma PushPlaces(c: Config, s: State, step: Step, t: nat)
    requires Sensible(c) && QueueInOrder(c, s) && Enabled(s, step) && step.Push?
    requires Places(s, t) == if t < Base(s) then 1 else 0
    ensures var s' := Apply(c, s, step);
            Places(s', t) == if t < Base(s') then 1 else 0
  {
    var s' := Apply(c, s, step);
    HeldWake(s.workers, step.woken, t);
    if s'.dropped != s.dropped {
      assert s'.dropped[..|s.dropped|] == s.dropped;
    }
  }

  lemma SendPlaces(c: Config, s: State, step: Step, t: nat)
    requires Enabled(s, step) && step.Send?
    ensures Places(Apply(c, s, step), t) == Places(s, t)
  {
    var s' := Apply(c, s, step);
    HeldUpdate(s.workers, step.w, Ready, t);
    assert s'.replies[..|s.replies|] == s.replies;
  }

  lemma PlacesStep(c: Config, s: State, step: Step, t: nat)
    requires Sensible(c) && QueueInOrder(c, s) && Enabled(s, step)
    requires Places(s, t) == if t < Base(s) then 1 else 0
    ensures var s' := Apply(c, s, step);
            Places(s', t) == if t < Base(s') then 1 else 0
  {
    if step.Push? {
      PushPlaces(c, s, step, t);
    } else if step.Send? {
      SendPlaces(c, s, step, t);
    } else {
      HeldUpdate(s.workers, step.w, Apply(c, s, step).workers[step.w], t);
    }
  }

  lemma OnceStep(c: Config, s: State, step: Step)
    requires Sensible(c) && QueueInOrder(c, s) && EachOnce(s) && Enabled(s, step)
    ensures EachOnce(Apply(c, s, step))
  {
    forall t: nat
      ensures var s' := Apply(c, s, step);
              Places(s', t) == if t < Base(s') then 1 else 0
    {
      PlacesStep(c, s, step, t);
    }
  }

  // ----- 3. No lost wakeup -----

  function AwakeCount(ws: seq<Worker>): nat {
    if ws == [] then 0
    else AwakeCount(ws[..|ws| - 1]) + if ws[|ws| - 1].Asleep? then 0 else 1
  }

  /** As many workers are up as there are requests waiting, or all of them. */
  predicate EnoughAwake(c: Config, s: State) {
    |s.workers| == c.workers && AwakeCount(s.workers) >= if |s.queue| < c.workers then |s.queue| else c.workers
  }

  lemma {:induction false} AwakeUpdate(ws: seq<Worker>, w: nat, x: Worker)
    requires w < |ws|
    ensures AwakeCount(ws[w := x]) ==
            AwakeCount(ws) - (if ws[w].Asleep? then 0 else 1) + if x.Asleep? then 0 else 1
  {
    var last := |ws| - 1;
    if w == last {
      assert ws[w := x][..last] == ws[..last];
    } else {
      AwakeUpdate(ws[..last], w, x);
      assert ws[w := x][..last] == ws[..last][w := x];
    }
  }

  lemma {:induction false} AwakeWake(ws: seq<Worker>, woken: set<nat>)
    requires woken <= Sleepers(ws)
    ensures AwakeCount(Wake(ws, woken)) == AwakeCount(ws) + |woken|
  {
    if ws == [] {
      assert woken == {};
    } else {
      var last := |ws| - 1;
      var fewer := woken - {last};
      assert fewer <= Sleepers(ws[..last]);
      AwakeWake(ws[..last], fewer);
      assert Wake(ws, woken)[..last] == Wake(ws[..last], fewer);
      assert woken == if last in woken then fewer + {last} else fewer;
    }
  }

  lemma {:induction false} AllAwake(ws: seq<Worker>)
    ensures AwakeCount(ws) <= |ws|
    ensures AwakeCount(ws) == |ws| <==> Sleepers(ws) == {}
  {
    if ws != [] {
      var last := |ws| - 1;
      AllAwake(ws[..last]);
      assert Sleepers(ws) == Sleepers(ws[..last]) + if ws[last].Asleep? then {last} else {};
    }
  }

  lemma AwakeStep(c: Config, s: State, step: Step)
    requires Sensible(c) && EnoughAwake(c, s) && Enabled(s, step)
    ensures EnoughAwake(c, Apply(c, s, step))
  {
    var s' := Apply(c, s, step);
    if step.Push? {
      AwakeWake(s.workers, step.woken);
      AllAwake(s.workers);
    } else {
      AwakeUpdate(s.workers, step.w, s'.workers[step.w]);
    }
  }

  // ----- 4. Answers are justified by requests -----

  /** Some legacy request carried this id and earned this verdict. */
  ghost predicate Vouched(s: State, id: string, ok: bool) {
    exists t :: 0 <= t < |s.arrivals| && s.arrivals[t].kind == OldStyle(id, ok)
  }

  /** A registry command answers request t and took effect after t arrived. */
  predicate Commanded(s: State, t: nat, code: int, at: nat) {
    && t < |s.arrivals| && at < |s.log|
    && s.arrivals[t].born <= at
    && s.log[at].t == t && s.log[at].code == code
    && s.arrivals[t].kind == OnRegistry(s.log[at].op, s.log[at].name)
  }

  ghost predicate Justified(s: State, t: nat, a: Answer) {
    && t < |s.arrivals|
    && match a
       case Legacy(id, ok) => s.arrivals[t].kind.OldStyle? && s.arrivals[t].kind.id == id && Vouched(s, id, ok)
       case Refused => s.arrivals[t].kind.Malformed?
       case Room(code, at) => Commanded(s, t, code, at)
  }

  ghost predicate WorkerJustified(s: State, w: Worker) {
    match w
    case Ready => true
    case Asleep => true
    case Dispatching(t) => t < |s.arrivals|
    case Missed(t) => t < |s.arrivals| && s.arrivals[t].kind.OldStyle?
    case Answering(t, a) => Justified(s, t, a)
  }

  ghost predicate AllJustified(s: State) {
    && Dedup.Shaped(s.table)
    && (forall e :: e in s.table.slots && e.used ==> Vouched(s, e.id, e.result))
    && (forall w :: 0 <= w < |s.workers| ==> WorkerJustified(s, s.workers[w]))
    && (forall t :: 0 <= t < |s.arrivals| ==>
          s.arrivals[t].born <= |s.log| && s.arrivals[t].kind == Classify(s.arrivals[t].payload))
    && (forall i :: 0 <= i < |s.replies| ==>
          && Justified(s, s.replies[i].t, s.replies[i].a)
          && s.replies[i].fd == s.arrivals[s.replies[i].t].fd
          && s.replies[i].done <= |s.log|
          && (s.replies[i].a.Room? ==> s.replies[i].a.at < s.replies[i].done))
  }

  /** Later states only add arrivals and registry commands. */
  predicate Extends(s: State, s': State) {
    s.arrivals <= s'.arrivals && s.log <= s'.log
  }

  lemma VouchedLater(s: State, s': State, id: string, ok: bool)
    requires Extends(s, s') && Vouched(s, id, ok)
    ensures Vouched(s', id, ok)
  {
    var t :| 0 <= t < |s.arrivals| && s.arrivals[t].kind == OldStyle(id, ok);
    assert s'.arrivals[t] == s.arrivals[t];
  }

  lemma JustifiedLater(s: State, s': State, t: nat, a: Answer)
    requires Extends(s, s') && Justified(s, t, a)
    ensures Justified(s', t, a)
  {
    assert s'.arrivals[t] == s.arrivals[t];
    if a.Legacy? {
      VouchedLater(s, s', a.id, a.ok);
    }
  }

  lemma WorkerLater(s: State, s': State, w: Worker)
    requires Extends(s, s') && WorkerJustified(s, w)
    ensures WorkerJustified(s', w)
  {
    if w.Answering? {
      JustifiedLater(s, s', w.t, w.a);
    }
  }

  /** The only worker state a step creates is justified. */
  lemma MovedWorker(c: Config, s: State, step: Step)
    requires QueueInOrder(c, s) && AllJustified(s) && Enabled(s, step) && !step.Push?
    ensures WorkerJustified(Apply(c, s, step), Apply(c, s, step).workers[step.w])
  {
    var s' := Apply(c, s, step);
    var old' := s.workers[step.w];
    assert WorkerJustified(s, old');
    if step.LegacyFind? {
      var k := s.arrivals[old'.t].kind;
      var cached := Dedup.Cached(s.table.slots, k.id);
      if k.id != "" && cached.Some? {
        assert Dedup.Entry(k.id, cached.value, true) in s.table.slots;
      }
    }
  }

  lemma TableLater(c: Config, s: State, step: Step, e: Dedup.Entry)
    requires AllJustified(s) && Enabled(s, step)
    requires e in Apply(c, s, step).table.slots && e.used
    ensures Vouched(Apply(c, s, step), e.id, e.result)
  {
    var s' := Apply(c, s, step);
    if e in s.table.slots {
      VouchedLater(s, s', e.id, e.result);
    } else {
      var t := s.workers[step.w].t;
      assert WorkerJustified(s, s.workers[step.w]);
      assert e == Dedup.Entry(s.arrivals[t].kind.id, s.arrivals[t].kind.ok, true);
      assert s'.arrivals[t].kind == OldStyle(e.id, e.result);
    }
  }

  lemma JustifiedStep(c: Config, s: State, step: Step)
    requires QueueInOrder(c, s) && AllJustified(s) && Enabled(s, step)
    ensures AllJustified(Apply(c, s, step))
  {
    var s' := Apply(c, s, step);
    assert Extends(s, s');
    forall e | e in s'.table.slots && e.used
      ensures Vouched(s', e.id, e.result)
    {
      TableLater(c, s, step, e);
    }
    forall w | 0 <= w < |s'.workers|
      ensures WorkerJustified(s', s'.workers[w])
    {
      if !step.Push? && step.w == w {
        MovedWorker(c, s, step);
      } else if s'.workers[w] == s.workers[w] {
        WorkerLater(s, s', s.workers[w]);
      }
    }
    forall i | 0 <= i < |s'.replies|
      ensures Justified(s', s'.replies[i].t, s'.replies[i].a)
      ensures s'.replies[i].fd == s'.arrivals[s'.replies[i].t].fd
      ensures s'.replies[i].done <= |s'.log| && (s'.replies[i].a.Room? ==> s'.replies[i].a.at < s'.replies[i].done)
    {
      if i < |s.replies| {
        assert s'.replies[i] == s.replies[i];
        JustifiedLater(s, s', s.replies[i].t, s.replies[i].a);
      } else {
        assert step.Send? && WorkerJustified(s, s.workers[step.w]);
        JustifiedLater(s, s', s'.replies[i].t, s'.replies[i].a);
      }
    }
  }

  // ----- 5. The room registry is linearizable -----

  /** The set of names after running the logged commands on a plain set, if every code agrees. */
  ghost function Replay(log: seq<RoomCall>, cap: nat): Option<set<string>> {
    if log == [] then Some({})
    else
      var call := log[|log| - 1];
      match Replay(log[..|log| - 1], cap)
      case None => None
      case Some(names) =>
        var (code, after) := Rooms.Reference(names, cap, call.op, call.name);
        if code == call.code then Some(after) else None
  }

  ghost predicate Linearized(c: Config, s: State) {
    && Rooms.Distinct(s.rooms) && |s.rooms| <= c.rooms
    && Replay(s.log, c.rooms) == Some(Rooms.Names(s.rooms))
  }

  lemma LinearStep(c: Config, s: State, step: Step)
    requires Linearized(c, s) && Enabled(s, step)
    ensures Linearized(c, Apply(c, s, step))
  {
    var s' := Apply(c, s, step);
    if step.CliExecute? && s'.log != s.log {
      var call := s'.log[|s.log|];
      assert s'.log[..|s.log|] == s.log;
      Rooms.ExecuteIsReference(s.rooms, c.rooms, call.op, call.name);
    }
  }

  // ----- 6. The registry runs the requests' own commands, each at most once -----

  /** How many workers are about to look at request t. */
  function OpenCount(ws: seq<Worker>, t: nat): nat {
    if ws == [] then 0
    else OpenCount(ws[..|ws| - 1], t) + if ws[|ws| - 1] == Dispatching(t) then 1 else 0
  }

  /** How often request t ran a command. */
  function RunCount(log: seq<RoomCall>, t: nat): nat {
    if log == [] then 0
    else RunCount(log[..|log| - 1], t) + if log[|log| - 1].t == t then 1 else 0
  }

  /** Still waiting, about to be looked at, or executed: at most one of them, at most once. */
  function Chances(s: State, t: nat): nat {
    (if t >= Base(s) then 1 else 0) + OpenCount(s.workers, t) + RunCount(s.log, t)
  }

  ghost predicate OwnCommands(s: State) {
    && (forall t: nat :: Chances(s, t) <= 1)
    && (forall at :: 0 <= at < |s.log| ==>
          && s.log[at].t < |s.arrivals|
          && s.arrivals[s.log[at].t].kind == OnRegistry(s.log[at].op, s.log[at].name))
  }

  lemma {:induction false} OpenUpdate(ws: seq<Worker>, w: nat, x: Worker, t: nat)
    requires w < |ws|
    ensures OpenCount(ws[w := x], t) ==
            OpenCount(ws, t) - (if ws[w] == Dispatching(t) then 1 else 0) + if x == Dispatching(t) then 1 else 0
  {
    var last := |ws| - 1;
    if w == last {
      assert ws[w := x][..last] == ws[..last];
    } else {
      OpenUpdate(ws[..last], w, x, t);
      assert ws[w := x][..last] == ws[..last][w := x];
    }
  }

  lemma {:induction false} OpenWake(ws: seq<Worker>, woken: set<nat>, t: nat)
    requires woken <= Sleepers(ws)
    ensures OpenCount(Wake(ws, woken), t) == OpenCount(ws, t)
  {
    if ws != [] {
      var last := |ws| - 1;
      var fewer := woken - {last};
      assert fewer <= Sleepers(ws[..last]);
      OpenWake(ws[..last], fewer, t);
      assert Wake(ws, woken)[..last] == Wake(ws[..last], fewer);
    }
  }

  lemma ExecuteChances(c: Config, s: State, step: Step, t: nat)
    requires Enabled(s, step) && step.CliExecute? && Chances(s, t) <= 1
    ensures Chances(Apply(c, s, step), t) <= 1
  {
    var s' := Apply(c, s, step);
    OpenUpdate(s.workers, step.w, s'.workers[step.w], t);
    if s'.log != s.log {
      assert s'.log[..|s.log|] == s.log;
    }
  }

  lemma ChancesStep(c: Config, s: State, step: Step, t: nat)
    requires Sensible(c) && QueueInOrder(c, s) && Enabled(s, step) && Chances(s, t) <= 1
    ensures Chances(Apply(c, s, step), t) <= 1
  {
    if step.Push? {
      OpenWake(s.workers, step.woken, t);
    } else if step.CliExecute? {
      ExecuteChances(c, s, step, t);
    } else {
      OpenUpdate(s.workers, step.w, Apply(c, s, step).workers[step.w], t);
    }
  }

  lemma OwnStep(c: Config, s: State, step: Step)
    requires Sensible(c) && QueueInOrder(c, s) && OwnCommands(s) && Enabled(s, step)
    ensures OwnCommands(Apply(c, s, step))
  {
    forall t: nat
      ensures Chances(Apply(c, s, step), t) <= 1
    {
      ChancesStep(c, s, step, t);
    }
  }

  lemma {:induction false} RunTwice(log: seq<RoomCall>, a: nat, b: nat)
    requires a < b < |log| && log[a].t == log[b].t
    ensures RunCount(log, log[a].t) >= 2
  {
    var last := |log| - 1;
    if b < last {
      RunTwice(log[..last], a, b);
    } else {
      RunOnce(log[..last], a);
    }
  }

  lemma {:induction false} RunOnce(log: seq<RoomCall>, a: nat)
    requires a < |log|
    ensures RunCount(log, log[a].t) >= 1
  {
    var last := |log| - 1;
    if a < last {
      RunOnce(log[..last], a);
    }
  }

  // ----- Whole runs -----

  ghost predicate Inv(c: Config, s: State) {
    && QueueInOrder(c, s) && EachOnce(s) && EnoughAwake(c, s)
    && AllJustified(s) && Linearized(c, s) && OwnCommands(s)
  }

  ghost predicate IsRun(c: Config, run: seq<State>, steps: seq<Step>) {
    && Sensible(c)
    && |run| == |steps| + 1
    && run[0] == Initial(c)
    && forall i :: 0 <= i < |steps| ==> Enabled(run[i], steps[i]) && run[i + 1] == Apply(c, run[i], steps[i])
  }

  lemma {:induction false} NobodyHolds(n: nat, t: nat)
    ensures HeldCount(seq(n, _ => Ready), t) == 0 && AwakeCount(seq(n, _ => Ready)) == n
  {
    if n > 0 {
      NobodyHolds(n - 1, t);
      assert seq(n, _ => Ready)[..n - 1] == seq(n - 1, _ => Ready);
    }
  }

  lemma {:induction false} NobodyOpens(n: nat, t: nat)
    ensures OpenCount(seq(n, _ => Ready), t) == 0
  {
    if n > 0 {
      NobodyOpens(n - 1, t);
      assert seq(n, _ => Ready)[..n - 1] == seq(n - 1, _ => Ready);
    }
  }

  lemma InitialInv(c: Config)
    requires Sensible(c)
    ensures Inv(c, Initial(c))
  {
    forall t: nat
      ensures Places(Initial(c), t) == 0
    {
      NobodyHolds(c.workers, t);
    }
    NobodyHolds(c.workers, 0);
    forall t: nat
      ensures Chances(Initial(c), t) <= 1
    {
      NobodyOpens(c.workers, t);
    }
    assert Rooms.Names([]) == {};
  }

  /** Every state of every interleaving satisfies all six invariants. */
  lemma {:induction false} Safety(c: Config, run: seq<State>, steps: seq<Step>)
    requires IsRun(c, run, steps)
    ensures forall i :: 0 <= i < |run| ==> Inv(c, run[i])
    decreases |steps|
  {
    if steps == [] {
      InitialInv(c);
    } else {
      var n := |steps| - 1;
      Safety(c, run[..n + 1], steps[..n]);
      assert run[..n + 1][n] == run[n];
      QueueStep(c, run[n], steps[n]);
      OnceStep(c, run[n], steps[n]);
      AwakeStep(c, run[n], steps[n]);
      JustifiedStep(c, run[n], steps[n]);
      LinearStep(c, run[n], steps[n]);
      OwnStep(c, run[n], steps[n]);
      assert forall i :: 0 <= i <= n ==> run[i] == run[..n + 1][i];
    }
  }

  /** In every reachable state at least min(N, qlen) workers are not asleep. */
  lemma NoLostWakeup(c: Config, run: seq<State>, steps: seq<Step>, i: nat)
    requires IsRun(c, run, steps) && i < |run|
    ensures var s := run[i];
            AwakeCount(s.workers) >= if |s.queue| < c.workers then |s.queue| else c.workers
  {
    Safety(c, run, steps);
  }

  // ----- What the invariants mean for clients -----

  /** A payload as it was pushed, and the descriptor it came from. */
  datatype Packet = Packet(payload: string, fd: int)

  /** What was pushed, by the steps alone. */
  function Pushes(steps: seq<Step>): seq<Packet> {
    if steps == [] then []
    else
      var before, step := Pushes(steps[..|steps| - 1]), steps[|steps| - 1];
      if step.Push? then before + [Packet(step.payload, step.fd)] else before
  }

  /** What a state holds of arrivals is what was pushed. */
  ghost predicate Holding(s: State, pushed: seq<Packet>) {
    && |s.arrivals| == |pushed|
    && forall t :: 0 <= t < |pushed| ==>
         && s.arrivals[t].payload == pushed[t].payload && s.arrivals[t].fd == pushed[t].fd
         && s.arrivals[t].kind == Classify(pushed[t].payload)
  }

  /** In every run the requests are the payloads pushed, in order, judged by what is in them. */
  lemma {:induction false} ArrivalsArePushes(c: Config, run: seq<State>, steps: seq<Step>, i: nat)
    requires IsRun(c, run, steps) && i < |run|
    ensures Holding(run[i], Pushes(steps[..i]))
  {
    if i > 0 {
      ArrivalsArePushes(c, run, steps, i - 1);
      assert steps[..i][..i - 1] == steps[..i - 1];
      assert run[i] == Apply(c, run[i - 1], steps[i - 1]);
    }
  }

  /**
   Every reply goes to the descriptor its request came from, and the request alone decides
   whether it is a legacy reply, a refusal or the result of a room command.
   */
  lemma ReplyKind(c: Config, run: seq<State>, steps: seq<Step>, i: nat, r: nat)
    requires IsRun(c, run, steps) && i < |run| && r < |run[i].replies|
    ensures var reply, pushed := run[i].replies[r], Pushes(steps[..i]);
            && reply.t < |pushed| && reply.fd == pushed[reply.t].fd
            && var p := pushed[reply.t].payload;
               && (reply.a.Legacy? <==> !IsCli(p))
               && (reply.a.Refused? <==> IsCli(p) && ParseCli(p) == BadRequest)
               && (reply.a.Room? <==> IsCli(p) && ParseCli(p).OnRoom?)
  {
    Safety(c, run, steps);
    ArrivalsArePushes(c, run, steps, i);
    assert Justified(run[i], run[i].replies[r].t, run[i].replies[r].a);
  }

  /** Some pushed legacy request carries this id and deserves this verdict. */
  ghost predicate Earned(pushed: seq<Packet>, id: string, ok: bool) {
    exists t :: 0 <= t < |pushed| && Deserves(pushed[t].payload, id, ok)
  }

  predicate Deserves(p: string, id: string, ok: bool) {
    !IsCli(p) && EffectiveId(p) == id && Verdict(p) == ok
  }

  lemma VouchedIsEarned(s: State, pushed: seq<Packet>, id: string, ok: bool)
    requires Holding(s, pushed) && Vouched(s, id, ok)
    ensures Earned(pushed, id, ok)
  {
    var t :| 0 <= t < |s.arrivals| && s.arrivals[t].kind == OldStyle(id, ok);
    assert Deserves(pushed[t].payload, id, ok);
  }

  /**
   A legacy reply carries the id of the payload it answers and the verdict some pushed payload
   with that id deserves; if all of them deserve the same, the cache is invisible.
   */
  lemma LegacyReply(c: Config, run: seq<State>, steps: seq<Step>, i: nat, r: nat)
    requires IsRun(c, run, steps) && i < |run| && r < |run[i].replies| && run[i].replies[r].a.Legacy?
    ensures var reply, pushed := run[i].replies[r], Pushes(steps[..i]);
            && reply.t < |pushed| && reply.a.id == EffectiveId(pushed[reply.t].payload)
            && Earned(pushed, reply.a.id, reply.a.ok)
            && (!Earned(pushed, reply.a.id, !reply.a.ok) ==> reply.a.ok == Verdict(pushed[reply.t].payload))
  {
    ReplyKind(c, run, steps, i, r);
    Safety(c, run, steps);
    ArrivalsArePushes(c, run, steps, i);
    var s, reply, pushed := run[i], run[i].replies[r], Pushes(steps[..i]);
    assert Justified(s, reply.t, reply.a);
    VouchedIsEarned(s, pushed, reply.a.id, reply.a.ok);
    var p := pushed[reply.t].payload;
    assert Deserves(p, reply.a.id, Verdict(p));
  }

  lemma {:induction false} ReplayPrefix(log: seq<RoomCall>, cap: nat, k: nat)
    requires Replay(log, cap).Some? && k <= |log|
    ensures Replay(log[..k], cap).Some?
  {
    if k < |log| {
      var shorter := log[..|log| - 1];
      ReplayPrefix(shorter, cap, k);
      assert shorter[..k] == log[..k];
    } else {
      assert log[..k] == log;
    }
  }

  /** The code a plain set of names gives to the at-th command. */
  ghost predicate SetCode(log: seq<RoomCall>, cap: nat, at: nat, code: int)
    requires at < |log|
  {
    && Replay(log[..at], cap).Some?
    && Rooms.Reference(Replay(log[..at], cap).value, cap, log[at].op, log[at].name).0 == code
  }

  lemma LoggedCode(log: seq<RoomCall>, cap: nat, at: nat)
    requires Replay(log, cap).Some? && at < |log|
    ensures SetCode(log, cap, at, log[at].code)
  {
    var upto := log[..at + 1];
    ReplayPrefix(log, cap, at + 1);
    assert upto[..at] == log[..at] && upto[at] == log[at];
  }

  /**
   The code a client receives for a room command is the code of a plain set of names at one
   moment between the request's arrival and the reply, in one order for everybody: a request
   that arrives after another's reply left takes effect later.
   */
  lemma RoomReply(c: Config, run: seq<State>, steps: seq<Step>, i: nat, r: nat)
    requires IsRun(c, run, steps) && i < |run| && r < |run[i].replies| && run[i].replies[r].a.Room?
    ensures var s, reply, pushed := run[i], run[i].replies[r], Pushes(steps[..i]);
            var at := reply.a.at;
            && reply.t < |pushed| == |s.arrivals| && s.arrivals[reply.t].born <= at < reply.done <= |s.log|
            && s.log[at].t == reply.t
            && ParseCli(pushed[reply.t].payload) == OnRoom(s.log[at].op, s.log[at].name)
            && SetCode(s.log, c.rooms, at, reply.a.code)
  {
    Safety(c, run, steps);
    ArrivalsArePushes(c, run, steps, i);
    var s, reply := run[i], run[i].replies[r];
    assert Justified(s, reply.t, reply.a);
    LoggedCode(s.log, c.rooms, reply.a.at);
  }

  /** In every reachable state the registry has run commands of requests only, and no request's twice. */
  lemma CommandsAreRequests(c: Config, run: seq<State>, steps: seq<Step>, i: nat, a: nat)
    requires IsRun(c, run, steps) && i < |run| && a < |run[i].log|
    ensures var s, pushed := run[i], Pushes(steps[..i]);
            && s.log[a].t < |pushed| && IsCli(pushed[s.log[a].t].payload)
            && ParseCli(pushed[s.log[a].t].payload) == OnRoom(s.log[a].op, s.log[a].name)
            && forall b :: 0 <= b < |s.log| && b != a ==> s.log[b].t != s.log[a].t
  {
    Safety(c, run, steps);
    ArrivalsArePushes(c, run, steps, i);
    var s := run[i];
    assert Chances(s, s.log[a].t) <= 1;
    forall b | 0 <= b < |s.log| && b != a
      ensures s.log[b].t != s.log[a].t
    {
      if s.log[b].t == s.log[a].t {
        RunTwice(s.log, if a < b then a else b, if a < b then b else a);
      }
    }
  }

  /** From an earlier to a later state of a run the log only grows, and whoever arrives finds it at least that long. */
  lemma {:induction false} LaterArrivals(c: Config, run: seq<State>, steps: seq<Step>, j: nat, i: nat)
    requires IsRun(c, run, steps) && j <= i < |run|
    ensures run[j].log <= run[i].log && |run[j].arrivals| <= |run[i].arrivals|
    ensures forall t :: |run[j].arrivals| <= t < |run[i].arrivals| ==> run[i].arrivals[t].born >= |run[j].log|
    decreases i - j
  {
    if j < i {
      LaterArrivals(c, run, steps, j, i - 1);
      assert run[i] == Apply(c, run[i - 1], steps[i - 1]);
      Growing(c, run[i - 1], steps[i - 1]);
    }
  }

  lemma Growing(c: Config, s: State, step: Step)
    requires Enabled(s, step)
    ensures var s' := Apply(c, s, step);
            && s.log <= s'.log && s.arrivals <= s'.arrivals
            && forall t :: |s.arrivals| <= t < |s'.arrivals| ==> s'.arrivals[t].born == |s.log|
  {
  }

  /** Real time is respected: if a request arrives after another was answered, its command takes effect after the other's. */
  lemma RoomOrder(c: Config, run: seq<State>, steps: seq<Step>, j: nat, i: nat, r1: nat, r2: nat)
    requires IsRun(c, run, steps) && j <= i < |run| && r1 < |run[j].replies| && r2 < |run[i].replies|
    requires run[j].replies[r1].a.Room? && run[i].replies[r2].a.Room?
    requires run[i].replies[r2].t >= |run[j].arrivals|
    ensures run[j].log <= run[i].log && run[j].replies[r1].a.at < run[i].replies[r2].a.at
  {
    RoomReply(c, run, steps, j, r1);
    RoomReply(c, run, steps, i, r2);
    LaterArrivals(c, run, steps, j, i);
  }

  /** The requests a step takes off the queue. */
  function RemovedBy(c: Config, s: State, step: Step): seq<nat>
    requires Enabled(s, step)
  {
    match step
    case Push(_, _, _) => WorkQueue.Displaced(s.queue, c.depth).0
    case Take(_) => [s.queue[0]]
    case _ => []
  }

  function Removed(c: Config, run: seq<State>, steps: seq<Step>): seq<nat>
    requires |run| == |steps| + 1 && forall i :: 0 <= i < |steps| ==> Enabled(run[i], steps[i])
    decreases |steps|
  {
    if steps == [] then []
    else
      var n := |steps| - 1;
      Removed(c, run[..n + 1], steps[..n]) + RemovedBy(c, run[n], steps[n])
  }

  function FirstTickets(n: nat): seq<nat> {
    seq(n, i => i)
  }

  lemma Regroup(before: seq<nat>, gone: seq<nat>, kept: seq<nat>, n: nat)
    requires before + (gone + kept) == FirstTickets(n)
    ensures (before + gone) + (kept + [n]) == FirstTickets(n + 1)
  {
    assert (before + gone) + (kept + [n]) == (before + (gone + kept)) + [n];
    assert FirstTickets(n + 1) == FirstTickets(n) + [n];
  }

  lemma RemovalStep(c: Config, s: State, step: Step, before: seq<nat>)
    requires Enabled(s, step) && before + s.queue == FirstTickets(|s.arrivals|)
    ensures var s' := Apply(c, s, step);
            (before + RemovedBy(c, s, step)) + s'.queue == FirstTickets(|s'.arrivals|)
  {
    match step {
      case Push(_, _, _) =>
        var (gone, kept) := WorkQueue.Displaced(s.queue, c.depth);
        Regroup(before, gone, kept, |s.arrivals|);
      case Take(_) =>
        assert (before + [s.queue[0]]) + s.queue[1..] == before + s.queue;
      case _ =>
        assert before + [] == before;
    }
  }

  /** Taken and dropped requests in removal order, followed by the queue, are the push order. */
  lemma {:induction false} RemovalOrder(c: Config, run: seq<State>, steps: seq<Step>)
    requires IsRun(c, run, steps)
    ensures Removed(c, run, steps) + run[|steps|].queue == FirstTickets(|run[|steps|].arrivals|)
    decreases |steps|
  {
    if steps != [] {
      var n := |steps| - 1;
      RemovalOrder(c, run[..n + 1], steps[..n]);
      RemovalStep(c, run[n], steps[n], Removed(c, run[..n + 1], steps[..n]));
    }
  }

  // ----- Once pushes stop, everything is answered -----

  function Rank(w: Worker): nat {
    match w
    case Asleep => 0
    case Ready => 1
    case Answering(_, _) => 2
    case Missed(_) => 3
    case Dispatching(_) => 4
  }

  function Load(ws: seq<Worker>): nat {
    if ws == [] then 0 else Load(ws[..|ws| - 1]) + Rank(ws[|ws| - 1])
  }

  function Pending(s: State): nat {
    4 * |s.queue| + Load(s.workers)
  }

  /** A worker's own move, as opposed to a push or a spurious wakeup. */
  predicate OwnMove(step: Step) {
    !step.Push? && !step.Spurious?
  }

  lemma {:induction false} LoadUpdate(ws: seq<Worker>, w: nat, x: Worker)
    requires w < |ws|
    ensures Load(ws[w := x]) == Load(ws) - Rank(ws[w]) + Rank(x)
  {
    var last := |ws| - 1;
    if w == last {
      assert ws[w := x][..last] == ws[..last];
    } else {
      LoadUpdate(ws[..last], w, x);
      assert ws[w := x][..last] == ws[..last][w := x];
    }
  }

  lemma MoveProgresses(c: Config, s: State, step: Step)
    requires Enabled(s, step) && OwnMove(step)
    ensures Pending(Apply(c, s, step)) < Pending(s)
  {
    LoadUpdate(s.workers, step.w, Apply(c, s, step).workers[step.w]);
  }

  /** However the workers are scheduled, they can make only so many moves without a push. */
  lemma {:induction false} MovesAreBounded(c: Config, run: seq<State>, steps: seq<Step>)
    requires |run| == |steps| + 1
    requires forall i :: 0 <= i < |steps| ==>
               OwnMove(steps[i]) && Enabled(run[i], steps[i]) && run[i + 1] == Apply(c, run[i], steps[i])
    ensures |steps| + Pending(run[|steps|]) <= Pending(run[0])
    decreases |steps|
  {
    if steps != [] {
      var n := |steps| - 1;
      MovesAreBounded(c, run[..n + 1], steps[..n]);
      MoveProgresses(c, run[n], steps[n]);
    }
  }

  lemma {:induction false} AllAsleep(ws: seq<Worker>, t: nat)
    requires forall w :: 0 <= w < |ws| ==> ws[w] == Asleep
    ensures AwakeCount(ws) == 0 && HeldCount(ws, t) == 0
  {
    if ws != [] {
      AllAsleep(ws[..|ws| - 1], t);
    }
  }

  /** A worker that is up always has a move. */
  lemma CanMove(s: State, w: nat) returns (step: Step)
    requires AllJustified(s) && w < |s.workers| && s.workers[w] != Asleep
    ensures OwnMove(step) && Enabled(s, step)
  {
    assert WorkerJustified(s, s.workers[w]);
    match s.workers[w] {
      case Ready => step := if s.queue == [] then Sleep(w) else Take(w);
      case Dispatching(t) => step := if s.arrivals[t].kind.OldStyle? then LegacyFind(w) else CliExecute(w);
      case Missed(_) => step := LegacyPut(w);
      case Answering(_, _) => step := Send(w);
    }
  }

  ghost predicate Quiet(s: State) {
    forall step :: OwnMove(step) ==> !Enabled(s, step)
  }

  lemma QuietMeansAsleep(s: State)
    requires AllJustified(s) && Quiet(s)
    ensures forall w :: 0 <= w < |s.workers| ==> s.workers[w] == Asleep
  {
    forall w | 0 <= w < |s.workers| && s.workers[w] != Asleep
      ensures false
    {
      var step := CanMove(s, w);
    }
  }

  /**
   When no worker can move, nothing is stuck: the queue is empty, all workers wait, and
   every request ever pushed was either dropped or answered, exactly once.
   */
  lemma QuietMeansDone(c: Config, run: seq<State>, steps: seq<Step>)
    requires IsRun(c, run, steps) && Quiet(run[|steps|])
    ensures var s := run[|steps|];
            && s.queue == [] && (forall w :: 0 <= w < |s.workers| ==> s.workers[w] == Asleep)
            && forall t: nat :: t < |s.arrivals| ==> DropCount(s.dropped, t) + ReplyCount(s.replies, t) == 1
  {
    Safety(c, run, steps);
    var s := run[|steps|];
    QuietMeansAsleep(s);
    AllAsleep(s.workers, 0);
    forall t: nat | t < |s.arrivals|
      ensures DropCount(s.dropped, t) + ReplyCount(s.replies, t) == 1
    {
      AllAsleep(s.workers, t);
      assert Places(s, t) == 1;
    }
  }

  // ----- Nothing is dropped unless the queue is full -----

  lemma DropsOnlyWhenFull(c: Config, s: State, step: Step)
    requires Sensible(c) && QueueInOrder(c, s) && Enabled(s, step)
    ensures |s.queue| < c.depth ==> Apply(c, s, step).dropped == s.dropped
    ensures |s.queue| == c.depth && step.Push? ==> Apply(c, s, step).dropped == s.dropped + [s.queue[0]]
  {
    if step.Push? {
      var (gone, kept) := WorkQueue.Displaced(s.queue, c.depth);
      assert |gone| == 1 ==> gone == [s.queue[0]];
    }
  }

  /** No push so far found the queue full. */
  ghost predicate NeverFull(c: Config, run: seq<State>, steps: seq<Step>, i: nat)
    requires |run| == |steps| + 1 && i <= |steps|
  {
    forall k :: 0 <= k < i && steps[k].Push? ==> |run[k].queue| < c.depth
  }

  lemma {:induction false} NothingDropped(c: Config, run: seq<State>, steps: seq<Step>, i: nat)
    requires IsRun(c, run, steps) && i <= |steps|
    ensures run[i].dropped == [] <==> NeverFull(c, run, steps, i)
  {
    if i > 0 {
      NothingDropped(c, run, steps, i - 1);
      Safety(c, run, steps);
      assert run[i] == Apply(c, run[i - 1], steps[i - 1]);
      DropsOnlyWhenFull(c, run[i - 1], steps[i - 1]);
    }
  }

  /** If the queue was never full at a push, then once no worker can move every request has been answered exactly once. */
  lemma AllAnswered(c: Config, run: seq<State>, steps: seq<Step>)
    requires IsRun(c, run, steps) && Quiet(run[|steps|]) && NeverFull(c, run, steps, |steps|)
    ensures forall t: nat :: t < |Pushes(steps)| ==> ReplyCount(run[|steps|].replies, t) == 1
  {
    QuietMeansDone(c, run, steps);
    NothingDropped(c, run, steps, |steps|);
    ArrivalsArePushes(c, run, steps, |steps|);
    assert steps[..|steps|] == steps;
  }
}
