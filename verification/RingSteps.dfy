/**
 The message ring shared by one producer and one consumer, at the granularity of single
 loads and stores of `head`, `tail` and slots. As long as no push takes the full branch,
 the ring is a faithful queue and the two threads never touch the same slot; the full
 branch makes the producer write `head` as well, and then a message can vanish.
 */
module RingSteps {
  import opened FieldCodec
  import opened Ring

  datatype Producer =
    | PIdle
    | PTail(msg: string, t: nat)
    | PHead(msg: string, t: nat, h: nat, seen: nat)      // seen: messages popped when head was loaded
    | PFreed(msg: string, t: nat, h: nat)
    | PAdvanced(msg: string, t: nat)
    | PWritten(msg: string, t: nat)

  datatype Consumer =
    | CIdle
    | CHead(h: nat)
    | CTail(h: nat, t: nat, seen: nat)                    // seen: messages pushed when tail was loaded
    | CRead(h: nat, out: Option<string>)
    | CCleared(h: nat, out: Option<string>)

  datatype State = State(
    buf: seq<Option<string>>, head: nat, tail: nat,
    prod: Producer, cons: Consumer,
    pushed: seq<string>, popped: seq<Option<string>>, freed: seq<Option<string>>)

  datatype Step =
    | PushBegin(msg: string) | PushLoadHead | PushWrite | PushFree | PushStoreHead | PushPublish
    | PopBegin | PopLoadTail | PopEmpty | PopRead | PopClear | PopAdvance

  function Initial(cap: nat): State {
    State(seq(cap, _ => None), 0, 0, PIdle, CIdle, [], [], [])
  }

  predicate Enabled(s: State, step: Step) {
    var n := |s.buf|;
    match step
    case PushBegin(_) => s.prod.PIdle?
    case PushLoadHead => s.prod.PTail?
    case PushWrite =>
      (s.prod.PAdvanced? || (s.prod.PHead? && NextIndex(s.prod.t, n) != s.prod.h)) && s.prod.t < n
    case PushFree => s.prod.PHead? && NextIndex(s.prod.t, n) == s.prod.h && s.prod.h < n
    case PushStoreHead => s.prod.PFreed?
    case PushPublish => s.prod.PWritten?
    case PopBegin => s.cons.CIdle?
    case PopLoadTail => s.cons.CHead?
    case PopEmpty => s.cons.CTail? && s.cons.h == s.cons.t
    case PopRead => s.cons.CTail? && s.cons.h != s.cons.t && s.cons.h < n
    case PopClear => s.cons.CRead? && s.cons.h < n
    case PopAdvance => s.cons.CCleared?
  }

  function Apply(s: State, step: Step): State
    requires Enabled(s, step)
  {
    var n := |s.buf|;
    var p, q := s.prod, s.cons;
    match step
    case PushBegin(msg) => s.(prod := PTail(msg, s.tail))
    case PushLoadHead => s.(prod := PHead(p.msg, p.t, s.head, |s.popped|))
    case PushWrite => s.(buf := s.buf[p.t := Some(p.msg)], prod := PWritten(p.msg, p.t))
    case PushFree => s.(buf := s.buf[p.h := None], freed := s.freed + [s.buf[p.h]], prod := PFreed(p.msg, p.t, p.h))
    case PushStoreHead => s.(head := NextIndex(p.h, n), prod := PAdvanced(p.msg, p.t))
    case PushPublish => s.(tail := NextIndex(p.t, n), pushed := s.pushed + [p.msg], prod := PIdle)
    case PopBegin => s.(cons := CHead(s.head))
    case PopLoadTail => s.(cons := CTail(q.h, s.tail, |s.pushed|))
    case PopEmpty => s.(cons := CIdle)
    case PopRead => s.(cons := CRead(q.h, s.buf[q.h]))
    case PopClear => s.(buf := s.buf[q.h := None], cons := CCleared(q.h, q.out))
    case PopAdvance => s.(head := NextIndex(q.h, n), popped := s.popped + [q.out], cons := CIdle)
  }

  ghost predicate Reaches(s: State, steps: seq<Step>, s': State)
    decreases |steps|
  {
    if steps == [] then s == s'
    else Enabled(s, steps[0]) && Reaches(Apply(s, steps[0]), steps[1..], s')
  }

  // ----- Invariant of runs without the full branch -----

  function Depth(s: State): int {
    if s.tail >= s.head then s.tail - s.head else |s.buf| - (s.head - s.tail)
  }

  /** Head, tail and the numbers of messages pushed and popped agree. */
  predicate Indices(s: State) {
    var n, live := |s.buf|, |s.pushed| - |s.popped|;
    && n >= 2 && s.head < n && 0 <= live < n
    && s.tail == Slot(s.head, live, n)
  }

  predicate ProducerOk(s: State)
    requires Indices(s)
  {
    var n, live := |s.buf|, |s.pushed| - |s.popped|;
    match s.prod
    case PIdle => true
    case PTail(_, t) => t == s.tail
    case PHead(_, t, h, seen) =>
      && t == s.tail && h < n
      && 0 <= |s.popped| - seen && |s.pushed| - seen < n
      && s.head == Slot(h, |s.popped| - seen, n)
    case PWritten(msg, t) => t == s.tail && live < n - 1 && s.buf[t] == Some(msg)
    case _ => false
  }

  predicate ConsumerOk(s: State)
    requires Indices(s)
  {
    match s.cons
    case CIdle => true
    case CHead(h) => h == s.head
    case CTail(h, t, seen) =>
      h == s.head && |s.popped| <= seen <= |s.pushed| && t == Slot(s.head, seen - |s.popped|, |s.buf|)
    case CRead(h, out) => h == s.head && |s.popped| < |s.pushed| && out == Some(s.pushed[|s.popped|])
    case CCleared(h, out) => h == s.head && |s.popped| < |s.pushed| && out == Some(s.pushed[|s.popped|])
  }

  /** Live slots hold the messages pushed and not yet popped; popped ones came out in order. */
  predicate SlotsOk(s: State)
    requires Indices(s)
  {
    var n, done := |s.buf|, |s.popped|;
    && (forall k :: (if s.cons.CCleared? then 1 else 0) <= k < |s.pushed| - done ==>
          s.buf[Slot(s.head, k, n)] == Some(s.pushed[done + k]))
    && (s.cons.CCleared? ==> s.buf[s.head] == None)
    && (forall k :: |s.pushed| - done <= k < n && !(s.prod.PWritten? && k == |s.pushed| - done) ==>
          s.buf[Slot(s.head, k, n)] == None)
    && (forall k :: 0 <= k < done ==> s.popped[k] == Some(s.pushed[k]))
  }

  /** `freed` is empty exactly in runs where no push found the ring full. */
  predicate Inv(s: State) {
    s.freed == [] ==> Indices(s) && ProducerOk(s) && ConsumerOk(s) && SlotsOk(s)
  }

  lemma ProducerStep(s: State, step: Step)
    requires Inv(s) && s.freed == [] && Enabled(s, step)
    requires step.PushBegin? || step.PushLoadHead? || step.PushWrite?
    ensures Inv(Apply(s, step))
  {
  }

  lemma PublishStep(s: State)
    requires Inv(s) && s.freed == [] && Enabled(s, PushPublish)
    ensures Inv(Apply(s, PushPublish))
  {
  }

  lemma ConsumerStep(s: State, step: Step)
    requires Inv(s) && s.freed == [] && Enabled(s, step)
    requires step.PopBegin? || step.PopLoadTail? || step.PopEmpty? || step.PopRead?
    ensures Inv(Apply(s, step))
  {
    assert Slot(s.head, 0, |s.buf|) == s.head;
  }

  lemma ClearStep(s: State)
    requires Inv(s) && s.freed == [] && Enabled(s, PopClear)
    ensures Inv(Apply(s, PopClear))
  {
    assert Slot(s.head, 0, |s.buf|) == s.head;
    assert forall k :: 0 < k < |s.buf| ==> Slot(s.head, k, |s.buf|) != s.head;
  }

  lemma AdvanceStep(s: State)
    requires Inv(s) && s.freed == [] && Enabled(s, PopAdvance)
    ensures Inv(Apply(s, PopAdvance))
  {
    var n, s' := |s.buf|, Apply(s, PopAdvance);
    assert forall k :: 0 <= k < n - 1 ==> Slot(s'.head, k, n) == Slot(s.head, k + 1, n);
    assert Slot(s'.head, n - 1, n) == s.head;
    assert SlotsOk(s') by {
      forall k | 0 <= k < n
        ensures s'.buf[Slot(s'.head, k, n)] == s.buf[Slot(s.head, if k + 1 < n then k + 1 else 0, n)]
      {
      }
    }
  }

  lemma InvStep(s: State, step: Step)
    requires Inv(s) && Enabled(s, step)
    ensures Inv(Apply(s, step))
  {
    if s.freed == [] && !step.PushFree? && !step.PushStoreHead? {
      match step {
        case PushBegin(_) => ProducerStep(s, step);
        case PushLoadHead => ProducerStep(s, step);
        case PushWrite => ProducerStep(s, step);
        case PushPublish => PublishStep(s);
        case PopClear => ClearStep(s);
        case PopAdvance => AdvanceStep(s);
        case _ => ConsumerStep(s, step);
      }
    }
  }

  lemma {:induction false} RunInv(s: State, steps: seq<Step>, s': State)
    requires Inv(s) && Reaches(s, steps, s')
    ensures Inv(s') && |s'.buf| == |s.buf|
    decreases |steps|
  {
    if steps != [] {
      InvStep(s, steps[0]);
      RunInv(Apply(s, steps[0]), steps[1..], s');
    }
  }

  function Messages(ms: seq<string>): (r: seq<Option<string>>)
    ensures |r| == |ms| && forall i :: 0 <= i < |r| ==> r[i] == Some(ms[i])
  {
    seq(|ms|, i requires 0 <= i < |ms| => Some(ms[i]))
  }

  /** The published part of the ring; a message being taken counts until head moves past it. */
  function Published(s: State): seq<Option<string>>
    requires Indices(s)
  {
    seq(|s.pushed| - |s.popped|, k requires 0 <= k < |s.pushed| - |s.popped| =>
      if k == 0 && s.cons.CCleared? then s.cons.out else s.buf[Slot(s.head, k, |s.buf|)])
  }

  /** Slots the next step of either thread may fill or take; the full branch, which also frees one, is left aside. */
  function ProducerTouches(s: State): set<nat> {
    if Enabled(s, PushWrite) then {s.prod.t} else {}
  }

  function ConsumerTouches(s: State): set<nat> {
    if Enabled(s, PopRead) || Enabled(s, PopClear) then {s.cons.h} else {}
  }

  /**
   In every interleaving where no push found the ring full: what was popped, followed by
   what is in the ring, is what was pushed; the producer only fills empty slots, the
   consumer only takes filled ones, and they never work on the same slot.
   */
  lemma QueueRefinement(cap: nat, steps: seq<Step>, s: State)
    requires cap >= 2 && Reaches(Initial(cap), steps, s) && s.freed == []
    ensures Indices(s) && Depth(s) == |s.pushed| - |s.popped| < cap
    ensures s.popped + Published(s) == Messages(s.pushed)
    ensures ProducerTouches(s) !! ConsumerTouches(s)
    ensures forall i :: i in ProducerTouches(s) ==> i < |s.buf| && s.buf[i] == None
    ensures forall i :: i in ConsumerTouches(s) ==> i < |s.buf| && s.buf[i].Some?
  {
    RunInv(Initial(cap), steps, s);
    var n, live := |s.buf|, |s.pushed| - |s.popped|;
    assert s.popped + Published(s) == Messages(s.pushed) by {
      assert forall k :: 0 <= k < live ==> Published(s)[k] == Some(s.pushed[|s.popped| + k]);
    }
    Touching(s);
  }

  lemma Touching(s: State)
    requires Inv(s) && s.freed == []
    ensures ProducerTouches(s) !! ConsumerTouches(s)
    ensures forall i :: i in ProducerTouches(s) ==> i < |s.buf| && s.buf[i] == None
    ensures forall i :: i in ConsumerTouches(s) ==> i < |s.buf| && s.buf[i].Some?
  {
    var n, live := |s.buf|, |s.pushed| - |s.popped|;
    assert Slot(s.head, 0, n) == s.head;
    if Enabled(s, PushWrite) {
      assert live < n - 1;
      assert s.buf[Slot(s.head, live, n)] == None;
    }
  }

  /** A push takes the full branch exactly when, by the head it loaded, cap - 1 messages were live. */
  lemma FullBranch(cap: nat, steps: seq<Step>, s: State)
    requires cap >= 2 && Reaches(Initial(cap), steps, s) && s.freed == [] && s.prod.PHead?
    ensures Enabled(s, PushFree) <==> |s.pushed| - s.prod.seen == cap - 1
    ensures Enabled(s, PushFree) <==> !Enabled(s, PushWrite)
  {
    RunInv(Initial(cap), steps, s);
  }

  /** A pop reports an empty ring exactly when, by the tail it loaded, every message had been popped. */
  lemma EmptyBranch(cap: nat, steps: seq<Step>, s: State)
    requires cap >= 2 && Reaches(Initial(cap), steps, s) && s.freed == [] && s.cons.CTail?
    ensures Enabled(s, PopEmpty) <==> s.cons.seen == |s.popped|
    ensures Enabled(s, PopEmpty) <==> !Enabled(s, PopRead)
  {
    RunInv(Initial(cap), steps, s);
  }

  /** Neither thread ever has to wait for the other. */
  lemma NeverBlocked(cap: nat, steps: seq<Step>, s: State) returns (push: Step, pop: Step)
    requires cap >= 2 && Reaches(Initial(cap), steps, s) && s.freed == []
    ensures (push.PushBegin? || push.PushLoadHead? || push.PushWrite? || push.PushFree? || push.PushPublish?) && Enabled(s, push)
    ensures (pop.PopBegin? || pop.PopLoadTail? || pop.PopEmpty? || pop.PopRead? || pop.PopClear? || pop.PopAdvance?) && Enabled(s, pop)
  {
    RunInv(Initial(cap), steps, s);
    push := match s.prod
      case PIdle => PushBegin("")
      case PTail(_, _) => PushLoadHead
      case PHead(_, t, h, _) => if NextIndex(t, |s.buf|) == h then PushFree else PushWrite
      case _ => PushPublish;
    pop := match s.cons
      case CIdle => PopBegin
      case CHead(_) => PopLoadTail
      case CTail(h, t, _) => if h == t then PopEmpty else PopRead
      case CRead(_, _) => PopClear
      case CCleared(_, _) => PopAdvance;
  }

  // ----- Why the full branch has to be excluded, and a ring of one slot too -----

  lemma Before(s: State, step: Step, rest: seq<Step>, s': State)
    requires Enabled(s, step) && Reaches(Apply(s, step), rest, s')
    ensures Reaches(s, [step] + rest, s')
  {
    assert ([step] + rest)[1..] == rest;
  }

  lemma {:induction false} Chain(s: State, a: seq<Step>, mid: State, b: seq<Step>, s': State)
    requires Reaches(s, a, mid) && Reaches(mid, b, s')
    ensures Reaches(s, a + b, s')
    decreases |a|
  {
    if a == [] {
      assert a + b == b;
    } else {
      Chain(Apply(s, a[0]), a[1..], mid, b, s');
      assert (a + b)[1..] == a[1..] + b;
    }
  }

  predicate WellIndexed(s: State) {
    s.head < |s.buf| && s.tail < |s.buf| && s.prod.PIdle?
  }

  function PushSteps(msg: string): seq<Step> {
    [PushBegin(msg)] + ([PushLoadHead] + ([PushWrite] + ([PushPublish] + [])))
  }

  function DropSteps(msg: string): seq<Step> {
    [PushBegin(msg)] + ([PushLoadHead] + ([PushFree] + ([PushStoreHead] + ([PushWrite] + ([PushPublish] + [])))))
  }

  function PopSteps(): seq<Step> {
    [PopBegin] + ([PopLoadTail] + ([PopRead] + ([PopClear] + [])))
  }

  /** An undisturbed push that finds room. */
  function AfterPush(s: State, msg: string): State
    requires WellIndexed(s)
  {
    s.(buf := s.buf[s.tail := Some(msg)], tail := NextIndex(s.tail, |s.buf|), pushed := s.pushed + [msg])
  }

  lemma PushWithRoom(s: State, msg: string)
    requires WellIndexed(s) && NextIndex(s.tail, |s.buf|) != s.head
    ensures Reaches(s, PushSteps(msg), AfterPush(s, msg))
  {
    var s1 := Apply(s, PushBegin(msg));
    var s2 := Apply(s1, PushLoadHead);
    var s3 := Apply(s2, PushWrite);
    Before(s3, PushPublish, [], AfterPush(s, msg));
    Before(s2, PushWrite, [PushPublish] + [], AfterPush(s, msg));
    Before(s1, PushLoadHead, [PushWrite] + ([PushPublish] + []), AfterPush(s, msg));
    Before(s, PushBegin(msg), [PushLoadHead] + ([PushWrite] + ([PushPublish] + [])), AfterPush(s, msg));
  }

  /** An undisturbed push on a full ring. */
  function AfterDrop(s: State, msg: string): State
    requires WellIndexed(s)
  {
    s.(buf := s.buf[s.head := None][s.tail := Some(msg)], head := NextIndex(s.head, |s.buf|),
       tail := NextIndex(s.tail, |s.buf|), pushed := s.pushed + [msg], freed := s.freed + [s.buf[s.head]])
  }

  lemma PushWhenFull(s: State, msg: string)
    requires WellIndexed(s) && NextIndex(s.tail, |s.buf|) == s.head
    ensures Reaches(s, DropSteps(msg),
                    AfterDrop(s, msg))
  {
    var s1 := Apply(s, PushBegin(msg));
    var s2 := Apply(s1, PushLoadHead);
    var s3 := Apply(s2, PushFree);
    var s4 := Apply(s3, PushStoreHead);
    var s5 := Apply(s4, PushWrite);
    var end := AfterDrop(s, msg);
    var last := [PushWrite] + ([PushPublish] + []);
    Before(s5, PushPublish, [], end);
    Before(s4, PushWrite, [PushPublish] + [], end);
    Before(s3, PushStoreHead, last, end);
    Before(s2, PushFree, [PushStoreHead] + last, end);
    Before(s1, PushLoadHead, [PushFree] + ([PushStoreHead] + last), end);
    Before(s, PushBegin(msg), [PushLoadHead] + ([PushFree] + ([PushStoreHead] + last)), end);
  }

  /** A consumer that is stopped just before it moves the head. */
  lemma PopUpToClear(s: State)
    requires s.cons.CIdle? && s.head < |s.buf| && s.head != s.tail
    ensures Reaches(s, PopSteps(),
                    s.(buf := s.buf[s.head := None], cons := CCleared(s.head, s.buf[s.head])))
  {
    var end := s.(buf := s.buf[s.head := None], cons := CCleared(s.head, s.buf[s.head]));
    var s1 := Apply(s, PopBegin);
    var s2 := Apply(s1, PopLoadTail);
    var s3 := Apply(s2, PopRead);
    Before(s3, PopClear, [], end);
    Before(s2, PopRead, [PopClear] + [], end);
    Before(s1, PopLoadTail, [PopRead] + ([PopClear] + []), end);
    Before(s, PopBegin, [PopLoadTail] + ([PopRead] + ([PopClear] + [])), end);
  }

  /** One message pushed, and the consumer stopped just before it moves the head past it. */
  lemma PausedConsumer(a: string) returns (steps: seq<Step>, s: State)
    ensures Reaches(Initial(2), steps, s) && WellIndexed(s)
    ensures s.buf == [None, None] && s.head == 0 && s.tail == 1 && s.cons == CCleared(0, Some(a))
    ensures s.pushed == [a] && s.popped == [] && s.freed == []
  {
    var s0 := Initial(2);
    var s1 := AfterPush(s0, a);
    assert s0.buf == [None, None] && s1.buf == [Some(a), None];
    PushWithRoom(s0, a);
    s := s1.(buf := s1.buf[s1.head := None], cons := CCleared(s1.head, s1.buf[s1.head]));
    PopUpToClear(s1);
    Chain(s0, PushSteps(a), s1, PopSteps(), s);
    steps := PushSteps(a) + PopSteps();
  }

  /**
   A consumer paused between clearing its slot and moving the head, while two pushes take
   the full branch: the last message pushed is then neither popped, nor freed, nor in the ring.
   */
  lemma LostMessage(a: string, b: string, c: string) returns (steps: seq<Step>, s: State)
    ensures Reaches(Initial(2), steps, s) && s.prod.PIdle? && s.cons.CIdle?
    ensures s.pushed == [a, b, c] && s.popped == [Some(a)] && s.freed == [None, Some(b)]
    ensures Depth(s) == 0
  {
    var p2, s2 := PausedConsumer(a);
    var s3 := AfterDrop(s2, b);
    assert s3.buf == [None, Some(b)] && s3.head == 1 && s3.tail == 0;
    PushWhenFull(s2, b);
    Chain(Initial(2), p2, s2, DropSteps(b), s3);
    var s4 := AfterDrop(s3, c);
    assert s4.head == 0 && s4.tail == 1;
    PushWhenFull(s3, c);
    Chain(Initial(2), p2 + DropSteps(b), s3, DropSteps(c), s4);
    s := Apply(s4, PopAdvance);
    Before(s4, PopAdvance, [], s);
    Chain(Initial(2), p2 + DropSteps(b) + DropSteps(c), s4, [PopAdvance] + [], s);
    steps := p2 + DropSteps(b) + DropSteps(c) + ([PopAdvance] + []);
  }

  /** With a single slot every push is lost at once: the ring stays empty. */
  lemma RingOfOne(s: State, msg: string)
    requires |s.buf| == 1 && WellIndexed(s)
    ensures NextIndex(s.tail, 1) == s.head && Depth(AfterDrop(s, msg)) == 0
    ensures Reaches(s, DropSteps(msg),
                    AfterDrop(s, msg))
  {
    PushWhenFull(s, msg);
  }
}
