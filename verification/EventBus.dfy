/** The event bus with a fallback (internal/events/fallback.go, internal/events/channel.go): publishers,
    recovery loops and the consumer as interleaved steps. A call of Publish, its event and its
    context are all named by one number, so equal events of different calls stay apart. */
module EventBus {
  import opened Common

  /** How far a call of Publish has come. */
  datatype Publisher =
    | Begun
    | AtPrimary          // has seen primaryOK
    | Failed             // the primary has returned an error
    | MarkedDown         // has set primaryOK to false, has not started its recovery loop yet
    | AtFallback
    | Accepted           // Publish has returned nil
    | Rejected           // Publish has returned an error

  /** A recovery loop: waiting in its select, after a successful ping, or ended. */
  datatype Loop = Ticking | Pinged | Recovered | Cancelled

  datatype Consumer = Waiting | Handling | Stopped

  /** `doubtful`: calls for which the primary returned an error and kept the event all the same.
      `ended`: calls whose context has ended. */
  datatype Bus = Bus(
    primaryOK: bool,
    primary: seq<nat>, doubtful: set<nat>,
    queue: seq<nat>, consumed: seq<nat>, consumer: Consumer,
    pubs: map<nat, Publisher>, loops: map<nat, Loop>, ended: set<nat>)
  {
    predicate At(c: nat, p: Publisher) { c in pubs && pubs[c] == p }

    predicate LoopAt(c: nat, l: Loop) { c in loops && loops[c] == l }

    /** An unbuffered channel passes an event on only to a consumer that waits for it. */
    predicate HandsOver(size: nat) { size == 0 && consumer == Waiting }

    function Move(c: nat, p: Publisher): Bus { this.(pubs := pubs[c := p]) }
  }

  const START := Bus(true, [], {}, [], [], Waiting, map[], map[], {})

  datatype Action =
    | Begin(c: nat)
    | ReadFlag(c: nat)
    | PrimaryAccepts(c: nat)
    | PrimaryFails(c: nat, stored: bool)
    | MarkDown(c: nat)
    | Spawn(c: nat)
    | Enqueue(c: nat)
    | HandOver(c: nat)
    | Refuse(c: nat)
    | Tick(c: nat, ping: bool)
    | Recover(c: nat)
    | EndContext(c: nat)
    | Cancel(c: nat)
    | Take
    | Handled
    | StopConsumer

  predicate Enabled(size: nat, s: Bus, a: Action) {
    match a
    case Begin(c) => c !in s.pubs
    case ReadFlag(c) => s.At(c, Begun)
    case PrimaryAccepts(c) => s.At(c, AtPrimary)
    case PrimaryFails(c, _) => s.At(c, AtPrimary)
    case MarkDown(c) => s.At(c, Failed)
    case Spawn(c) => s.At(c, MarkedDown)
    case Enqueue(c) => s.At(c, AtFallback) && |s.queue| < size
    case HandOver(c) => s.At(c, AtFallback) && s.HandsOver(size)
    case Refuse(c) => s.At(c, AtFallback) && |s.queue| >= size && !s.HandsOver(size)
    case Tick(c, _) => s.LoopAt(c, Ticking)
    case Recover(c) => s.LoopAt(c, Pinged)
    case EndContext(c) => true
    case Cancel(c) => s.LoopAt(c, Ticking) && c in s.ended
    case Take => s.consumer == Waiting && s.queue != []
    case Handled => s.consumer == Handling
    case StopConsumer => s.consumer == Waiting
  }

  function Step(s: Bus, a: Action): Bus {
    match a
    case Begin(c) => s.Move(c, Begun)
    case ReadFlag(c) => s.Move(c, if s.primaryOK then AtPrimary else AtFallback)
    case PrimaryAccepts(c) => s.Move(c, Accepted).(primary := s.primary + [c])
    case PrimaryFails(c, stored) =>
      if stored then s.Move(c, Failed).(primary := s.primary + [c], doubtful := s.doubtful + {c})
      else s.Move(c, Failed)
    case MarkDown(c) => s.Move(c, MarkedDown).(primaryOK := false)
    case Spawn(c) => s.Move(c, AtFallback).(loops := s.loops[c := Ticking])
    case Enqueue(c) => s.Move(c, Accepted).(queue := s.queue + [c])
    case HandOver(c) => s.Move(c, Accepted).(consumed := s.consumed + [c], consumer := Handling)
    case Refuse(c) => s.Move(c, Rejected)
    case Tick(c, ping) => if ping then s.(loops := s.loops[c := Pinged]) else s
    case Recover(c) => s.(primaryOK := true, loops := s.loops[c := Recovered])
    case EndContext(c) => s.(ended := s.ended + {c})
    case Cancel(c) => s.(loops := s.loops[c := Cancelled])
    case Take => if s.queue == [] then s else s.(queue := s.queue[1..], consumed := s.consumed + [s.queue[0]], consumer := Handling)
    case Handled => s.(consumer := Waiting)
    case StopConsumer => s.(consumer := Stopped)
  }

  function End(s: Bus, actions: seq<Action>): Bus {
    if actions == [] then s else Step(End(s, actions[..|actions| - 1]), actions[|actions| - 1])
  }

  /** Each action of the run is possible when its turn comes. */
  predicate IsRun(size: nat, s: Bus, actions: seq<Action>) {
    if actions == [] then true
    else IsRun(size, s, actions[..|actions| - 1]) && Enabled(size, End(s, actions[..|actions| - 1]), actions[|actions| - 1])
  }

  // ---------------------------------------------------------------- the channel

  /** What an action adds to the channel. */
  function Adds(a: Action): seq<nat> {
    match a
    case Enqueue(c) => [c]
    case HandOver(c) => [c]
    case _ => []
  }

  /** The calls whose event the channel has accepted, in order. */
  function AcceptedBy(actions: seq<Action>): seq<nat> {
    if actions == [] then [] else AcceptedBy(actions[..|actions| - 1]) + Adds(actions[|actions| - 1])
  }

  lemma StepIsFifo(size: nat, s: Bus, a: Action)
    requires Enabled(size, s, a) && |s.queue| <= size
    ensures |Step(s, a).queue| <= size
    ensures Step(s, a).consumed + Step(s, a).queue == s.consumed + s.queue + Adds(a)
  {
    match a
    case HandOver(c) => assert s.queue == [];
    case Take => assert [s.queue[0]] + s.queue[1..] == s.queue;
    case _ =>
  }

  /** The channel never holds more than its buffer, and hands on exactly what it accepted, in order. */
  lemma {:induction false} ChannelIsFifo(size: nat, actions: seq<Action>)
    requires IsRun(size, START, actions)
    ensures |End(START, actions).queue| <= size
    ensures End(START, actions).consumed + End(START, actions).queue == AcceptedBy(actions)
    decreases |actions|
  {
    if actions != [] {
      ChannelIsFifo(size, actions[..|actions| - 1]);
      StepIsFifo(size, End(START, actions[..|actions| - 1]), actions[|actions| - 1]);
    }
  }

  /** The channel of one process: filled without blocking, drained by the consumer. */
  class ChannelEventBus {
    const size: nat
    var queue: seq<nat>

    constructor (size: nat)
      ensures this.size == size && queue == []
    {
      this.size, queue := size, [];
    }

    /** Fails at once when the buffer is full. */
    method Publish(c: nat) returns (ok: bool)
      modifies this
      ensures ok <==> |old(queue)| < size
      ensures queue == if ok then old(queue) + [c] else old(queue)
    {
      ok := |queue| < size;
      if ok {
        queue := queue + [c];
      }
    }

    /** Drains the queue until the context ends, here after at most `turns` events; a failing
        handler does not stop it. */
    method Consume(turns: nat) returns (handled: seq<nat>)
      modifies this
      ensures handled + queue == old(queue)
      ensures |handled| == turns || queue == []
    {
      handled := [];
      while |handled| < turns && queue != []
        invariant handled + queue == old(queue) && |handled| <= turns
      {
        var c := queue[0];
        queue := queue[1..];
        handled := handled + [c];
      }
    }
  }

  // ---------------------------------------------------------------- exactly once

  /** How often c occurs. */
  function Copies(s: seq<nat>, c: nat): nat {
    if s == [] then 0 else Copies(s[..|s| - 1], c) + if s[|s| - 1] == c then 1 else 0
  }

  lemma {:induction false} CopiesConcat(s: seq<nat>, t: seq<nat>, c: nat)
    ensures Copies(s + t, c) == Copies(s, c) + Copies(t, c)
  {
    if t == [] {
      assert s + t == s;
    } else {
      assert (s + t)[..|s + t| - 1] == s + t[..|t| - 1];
      CopiesConcat(s, t[..|t| - 1], c);
    }
  }

  lemma OneMore(s: seq<nat>, x: nat, c: nat)
    ensures Copies(s + [x], c) == Copies(s, c) + if x == c then 1 else 0
  {
    assert (s + [x])[..|s|] == s;
  }

  function Doubt(s: Bus, c: nat): nat { if c in s.doubtful then 1 else 0 }

  /** Where the event of call c is. */
  ghost predicate Placed(s: Bus, c: nat) {
    var kept, channel := Copies(s.primary, c), Copies(s.consumed, c) + Copies(s.queue, c);
    if c !in s.pubs || s.pubs[c] in {Begun, AtPrimary} then kept == 0 && channel == 0 && c !in s.doubtful
    else if s.pubs[c] == Accepted then kept + channel == 1 + Doubt(s, c)
    else channel == 0 && kept == Doubt(s, c)
  }

  lemma KeepPlaces(s: Bus, x: nat, c: nat)
    requires s.At(x, AtPrimary) && Placed(s, c)
    ensures Placed(Step(s, PrimaryAccepts(x)), c)
  {
    OneMore(s.primary, x, c);
  }

  lemma FailPlaces(s: Bus, x: nat, stored: bool, c: nat)
    requires s.At(x, AtPrimary) && Placed(s, c)
    ensures Placed(Step(s, PrimaryFails(x, stored)), c)
  {
    OneMore(s.primary, x, c);
  }

  lemma EnqueuePlaces(s: Bus, x: nat, c: nat)
    requires s.At(x, AtFallback) && Placed(s, c)
    ensures Placed(Step(s, Enqueue(x)), c)
  {
    OneMore(s.queue, x, c);
  }

  lemma HandOverPlaces(s: Bus, x: nat, c: nat)
    requires s.At(x, AtFallback) && Placed(s, c)
    ensures Placed(Step(s, HandOver(x)), c)
  {
    OneMore(s.consumed, x, c);
  }

  lemma TakePlaces(s: Bus, c: nat)
    requires Placed(s, c) && s.queue != []
    ensures Placed(Step(s, Take), c)
  {
    var x := s.queue[0];
    OneMore(s.consumed, x, c);
    OneMore([], x, c);
    assert [] + [x] == [x];
    CopiesConcat([x], s.queue[1..], c);
    assert s.queue == [x] + s.queue[1..];
  }

  lemma StepPlaces(size: nat, s: Bus, a: Action, c: nat)
    requires Enabled(size, s, a) && Placed(s, c)
    ensures Placed(Step(s, a), c)
  {
    match a
    case PrimaryAccepts(x) => KeepPlaces(s, x, c);
    case PrimaryFails(x, stored) => FailPlaces(s, x, stored, c);
    case Enqueue(x) => EnqueuePlaces(s, x, c);
    case HandOver(x) => HandOverPlaces(s, x, c);
    case Take => TakePlaces(s, c);
    case _ =>
  }

  lemma {:induction false} RunPlaces(size: nat, actions: seq<Action>, c: nat)
    requires IsRun(size, START, actions)
    ensures Placed(End(START, actions), c)
    decreases |actions|
  {
    if actions != [] {
      RunPlaces(size, actions[..|actions| - 1], c);
      StepPlaces(size, End(START, actions[..|actions| - 1]), actions[|actions| - 1], c);
    }
  }

  /** In every interleaving: when Publish has returned nil, its event is in one of the primary and
      the channel, once, plus once more in the primary if that kept it while reporting an error;
      when Publish has returned an error, the event is in neither but for that same exception. */
  lemma ExactlyOnce(size: nat, actions: seq<Action>, c: nat)
    requires IsRun(size, START, actions)
    ensures var s := End(START, actions);
      && (s.At(c, Accepted) ==> Copies(s.primary, c) + Copies(s.consumed + s.queue, c) == 1 + Doubt(s, c))
      && (s.At(c, Rejected) ==> Copies(s.primary, c) == Doubt(s, c) && Copies(s.consumed + s.queue, c) == 0)
  {
    RunPlaces(size, actions, c);
    CopiesConcat(End(START, actions).consumed, End(START, actions).queue, c);
  }

  // ---------------------------------------------------------------- the channel takes what the primary does not

  lemma RunOn(size: nat, actions: seq<Action>, a: Action)
    requires IsRun(size, START, actions) && Enabled(size, End(START, actions), a)
    ensures IsRun(size, START, actions + [a]) && End(START, actions + [a]) == Step(End(START, actions), a)
  {
    assert (actions + [a])[..|actions|] == actions;
  }

  /** An event that has come as far as the channel is accepted whenever there is room, and refused only
      when there is none. */
  lemma RoomAccepts(size: nat, s: Bus, a: Action, c: nat)
    requires s.At(c, AtFallback) && Enabled(size, s, a)
    ensures a == Refuse(c) ==> |s.queue| >= size
    ensures |s.queue| < size ==> Enabled(size, s, Enqueue(c))
    ensures a == Enqueue(c) ==> Step(s, a).At(c, Accepted) && Step(s, a).queue == s.queue + [c]
    ensures !Step(s, a).At(c, AtFallback) ==> a == Enqueue(c) || a == HandOver(c) || a == Refuse(c)
  {
  }

  /** In every run: while the primary is off, a call that has begun goes to the channel, which takes it
      when there is room. */
  lemma OffUsesChannel(size: nat, actions: seq<Action>, c: nat)
    requires IsRun(size, START, actions)
    requires var s := End(START, actions); s.At(c, Begun) && !s.primaryOK && |s.queue| < size
    ensures var next := actions + [ReadFlag(c)] + [Enqueue(c)];
      IsRun(size, START, next) && End(START, next).At(c, Accepted) && End(START, next).queue == End(START, actions).queue + [c]
  {
    RunOn(size, actions, ReadFlag(c));
    RunOn(size, actions + [ReadFlag(c)], Enqueue(c));
  }

  /** ... and so does a call for which the primary has failed. */
  lemma FailureUsesChannel(size: nat, actions: seq<Action>, c: nat)
    requires IsRun(size, START, actions)
    requires var s := End(START, actions); s.At(c, Failed) && |s.queue| < size
    ensures var next := actions + [MarkDown(c)] + [Spawn(c)] + [Enqueue(c)];
      IsRun(size, START, next) && End(START, next).At(c, Accepted) && End(START, next).queue == End(START, actions).queue + [c]
  {
    RunOn(size, actions, MarkDown(c));
    RunOn(size, actions + [MarkDown(c)], Spawn(c));
    RunOn(size, actions + [MarkDown(c)] + [Spawn(c)], Enqueue(c));
  }

  // ---------------------------------------------------------------- who will turn the primary on again

  /** The call that most recently set primaryOK to false. */
  function LastDown(actions: seq<Action>): Option<nat> {
    if actions == [] then None
    else match actions[|actions| - 1]
      case MarkDown(c) => Some(c)
      case _ => LastDown(actions[..|actions| - 1])
  }

  /** The recovery loop of call c is about to start, is running, or has ended with the context of c. */
  ghost predicate Watched(s: Bus, c: nat) {
    s.At(c, MarkedDown) || s.LoopAt(c, Ticking) || s.LoopAt(c, Pinged) || (s.LoopAt(c, Cancelled) && c in s.ended)
  }

  lemma StepWatched(size: nat, s: Bus, a: Action, c: nat)
    requires Enabled(size, s, a) && Watched(s, c) && !a.MarkDown? && !a.Recover?
    ensures Watched(Step(s, a), c)
  {
  }

  /** While the primary is off, the call that turned it off last is watching it, unless the context
      of that call has ended. */
  lemma {:induction false} LastDownWatches(size: nat, actions: seq<Action>)
    requires IsRun(size, START, actions) && !End(START, actions).primaryOK
    ensures LastDown(actions).Some? && Watched(End(START, actions), LastDown(actions).value)
    decreases |actions|
  {
    var init, a := actions[..|actions| - 1], actions[|actions| - 1];
    if !a.MarkDown? {
      var s := End(START, init);
      assert End(START, actions) == Step(s, a);
      assert !s.primaryOK && !a.Recover?;
      LastDownWatches(size, init);
      StepWatched(size, s, a, LastDown(init).value);
    }
  }

  /** Somebody may still turn the primary on: a loop is running or a call is on its way to start one. */
  ghost predicate Hope(s: Bus) {
    exists c :: Hopeful(s, c)
  }

  predicate Hopeful(s: Bus, c: nat) {
    s.At(c, AtPrimary) || s.At(c, Failed) || s.At(c, MarkedDown) || s.LoopAt(c, Ticking) || s.LoopAt(c, Pinged)
  }

  lemma StepHopeless(size: nat, s: Bus, a: Action)
    requires Enabled(size, s, a) && !s.primaryOK && !Hope(s)
    ensures !Step(s, a).primaryOK && !Hope(Step(s, a)) && Step(s, a).primary == s.primary
  {
    var t := Step(s, a);
    assert a.PrimaryAccepts? || a.PrimaryFails? || a.MarkDown? || a.Spawn? || a.Tick? || a.Recover? || a.Cancel? ==> Hopeful(s, a.c);
    forall c ensures !Hopeful(t, c) {
      assert !Hopeful(s, c);
    }
  }

  /** Without a live or coming loop the primary stays off for ever and receives nothing more. */
  lemma {:induction false} OffForEver(size: nat, s: Bus, actions: seq<Action>)
    requires IsRun(size, s, actions) && !s.primaryOK && !Hope(s)
    ensures !End(s, actions).primaryOK && !Hope(End(s, actions)) && End(s, actions).primary == s.primary
    decreases |actions|
  {
    if actions != [] {
      OffForEver(size, s, actions[..|actions| - 1]);
      StepHopeless(size, End(s, actions[..|actions| - 1]), actions[|actions| - 1]);
    }
  }

  /** Exactly then: otherwise some continuation turns it on. */
  lemma RecoversIff(size: nat, s: Bus)
    requires !s.primaryOK
    ensures (exists actions :: IsRun(size, s, actions) && End(s, actions).primaryOK) <==> Hope(s)
  {
    if actions :| IsRun(size, s, actions) && End(s, actions).primaryOK {
      if !Hope(s) {
        OffForEver(size, s, actions);
        assert false;
      }
    }
    if Hope(s) {
      var c :| Hopeful(s, c);
      var actions := WayBack(size, s, c);
      assert IsRun(size, s, actions) && End(s, actions).primaryOK;
    }
  }

  lemma {:induction false} FirstStep(size: nat, s: Bus, a: Action, rest: seq<Action>)
    requires Enabled(size, s, a) && IsRun(size, Step(s, a), rest)
    ensures IsRun(size, s, [a] + rest) && End(s, [a] + rest) == End(Step(s, a), rest)
    decreases |rest|
  {
    if rest == [] {
      assert ([a] + rest)[..0] == [];
    } else {
      assert ([a] + rest)[..|rest|] == [a] + rest[..|rest| - 1];
      FirstStep(size, s, a, rest[..|rest| - 1]);
    }
  }

  /** What brings call c one step closer to turning the primary on. */
  function Forward(s: Bus, c: nat): Action
    requires Hopeful(s, c)
  {
    if s.LoopAt(c, Pinged) then Recover(c)
    else if s.LoopAt(c, Ticking) then Tick(c, true)
    else if s.At(c, MarkedDown) then Spawn(c)
    else if s.At(c, Failed) then MarkDown(c)
    else PrimaryFails(c, false)
  }

  function Distance(s: Bus, c: nat): nat {
    if s.LoopAt(c, Pinged) then 0
    else if s.LoopAt(c, Ticking) then 1
    else if s.At(c, MarkedDown) then 2
    else if s.At(c, Failed) then 3
    else 4
  }

  lemma WayBack(size: nat, s: Bus, c: nat) returns (actions: seq<Action>)
    requires Hopeful(s, c)
    ensures IsRun(size, s, actions) && End(s, actions).primaryOK
    decreases Distance(s, c)
  {
    var a := Forward(s, c);
    var rest := [];
    if !a.Recover? {
      rest := WayBack(size, Step(s, a), c);
    }
    FirstStep(size, s, a, rest);
    actions := [a] + rest;
  }

  /** A first call fails at the primary and starts its recovery loop. */
  function FailingCall(c: nat): seq<Action> {
    [Begin(c), ReadFlag(c), PrimaryFails(c, false), MarkDown(c), Spawn(c)]
  }

  lemma AfterFailingCall(size: nat, c: nat)
    ensures IsRun(size, START, FailingCall(c))
    ensures End(START, FailingCall(c)) == START.(primaryOK := false, pubs := map[c := AtFallback], loops := map[c := Ticking])
  {
    var all := FailingCall(c);
    assert all[..1][..0] == [] && IsRun(size, START, all[..1]);
    assert End(START, all[..1]) == START.(pubs := map[c := Begun]);
    assert all[..2][..1] == all[..1] && IsRun(size, START, all[..2]);
    assert End(START, all[..2]) == START.(pubs := map[c := AtPrimary]);
    assert all[..3][..2] == all[..2] && IsRun(size, START, all[..3]);
    assert End(START, all[..3]) == START.(pubs := map[c := Failed]);
    assert all[..4][..3] == all[..3] && IsRun(size, START, all[..4]);
    assert End(START, all[..4]) == START.(primaryOK := false, pubs := map[c := MarkedDown]);
  }

  /** The recovery loop lives in the context of the request whose event failed. When that request is
      over before the first tick, the primary stays off for good. */
  lemma OneRequestTurnsItOff(size: nat, c: nat, later: seq<Action>)
    requires size > 0
    ensures IsRun(size, End(START, FailingCall(c)), [Enqueue(c), EndContext(c), Cancel(c)])
    ensures var s := End(End(START, FailingCall(c)), [Enqueue(c), EndContext(c), Cancel(c)]);
      IsRun(size, s, later) ==> !End(s, later).primaryOK
  {
    AfterFailingCall(size, c);
    var s, all := End(START, FailingCall(c)), [Enqueue(c), EndContext(c), Cancel(c)];
    assert all[..1][..0] == [] && End(s, all[..1][..0]) == s;
    assert IsRun(size, s, all[..1]);
    assert End(s, all[..1]) == s.(pubs := map[c := Accepted], queue := [c]);
    assert all[..2][..1] == all[..1] && IsRun(size, s, all[..2]);
    assert End(s, all[..2]) == s.(pubs := map[c := Accepted], queue := [c], ended := {c});
    assert End(s, all) == s.(pubs := map[c := Accepted], queue := [c], ended := {c}, loops := map[c := Cancelled]);
    if IsRun(size, End(s, all), later) {
      OffForEver(size, End(s, all), later);
    }
  }
}
