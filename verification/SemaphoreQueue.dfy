/**
 A message queue and the semaphore that counts its permits, with any number of consumers: wait, then
 test and take the front. Consumers differ in how they test: under the lock (uwc_common), before taking
 the lock (control loops), or not at all (poll cycles).
 */
module SemaphoreQueue {
  import opened Wrappers

  datatype Style = LockedTest | UnlockedTest | NoTest

  /** `past` consumers have passed the wait, `tested` have also found the queue non-empty. A producer
      holds the lock from its push to its post. */
  datatype State<T> = State(
    queue: seq<T>,
    sem: nat,
    past: nat,
    tested: nat,
    posting: bool,
    pushed: seq<T>,
    popped: seq<T>,
    underflow: bool
  )

  datatype Step<T> = Push(msg: T) | Post | Wait | Test | Pop | Break | Clear

  /** Everything of a run that is fixed: the style, the number of consumers, and whether anyone breaks
      waits or clears the queue. */
  datatype Setting = Setting(style: Style, consumers: nat, breaks: bool, clears: bool)

  function Empty<T>(): State<T> {
    State([], 0, 0, 0, false, [], [], false)
  }

  predicate Enabled<T>(c: Setting, s: State<T>, step: Step<T>) {
    match step
    case Push(_) => !s.posting
    case Post => s.posting
    case Wait => s.sem > 0 && s.past + s.tested < c.consumers
    case Test => s.past > 0 && (c.style == UnlockedTest || (c.style == LockedTest && !s.posting))
    case Pop =>
      !s.posting && ((c.style == UnlockedTest && s.tested > 0) || (c.style == NoTest && s.past > 0))
    case Break => c.breaks
    case Clear => c.clears && !s.posting
  }

  /** Front and pop: on an empty queue this is undefined behaviour. */
  function TakeFront<T>(s: State<T>): State<T> {
    if s.queue == [] then s.(underflow := true)
    else s.(queue := s.queue[1..], popped := s.popped + [s.queue[0]])
  }

  function Do<T>(c: Setting, s: State<T>, step: Step<T>): State<T>
    requires Enabled(c, s, step)
  {
    match step
    case Push(msg) => s.(queue := s.queue + [msg], pushed := s.pushed + [msg], posting := true)
    case Post => s.(sem := s.sem + 1, posting := false)
    case Wait => s.(sem := s.sem - 1, past := s.past + 1)
    case Test =>
      var left := s.(past := s.past - 1);
      if s.queue == [] then left
      else if c.style == LockedTest then TakeFront(left)
      else left.(tested := s.tested + 1)
    case Pop =>
      if c.style == NoTest then TakeFront(s.(past := s.past - 1)) else TakeFront(s.(tested := s.tested - 1))
    case Break => s.(sem := s.sem + 1)
    case Clear => s.(queue := [])
  }

  /** None once a step is not enabled. */
  function After<T>(c: Setting, steps: seq<Step<T>>): Option<State<T>> {
    if steps == [] then Some(Empty())
    else
      match After(c, steps[..|steps| - 1])
      case None => None
      case Some(s) => if Enabled(c, s, steps[|steps| - 1]) then Some(Do(c, s, steps[|steps| - 1])) else None
  }

  // ----- permits -----

  function Permits<T>(s: State<T>): nat {
    s.sem + s.past + s.tested + if s.posting then 1 else 0
  }

  /** Permits cover the messages, exactly so when nobody breaks waits or clears. */
  ghost predicate Inv<T>(c: Setting, s: State<T>) {
    && |s.queue| <= Permits(s)
    && (!c.breaks && !c.clears ==> |s.queue| == Permits(s))
    && s.past + s.tested <= c.consumers
    && (c.style != UnlockedTest ==> s.tested == 0)
    && (Safe(c) ==> !s.underflow && (c.consumers == 1 && s.tested == 1 ==> s.queue != []))
  }

  /** The settings in which no consumer ever takes the front of an empty queue. */
  predicate Safe(c: Setting) {
    c.consumers == 0
    || match c.style
       case LockedTest => true
       case UnlockedTest => !c.clears && (!c.breaks || c.consumers == 1)
       case NoTest => !c.clears && !c.breaks
  }

  ghost predicate InOrder<T>(c: Setting, s: State<T>) {
    !c.clears ==> s.popped + s.queue == s.pushed
  }

  lemma StepKeepsInv<T>(c: Setting, s: State<T>, step: Step<T>)
    requires Inv(c, s) && Enabled(c, s, step)
    ensures Inv(c, Do(c, s, step))
  {
  }

  lemma StepKeepsOrder<T>(c: Setting, s: State<T>, step: Step<T>)
    requires InOrder(c, s) && Enabled(c, s, step)
    ensures InOrder(c, Do(c, s, step))
  {
    if s.queue != [] {
      assert s.popped + [s.queue[0]] + s.queue[1..] == s.popped + s.queue;
    }
    if step.Push? {
      assert s.popped + (s.queue + [step.msg]) == s.popped + s.queue + [step.msg];
    }
  }

  lemma {:induction false} RunKeepsInv<T>(c: Setting, steps: seq<Step<T>>)
    requires After(c, steps).Some?
    ensures Inv(c, After(c, steps).value) && InOrder(c, After(c, steps).value)
  {
    if steps == [] {
    } else {
      var before, last := After(c, steps[..|steps| - 1]).value, steps[|steps| - 1];
      RunKeepsInv(c, steps[..|steps| - 1]);
      StepKeepsInv(c, before, last);
      StepKeepsOrder(c, before, last);
    }
  }

  /** In every run: the permit bound, first in first out, and no message without a permit to fetch it. */
  lemma PermitsCoverQueue<T>(c: Setting, steps: seq<Step<T>>)
    requires After(c, steps).Some?
    ensures
      var s := After(c, steps).value;
      && |s.queue| <= Permits(s)
      && (!c.breaks && !c.clears ==> |s.queue| == Permits(s))
      && (!c.clears ==> s.popped + s.queue == s.pushed)
      && (s.queue != [] && s.past + s.tested == 0 && !s.posting ==> s.sem > 0)
  {
    RunKeepsInv(c, steps);
  }

  /** Without breaks and clears a consumer that has passed the wait always gets a message. */
  lemma TestNeverFails<T>(c: Setting, steps: seq<Step<T>>)
    requires After(c, steps).Some? && !c.breaks && !c.clears
    requires After(c, steps).value.past + After(c, steps).value.tested > 0
    ensures After(c, steps).value.queue != []
  {
    RunKeepsInv(c, steps);
  }

  // ----- exactly when the front is safe -----

  ghost predicate NeverUnderflows<T(!new)>(c: Setting) {
    forall steps: seq<Step<T>> :: After(c, steps).Some? ==> !After(c, steps).value.underflow
  }

  lemma AfterSnoc<T>(c: Setting, steps: seq<Step<T>>, s: State<T>, step: Step<T>)
    requires After(c, steps) == Some(s) && Enabled(c, s, step)
    ensures After(c, steps + [step]) == Some(Do(c, s, step))
  {
    assert (steps + [step])[..|steps|] == steps;
  }

  /** A queue with one message in it and `sem` permits left, and how it got there. */
  lemma OneMessage<T>(c: Setting, msg: T) returns (steps: seq<Step<T>>)
    ensures After(c, steps) == Some(State([msg], 1, 0, 0, false, [msg], [], false))
  {
    var s := Empty<T>();
    AfterSnoc(c, [], s, Push(msg));
    steps, s := [] + [Push(msg)], Do(c, s, Push(msg));
    AfterSnoc(c, steps, s, Post);
    steps, s := steps + [Post], Do(c, s, Post);
    assert [] + [msg] == [msg];
  }

  /** A consumer passes the wait, and the queue is cleared behind its test. */
  lemma ClearedBehindTest<T>(c: Setting, msg: T) returns (steps: seq<Step<T>>)
    requires c.consumers > 0 && c.clears && c.style != LockedTest
    ensures After(c, steps).Some? && After(c, steps).value.underflow
  {
    steps := OneMessage(c, msg);
    var s := After(c, steps).value;
    AfterSnoc(c, steps, s, Wait);
    steps, s := steps + [Wait], Do(c, s, Wait);
    if c.style == UnlockedTest {
      AfterSnoc(c, steps, s, Test);
      steps, s := steps + [Test], Do(c, s, Test);
    }
    AfterSnoc(c, steps, s, Clear);
    steps, s := steps + [Clear], Do(c, s, Clear);
    AfterSnoc(c, steps, s, Pop);
    steps := steps + [Pop];
  }

  /** A broken wait lets a consumer through to an empty queue. */
  lemma BrokenWait<T>(c: Setting) returns (steps: seq<Step<T>>)
    requires c.consumers > 0 && c.breaks && c.style == NoTest
    ensures After(c, steps).Some? && After(c, steps).value.underflow
  {
    var s := Empty<T>();
    AfterSnoc(c, [], s, Break);
    steps, s := [] + [Break], Do(c, s, Break);
    AfterSnoc(c, steps, s, Wait);
    steps, s := steps + [Wait], Do(c, s, Wait);
    AfterSnoc(c, steps, s, Pop);
    steps := steps + [Pop];
  }

  /** Two consumers, one of them let through by a break, both test the queue before either pops. */
  lemma TwoTestsOneMessage<T>(c: Setting, msg: T) returns (steps: seq<Step<T>>)
    requires c.consumers > 1 && c.breaks && c.style == UnlockedTest
    ensures After(c, steps).Some? && After(c, steps).value.underflow
  {
    steps := OneMessage(c, msg);
    var s := After(c, steps).value;
    AfterSnoc(c, steps, s, Break);
    steps, s := steps + [Break], Do(c, s, Break);
    AfterSnoc(c, steps, s, Wait);
    steps, s := steps + [Wait], Do(c, s, Wait);
    AfterSnoc(c, steps, s, Wait);
    steps, s := steps + [Wait], Do(c, s, Wait);
    AfterSnoc(c, steps, s, Test);
    steps, s := steps + [Test], Do(c, s, Test);
    AfterSnoc(c, steps, s, Test);
    steps, s := steps + [Test], Do(c, s, Test);
    AfterSnoc(c, steps, s, Pop);
    steps, s := steps + [Pop], Do(c, s, Pop);
    AfterSnoc(c, steps, s, Pop);
    steps := steps + [Pop];
  }

  lemma SafeExactly<T(!new)>(c: Setting, msg: T)
    ensures NeverUnderflows<T>(c) <==> Safe(c)
  {
    if Safe(c) {
      forall steps: seq<Step<T>> | After(c, steps).Some?
        ensures !After(c, steps).value.underflow
      {
        RunKeepsInv(c, steps);
      }
    } else if c.clears {
      var steps := ClearedBehindTest(c, msg);
    } else if c.style == NoTest {
      var steps := BrokenWait<T>(c);
    } else {
      var steps := TwoTestsOneMessage(c, msg);
    }
  }

  // ----- the queue object, with its callers one after the other -----

  class InternalQueue<T> {
    const style: Style
    var queue: seq<T>
    var sem: nat
    ghost var pushed: seq<T>
    ghost var popped: seq<T>
    /** The front of an empty queue has been taken: undefined behaviour. */
    ghost var underflow: bool

    ghost function View(): State<T>
      reads this
    {
      State(queue, sem, 0, 0, false, pushed, popped, underflow)
    }

    constructor (style: Style)
      ensures View() == Empty() && this.style == style
    {
      this.style := style;
      queue, sem, pushed, popped, underflow := [], 0, [], [], false;
    }

    ghost function One(breaks: bool, clears: bool): Setting {
      Setting(style, 1, breaks, clears)
    }

    method PushMsg(msg: T)
      modifies this
      ensures
        var c := One(false, false);
        View() == Do(c, Do(c, old(View()), Push(msg)), Post)
    {
      queue := queue + [msg];
      pushed := pushed + [msg];
      sem := sem + 1;
    }

    method BreakWaitOnQ()
      modifies this
      ensures View() == Do(One(true, false), old(View()), Break)
    {
      sem := sem + 1;
    }

    method ClearAll()
      modifies this
      ensures View() == Do(One(false, true), old(View()), Clear)
    {
      queue := [];
    }

    /** Waits for a permit and takes the front; an interrupted wait takes nothing. Without a test an empty
        queue underflows. */
    method IsMsgArrived(interrupted: bool) returns (msg: Option<T>)
      requires interrupted || sem > 0
      modifies this
      ensures interrupted ==> msg == None && View() == old(View())
      ensures !interrupted ==>
                View() == Fetched(One(false, false), old(View()))
                && msg == if old(queue) == [] then None else Some(old(queue)[0])
    {
      if interrupted {
        return None;
      }
      sem := sem - 1;
      if queue == [] {
        underflow := underflow || style == NoTest;
        return None;
      }
      msg := Some(queue[0]);
      popped := popped + [queue[0]];
      queue := queue[1..];
    }
  }

  /** The steps of one undisturbed consumer. */
  function Fetched<T>(c: Setting, s: State<T>): State<T>
    requires s.sem > 0 && s.past == 0 && s.tested == 0 && !s.posting && c.consumers > 0
  {
    var past := Do(c, s, Wait);
    match c.style
    case LockedTest => Do(c, past, Test)
    case UnlockedTest => if s.queue == [] then Do(c, past, Test) else Do(c, Do(c, past, Test), Pop)
    case NoTest => Do(c, past, Pop)
  }
}
