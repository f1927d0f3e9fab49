// The slot-scheduling rate limiter (dnsx/ratelimit.go): the critical section as
// a class, and any number of callers as a state machine over a clock that never
// runs backwards. Times are in nanoseconds.
module RateLimit {
  import opened Text

  const SECOND: int := 1_000_000_000

  // A truncated division: above one query per nanosecond nothing is spaced.
  function Interval(qps: int): (i: int)
    requires qps > 0
    ensures i >= 0 && i * qps <= SECOND < (i + 1) * qps
  {
    SECOND / qps
  }

  function Burst(interval: int): int {
    20 * interval
  }

  function Later(a: int, b: int): int {
    if a < b then b else a
  }

  // The slot a caller arriving at now is offered, and whether it is near enough.
  function Offer(next: int, now: int): int {
    Later(next, now)
  }

  predicate Near(interval: int, next: int, now: int) {
    Offer(next, now) - now <= Burst(interval) + interval
  }

  class Limiter {
    const interval: int
    const burst: int
    var next: int

    ghost predicate Valid() {
      interval >= 0 && burst == Burst(interval)
    }

    constructor (qps: int, start: int)
      requires qps > 0
      ensures Valid() && interval == Interval(qps) && next == start
    {
      interval := Interval(qps);
      burst := Burst(Interval(qps));
      next := start;
    }

    // One pass through the critical section: a slot, or none when the queue is
    // too long, in which case the reservation is given back exactly.
    method Reserve(now: int) returns (slot: Option<int>)
      requires Valid()
      modifies this
      ensures Near(interval, old(next), now) ==> slot == Some(Offer(old(next), now)) && next == slot.value + interval
      ensures !Near(interval, old(next), now) ==> slot == None && next == old(next)
      ensures var at := if old(next) < now then now else old(next);
              if at <= now + 21 * interval then slot == Some(at) && next == at + interval else slot == None && next == old(next)
    {
      if next < now {
        next := now;
      }
      var at := next;
      next := next + interval;
      if at - now > burst + interval {
        next := next - interval;
        return None;
      }
      return Some(at);
    }
  }

  // ----------------------------------------------------------------- protocol

  type Caller = nat

  datatype Phase = Sleeping(slot: nat) | BackingOff(until: int)

  // slots are the granted moments in order, and grantedAt when each was granted;
  // a sleeping caller names its slot by position. served lists the callers let
  // through: which slot, and when.
  datatype State = State(interval: int, now: int, next: int, slots: seq<int>, grantedAt: seq<int>,
                         callers: map<Caller, Phase>, served: seq<(nat, int)>)

  datatype Step =
    | Arrive(caller: Caller, at: int)   // enters wait
    | Retry(caller: Caller, at: int)    // has slept out a refusal
    | Proceed(caller: Caller, at: int)  // finds its slot has come
    | Cancel(caller: Caller, at: int)   // its context ends first

  function Init(interval: int, start: int, now: int): State {
    State(interval, now, start, [], [], map[], [])
  }

  predicate Enabled(s: State, st: Step) {
    s.now <= st.at &&
    match st
    case Arrive(c, _) => c !in s.callers
    case Retry(c, at) => c in s.callers && s.callers[c].BackingOff? && s.callers[c].until <= at
    case Proceed(c, at) =>
      c in s.callers && s.callers[c].Sleeping? && s.callers[c].slot < |s.slots| && s.slots[s.callers[c].slot] <= at
    case Cancel(c, _) => c in s.callers
  }

  function Reserved(s: State, c: Caller, at: int): State {
    if Near(s.interval, s.next, at) then
      var slot := Offer(s.next, at);
      s.(now := at, next := slot + s.interval, slots := s.slots + [slot], grantedAt := s.grantedAt + [at],
         callers := s.callers[c := Sleeping(|s.slots|)])
    else s.(now := at, callers := s.callers[c := BackingOff(at + s.interval)])
  }

  function Next(s: State, st: Step): State
    requires Enabled(s, st)
  {
    match st
    case Arrive(c, at) => Reserved(s, c, at)
    case Retry(c, at) => Reserved(s, c, at)
    case Proceed(c, at) =>
      s.(now := at, callers := s.callers - {c}, served := s.served + [(s.callers[c].slot, at)])
    case Cancel(c, at) => s.(now := at, callers := s.callers - {c})
  }

  ghost predicate Schedule(s: State) {
    && |s.grantedAt| == |s.slots|
    && (s.slots != [] ==> s.next == s.slots[|s.slots| - 1] + s.interval)
    // Back to back while there is a backlog, and at once otherwise.
    && (forall i :: 0 < i < |s.slots| ==> s.slots[i] == Later(s.slots[i - 1] + s.interval, s.grantedAt[i]))
    // Never in the past, and never more than 21 intervals ahead.
    && (forall i :: 0 <= i < |s.slots| ==> s.grantedAt[i] <= s.slots[i] <= s.grantedAt[i] + 21 * s.interval)
    && (forall i :: 0 <= i < |s.slots| ==> s.grantedAt[i] <= s.now)
  }

  ghost predicate Callers(s: State) {
    && (forall c :: c in s.callers && s.callers[c].Sleeping? ==> s.callers[c].slot < |s.slots|)
    && (forall c, d :: c in s.callers && d in s.callers && s.callers[c].Sleeping? && s.callers[c] == s.callers[d] ==> c == d)
    // Nobody was let through before its slot.
    && (forall p :: p in s.served ==> p.0 < |s.slots| && s.slots[p.0] <= p.1 <= s.now)
    && (forall c, p :: c in s.callers && p in s.served && s.callers[c].Sleeping? ==> s.callers[c].slot != p.0)
    && (forall i, j :: 0 <= i < j < |s.served| ==> s.served[i].0 != s.served[j].0)
  }

  ghost predicate Safe(s: State) {
    s.interval >= 0 && Schedule(s) && Callers(s)
  }

  lemma {:induction false} GrantKeepsSchedule(s: State, slot: int, at: int)
    requires s.interval >= 0 && Schedule(s) && s.now <= at
    requires slot == Offer(s.next, at) && slot - at <= 21 * s.interval
    ensures Schedule(s.(now := at, next := slot + s.interval, slots := s.slots + [slot], grantedAt := s.grantedAt + [at]))
  {
  }

  lemma {:induction false} NextKeepsSchedule(s: State, st: Step)
    requires s.interval >= 0 && Schedule(s) && Enabled(s, st)
    ensures Schedule(Next(s, st))
  {
    hide Schedule;
    if (st.Arrive? || st.Retry?) && Near(s.interval, s.next, st.at) {
      GrantKeepsSchedule(s, Offer(s.next, st.at), st.at);
      SameSchedule(s.(now := st.at, next := Offer(s.next, st.at) + s.interval,
                      slots := s.slots + [Offer(s.next, st.at)], grantedAt := s.grantedAt + [st.at]), Next(s, st));
    } else {
      SameSchedule(s, Next(s, st));
    }
  }

  lemma SameSchedule(s: State, t: State)
    requires Schedule(s)
    requires t.interval == s.interval && t.now >= s.now && t.next == s.next && t.slots == s.slots && t.grantedAt == s.grantedAt
    ensures Schedule(t)
  {
  }

  lemma {:induction false} NextKeepsCallers(s: State, st: Step)
    requires Schedule(s) && Callers(s) && Enabled(s, st)
    ensures Callers(Next(s, st))
  {
    hide Schedule;
  }

  ghost predicate IsRun(states: seq<State>, steps: seq<Step>) {
    && |states| == |steps| + 1
    && states[0].interval >= 0 && (exists start, now :: states[0] == Init(states[0].interval, start, now))
    && forall i :: 0 <= i < |steps| ==> Enabled(states[i], steps[i]) && states[i + 1] == Next(states[i], steps[i])
  }

  lemma {:induction false} EveryStateIsSafe(states: seq<State>, steps: seq<Step>, i: nat)
    requires IsRun(states, steps) && i < |states|
    ensures Safe(states[i])
  {
    hide Next, Enabled, Schedule, Callers;
    if i == 0 {
      var start, now :| states[0] == Init(states[0].interval, start, now);
      InitIsSafe(states[0].interval, start, now);
    } else {
      EveryStateIsSafe(states, steps, i - 1);
      NextKeepsSchedule(states[i - 1], steps[i - 1]);
      NextKeepsCallers(states[i - 1], steps[i - 1]);
      assert states[i - 1 + 1] == Next(states[i - 1], steps[i - 1]);
      IntervalIsFixed(states[i - 1], steps[i - 1]);
    }
  }

  lemma InitIsSafe(interval: int, start: int, now: int)
    requires interval >= 0
    ensures Safe(Init(interval, start, now))
  {
  }

  lemma IntervalIsFixed(s: State, st: Step)
    requires Enabled(s, st)
    ensures Next(s, st).interval == s.interval && s.slots <= Next(s, st).slots
  {
  }

  lemma SlotAfter(s: State, i: nat)
    requires Schedule(s) && 0 < i < |s.slots|
    ensures s.slots[i] == Later(s.slots[i - 1] + s.interval, s.grantedAt[i])
  {
  }

  lemma OneMore(n: int, c: int)
    ensures n * c == (n - 1) * c + c
  {
  }

  // k more grants take at least k intervals.
  lemma {:induction false} GrantsAreSpaced(s: State, i: nat, j: nat)
    requires s.interval >= 0 && Schedule(s) && i <= j < |s.slots|
    ensures s.slots[j] - s.slots[i] >= (j - i) * s.interval
    decreases j - i
  {
    hide Schedule;
    if i < j {
      GrantsAreSpaced(s, i, j - 1);
      SlotAfter(s, j);
      OneMore(j - i, s.interval);
    }
  }

  // ... and exactly that many when every one of them was granted into a backlog.
  lemma {:induction false} BackloggedGrantsAreEven(s: State, i: nat, j: nat)
    requires s.interval >= 0 && Schedule(s) && i <= j < |s.slots| == |s.grantedAt|
    requires forall k :: i < k <= j ==> s.grantedAt[k] <= s.slots[k - 1] + s.interval
    ensures s.slots[j] - s.slots[i] == (j - i) * s.interval
    decreases j - i
  {
    hide Schedule;
    if i < j {
      BackloggedGrantsAreEven(s, i, j - 1);
      SlotAfter(s, j);
      OneMore(j - i, s.interval);
    }
  }

  // At any instant at most 21 granted slots still lie ahead.
  lemma {:induction false} BacklogIsBounded(s: State)
    requires s.interval >= 0 && Schedule(s)
    ensures forall i :: 0 <= i < |s.slots| - 21 ==> s.slots[i] <= s.now
    ensures |set i | 0 <= i < |s.slots| && s.slots[i] > s.now| <= 21
  {
    var n := |s.slots|;
    forall i | 0 <= i < n - 21 ensures s.slots[i] <= s.now {
      GrantsAreSpaced(s, i, n - 1);
      assert (n - 1 - i) * s.interval >= 21 * s.interval by {
        Multiply(n - 1 - i, 21, s.interval);
      }
      assert s.slots[n - 1] <= s.now + 21 * s.interval;
    }
    var ahead := set i | 0 <= i < n && s.slots[i] > s.now;
    Few(ahead, Later(0, n - 21), n);
  }

  lemma Multiply(a: int, b: int, c: int)
    requires a >= b && c >= 0
    ensures a * c >= b * c
  {
  }

  lemma {:induction false} Few(s: set<int>, a: int, b: int)
    requires a <= b && forall x :: x in s ==> a <= x < b
    ensures |s| <= b - a
    decreases b - a
  {
    if a == b {
      assert forall x :: x !in s;
      assert s == {};
    } else {
      Few(s - {b - 1}, a, b - 1);
      assert |s| <= |s - {b - 1}| + 1;
    }
  }

  // ---------------------------------------------------------------- refusals

  // Nobody is held back: a new caller may come at any time, a sleeper go on once its
  // slot has come, a refused one ask again once it has slept, and anyone give up.
  lemma NobodyIsHeldBack(s: State, c: Caller, at: int)
    requires s.now <= at
    ensures c !in s.callers ==> Enabled(s, Arrive(c, at))
    ensures c in s.callers ==> Enabled(s, Cancel(c, at))
    ensures c in s.callers && s.callers[c].BackingOff? && s.callers[c].until <= at ==> Enabled(s, Retry(c, at))
    ensures c in s.callers && s.callers[c].Sleeping? && s.callers[c].slot < |s.slots| && s.slots[s.callers[c].slot] <= at ==>
              Enabled(s, Proceed(c, at))
  {
  }

  // Only its own steps move a caller.
  lemma OthersWait(s: State, st: Step, c: Caller)
    requires Enabled(s, st) && c != st.caller
    ensures c in Next(s, st).callers <==> c in s.callers
    ensures c in s.callers ==> Next(s, st).callers[c] == s.callers[c]
  {
  }

  // A refused caller that asks again does so no sooner than one interval later.
  lemma {:induction false} RefusedBackOff(states: seq<State>, steps: seq<Step>, i: nat, j: nat, c: Caller)
    requires IsRun(states, steps) && i < j < |steps| && steps[j].caller == c && steps[i].caller == c
    requires (steps[i].Arrive? || steps[i].Retry?) && |states| == |steps| + 1 && states[i + 1].slots == states[i].slots
    requires forall k :: i < k < j ==> steps[k].caller != c
    ensures steps[j].Retry? || steps[j].Cancel?
    ensures steps[j].Retry? ==> steps[j].at >= steps[i].at + states[0].interval
  {
    hide IsRun, Next, Enabled;
    RunGoesOn(states, steps, i);
    RefusedNow(states[i], steps[i]);
    RefusalsLeaveNoTrace(states, steps, i);
    StillBackingOff(states, steps, i, j, c, steps[i].at + states[0].interval);
    RunGoesOn(states, steps, j);
    OnlyWhatComesNext(states[j], steps[j]);
  }

  lemma RefusedNow(s: State, st: Step)
    requires Enabled(s, st) && (st.Arrive? || st.Retry?) && Next(s, st).slots == s.slots
    ensures st.caller in Next(s, st).callers && Next(s, st).callers[st.caller] == BackingOff(st.at + s.interval)
  {
    assert |s.slots + [Offer(s.next, st.at)]| == |s.slots| + 1;
  }

  lemma {:induction false} StillBackingOff(states: seq<State>, steps: seq<Step>, i: nat, j: nat, c: Caller, until: int)
    requires IsRun(states, steps) && i < j <= |steps| && |states| == |steps| + 1
    requires c in states[i + 1].callers && states[i + 1].callers[c] == BackingOff(until)
    requires forall k :: i < k < j ==> steps[k].caller != c
    ensures c in states[j].callers && states[j].callers[c] == BackingOff(until)
    decreases j
  {
    hide IsRun, Next, Enabled;
    if j > i + 1 {
      StillBackingOff(states, steps, i, j - 1, c, until);
      RunGoesOn(states, steps, j - 1);
      OthersWait(states[j - 1], steps[j - 1], c);
    }
  }

  // A caller does what comes next and nothing else: one with a slot goes on when it
  // has come, a refused one asks again when it has slept, and either may give up.
  lemma OnlyWhatComesNext(s: State, st: Step)
    requires Enabled(s, st)
    ensures st.caller !in s.callers ==> st.Arrive?
    ensures st.caller in s.callers ==>
              match s.callers[st.caller]
              case Sleeping(slot) => st.Cancel? || (st.Proceed? && slot < |s.slots| && s.slots[slot] <= st.at)
              case BackingOff(until) => st.Cancel? || (st.Retry? && until <= st.at)
  {
  }

  // Whoever asks is granted the next free moment, at the earliest now, if and only
  // if that is at most 21 intervals away.
  lemma {:induction false} GrantedExactly(s: State, st: Step)
    requires Enabled(s, st) && (st.Arrive? || st.Retry?)
    ensures var at := if s.next < st.at then st.at else s.next; var s' := Next(s, st);
            if at - st.at <= 21 * s.interval then
              s'.slots == s.slots + [at] && s'.next == at + s.interval && s'.callers == s.callers[st.caller := Sleeping(|s.slots|)]
            else s'.slots == s.slots && s'.next == s.next && s'.callers == s.callers[st.caller := BackingOff(st.at + s.interval)]
  {
  }

  // The slots handed out to callers arriving at these times, and the next one free.
  function Queue(interval: int, next: int, ats: seq<int>): (int, seq<int>) {
    if ats == [] then (next, [])
    else
      var at, q := ats[|ats| - 1], Queue(interval, next, ats[..|ats| - 1]);
      if Near(interval, q.0, at) then (Offer(q.0, at) + interval, q.1 + [Offer(q.0, at)]) else q
  }

  // When each attempt to reserve was made, granted or not.
  function Tried(steps: seq<Step>): seq<int> {
    if steps == [] then []
    else
      var st := steps[|steps| - 1];
      Tried(steps[..|steps| - 1]) + if st.Arrive? || st.Retry? then [st.at] else []
  }

  // The schedule of any run is the one the granted callers would have had with
  // nobody else there: those refused leave no trace in it.
  lemma {:induction false} RefusalsLeaveNoTrace(states: seq<State>, steps: seq<Step>, i: nat)
    requires IsRun(states, steps) && i < |states|
    ensures var s, start := states[i], states[0].next;
            && (s.next, s.slots) == Queue(s.interval, start, Tried(steps[..i]))
            && (s.next, s.slots) == Queue(s.interval, start, s.grantedAt)
            && |s.grantedAt| == |s.slots| && s.interval == states[0].interval
  {
    hide IsRun, Next, Enabled, Queue, Tried;
    RunStarts(states, steps);
    if i == 0 {
      NobodyQueues(states[0].interval, states[0].next);
    } else {
      RefusalsLeaveNoTrace(states, steps, i - 1);
      RunGoesOn(states, steps, i - 1);
      assert steps[..i][..i - 1] == steps[..i - 1];
      StepQueues(states[i - 1], steps[i - 1], states[0].next, Tried(steps[..i - 1]));
      TriedOneMore(steps[..i]);
    }
  }

  lemma RunStarts(states: seq<State>, steps: seq<Step>)
    requires IsRun(states, steps)
    ensures |states| == |steps| + 1 && states[0].interval >= 0 && states[0].slots == [] && states[0].grantedAt == []
  {
  }

  lemma RunGoesOn(states: seq<State>, steps: seq<Step>, i: nat)
    requires IsRun(states, steps) && i < |steps|
    ensures |states| == |steps| + 1 && Enabled(states[i], steps[i]) && states[i + 1] == Next(states[i], steps[i])
  {
    hide Next, Enabled;
  }

  lemma NobodyQueues(interval: int, next: int)
    ensures Queue(interval, next, []) == (next, []) && Tried([]) == []
  {
  }

  lemma TriedOneMore(steps: seq<Step>)
    requires steps != []
    ensures var st := steps[|steps| - 1];
            Tried(steps) == Tried(steps[..|steps| - 1]) + if st.Arrive? || st.Retry? then [st.at] else []
  {
  }

  lemma {:induction false} StepQueues(s: State, st: Step, start: int, tried: seq<int>)
    requires Enabled(s, st) && |s.grantedAt| == |s.slots|
    requires (s.next, s.slots) == Queue(s.interval, start, tried) == Queue(s.interval, start, s.grantedAt)
    ensures var s' := Next(s, st); var tried' := tried + if st.Arrive? || st.Retry? then [st.at] else [];
            && (s'.next, s'.slots) == Queue(s.interval, start, tried') == Queue(s.interval, start, s'.grantedAt)
            && |s'.grantedAt| == |s'.slots| && s'.interval == s.interval
  {
    hide Queue, Near, Offer;
    QueueOneMore(s.interval, start, tried, st.at);
    QueueOneMore(s.interval, start, s.grantedAt, st.at);
    assert tried + [] == tried;
  }

  lemma QueueOneMore(interval: int, next: int, ats: seq<int>, at: int)
    ensures var q := Queue(interval, next, ats);
            Queue(interval, next, ats + [at]) ==
              if Near(interval, q.0, at) then (Offer(q.0, at) + interval, q.1 + [Offer(q.0, at)]) else q
  {
  }

  // ------------------------------------------------------- grants in a window

  function FirstFrom(slots: seq<int>, x: int): (i: nat)
    ensures i <= |slots| && (forall k :: 0 <= k < i ==> slots[k] < x) && (i < |slots| ==> slots[i] >= x)
  {
    if slots == [] || slots[0] >= x then 0 else 1 + FirstFrom(slots[1..], x)
  }

  // The slots from x on in a window this long.
  function InWindow(s: State, x: int, length: int): set<int> {
    set i | 0 <= i < |s.slots| && x <= s.slots[i] < x + length
  }

  // As many intervals as fill a window are as many slots as it can hold.
  lemma {:induction false} WindowHolds(s: State, x: int, length: int, n: nat)
    requires s.interval >= 0 && Schedule(s) && n * s.interval >= length
    ensures |InWindow(s, x, length)| <= n
  {
    hide Schedule;
    var a := FirstFrom(s.slots, x);
    forall j | j in InWindow(s, x, length) ensures a <= j < a + n {
      GrantsAreSpaced(s, a, j);
      if j - a >= n {
        Multiply(j - a, n, s.interval);
      }
    }
    Few(InWindow(s, x, length), a, a + n);
  }

  // ------------------------------------------------------ queries in a second

  // The callers let through in the second from x on.
  function QueriesInSecond(s: State, x: int): set<int> {
    set i | 0 <= i < |s.served| && x <= s.served[i].1 < x + SECOND
  }

  // Nobody was let through more than late after its slot.
  ghost predicate Prompt(s: State, late: int) {
    forall p :: p in s.served && p.0 < |s.slots| ==> p.1 <= s.slots[p.0] + late
  }

  // Callers let through at most late after their slots come out of the slots of a
  // window that much longer than a second.
  lemma {:induction false} QueriesComeFromSlots(s: State, x: int, late: nat)
    requires Safe(s) && Prompt(s, late)
    ensures |QueriesInSecond(s, x)| <= |InWindow(s, x - late, SECOND + late)|
  {
    hide Schedule;
    var queries := QueriesInSecond(s, x);
    forall i | i in queries ensures s.served[i].0 in InWindow(s, x - late, SECOND + late) {
      assert s.served[i] in s.served;
    }
    InjectionFits(queries, s.served, |s.served|, InWindow(s, x - late, SECOND + late));
  }

  // Callers with different slots are no more than those slots.
  lemma {:induction false} InjectionFits(a: set<int>, served: seq<(nat, int)>, n: nat, slots: set<int>)
    requires n <= |served| && forall i :: i in a ==> 0 <= i < n && served[i].0 in slots
    requires forall i, j :: i in a && j in a && i != j ==> served[i].0 != served[j].0
    ensures |a| <= |slots|
  {
    if n == 0 {
      assert forall i :: i !in a;
      assert a == {};
    } else if n - 1 in a {
      InjectionFits(a - {n - 1}, served, n - 1, slots - {served[n - 1].0});
      assert |slots - {served[n - 1].0}| == |slots| - 1;
    } else {
      InjectionFits(a, served, n - 1, slots);
    }
  }

  lemma {:induction false} SecondHolds(s: State, x: int, late: nat, n: nat)
    requires Safe(s) && Prompt(s, late) && n * s.interval >= SECOND + late
    ensures |QueriesInSecond(s, x)| <= n
  {
    hide Schedule, Callers, Prompt;
    QueriesComeFromSlots(s, x, late);
    WindowHolds(s, x - late, SECOND + late, n);
  }

  // No run of a limiter ever grants more than qps slots within a second.
  ghost predicate IsCeilingOnSlots(qps: int)
    requires qps > 0
  {
    forall states: seq<State>, steps: seq<Step>, i: nat, x: int ::
      IsRun(states, steps) && states[0].interval == Interval(qps) && i < |states| ==> |InWindow(states[i], x, SECOND)| <= qps
  }

  // No run in which callers come at most late after their slots lets more than qps
  // of them through within a second.
  ghost predicate IsCeilingOnQueries(qps: int, late: nat)
    requires qps > 0
  {
    forall states: seq<State>, steps: seq<Step>, i: nat, x: int ::
      IsRun(states, steps) && states[0].interval == Interval(qps) && i < |states| && Prompt(states[i], late) ==>
        |QueriesInSecond(states[i], x)| <= qps
  }

  // -------------------------------------------------- a run at the full rate

  // Caller k arrives and is let through at its slot, k intervals from time zero;
  // only the first may come late.
  function Moment(interval: int, late: int, k: int): int {
    k * interval + if k == 0 then late else 0
  }

  // After k callers have come and gone.
  function Passed(interval: int, late: int, k: nat): State {
    State(interval, if k == 0 then 0 else Moment(interval, late, k - 1), k * interval,
          seq(k, j => j * interval), seq(k, j => j * interval), map[], seq(k, j => (j, Moment(interval, late, j))))
  }

  function Granted(interval: int, late: int, k: nat): State {
    Reserved(Passed(interval, late, k), k, k * interval)
  }

  lemma {:induction false} OneMorePasses(interval: int, late: int, k: nat)
    requires 0 <= late <= interval
    ensures var s, t := Passed(interval, late, k), Granted(interval, late, k);
            && Enabled(s, Arrive(k, k * interval)) && Next(s, Arrive(k, k * interval)) == t
            && Enabled(t, Proceed(k, Moment(interval, late, k)))
            && Next(t, Proceed(k, Moment(interval, late, k))) == Passed(interval, late, k + 1)
  {
    OneMore(k, interval);
    OneMore(k + 1, interval);
    var t := Next(Granted(interval, late, k), Proceed(k, Moment(interval, late, k)));
    var u := Passed(interval, late, k + 1);
    assert t.slots == u.slots && t.grantedAt == u.grantedAt && t.served == u.served && t.callers == u.callers;
  }

  function FullStates(interval: int, late: int, n: nat): seq<State> {
    seq(2 * n + 1, i requires 0 <= i => if i % 2 == 0 then Passed(interval, late, i / 2) else Granted(interval, late, i / 2))
  }

  function FullSteps(interval: int, late: int, n: nat): seq<Step> {
    seq(2 * n, i requires 0 <= i =>
      if i % 2 == 0 then Arrive(i / 2, i / 2 * interval) else Proceed(i / 2, Moment(interval, late, i / 2)))
  }

  lemma {:induction false} FullRateIsRun(interval: int, late: int, n: nat)
    requires 0 <= late <= interval
    ensures IsRun(FullStates(interval, late, n), FullSteps(interval, late, n))
    ensures FullStates(interval, late, n)[0].interval == interval && FullStates(interval, late, n)[2 * n] == Passed(interval, late, n)
  {
    hide Passed, Granted, Next, Enabled, Moment;
    var states, steps := FullStates(interval, late, n), FullSteps(interval, late, n);
    forall i | 0 <= i < |steps| ensures Enabled(states[i], steps[i]) && states[i + 1] == Next(states[i], steps[i]) {
      OneMorePasses(interval, late, i / 2);
    }
    NonePassed(interval, late);
  }

  lemma NonePassed(interval: int, late: int)
    ensures Passed(interval, late, 0) == Init(interval, 0, 0)
  {
  }

  lemma {:induction false} AtLeast(s: set<int>, n: nat)
    requires forall x :: 0 <= x < n ==> x in s
    ensures |s| >= n
  {
    if n > 0 {
      AtLeast(s - {n - 1}, n - 1);
      assert |s - {n - 1}| == |s| - 1;
    }
  }

  // One more caller than qps within a second, when the interval was rounded down
  // or the first of them comes late.
  lemma {:induction false} OneTooMany(qps: int, late: int)
    requires qps > 0 && 0 <= late <= Interval(qps) && qps * Interval(qps) < SECOND + late
    ensures var s := Passed(Interval(qps), late, qps + 1);
            && |QueriesInSecond(s, late)| > qps && Prompt(s, late)
            && (late == 0 ==> |InWindow(s, 0, SECOND)| > qps)
  {
    var interval, n := Interval(qps), qps + 1;
    var s := Passed(interval, late, n);
    forall j | 0 <= j < n
      ensures 0 <= j * interval < SECOND + late && (j > 0 ==> late <= j * interval)
    {
      Multiply(qps, j, interval);
      Multiply(j, 0, interval);
      if j > 0 {
        Multiply(j, 1, interval);
      }
    }
    AtLeast(QueriesInSecond(s, late), n);
    if late == 0 {
      AtLeast(InWindow(s, 0, SECOND), n);
    }
  }

  // ---------------------------------------------------------- is it a ceiling

  // The division rounds down, so the pace may be a little faster than asked for:
  // qps is a ceiling on slots if and only if it divides a second evenly.
  lemma {:induction false} CeilingExactly(qps: int)
    requires qps > 0
    ensures IsCeilingOnSlots(qps) <==> SECOND % qps == 0
  {
    hide Schedule, Next, Enabled, Passed;
    var interval := Interval(qps);
    if SECOND % qps == 0 {
      forall states: seq<State>, steps: seq<Step>, i: nat, x: int |
        IsRun(states, steps) && states[0].interval == interval && i < |states|
        ensures |InWindow(states[i], x, SECOND)| <= qps
      {
        EveryStateIsSafe(states, steps, i);
        RefusalsLeaveNoTrace(states, steps, i);
        WindowHolds(states[i], x, SECOND, qps);
      }
    } else {
      var n := qps + 1;
      var states := FullStates(interval, 0, n);
      FullRateIsRun(interval, 0, n);
      OneTooMany(qps, 0);
      assert |InWindow(states[2 * n], 0, SECOND)| > qps;
    }
  }

  // It is a ceiling on the queries themselves if and only if, besides, nobody is
  // ever late: a single late caller makes one too many with the prompt ones
  // after it.
  lemma {:induction false} QueryCeilingExactly(qps: int, late: nat)
    requires qps > 0
    ensures IsCeilingOnQueries(qps, late) <==> SECOND % qps == 0 && late == 0
  {
    hide Schedule, Callers, Next, Enabled, Passed, Prompt;
    var interval := Interval(qps);
    if SECOND % qps == 0 && late == 0 {
      forall states: seq<State>, steps: seq<Step>, i: nat, x: int |
        IsRun(states, steps) && states[0].interval == interval && i < |states| && Prompt(states[i], late)
        ensures |QueriesInSecond(states[i], x)| <= qps
      {
        EveryStateIsSafe(states, steps, i);
        RefusalsLeaveNoTrace(states, steps, i);
        SecondHolds(states[i], x, late, qps);
      }
    } else {
      var n, first := qps + 1, if SECOND % qps == 0 then 1 else 0;
      var states := FullStates(interval, first, n);
      FullRateIsRun(interval, first, n);
      OneTooMany(qps, first);
      PromptLater(states[2 * n], first, late);
      assert |QueriesInSecond(states[2 * n], first)| > qps;
    }
  }

  lemma PromptLater(s: State, late: int, more: int)
    requires Prompt(s, late) && late <= more
    ensures Prompt(s, more)
  {
  }

  // For every rate up to 31622 a second and callers at most an interval late, less
  // what rounding took, it is exceeded by at most one.
  lemma {:induction false} CeilingWithinOne(qps: int, states: seq<State>, steps: seq<Step>, i: nat, x: int, late: nat)
    requires qps > 0 && qps * qps <= SECOND
    requires IsRun(states, steps) && states[0].interval == Interval(qps) && i < |states|
    ensures |InWindow(states[i], x, SECOND)| <= qps + 1
    ensures late <= Interval(qps) - SECOND % qps && Prompt(states[i], late) ==> |QueriesInSecond(states[i], x)| <= qps + 1
  {
    hide IsRun, Schedule, Callers, Prompt;
    var interval := Interval(qps);
    assert interval * qps + SECOND % qps == SECOND;
    assert interval >= qps by {
      if interval < qps {
        Multiply(qps, interval + 1, qps);
      }
    }
    EveryStateIsSafe(states, steps, i);
    RefusalsLeaveNoTrace(states, steps, i);
    assert (qps + 1) * interval == interval * qps + interval;
    WindowHolds(states[i], x, SECOND, qps + 1);
    if late <= interval - SECOND % qps && Prompt(states[i], late) {
      SecondHolds(states[i], x, late, qps + 1);
    }
  }

  // Nobody is let through early, and no two callers are let through on one slot.
  lemma {:induction false} NobodyIsEarly(s: State, i: nat, j: nat)
    requires Safe(s) && i < j < |s.served|
    ensures s.served[i].0 < |s.slots| && s.slots[s.served[i].0] <= s.served[i].1
    ensures s.served[i].0 != s.served[j].0
    ensures s.served[j].0 < |s.slots|
    ensures Later(s.slots[s.served[i].0] - s.slots[s.served[j].0], s.slots[s.served[j].0] - s.slots[s.served[i].0]) >= s.interval
  {
    var a, b := s.served[i].0, s.served[j].0;
    assert s.served[i] in s.served && s.served[j] in s.served;
    if a < b {
      GrantsAreSpaced(s, a, b);
      Multiply(b - a, 1, s.interval);
    } else {
      GrantsAreSpaced(s, b, a);
      Multiply(a - b, 1, s.interval);
    }
  }
}
