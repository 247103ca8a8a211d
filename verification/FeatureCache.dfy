/** The cache that `cpufeatures::new!` builds: one relaxed atomic byte shared by any number of
    threads. The stores form a modification order. A load may return any value that is not older
    than what its thread has seen, and a store may enter the order anywhere after that. Safe Rust moves
    a token between threads with synchronisation only; a `Leak` takes unsafe code. */
module FeatureCache {
  import opened Common

  type Thread = nat

  const UNINIT: byte := 255

  function ToByte(b: bool): byte { if b then 1 else 0 }

  /** Where a thread stands in `init_get`: outside, or between its load of `UNINIT` and its store. */
  datatype Pc = Outside | Detecting

  /** `view` is the newest position of the order that the thread knows of. */
  datatype Local = Local(view: nat, pc: Pc, token: bool, detections: nat)

  const FRESH := Local(0, Outside, false, 0)

  /** What a finished call has returned to its thread. */
  datatype Return = InitGet(t: Thread, value: bool) | TokenGet(t: Thread, value: bool)

  datatype State = State(order: seq<byte>, locals: map<Thread, Local>, log: seq<Return>) {
    function At(t: Thread): Local {
      if t in locals then locals[t] else FRESH
    }
  }

  datatype Event =
    | Load(t: Thread, i: nat)        // the load of `init_get` returns `order[i]`
    | Store(t: Thread, i: nat)       // the store of `init_get` enters the order at `i`
    | Get(t: Thread, i: nat)         // `token.get()` loads `order[i]`
    | Pass(t: Thread, u: Thread)     // `t` gives `u` a copy of its token, with synchronisation
    | Leak(t: Thread, u: Thread)     // `t` gives `u` a copy of its token, without (unsafe code only)
    | Sync(t: Thread, u: Thread)     // `u` learns what `t` knows

  const INIT := State([UNINIT], map[], [])

  function Max(a: nat, b: nat): nat { if a < b then b else a }

  predicate Enabled(st: State, ev: Event) {
    match ev
    case Load(t, i) => st.At(t).pc.Outside? && st.At(t).view <= i < |st.order|
    case Store(t, i) => st.At(t).pc.Detecting? && st.At(t).view < i <= |st.order|
    case Get(t, i) => st.At(t).token && st.At(t).view <= i < |st.order|
    case Pass(t, u) => st.At(t).token
    case Leak(t, u) => st.At(t).token
    case Sync(t, u) => true
  }

  /** The effect of one step; `detected` is what feature detection finds. */
  function Next(detected: bool, st: State, ev: Event): State
    requires Enabled(st, ev)
  {
    match ev
    case Load(t, i) =>
      var l := st.At(t).(view := i);
      if st.order[i] == UNINIT then
        st.(locals := st.locals[t := l.(pc := Detecting, detections := l.detections + 1)])
      else
        st.(locals := st.locals[t := l.(token := true)],
            log := st.log + [InitGet(t, st.order[i] == 1)])
    case Store(t, i) =>
      var shifted := map u | u in st.locals ::
        if st.locals[u].view >= i then st.locals[u].(view := st.locals[u].view + 1) else st.locals[u];
      State(st.order[..i] + [ToByte(detected)] + st.order[i..],
            shifted[t := st.At(t).(view := i, pc := Outside, token := true)],
            st.log + [InitGet(t, detected)])
    case Get(t, i) =>
      st.(locals := st.locals[t := st.At(t).(view := i)],
          log := st.log + [TokenGet(t, st.order[i] == 1)])
    case Pass(t, u) =>
      st.(locals := st.locals[u := st.At(u).(view := Max(st.At(u).view, st.At(t).view), token := true)])
    case Leak(t, u) =>
      st.(locals := st.locals[u := st.At(u).(token := true)])
    case Sync(t, u) =>
      st.(locals := st.locals[u := st.At(u).(view := Max(st.At(u).view, st.At(t).view))])
  }

  /** `events` can happen one after the other, from `st`. */
  predicate IsRun(detected: bool, st: State, events: seq<Event>)
    decreases |events|
  {
    events == [] || (Enabled(st, events[0]) && IsRun(detected, Next(detected, st, events[0]), events[1..]))
  }

  function After(detected: bool, st: State, events: seq<Event>): State
    requires IsRun(detected, st, events)
    decreases |events|
  {
    if events == [] then st else After(detected, Next(detected, st, events[0]), events[1..])
  }

  // ----- the invariants -----

  predicate SoundLocal(l: Local, len: nat) {
    && l.view < len
    && l.detections <= 1
    && (l.pc.Outside? && l.view == 0 ==> l.detections == 0)
  }

  /** What holds even if tokens leak: only the first value of the order is `UNINIT`, and a wrong
      answer can only be a token that misses a feature. */
  predicate Sound(detected: bool, st: State) {
    && |st.order| > 0 && st.order[0] == UNINIT
    && (forall i :: 0 < i < |st.order| ==> st.order[i] == ToByte(detected))
    && (forall t :: t in st.locals ==> SoundLocal(st.locals[t], |st.order|))
    && (forall r :: r in st.log ==> r.value == detected || (r.TokenGet? && detected))
  }

  /** Every holder of a token has seen a stored value. */
  predicate Carried(detected: bool, st: State) {
    && (forall t :: t in st.locals && st.locals[t].token ==> st.locals[t].view > 0)
    && (forall r :: r in st.log ==> r.value == detected)
  }

  predicate Good(detected: bool, st: State) {
    Sound(detected, st) && Carried(detected, st)
  }

  lemma SoundStep(detected: bool, st: State, ev: Event)
    requires Sound(detected, st) && Enabled(st, ev)
    ensures Sound(detected, Next(detected, st, ev))
  {
    if ev.Store? {
      StoreIsSound(detected, st, ev.t, ev.i);
    } else {
      assert forall t :: SoundLocal(st.At(t), |st.order|);
      assert ev.Load? ==> (st.order[ev.i] == UNINIT <==> ev.i == 0);
    }
  }

  lemma StoreIsSound(detected: bool, st: State, t: Thread, i: nat)
    requires Sound(detected, st) && Enabled(st, Store(t, i))
    ensures Sound(detected, Next(detected, st, Store(t, i)))
  {
    var st' := Next(detected, st, Store(t, i));
    forall k | 0 < k < |st'.order|
      ensures st'.order[k] == ToByte(detected)
    {
      assert k > i ==> st'.order[k] == st.order[k - 1];
    }
    assert SoundLocal(st.At(t), |st.order|);
  }

  /** Every step of every thread keeps the invariant, unless it leaks a token. */
  lemma GoodStep(detected: bool, st: State, ev: Event)
    requires Good(detected, st) && Enabled(st, ev) && !ev.Leak?
    ensures Good(detected, Next(detected, st, ev))
  {
    SoundStep(detected, st, ev);
    assert forall t :: st.At(t).token ==> st.At(t).view > 0;
    if ev.Load? {
      assert st.order[ev.i] == UNINIT <==> ev.i == 0;
    } else if ev.Get? {
      assert st.order[ev.i] == ToByte(detected);
    }
  }

  lemma {:induction false} SoundRun(detected: bool, st: State, events: seq<Event>)
    requires Sound(detected, st) && IsRun(detected, st, events)
    ensures Sound(detected, After(detected, st, events))
    decreases |events|
  {
    hide Sound;
    if events != [] {
      SoundStep(detected, st, events[0]);
      SoundRun(detected, Next(detected, st, events[0]), events[1..]);
    }
  }

  predicate NoLeak(events: seq<Event>) {
    forall i :: 0 <= i < |events| ==> !events[i].Leak?
  }

  lemma {:induction false} GoodRun(detected: bool, st: State, events: seq<Event>)
    requires Good(detected, st) && IsRun(detected, st, events) && NoLeak(events)
    ensures Good(detected, After(detected, st, events))
    decreases |events|
  {
    hide Good;
    if events != [] {
      GoodStep(detected, st, events[0]);
      GoodRun(detected, Next(detected, st, events[0]), events[1..]);
    }
  }

  /** Safety of every interleaving: each value returned by `init_get` or by a token is the detected
      one, whoever holds a token can load nothing else, and no thread detects twice. */
  lemma CacheIsSafe(detected: bool, events: seq<Event>)
    requires IsRun(detected, INIT, events) && NoLeak(events)
    ensures var st := After(detected, INIT, events);
            && (forall r :: r in st.log ==> r.value == detected)
            && (forall t: Thread, i: nat :: Enabled(st, Get(t, i)) ==> st.order[i] == if detected then 1 else 0)
            && (forall t :: st.At(t).detections <= 1)
            && |st.order| > 0 && st.order[0] == 255
            && (forall i :: 0 < i < |st.order| ==> st.order[i] == if detected then 1 else 0)
  {
    GoodRun(detected, INIT, events);
    var st := After(detected, INIT, events);
    forall t
      ensures SoundLocal(st.At(t), |st.order|) && (st.At(t).token ==> st.At(t).view > 0)
    {
    }
  }

  // ----- every call answers -----

  function LoadsOf(events: seq<Event>, t: Thread): nat {
    if events == [] then 0 else (if events[0].Load? && events[0].t == t then 1 else 0) + LoadsOf(events[1..], t)
  }

  function StoresOf(events: seq<Event>, t: Thread): nat {
    if events == [] then 0 else (if events[0].Store? && events[0].t == t then 1 else 0) + StoresOf(events[1..], t)
  }

  function GetsOf(events: seq<Event>, t: Thread): nat {
    if events == [] then 0 else (if events[0].Get? && events[0].t == t then 1 else 0) + GetsOf(events[1..], t)
  }

  function AnswersOf(log: seq<Return>, t: Thread): nat {
    if log == [] then 0
    else AnswersOf(log[..|log| - 1], t) + if log[|log| - 1].InitGet? && log[|log| - 1].t == t then 1 else 0
  }

  function TokenAnswersOf(log: seq<Return>, t: Thread): nat {
    if log == [] then 0
    else TokenAnswersOf(log[..|log| - 1], t) + if log[|log| - 1].TokenGet? && log[|log| - 1].t == t then 1 else 0
  }

  function Pending(st: State, t: Thread): nat {
    if st.At(t).pc.Detecting? then 1 else 0
  }

  lemma OneAnswer(log: seq<Return>, r: Return, t: Thread)
    ensures AnswersOf(log + [r], t) == AnswersOf(log, t) + if r.InitGet? && r.t == t then 1 else 0
    ensures TokenAnswersOf(log + [r], t) == TokenAnswersOf(log, t) + if r.TokenGet? && r.t == t then 1 else 0
  {
    var all := log + [r];
    assert all[..|all| - 1] == log && all[|all| - 1] == r;
  }

  /** What one step adds to the accounts of a thread. */
  lemma StepAccounts(detected: bool, st: State, ev: Event, t: Thread)
    requires Enabled(st, ev) && (AnswersOf(st.log, t) > 0 ==> st.At(t).token)
    ensures var next := Next(detected, st, ev);
            && AnswersOf(next.log, t) + Pending(next, t)
               == AnswersOf(st.log, t) + Pending(st, t) + (if ev.Load? && ev.t == t then 1 else 0)
            && next.At(t).detections + Pending(st, t)
               == st.At(t).detections + Pending(next, t) + (if ev.Store? && ev.t == t then 1 else 0)
            && TokenAnswersOf(next.log, t) == TokenAnswersOf(st.log, t) + (if ev.Get? && ev.t == t then 1 else 0)
            && (AnswersOf(next.log, t) > 0 ==> next.At(t).token)
  {
    hide AnswersOf, TokenAnswersOf;
    var next := Next(detected, st, ev);
    if |next.log| > |st.log| {
      OneAnswer(st.log, next.log[|st.log|], t);
      assert next.log == st.log + [next.log[|st.log|]];
    }
  }

  lemma {:induction false} RunAccounts(detected: bool, st: State, events: seq<Event>, t: Thread)
    requires IsRun(detected, st, events) && (AnswersOf(st.log, t) > 0 ==> st.At(t).token)
    ensures var end := After(detected, st, events);
            && AnswersOf(end.log, t) + Pending(end, t)
               == AnswersOf(st.log, t) + Pending(st, t) + LoadsOf(events, t)
            && end.At(t).detections + Pending(st, t) == st.At(t).detections + Pending(end, t) + StoresOf(events, t)
            && TokenAnswersOf(end.log, t) == TokenAnswersOf(st.log, t) + GetsOf(events, t)
            && (AnswersOf(end.log, t) > 0 ==> end.At(t).token)
    decreases |events|
  {
    hide AnswersOf, TokenAnswersOf, Next, Pending;
    if events != [] {
      StepAccounts(detected, st, events[0], t);
      RunAccounts(detected, Next(detected, st, events[0]), events[1..], t);
    }
  }

  /** Nothing is lost: in every run, each `init_get` that a thread has begun has answered, with a
      token, or is about to store; each detection ends in one store; and each `token.get()` answers. */
  lemma EveryCallAnswers(detected: bool, events: seq<Event>, t: Thread)
    requires IsRun(detected, INIT, events)
    ensures var st := After(detected, INIT, events);
            && LoadsOf(events, t) == AnswersOf(st.log, t) + Pending(st, t)
            && st.At(t).detections == StoresOf(events, t) + Pending(st, t)
            && GetsOf(events, t) == TokenAnswersOf(st.log, t)
            && (AnswersOf(st.log, t) > 0 ==> st.At(t).token)
  {
    RunAccounts(detected, INIT, events, t);
  }

  /** The thread has just answered `init_get`. */
  predicate HasAnswered(detected: bool, st: State, next: State, t: Thread) {
    next.log == st.log + [InitGet(t, detected)] && next.At(t).pc.Outside? && next.At(t).token
  }

  /** A thread outside a call can load every value that is not older than its view. A stored value
      is the answer. After `UNINIT`, its store can enter the order anywhere behind its view, and is
      the answer: two steps of its own are enough, whatever the other threads do. */
  lemma LoadAnswers(detected: bool, st: State, t: Thread, i: nat)
    requires Sound(detected, st) && st.At(t).pc.Outside? && st.At(t).view <= i < |st.order|
    ensures Enabled(st, Load(t, i))
    ensures var next := Next(detected, st, Load(t, i));
            && next.order == st.order && next.At(t).view == i && (forall u :: u != t ==> next.At(u) == st.At(u))
            && if i > 0 then HasAnswered(detected, st, next, t) else next.At(t).pc.Detecting? && next.log == st.log
  {
  }

  lemma StoreAnswers(detected: bool, st: State, t: Thread, i: nat)
    requires st.At(t).pc.Detecting? && st.At(t).view < i <= |st.order|
    ensures Enabled(st, Store(t, i))
    ensures var next := Next(detected, st, Store(t, i));
            && HasAnswered(detected, st, next, t)
            && next.order == st.order[..i] + [if detected then 1 else 0] + st.order[i..]
            && next.At(t).view == i
            && forall u :: u != t ==> next.At(u) == st.At(u).(view := if st.At(u).view >= i then st.At(u).view + 1
                                                                     else st.At(u).view)
  {
    assert FRESH.view < i;
  }

  /** A holder can load every value that is not older than its view, and each load is an answer. */
  lemma TokenAnswers(detected: bool, st: State, t: Thread, i: nat)
    requires st.At(t).token && st.At(t).view <= i < |st.order|
    ensures Enabled(st, Get(t, i))
    ensures var next := Next(detected, st, Get(t, i));
            && next.log == st.log + [TokenGet(t, st.order[i] == 1)] && next.order == st.order
            && next.At(t) == st.At(t).(view := i) && forall u :: u != t ==> next.At(u) == st.At(u)
  {
  }

  /** What `u` knows after it has learnt what `t` knows: the later of the two views, and no more. */
  ghost predicate Learns(st: State, next: State, t: Thread, u: Thread, token: bool) {
    && next.log == st.log && next.order == st.order && (forall w :: w != u ==> next.At(w) == st.At(w))
    && next.At(u).pc == st.At(u).pc && next.At(u).detections == st.At(u).detections && next.At(u).token == token
    && st.At(t).view <= next.At(u).view && st.At(u).view <= next.At(u).view
    && (next.At(u).view == st.At(t).view || next.At(u).view == st.At(u).view)
  }

  /** Hand-overs: with synchronisation the receiver holds a token and knows what the giver knows,
      without it only holds the token; synchronisation is always possible. */
  lemma HandOver(detected: bool, st: State, t: Thread, u: Thread)
    ensures Enabled(st, Sync(t, u)) && Learns(st, Next(detected, st, Sync(t, u)), t, u, st.At(u).token)
    ensures st.At(t).token ==> Enabled(st, Pass(t, u)) && Learns(st, Next(detected, st, Pass(t, u)), t, u, true)
    ensures st.At(t).token ==> Enabled(st, Leak(t, u))
    ensures st.At(t).token ==>
              var next := Next(detected, st, Leak(t, u));
              && next.At(u) == st.At(u).(token := true) && next.log == st.log && next.order == st.order
              && forall w :: w != u ==> next.At(w) == st.At(w)
  {
  }

  /** Stale loads happen: a second thread misses a value that has been stored, detects as well, and
      its store enters the order before the first one. */
  lemma StaleLoads(detected: bool)
    ensures var events := [Load(0, 0), Store(0, 1), Load(1, 0), Store(1, 1)];
            && IsRun(detected, INIT, events)
            && After(detected, INIT, events).log == [InitGet(0, detected), InitGet(1, detected)]
            && After(detected, INIT, events).At(0).view == 2
  {
    var events := [Load(0, 0), Store(0, 1), Load(1, 0), Store(1, 1)];
    var one := Next(detected, INIT, events[0]);
    var two := Next(detected, one, events[1]);
    assert two.order == [255, if detected then 1 else 0] && two.log == [InitGet(0, detected)];
    var three := Next(detected, two, events[2]);
    var four := Next(detected, three, events[3]);
    assert four.log == [InitGet(0, detected), InitGet(1, detected)];
    OneMore(detected, INIT, events);
    OneMore(detected, one, events[1..]);
    OneMore(detected, two, events[2..]);
    OneMore(detected, three, events[3..]);
    assert IsRun(detected, four, events[4..]) && After(detected, four, events[4..]) == four;
  }

  // ----- at most one detection -----

  lemma StepDetectsOnce(detected: bool, st: State, ev: Event, t: Thread)
    requires Sound(detected, st) && Enabled(st, ev) && st.At(t).view > 0 && st.At(t).pc.Outside?
    ensures var l := Next(detected, st, ev).At(t);
            l.view > 0 && l.pc.Outside? && l.detections == st.At(t).detections
  {
  }

  /** Once a thread has seen a stored value, it never runs the detection again. */
  lemma {:induction false} NoLaterDetection(detected: bool, st: State, events: seq<Event>, t: Thread)
    requires Sound(detected, st) && IsRun(detected, st, events)
    requires st.At(t).view > 0 && st.At(t).pc.Outside?
    ensures After(detected, st, events).At(t).detections == st.At(t).detections
    decreases |events|
  {
    hide Sound;
    if events != [] {
      SoundStep(detected, st, events[0]);
      StepDetectsOnce(detected, st, events[0], t);
      NoLaterDetection(detected, Next(detected, st, events[0]), events[1..], t);
    }
  }

  /** In every run, leaks included, a holder of a token can load `UNINIT` if and only if its thread
      has seen no stored value; `init_get` still answers right, and a token never claims a feature
      that is missing. */
  lemma HolderLoadsUninitIff(detected: bool, events: seq<Event>, t: Thread)
    requires IsRun(detected, INIT, events) && After(detected, INIT, events).At(t).token
    ensures var st := After(detected, INIT, events);
            && ((exists i: nat :: Enabled(st, Get(t, i)) && st.order[i] == UNINIT) <==> st.At(t).view == 0)
            && (forall r :: r in st.log && r.value != detected ==> r.TokenGet? && detected)
  {
    SoundRun(detected, INIT, events);
    var st := After(detected, INIT, events);
    assert SoundLocal(st.At(t), |st.order|);
    if st.At(t).view == 0 {
      assert Enabled(st, Get(t, 0)) && st.order[0] == UNINIT;
    }
  }

  /** So a token that reaches another thread without synchronisation can answer wrongly. */
  lemma UnsynchronisedTokenFails()
    ensures var events := [Load(0, 0), Store(0, 1), Leak(0, 1), Get(1, 0)];
            && IsRun(true, INIT, events)
            && After(true, INIT, events).log == [InitGet(0, true), TokenGet(1, false)]
  {
    var events := [Load(0, 0), Store(0, 1), Leak(0, 1), Get(1, 0)];
    var one := Next(true, INIT, events[0]);
    var two := Next(true, one, events[1]);
    assert two.order == [UNINIT, 1] && two.At(0).token && two.log == [InitGet(0, true)];
    var three := Next(true, two, events[2]);
    var four := Next(true, three, events[3]);
    assert four.log == [InitGet(0, true), TokenGet(1, false)];
    OneMore(true, INIT, events);
    OneMore(true, one, events[1..]);
    OneMore(true, two, events[2..]);
    OneMore(true, three, events[3..]);
    assert IsRun(true, four, events[4..]) && After(true, four, events[4..]) == four;
  }

  lemma OneMore(detected: bool, st: State, events: seq<Event>)
    requires events != [] && Enabled(st, events[0])
    ensures var next := Next(detected, st, events[0]);
            && (IsRun(detected, st, events) <==> IsRun(detected, next, events[1..]))
            && (IsRun(detected, st, events) ==> After(detected, st, events) == After(detected, next, events[1..]))
  {
  }
}
