/** Key repeats: what the remote-control handlers and the repeat thread post (ir/irMgr.c). */
module KeyRepeat {

  const MAX_REPEATS := 6

  datatype KeyType = Down | Repeat | Up

  /** General codes take the ordinary way out; the codes set apart are handled as control events and never
      appear among the posted keys. */
  datatype Code = Undefined | Power | General(n: nat) | Apart(n: nat)

  datatype Source = Ir | Rf | FrontPanel

  datatype Post = Post(kind: KeyType, code: Code, source: Source)

  /** The repeat thread waits for a press without a limit, 500 ms for its release, or for the repeat interval. */
  datatype Wait = Press | First | Next

  /** Where the repeat thread is. Only while it is Waiting does a signal reach it. It is Back when a wait has ended
      and the lock is not taken again yet, and in Relock between unlocking at the end of a round and locking at the
      beginning of the next; repeating is its isTimedout. It holds the lock while it counts a repeat of an RF key,
      judges the count, and clears what belongs to a lost key. */
  datatype Thread = Waiting(wait: Wait) | Back(wait: Wait, timedOut: bool) | Relock(repeating: bool)
                  | Counting(count: nat) | Judging | Clearing

  datatype State = State(current: Code, repeats: nat, needUp: bool, interval: nat, thread: Thread,
                         prev: Post, posted: seq<Post>)

  /** Mark is the part of the RF handler that runs without the lock, before the key callback. Wake ends a wait
      spuriously, Timeout when its time is up, and Go is the next step of a thread that does not wait. */
  datatype Action = Mark(kind: KeyType) | Key(kind: KeyType, code: Code, source: Source)
                  | Wake | Timeout | Go | SetInterval(ms: nat)

  const START := State(Undefined, 0, false, 50, Relock(false), Post(Up, Undefined, Ir), [])

  predicate Locked(s: State) { s.thread.Counting? || s.thread.Judging? || s.thread.Clearing? }

  predicate Shown(c: Code) { c.Power? || c.General? }

  /** The input handler: a key that goes down is preceded by the release of another one still held. */
  function Handle(s: State, kind: KeyType, code: Code, source: Source): State {
    if !Shown(code) then s
    else
      var release := if code != s.prev.code && kind.Down? && !s.prev.kind.Up?
                     then [Post(Up, s.prev.code, s.prev.source)] else [];
      var post := Post(kind, code, if code.Power? then FrontPanel else source);
      s.(prev := post, posted := s.posted + release + [post])
  }

  /** A signal to the thread, lost unless it waits. */
  function Signalled(t: Thread): Thread { if t.Waiting? then Back(t.wait, false) else t }

  /** The key callback, which has the lock; while the thread has it, it does not begin. */
  function OnKey(s: State, kind: KeyType, code: Code, source: Source): State {
    if Locked(s) || kind.Repeat? then s
    else
      var key := if kind.Down? then code else Undefined;
      Handle(s.(current := key, thread := Signalled(s.thread)), kind, code, source)
  }

  /** What follows the end of a wait. */
  function OnBack(s: State, wait: Wait, timedOut: bool): State {
    match wait
    case Press => s.(thread := Waiting(First))
    case First =>
      if !timedOut then s.(thread := Relock(false))
      else Handle(s, Repeat, s.current, Ir).(thread := if s.interval != 0 then Waiting(Next) else Relock(false))
    case Next =>
      if !timedOut || s.current.Undefined? then s.(thread := Relock(false))
      else if s.needUp then s.(thread := Counting(s.repeats + 1))
      else Handle(s, Repeat, s.current, Ir).(thread := Relock(true))
  }

  /** The thread's next step when it does not wait. */
  function OnGo(s: State): State {
    match s.thread
    case Waiting(_) => s
    case Back(wait, timedOut) => OnBack(s, wait, timedOut)
    case Relock(repeating) =>
      if !repeating then s.(thread := Waiting(Press)) else if s.interval != 0 then s.(thread := Waiting(Next)) else s
    case Counting(count) => s.(repeats := count, thread := Judging)
    case Judging =>
      if s.repeats > MAX_REPEATS then Handle(s, Up, s.current, Ir).(thread := Clearing)
      else Handle(s, Repeat, s.current, Rf).(thread := Relock(true))
    case Clearing => s.(current := Undefined, repeats := 0, needUp := false, thread := Relock(true))
  }

  function Step(s: State, a: Action): State {
    match a
    case Mark(kind) => s.(repeats := 0, needUp := !kind.Up?)
    case Key(kind, code, source) => OnKey(s, kind, code, source)
    case Wake => s.(thread := Signalled(s.thread))
    case Timeout =>
      if s.thread.Waiting? && !s.thread.wait.Press? then s.(thread := Back(s.thread.wait, true)) else s
    case Go => OnGo(s)
    case SetInterval(ms) => s.(interval := ms)
  }

  function Run(s: State, acts: seq<Action>): State {
    if acts == [] then s else Step(Run(s, acts[..|acts| - 1]), acts[|acts| - 1])
  }

  class KeyHandler {
    var current: Code
    var repeats: nat
    var needUp: bool
    var interval: nat
    var thread: Thread
    var prev: Post
    ghost var posted: seq<Post>

    ghost function Abs(): State
      reads this
    {
      State(current, repeats, needUp, interval, thread, prev, posted)
    }

    constructor ()
      ensures Abs() == START
    {
      current, repeats, needUp, interval, thread := Undefined, 0, false, 50, Relock(false);
      prev := Post(Up, Undefined, Ir);
      posted := [];
    }

    method InputKey(kind: KeyType, code: Code, source: Source)
      modifies this`prev, this`posted
      ensures Abs() == Handle(old(Abs()), kind, code, source)
    {
      if Shown(code) {
        if code != prev.code && kind == Down && prev.kind != Up {
          posted := posted + [Post(Up, prev.code, prev.source)];
        }
        prev := Post(kind, code, if code == Power then FrontPanel else source);
        posted := posted + [prev];
      }
    }

    /** Signals the thread's condition. */
    method Signal()
      modifies this`thread
      ensures thread == Signalled(old(thread))
    {
      if thread.Waiting? {
        thread := Back(thread.wait, false);
      }
    }

    method KeyCallback(kind: KeyType, code: Code, source: Source)
      requires !Locked(Abs())
      modifies this`current, this`prev, this`posted, this`thread
      ensures Abs() == Step(old(Abs()), Key(kind, code, source))
    {
      if kind == Down {
        current := code;
        InputKey(kind, code, source);
        Signal();
      } else if kind == Up {
        current := Undefined;
        InputKey(kind, code, source);
        Signal();
      }
    }

    method RfMark(kind: KeyType)
      modifies this`repeats, this`needUp
      ensures Abs() == Step(old(Abs()), Mark(kind))
    {
      repeats := 0;
      needUp := kind != Up;
    }

    method SetRepeatInterval(ms: nat)
      modifies this`interval
      ensures Abs() == Step(old(Abs()), SetInterval(ms))
    {
      interval := ms;
    }

    /** A wait ends: by a signal or spuriously, or, if it has a limit, because its time is up. */
    method EndWait(timedOut: bool)
      requires thread.Waiting? && (timedOut ==> !thread.wait.Press?)
      modifies this`thread
      ensures Abs() == Step(old(Abs()), if timedOut then Timeout else Wake)
    {
      thread := Back(thread.wait, timedOut);
    }

    /** The thread locks, at the beginning of a round. */
    method BeginRound()
      requires thread.Relock?
      modifies this`thread
      ensures Abs() == Step(old(Abs()), Go)
    {
      if !thread.repeating {
        thread := Waiting(Press);
      } else if interval != 0 {
        thread := Waiting(Next);
      }
    }

    /** The thread has the lock again after a wait. */
    method AfterWait()
      requires thread.Back?
      modifies this`thread, this`prev, this`posted
      ensures Abs() == Step(old(Abs()), Go)
    {
      if thread.wait == Press {
        thread := Waiting(First);
      } else if !thread.timedOut {
        thread := Relock(false);
      } else if thread.wait == First {
        InputKey(Repeat, current, Ir);
        thread := if interval != 0 then Waiting(Next) else Relock(false);
      } else if current == Undefined {
        thread := Relock(false);
      } else if needUp {
        thread := Counting(repeats + 1);
      } else {
        InputKey(Repeat, current, Ir);
        thread := Relock(true);
      }
    }

    /** One more repeat of an RF key, or its release when there were too many. The RF handler may change the
        counters between any two of these steps. */
    method CountRepeat()
      requires Locked(Abs())
      modifies this
      ensures Abs() == Step(old(Abs()), Go)
    {
      if thread.Counting? {
        repeats := thread.count;
        thread := Judging;
      } else if thread.Judging? {
        if repeats > MAX_REPEATS {
          InputKey(Up, current, Ir);
          thread := Clearing;
        } else {
          InputKey(Repeat, current, Rf);
          thread := Relock(true);
        }
      } else {
        current := Undefined;
        repeats := 0;
        needUp := false;
        thread := Relock(true);
      }
    }
  }

  // Main results: every run

  predicate FollowsRule(posted: seq<Post>, i: nat)
    requires i < |posted|
  {
    && (posted[i].kind.Repeat? ==> 0 < i && !posted[i - 1].kind.Up? && posted[i - 1].code == posted[i].code)
    && (posted[i].kind.Down? ==> i == 0 || posted[i - 1].kind.Up? || posted[i - 1].code == posted[i].code)
  }

  /** A repeat follows a press or a repeat of the same key, and a key goes down only when no other is held. */
  ghost predicate Grammar(posted: seq<Post>) { forall i :: 0 <= i < |posted| ==> FollowsRule(posted, i) }

  predicate LastPosted(s: State) {
    s.prev == if s.posted == [] then Post(Up, Undefined, Ir) else s.posted[|s.posted| - 1]
  }

  ghost predicate Inv(s: State) {
    && Grammar(s.posted) && LastPosted(s)
    && (Shown(s.current) && !s.thread.Clearing? ==> !s.prev.kind.Up? && s.prev.code == s.current)
    && s.repeats <= MAX_REPEATS + (if s.thread.Judging? || s.thread.Clearing? then 1 else 0)
    && (s.thread.Counting? ==> 0 < s.thread.count <= MAX_REPEATS + 1)
  }

  lemma GrammarOneMore(posted: seq<Post>, p: Post)
    requires Grammar(posted)
    requires p.kind.Repeat? ==> posted != [] && !posted[|posted| - 1].kind.Up? && posted[|posted| - 1].code == p.code
    requires p.kind.Down? ==>
               posted == [] || posted[|posted| - 1].kind.Up? || posted[|posted| - 1].code == p.code
    ensures Grammar(posted + [p])
  {
    var more := posted + [p];
    forall i | 0 <= i < |more|
      ensures FollowsRule(more, i)
    {
      if i < |posted| {
        assert FollowsRule(posted, i);
      }
    }
  }

  lemma HandleInv(s: State, kind: KeyType, code: Code, source: Source)
    requires Grammar(s.posted)
    requires LastPosted(s)
    requires kind.Repeat? && Shown(code) ==> !s.prev.kind.Up? && s.prev.code == code
    ensures var r := Handle(s, kind, code, source);
            && Grammar(r.posted) && LastPosted(r)
            && (Shown(code) ==> r.prev.kind == kind && r.prev.code == code)
  {
    if Shown(code) {
      var release := Post(Up, s.prev.code, s.prev.source);
      var post := Post(kind, code, if code.Power? then FrontPanel else source);
      if code != s.prev.code && kind.Down? && !s.prev.kind.Up? {
        GrammarOneMore(s.posted, release);
        GrammarOneMore(s.posted + [release], post);
      } else {
        assert s.posted + [] + [post] == s.posted + [post];
        GrammarOneMore(s.posted, post);
      }
    }
  }

  lemma BackInv(s: State)
    requires Inv(s) && s.thread.Back?
    ensures Inv(OnGo(s))
  {
    HandleInv(s, Repeat, s.current, Ir);
  }

  lemma JudgingInv(s: State)
    requires Inv(s) && s.thread.Judging?
    ensures Inv(OnGo(s))
  {
    if s.repeats > MAX_REPEATS {
      HandleInv(s, Up, s.current, Ir);
    } else {
      HandleInv(s, Repeat, s.current, Rf);
    }
  }

  lemma GoInv(s: State)
    requires Inv(s)
    ensures Inv(OnGo(s))
  {
    match s.thread {
      case Back(_, _) => BackInv(s);
      case Judging => JudgingInv(s);
      case _ =>
    }
  }

  lemma KeyInv(s: State, kind: KeyType, code: Code, source: Source)
    requires Inv(s)
    ensures Inv(OnKey(s, kind, code, source))
  {
    var t := s.(current := if kind.Down? then code else Undefined, thread := Signalled(s.thread));
    if !kind.Repeat? {
      HandleInv(t, kind, code, source);
    }
  }

  lemma StepInv(s: State, a: Action)
    requires Inv(s)
    ensures Inv(Step(s, a))
  {
    match a {
      case Key(kind, code, source) => KeyInv(s, kind, code, source);
      case Go => GoInv(s);
      case _ =>
    }
  }

  /** In every run, with presses, releases, RF marks, ends of waits and steps of the thread in any order. */
  lemma {:induction false} PostsWellFormed(acts: seq<Action>)
    ensures Inv(Run(START, acts))
  {
    if acts != [] {
      PostsWellFormed(acts[..|acts| - 1]);
      StepInv(Run(START, acts[..|acts| - 1]), acts[|acts| - 1]);
    }
  }

  /** How a post of this kind and code shows: POWER always as from the front panel. */
  function Shows(kind: KeyType, code: Code, source: Source): Post {
    Post(kind, code, if code.Power? then FrontPanel else source)
  }

  /** What has to be posted before a press: the release of another key that is still held. */
  function MadeUp(posted: seq<Post>, code: Code): seq<Post> {
    if posted == [] then []
    else
      var last := posted[|posted| - 1];
      if last.kind.Up? || last.code == code then [] else [Post(Up, last.code, last.source)]
  }

  /** After every run a press posts the release of another key posted last and not yet released, and then itself; a
      release posts itself alone; a repeat from the remote, or a key set apart, posts nothing. */
  lemma {:induction false} KeyPosts(acts: seq<Action>, kind: KeyType, c: Code, source: Source)
    requires !Locked(Run(START, acts))
    ensures var s := Run(START, acts);
            Run(START, acts + [Key(kind, c, source)]).posted
            == s.posted + if kind.Repeat? || !Shown(c) then []
                          else if kind.Down? then MadeUp(s.posted, c) + [Shows(Down, c, source)]
                          else [Shows(Up, c, source)]
  {
    var s := Run(START, acts);
    PostsWellFormed(acts);
    assert (acts + [Key(kind, c, source)])[..|acts|] == acts;
    assert s.posted + MadeUp(s.posted, c) + [Shows(Down, c, source)]
        == s.posted + (MadeUp(s.posted, c) + [Shows(Down, c, source)]);
    assert s.posted + [] == s.posted;
  }

  /** The thread posts at most one key at a step: a repeat of the key held, or its release when it is lost. */
  lemma {:induction false} ThreadPosts(acts: seq<Action>)
    ensures var s, t := Run(START, acts), Run(START, acts + [Go]);
            || t.posted == s.posted
            || (t.posted == s.posted + [Shows(Repeat, s.current, if s.thread.Judging? then Rf else Ir)]
                && (s.thread.Judging? || (s.thread.Back? && s.thread.timedOut)))
            || (t.posted == s.posted + [Shows(Up, s.current, Ir)]
                && s.thread.Judging? && s.repeats > MAX_REPEATS && t.thread.Clearing?)
  {
    var s := Run(START, acts);
    assert (acts + [Go])[..|acts|] == acts && s.posted + [] == s.posted;
  }

  /** Nothing else posts. */
  lemma {:induction false} OthersPostNothing(acts: seq<Action>, a: Action)
    requires !a.Key? && !a.Go?
    ensures Run(START, acts + [a]).posted == Run(START, acts).posted
  {
    assert (acts + [a])[..|acts|] == acts;
  }

  /** The number of repeats posted as coming from the RF remote. */
  function RfRepeats(posted: seq<Post>): nat {
    if posted == [] then 0
    else
      var last := posted[|posted| - 1];
      RfRepeats(posted[..|posted| - 1]) + if last.kind.Repeat? && last.source.Rf? then 1 else 0
  }

  /** The repeats left after r of them. */
  function Left(s: State, r: nat): nat { if s.needUp && r <= MAX_REPEATS then MAX_REPEATS - r else 0 }

  /** The RF repeats that can still be posted without hearing from the remote, the one under way included. */
  function Budget(s: State): nat {
    match s.thread
    case Counting(count) => Left(s, count) + if count <= MAX_REPEATS then 1 else 0
    case Judging => Left(s, s.repeats) + if s.repeats <= MAX_REPEATS then 1 else 0
    case Clearing => 0
    case _ => Left(s, s.repeats)
  }

  lemma RfRepeatsOneMore(posted: seq<Post>, p: Post)
    ensures RfRepeats(posted + [p]) == RfRepeats(posted) + if p.kind.Repeat? && p.source.Rf? then 1 else 0
  {
    assert (posted + [p])[..|posted|] == posted;
  }

  lemma RfRepeatsHandle(s: State, kind: KeyType, code: Code, source: Source)
    ensures RfRepeats(Handle(s, kind, code, source).posted)
            == RfRepeats(s.posted) + if Shown(code) && code.General? && kind.Repeat? && source.Rf? then 1 else 0
  {
    var release := Post(Up, s.prev.code, s.prev.source);
    var post := Post(kind, code, if code.Power? then FrontPanel else source);
    RfRepeatsOneMore(s.posted, release);
    RfRepeatsOneMore(s.posted + [release], post);
    RfRepeatsOneMore(s.posted, post);
    assert s.posted + [] + [post] == s.posted + [post];
  }

  lemma BudgetBack(s: State)
    requires s.thread.Back?
    ensures var t := OnGo(s); RfRepeats(t.posted) == RfRepeats(s.posted) && Budget(t) <= Budget(s)
  {
    if s.thread.wait.First? && s.thread.timedOut {
      RfRepeatsHandle(s, Repeat, s.current, Ir);
    } else if s.thread.wait.Next? && s.thread.timedOut && !s.needUp {
      RfRepeatsHandle(s, Repeat, s.current, Ir);
    }
  }

  lemma BudgetJudging(s: State)
    requires s.thread.Judging?
    ensures var t := OnGo(s); RfRepeats(t.posted) + Budget(t) <= RfRepeats(s.posted) + Budget(s)
  {
    if s.repeats > MAX_REPEATS {
      RfRepeatsHandle(s, Up, s.current, Ir);
      assert RfRepeats(OnGo(s).posted) == RfRepeats(s.posted);
    } else {
      RfRepeatsHandle(s, Repeat, s.current, Rf);
      assert RfRepeats(OnGo(s).posted) <= RfRepeats(s.posted) + 1;
    }
  }

  lemma BudgetGo(s: State)
    ensures var t := OnGo(s); RfRepeats(t.posted) + Budget(t) <= RfRepeats(s.posted) + Budget(s)
  {
    match s.thread {
      case Back(_, _) => BudgetBack(s);
      case Judging => BudgetJudging(s);
      case _ =>
    }
  }

  lemma BudgetKey(s: State, kind: KeyType, code: Code, source: Source)
    ensures var t := OnKey(s, kind, code, source);
            RfRepeats(t.posted) + Budget(t) <= RfRepeats(s.posted) + Budget(s)
  {
    var t := s.(current := if kind.Down? then code else Undefined, thread := Signalled(s.thread));
    if !kind.Repeat? {
      RfRepeatsHandle(t, kind, code, source);
    }
  }

  lemma BudgetStep(s: State, a: Action)
    requires !a.Mark?
    ensures var t := Step(s, a); RfRepeats(t.posted) + Budget(t) <= RfRepeats(s.posted) + Budget(s)
  {
    match a {
      case Key(kind, code, source) => BudgetKey(s, kind, code, source);
      case Go => BudgetGo(s);
      case _ =>
    }
  }

  lemma {:induction false} BudgetRun(s: State, acts: seq<Action>)
    requires forall a <- acts :: !a.Mark?
    ensures RfRepeats(Run(s, acts).posted) + Budget(Run(s, acts)) <= RfRepeats(s.posted) + Budget(s)
  {
    if acts != [] {
      BudgetRun(s, acts[..|acts| - 1]);
      assert acts[|acts| - 1] in acts;
      BudgetStep(Run(s, acts[..|acts| - 1]), acts[|acts| - 1]);
    }
  }

  /** Without a word from the RF remote at most six repeats are posted in its name, whatever else happens; seven
      if its last word fell between the counting of a repeat and the judgement of the count. */
  lemma RfRepeatsBounded(s: State, acts: seq<Action>)
    requires Inv(s) && forall a <- acts :: !a.Mark?
    ensures RfRepeats(Run(s, acts).posted)
            <= RfRepeats(s.posted) + MAX_REPEATS + if s.thread.Judging? && s.repeats == 0 then 1 else 0
  {
    BudgetRun(s, acts);
  }

  // Main results: a lost remote

  /** The thread's next step when nothing else happens. */
  function Quiet(s: State): State { Step(s, if s.thread.Waiting? then Timeout else Go) }

  function Quietly(s: State, n: nat): State { if n == 0 then s else Quiet(Quietly(s, n - 1)) }

  lemma {:induction false} QuietlyAdd(s: State, m: nat, n: nat)
    ensures Quietly(s, m + n) == Quietly(Quietly(s, m), n)
  {
    if n > 0 {
      QuietlyAdd(s, m, n - 1);
    }
  }

  lemma QuietlyFirst(s: State, n: nat)
    ensures Quietly(s, n + 1) == Quietly(Quiet(s), n)
  {
    QuietlyAdd(s, 1, n);
    assert Quietly(s, 0) == s;
  }

  function Copies(p: Post, n: nat): seq<Post> { seq(n, _ => p) }

  /** The key c is held, and the thread is waiting for the repeat interval. */
  predicate Holding(s: State, c: Code) {
    c.General? && s.current == c && s.prev.code == c && s.interval != 0 && s.thread == Waiting(Next)
  }

  /** Posting without a key that is going down. */
  lemma PostOnly(s: State, kind: KeyType, c: Code, source: Source)
    requires c.General? && !kind.Down?
    ensures Handle(s, kind, c, source)
            == s.(prev := Post(kind, c, source), posted := s.posted + [Post(kind, c, source)])
  {
    assert s.posted + [] == s.posted;
  }

  /** State s after n repeats as from a source, counted or not. */
  function Repeated(s: State, p: Post, n: nat, counted: bool): State {
    s.(repeats := s.repeats + (if counted then n else 0), prev := if n == 0 then s.prev else p,
       posted := s.posted + Copies(p, n))
  }

  lemma RepeatedOnce(s: State, p: Post, n: nat, counted: bool)
    ensures Repeated(s, p, 0, counted) == s
    ensures Repeated(Repeated(s, p, n, counted), p, 1, counted) == Repeated(s, p, n + 1, counted)
  {
    assert Copies(p, 0) == [] && Copies(p, n + 1) == Copies(p, n) + Copies(p, 1);
  }

  /** The key callback for an RF press, after the handler's mark. */
  function Pressed(s: State, c: Code): State { Step(s, Key(Down, c, Rf)) }

  /** The press will be noticed: the thread is parked or has just left its unconditional wait, or the time of a
      wait is up, or a repeat was posted in the round before. */
  predicate Notices(t: Thread) {
    t == Waiting(Press) || (t.Back? && (t.wait.Press? || t.timedOut)) || t == Relock(true)
  }

  /** The key is held and the thread is on its way to give it up. */
  predicate OnTheWay(s: State, c: Code) {
    && c.General? && s.current == c && s.prev.code == c && s.needUp && s.interval != 0
    && match s.thread
       case Waiting(wait) => !wait.Press?
       case Back(wait, timedOut) => wait.Press? || timedOut
       case Relock(repeating) => repeating
       case Counting(count) => count == s.repeats + 1
       case Judging => true
       case Clearing => false
  }

  /** The steps to the release. */
  function Distance(s: State): nat {
    var rounds := if s.repeats <= MAX_REPEATS then MAX_REPEATS + 1 - s.repeats else 0;
    6 * rounds + match s.thread
                 case Waiting(wait) => if wait.First? then 9 else 7
                 case Back(wait, _) => if wait.Press? then 10 else if wait.First? then 8 else 6
                 case Counting(_) => 5
                 case Judging => if s.repeats > MAX_REPEATS then 1 else 10
                 case Relock(_) => 8
                 case Clearing => 0
  }

  /** The release of key c has been posted and is about to be noted. */
  predicate Releasing(s: State, c: Code) {
    s.thread.Clearing? && s.posted != [] && s.posted[|s.posted| - 1] == Post(Up, c, Ir)
  }

  /** The RF repeats still to come, and the release. */
  function Rest(s: State, c: Code): seq<Post> {
    Copies(Post(Repeat, c, Rf), if s.repeats <= MAX_REPEATS then MAX_REPEATS - s.repeats else 0) + [Post(Up, c, Ir)]
  }

  /** All that is still to be posted. */
  function Future(s: State, c: Code): seq<Post> {
    match s.thread
    case Waiting(wait) => (if wait.First? then [Post(Repeat, c, Ir)] else []) + Rest(s, c)
    case Back(wait, _) => (if wait.Next? then [] else [Post(Repeat, c, Ir)]) + Rest(s, c)
    case Judging => (if s.repeats <= MAX_REPEATS then [Post(Repeat, c, Rf)] else []) + Rest(s, c)
    case Clearing => []
    case _ => [] + Rest(s, c)
  }

  lemma RestOneLess(s: State, c: Code)
    ensures var t := s.(repeats := s.repeats + 1, thread := Judging);
            Future(t, c) == Rest(s, c) && (s.repeats > MAX_REPEATS ==> Rest(s, c) == [Post(Up, c, Ir)])
  {
    var p := Post(Repeat, c, Rf);
    if s.repeats < MAX_REPEATS {
      assert Copies(p, MAX_REPEATS - s.repeats) == [p] + Copies(p, MAX_REPEATS - s.repeats - 1);
    }
  }

  lemma NextOnTheWay(s: State, c: Code)
    requires OnTheWay(s, c)
    ensures var t := Quiet(s); Releasing(t, c) || (OnTheWay(t, c) && Distance(t) < Distance(s))
    ensures Quiet(s).interval == s.interval
  {
    PostOnly(s, Repeat, c, Ir);
    PostOnly(s, Repeat, c, Rf);
    PostOnly(s, Up, c, Ir);
  }

  lemma JudgedPosts(s: State, c: Code)
    requires OnTheWay(s, c) && s.thread.Judging?
    ensures Quiet(s).posted + Future(Quiet(s), c) == s.posted + Future(s, c)
  {
    PostOnly(s, Repeat, c, Rf);
    PostOnly(s, Up, c, Ir);
    RestOneLess(s, c);
    if s.repeats <= MAX_REPEATS {
      assert s.posted + ([Post(Repeat, c, Rf)] + Rest(s, c)) == Quiet(s).posted + ([] + Rest(s, c));
    } else {
      assert s.posted + ([] + [Post(Up, c, Ir)]) == Quiet(s).posted + [];
    }
  }

  /** A step posts the first of what is to be posted, or nothing. */
  lemma NextPosts(s: State, c: Code)
    requires OnTheWay(s, c)
    ensures Quiet(s).posted + Future(Quiet(s), c) == s.posted + Future(s, c)
  {
    var t := Quiet(s);
    match s.thread {
      case Back(wait, _) =>
        PostOnly(s, Repeat, c, Ir);
        RestOneLess(s, c);
        if wait.First? {
          assert s.posted + ([Post(Repeat, c, Ir)] + Rest(s, c)) == t.posted + ([] + Rest(s, c));
        }
      case Judging => JudgedPosts(s, c);
      case Counting(_) =>
        RestOneLess(s, c);
        assert [] + Rest(s, c) == Rest(s, c);
      case _ =>
    }
  }

  /** State t is what becomes of s: the release posted last, after all that was to be posted. */
  predicate Arrived(s: State, t: State, c: Code) {
    Releasing(t, c) && t.interval == s.interval && t.posted == s.posted + Future(s, c)
  }

  lemma ArrivedBefore(s: State, t: State, c: Code)
    requires OnTheWay(s, c)
    requires Arrived(Quiet(s), t, c) || (t == Quiet(s) && Releasing(t, c))
    ensures Arrived(s, t, c)
  {
    NextOnTheWay(s, c);
    NextPosts(s, c);
    assert t.posted + [] == t.posted;
  }

  lemma {:induction false} Arrives(s: State, c: Code) returns (n: nat)
    requires OnTheWay(s, c)
    ensures Arrived(s, Quietly(s, n), c)
    decreases Distance(s)
  {
    var t := Quiet(s);
    NextOnTheWay(s, c);
    if Releasing(t, c) {
      n := 1;
      assert Quietly(s, 0) == s;
    } else {
      var m := Arrives(t, c);
      QuietlyFirst(s, m);
      n := m + 1;
    }
    ArrivedBefore(s, Quietly(s, n), c);
  }

  /** From the clearing to the unconditional wait, two rounds later. */
  lemma Parks(s: State) returns (n: nat)
    requires s.thread.Clearing? && s.interval != 0
    ensures Quietly(s, n) == s.(current := Undefined, repeats := 0, needUp := false, thread := Waiting(Press))
  {
    var clear := s.(current := Undefined, repeats := 0, needUp := false);
    assert Quietly(s, 0) == s && Quietly(s, 1) == clear.(thread := Relock(true));
    assert Quietly(s, 2) == clear.(thread := Waiting(Next)) && Quietly(s, 3) == clear.(thread := Back(Next, true));
    assert Quietly(s, 4) == clear.(thread := Relock(false));
    n := 5;
  }

  /** An RF press: the mark of its handler, and then the key callback. */
  function RfPressed(s: State, c: Code): State { Pressed(Step(s, Mark(Down)), c) }

  lemma AfterPress(s: State, c: Code)
    requires s.thread == Waiting(Press) && s.interval != 0 && c.General?
    ensures var p := RfPressed(s, c);
            && OnTheWay(p, c) && p.interval == s.interval
            && p.posted != [] && p.posted[|p.posted| - 1] == Post(Down, c, Rf)
            && Future(p, c)
               == [Post(Repeat, c, Ir)] + (Copies(Post(Repeat, c, Rf), MAX_REPEATS) + [Post(Up, c, Ir)])
  {
  }

  /** When the remote is lost after a press that finds the thread parked: one repeat as if from IR, six as from RF,
      one release, and the thread is back in its unconditional wait with no key held. */
  lemma LostRemote(s: State, c: Code) returns (n: nat)
    requires s.thread == Waiting(Press) && s.interval != 0 && c.General?
    ensures var p := RfPressed(s, c); var r := Quietly(p, n);
            && p.posted != [] && p.posted[|p.posted| - 1] == Post(Down, c, Rf)
            && r.posted == p.posted + ([Post(Repeat, c, Ir)] + (Copies(Post(Repeat, c, Rf), 6) + [Post(Up, c, Ir)]))
            && r.thread == Waiting(Press) && r.current.Undefined? && r.repeats == 0 && !r.needUp
  {
    var p := RfPressed(s, c);
    AfterPress(s, c);
    var k := Arrives(p, c);
    var l := Parks(Quietly(p, k));
    QuietlyAdd(p, k, l);
    n := k + l;
  }

  /** Without a repeat interval one repeat is posted, and the thread parks with the key held. */
  lemma {:induction false} OneRepeat(s: State, c: Code) returns (n: nat)
    requires s.thread == Waiting(Press) && s.interval == 0 && c.General?
    ensures var p := RfPressed(s, c); var r := Quietly(p, n);
            && p.posted != [] && p.posted[|p.posted| - 1] == Post(Down, c, Rf)
            && r.posted == p.posted + [Post(Repeat, c, Ir)] && r.thread == Waiting(Press) && r.current == c
  {
    var p := RfPressed(s, c);
    PostOnly(p, Repeat, c, Ir);
    assert Quietly(p, 0) == p && Quietly(p, 1) == p.(thread := Waiting(First));
    assert Quietly(p, 2) == p.(thread := Back(First, true));
    n := 4;
  }

  /** The key is held and nothing in the thread's way will release it: no RF key asks for it, the press was missed,
      or there is no repeat interval. */
  predicate Stuck(s: State, c: Code) {
    && s.current == c && c.General?
    && match s.thread
       case Waiting(wait) => wait.Press? || !s.needUp || (wait.First? && s.interval == 0)
       case Back(wait, timedOut) =>
         || (!wait.Press? && !timedOut)
         || !s.needUp
         || (s.interval == 0 && (wait.Next? ==> s.repeats < MAX_REPEATS))
       case Relock(repeating) => !repeating || !s.needUp || s.interval == 0
       case Counting(count) => s.interval == 0 && count <= MAX_REPEATS
       case Judging => s.interval == 0 && s.repeats <= MAX_REPEATS
       case Clearing => false
  }

  lemma {:induction false} StaysStuck(s: State, c: Code, n: nat)
    requires Stuck(s, c)
    ensures Stuck(Quietly(s, n), c)
  {
    if n > 0 {
      StaysStuck(s, c, n - 1);
      var t := Quietly(s, n - 1);
      PostOnly(t, Repeat, c, Ir);
      PostOnly(t, Repeat, c, Rf);
    }
  }

  /** A press that the thread notices is given up when the remote is lost exactly if an RF key asks for it and there
      is a repeat interval, or the last repeat is just due; one that it does not notice never is. */
  predicate GivesUp(s: State) {
    Notices(s.thread) && s.needUp && (s.interval != 0 || (s.thread == Back(Next, true) && s.repeats >= MAX_REPEATS))
  }

  lemma {:induction false} ReachesRelease(p: State, c: Code) returns (n: nat)
    requires c.General? && p.current == c && p.prev.code == c && GivesUp(p) && !p.thread.Waiting?
    ensures Releasing(Quietly(p, n), c)
  {
    if p.interval != 0 {
      n := Arrives(p, c);
    } else {
      PostOnly(p.(repeats := p.repeats + 1, thread := Judging), Up, c, Ir);
      assert Quietly(p, 0) == p && Quietly(p, 1) == p.(thread := Counting(p.repeats + 1));
      n := 3;
    }
  }

  /** For every state in which the key callback can begin: when nothing more happens after an RF press, its release
      is made up if and only if GivesUp held. */
  lemma {:induction false} ReleasedExactly(s: State, c: Code)
    requires !Locked(s) && c.General?
    ensures (exists n: nat :: Quietly(Pressed(s, c), n).current.Undefined?) <==> GivesUp(s)
    ensures (exists n: nat :: Releasing(Quietly(Pressed(s, c), n), c)) <==> GivesUp(s)
  {
    var p := Pressed(s, c);
    if !GivesUp(s) {
      forall n: nat
        ensures !Quietly(p, n).current.Undefined? && !Releasing(Quietly(p, n), c)
      {
        StaysStuck(p, c, n);
      }
    } else {
      var n := ReachesRelease(p, c);
      assert Releasing(Quietly(p, n), c) && Quietly(p, n + 1).current.Undefined?;
      assert exists m: nat :: Quietly(p, m).current.Undefined?;
      assert exists m: nat :: Releasing(Quietly(p, m), c);
    }
  }

  /** For every state in which the key callback can begin: when nothing more happens after an RF press with its mark,
      its release is made up if and only if the thread notices it and there is a repeat interval. */
  lemma {:induction false} RfReleasedExactly(s: State, c: Code)
    requires !Locked(s) && c.General?
    ensures (exists n: nat :: Quietly(RfPressed(s, c), n).current.Undefined?) <==> Notices(s.thread) && s.interval != 0
  {
    var m := Step(s, Mark(Down));
    ReleasedExactly(m, c);
    assert GivesUp(m) <==> Notices(s.thread) && s.interval != 0;
    assert Pressed(m, c) == RfPressed(s, c);
  }

  /** A wait for the release or the interval that ends too early counts as the release: the key is never given up. */
  lemma {:induction false} WokenForNothing(s: State, c: Code, n: nat)
    requires s.thread.Waiting? && !s.thread.wait.Press? && s.current == c && c.General?
    ensures Quietly(Step(s, Wake), n).current == c
  {
    StaysStuck(Step(s, Wake), c, n);
  }

  /** The presses that the thread does not notice get nothing more posted, neither repeat nor release. */
  lemma {:induction false} MissedPress(s: State, c: Code, n: nat)
    requires !Locked(s) && c.General? && !Notices(s.thread)
    ensures var p := Pressed(s, c);
            && Quietly(p, n).posted == p.posted && Quietly(p, n).current == c
            && (n >= 2 ==> Quietly(p, n).thread == Waiting(Press))
  {
    if n > 0 {
      MissedPress(s, c, n - 1);
      if n == 2 {
        assert Quietly(Pressed(s, c), 0) == Pressed(s, c);
      }
    }
  }

  lemma OneIrRepeat(s: State, c: Code) returns (k: nat)
    requires Holding(s, c) && !s.needUp
    ensures Quietly(s, k) == Repeated(s, Post(Repeat, c, Ir), 1, false)
  {
    assert Quietly(s, 0) == s && Quietly(s, 1) == s.(thread := Back(Next, true));
    PostOnly(Quietly(s, 1), Repeat, c, Ir);
    k := 3;
  }

  /** The bound is for RF keys: a held IR key repeats for as long as it is held. */
  lemma {:induction false} HeldIrKey(s: State, c: Code, n: nat) returns (k: nat)
    requires Holding(s, c) && !s.needUp
    ensures Quietly(s, k) == Repeated(s, Post(Repeat, c, Ir), n, false)
  {
    var p := Post(Repeat, c, Ir);
    RepeatedOnce(s, p, if n == 0 then 0 else n - 1, false);
    k := 0;
    if n > 0 {
      k := HeldIrKey(s, c, n - 1);
      var l := OneIrRepeat(Repeated(s, p, n - 1, false), c);
      QuietlyAdd(s, k, l);
      k := k + l;
    }
  }

  /** A key being repeated is given up exactly when an RF key waits for its release, whichever remote it is from. */
  lemma {:induction false} GivenUpExactly(s: State, c: Code)
    requires Holding(s, c)
    ensures (exists n: nat :: Quietly(s, n).current.Undefined?) <==> s.needUp
  {
    if s.needUp {
      var n := Arrives(s, c);
      assert Quietly(s, n + 1).current.Undefined?;
      assert exists m: nat :: Quietly(s, m).current.Undefined?;
    } else {
      forall n: nat
        ensures !Quietly(s, n).current.Undefined?
      {
        StaysStuck(s, c, n);
      }
    }
  }

  // What the handlers leave for the thread

  /** Action k marked an RF key that went down or repeats, and no release was marked or made up since. */
  ghost predicate AwaitsSince(acts: seq<Action>, k: nat) {
    && k < |acts| && acts[k].Mark? && !acts[k].kind.Up?
    && forall i :: k < i < |acts| ==>
         acts[i] != Mark(Up) && !(acts[i].Go? && Run(START, acts[..i]).thread.Clearing?)
  }

  lemma {:induction false} AwaitsBefore(acts: seq<Action>, a: Action, k: nat)
    requires k < |acts|
    ensures AwaitsSince(acts + [a], k) <==>
            AwaitsSince(acts, k) && a != Mark(Up) && !(a.Go? && Run(START, acts).thread.Clearing?)
  {
    var all := acts + [a];
    assert all[..|acts|] == acts && all[|acts|] == a;
    assert forall i :: 0 <= i < |acts| ==> all[i] == acts[i] && all[..i] == acts[..i];
  }

  lemma NeedUpStep(s: State, a: Action)
    ensures Step(s, a).needUp <==>
            if a.Mark? then !a.kind.Up? else s.needUp && !(a.Go? && s.thread.Clearing?)
  {
  }

  /** In every run an RF release is awaited exactly when an RF key was marked down or repeating, and neither its
      release nor a made-up one came since. */
  lemma {:induction false} AwaitedExactly(acts: seq<Action>)
    ensures Run(START, acts).needUp <==> exists k: nat :: AwaitsSince(acts, k)
  {
    if acts != [] {
      var n := |acts| - 1;
      var before, a := acts[..n], acts[n];
      assert acts == before + [a];
      AwaitedExactly(before);
      NeedUpStep(Run(START, before), a);
      forall k: nat | k < n
        ensures AwaitsSince(acts, k) <==>
                AwaitsSince(before, k) && a != Mark(Up) && !(a.Go? && Run(START, before).thread.Clearing?)
      {
        AwaitsBefore(before, a, k);
      }
      assert AwaitsSince(acts, n) <==> a.Mark? && !a.kind.Up?;
    }
  }

  /** The interval is the one set last, or 50 ms. */
  lemma {:induction false} IntervalSet(acts: seq<Action>, k: nat)
    requires k < |acts| && acts[k].SetInterval? && forall i :: k < i < |acts| ==> !acts[i].SetInterval?
    ensures Run(START, acts).interval == acts[k].ms
    decreases |acts|
  {
    if k < |acts| - 1 {
      IntervalSet(acts[..|acts| - 1], k);
    }
  }

  lemma {:induction false} IntervalAtFirst(acts: seq<Action>)
    requires forall i :: 0 <= i < |acts| ==> !acts[i].SetInterval?
    ensures Run(START, acts).interval == 50
    decreases |acts|
  {
    if acts != [] {
      IntervalAtFirst(acts[..|acts| - 1]);
    }
  }

  /** The action changes which key is held. */
  predicate Rekeys(s: State, a: Action) {
    (a.Key? && !a.kind.Repeat? && !Locked(s)) || (a.Go? && s.thread.Clearing?)
  }

  /** The key held is the one pressed last, by any handler, and not released since, by any handler or the thread. */
  ghost predicate HeldSince(acts: seq<Action>, k: nat, c: Code) {
    && k < |acts| && acts[k].Key? && acts[k].kind.Down? && acts[k].code == c && !Locked(Run(START, acts[..k]))
    && forall i :: k < i < |acts| ==> !Rekeys(Run(START, acts[..i]), acts[i])
  }

  lemma RekeysNot(s: State, a: Action)
    requires !Rekeys(s, a)
    ensures Step(s, a).current == s.current
  {
  }

  lemma {:induction false} HeldBefore(acts: seq<Action>, a: Action, k: nat, c: Code)
    requires HeldSince(acts + [a], k, c) && k < |acts|
    ensures HeldSince(acts, k, c) && !Rekeys(Run(START, acts), a)
  {
    var all := acts + [a];
    assert all[..|acts|] == acts && all[|acts|] == a;
    assert forall i :: 0 <= i < |acts| ==> all[i] == acts[i] && all[..i] == acts[..i];
  }

  /** In every run. */
  lemma {:induction false} HeldKey(acts: seq<Action>, k: nat, c: Code)
    requires HeldSince(acts, k, c)
    ensures Run(START, acts).current == c
    decreases |acts|
  {
    var n := |acts| - 1;
    if k < n {
      assert acts[..n] + [acts[n]] == acts;
      HeldBefore(acts[..n], acts[n], k, c);
      HeldKey(acts[..n], k, c);
      RekeysNot(Run(START, acts[..n]), acts[n]);
    }
  }
}
