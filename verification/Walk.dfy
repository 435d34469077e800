// internal/storage/local/local.go: the parallel breadth-first walk, as atomic
// steps of its goroutines over shared state, against a plain recursive walk.
module Walk {
  import P = Paths

  // ---------------------------------------------------------------------
  // The tree, the search options and the filters
  // ---------------------------------------------------------------------

  datatype Entry = File(name: string) | Dir(name: string, kids: seq<Entry>)

  /** A matched entry, as handed to the visitor. */
  datatype Item = Item(path: string, isDir: bool)

  datatype Options = Options(term: string, kind: string, ext: string, limit: int)

  /** Library calls the filters make: strings.ToLower, path.Ext, fsutil.Detect. */
  datatype Library = Library(lower: string -> string, extOf: string -> string, detect: string -> string)

  datatype Search = Search(opts: Options, lib: Library) {
    function Term(): string { lib.lower(opts.term) }
    predicate IsSearch() { opts.term != "" || opts.kind != "" || opts.ext != "" }
  }

  predicate Contains(s: string, t: string) {
    t <= s || (s != "" && Contains(s[1..], t))
  }

  const NOISE_DIRS: set<string> := {
    ".git", ".svn", ".hg", "node_modules", "@eaDir", "#recycle", "@Recycle", ".@__thumb", "$RECYCLE.BIN",
    "System Volume Information", ".Trash-1000", ".Trashes", ".fseventsd", ".Spotlight-V100", ".cache",
    "__pycache__", ".venv"
  }

  predicate ShouldSkipDir(s: Search, name: string) {
    s.IsSearch() &&
    !(s.Term() != "" && (Contains(s.Term(), s.lib.lower(name)) || Contains(s.lib.lower(name), s.Term()))) &&
    name in NOISE_DIRS
  }

  predicate MatchTerm(s: Search, rel: string, name: string) {
    s.Term() == "" || Contains(s.lib.lower(name), s.Term()) || Contains(s.lib.lower(rel), s.Term())
  }

  predicate MatchDir(s: Search, rel: string, name: string) {
    (s.opts.kind == "" || s.opts.kind == "dir") && s.opts.ext == "" && MatchTerm(s, rel, name)
  }

  predicate MatchFile(s: Search, rel: string, name: string) {
    s.opts.kind != "dir" &&
    (s.opts.ext == "" || s.lib.extOf(name) == s.opts.ext) &&
    (s.opts.kind == "" || s.lib.detect(name) == s.opts.kind) &&
    MatchTerm(s, rel, name)
  }

  function ChildRel(rel: string, name: string): string {
    if rel != "." && rel != "" then rel + "/" + name else name
  }

  // ---------------------------------------------------------------------
  // The plain traversal
  // ---------------------------------------------------------------------

  /** What a walk needs from its search: which directories to leave out, which
      entries to visit, and how many at most (no limit when not positive). */
  datatype Plan = Plan(prune: string -> bool, hit: (string, Entry) -> bool, limit: int)

  function PlanOf(s: Search): Plan {
    Plan((name: string) => ShouldSkipDir(s, name),
         (rel: string, e: Entry) => if e.Dir? then MatchDir(s, rel, e.name) else MatchFile(s, rel, e.name),
         s.opts.limit)
  }

  function Matched(p: Plan, rel: string, e: Entry): multiset<Item> {
    var child := ChildRel(rel, e.name);
    if p.hit(child, e) then multiset{Item(child, e.Dir?)} else multiset{}
  }

  predicate Pruned(p: Plan, e: Entry) { e.Dir? && p.prune(e.name) }

  /** Every entry below a directory that passes the filters, with pruned
      directories left out; one entry after the other. */
  function Recursive(p: Plan, rel: string, kids: seq<Entry>): multiset<Item>
    decreases kids, 0
  {
    if |kids| == 0 then multiset{} else RecursiveEntry(p, rel, kids[0]) + Recursive(p, rel, kids[1..])
  }

  function RecursiveEntry(p: Plan, rel: string, e: Entry): multiset<Item>
    decreases e, 1
  {
    if Pruned(p, e) then multiset{}
    else Matched(p, rel, e) + if e.Dir? then Recursive(p, ChildRel(rel, e.name), e.kids) else multiset{}
  }

  // ---------------------------------------------------------------------
  // The goroutines
  // ---------------------------------------------------------------------

  /** A directory still to scan; for a worker in scanTask, what is left of it. */
  datatype Task = Task(rel: string, kids: seq<Entry>)

  datatype Failure = ErrDone | Hard(code: int)

  datatype Pc =
    | Top                       // worker loop: about to load the flag
    | Claim                     // flag was down: about to take a task index
    | Scan(task: Task)          // scanTask: about to load the flag for the next entry
    | Look(task: Task)          // flag was down: about to handle task.kids[0]
    | Lock(task: Task)          // the entry matches: waiting for the visitor's mutex
    | Enter(task: Task)         // mutex held: about to load the flag
    | Visit(task: Task)         // mutex held, flag was down: about to call the visitor
    | Push(task: Task)          // about to append the directory task.kids[0] to the own queue
    | Fail(failure: Failure)    // callFn failed: about to record the error and raise the flag
    | Exited                    // worker returned

  /** What the workers share while a level runs. */
  datatype Shared = Shared(
    up: bool,                   // limitReached
    left: int,                  // the visitor's remaining limit
    mutex: int,                 // worker holding fnMu, or -1
    visited: multiset<Item>,    // successful visitor calls
    faults: set<Failure>,       // what failing visitor calls answered
    firstErr: Failure)          // ErrDone while no error is recorded

  datatype State = State(
    level: seq<Task>,           // the current queue
    claims: seq<nat>,           // indexes handed out by taskIdx.Add, in order
    pcs: seq<Pc>,
    queues: seq<seq<Task>>,     // workerNext
    sh: Shared,
    done: bool)                 // walkDir returned

  function Current(t: Task): Entry
    requires |t.kids| > 0
  {
    t.kids[0]
  }

  function Rest(t: Task): Task
    requires |t.kids| > 0
  {
    Task(t.rel, t.kids[1..])
  }

  function Child(t: Task): Task
    requires |t.kids| > 0 && Current(t).Dir?
  {
    Task(ChildRel(t.rel, Current(t).name), Current(t).kids)
  }

  predicate Hit(p: Plan, t: Task)
    requires |t.kids| > 0
  {
    p.hit(ChildRel(t.rel, Current(t).name), Current(t))
  }

  /** What the control point of a worker says about the entry at hand. */
  predicate Sound(p: Plan, pc: Pc) {
    match pc
    case Look(t) => |t.kids| > 0
    case Lock(t) => |t.kids| > 0 && !Pruned(p, Current(t)) && Hit(p, t)
    case Enter(t) => |t.kids| > 0 && !Pruned(p, Current(t)) && Hit(p, t)
    case Visit(t) => |t.kids| > 0 && !Pruned(p, Current(t)) && Hit(p, t)
    case Push(t) => |t.kids| > 0 && !Pruned(p, Current(t)) && Current(t).Dir?
    case _ => true
  }

  /** Where a worker goes once the visitor accepted the current entry, or
      nothing had to be visited. */
  function AfterVisit(t: Task): Pc
    requires |t.kids| > 0
  {
    if Current(t).Dir? then Push(t) else Scan(Rest(t))
  }

  function LookNext(p: Plan, t: Task): Pc
    requires |t.kids| > 0
  {
    if Pruned(p, Current(t)) then Scan(Rest(t)) else if Hit(p, t) then Lock(t) else AfterVisit(t)
  }

  datatype Move = Move(pc: Pc, sh: Shared)

  /** The visitor accepts the current entry; the limit is counted down and the
      flag raised inside the mutex. */
  function Accept(p: Plan, sh: Shared, t: Task): Move
    requires |t.kids| > 0
  {
    var visited := sh.visited + Matched(p, t.rel, Current(t));
    if sh.left > 1 then Move(AfterVisit(t), sh.(mutex := -1, visited := visited, left := sh.left - 1))
    else if sh.left == 1 then Move(Fail(ErrDone), sh.(mutex := -1, visited := visited, left := 0, up := true))
    else Move(AfterVisit(t), sh.(mutex := -1, visited := visited))
  }

  /** The steps of worker w that touch only its own control point and the shared
      variables. A visitor call answers fault when fails is set. */
  function Local(p: Plan, sh: Shared, w: nat, pc: Pc, fails: bool, fault: Failure): Move
    requires Sound(p, pc)
  {
    match pc
    case Top => Move(if sh.up then Exited else Claim, sh)
    case Scan(t) => Move(if |t.kids| == 0 || sh.up then Top else Look(t), sh)
    case Look(t) => Move(LookNext(p, t), sh)
    case Lock(t) => Move(Enter(t), sh.(mutex := w))
    case Enter(t) => if sh.up then Move(Fail(ErrDone), sh.(mutex := -1)) else Move(Visit(t), sh)
    case Visit(t) =>
      if fails then Move(Fail(fault), sh.(mutex := -1, faults := sh.faults + {fault})) else Accept(p, sh, t)
    case Fail(f) => Move(Top, sh.(up := true, firstErr := if sh.firstErr == ErrDone then f else sh.firstErr))
    case _ => Move(pc, sh)
  }

  predicate IsLocal(pc: Pc) { !pc.Claim? && !pc.Push? && !pc.Exited? }

  predicate Ready(p: Plan, st: State, w: nat) {
    w < |st.pcs| && w < |st.queues| && Sound(p, st.pcs[w]) && !st.pcs[w].Exited? &&
    (st.pcs[w].Lock? ==> st.sh.mutex == -1)
  }

  /** One atomic step of worker w. */
  function After(p: Plan, st: State, w: nat, fails: bool, fault: Failure): State
    requires Ready(p, st, w)
  {
    var pc := st.pcs[w];
    if pc.Claim? then
      var i := |st.claims|;
      st.(pcs := st.pcs[w := if i < |st.level| then Scan(st.level[i]) else Exited], claims := st.claims + [i])
    else if pc.Push? then
      st.(pcs := st.pcs[w := Scan(Rest(pc.task))], queues := st.queues[w := st.queues[w] + [Child(pc.task)]])
    else
      var m := Local(p, st.sh, w, pc, fails, fault);
      st.(pcs := st.pcs[w := m.pc], sh := m.sh)
  }

  function Concat(qs: seq<seq<Task>>): seq<Task> {
    if |qs| == 0 then [] else qs[0] + Concat(qs[1..])
  }

  function StartLevel(sh: Shared, queue: seq<Task>, workers: nat): State {
    var n := if workers < |queue| then workers else |queue|;
    State(queue, [], seq(n, i => Top), seq(workers, i => []), sh, false)
  }

  function Init(p: Plan, rel: string, kids: seq<Entry>, workers: nat): State {
    StartLevel(Shared(false, p.limit, -1, multiset{}, {}, ErrDone), [Task(rel, kids)], workers)
  }

  predicate LevelOver(st: State) { !st.done && forall w :: 0 <= w < |st.pcs| ==> st.pcs[w] == Exited }

  /** wg.Wait() and the loop head of walkDir: once every worker returned, stop on
      an error, an empty queue or a raised flag; else start the next level. */
  function NextLevel(st: State, workers: nat): State {
    var next := Concat(st.queues);
    if st.sh.firstErr != ErrDone || |next| == 0 || st.sh.up then st.(done := true)
    else StartLevel(st.sh, next, workers)
  }

  ghost predicate Step(p: Plan, st: State, st': State, workers: nat) {
    (LevelOver(st) && st' == NextLevel(st, workers)) ||
    exists w, fails, fault :: Ready(p, st, w) && st' == After(p, st, w, fails, fault)
  }

  // ---------------------------------------------------------------------
  // What is still outstanding: occurrences of an item, and steps to take
  // ---------------------------------------------------------------------

  datatype Gauge = Occurrences(x: Item) | Steps

  function Work(kids: seq<Entry>): nat
    decreases kids, 0
  {
    if |kids| == 0 then 0 else EntryWork(kids[0]) + Work(kids[1..])
  }

  function EntryWork(e: Entry): nat
    decreases e, 1
  {
    match e case File(_) => 7 case Dir(_, kids) => 12 + Work(kids)
  }

  function TaskVal(p: Plan, g: Gauge, t: Task, cost: nat): int {
    match g
    case Occurrences(x) => ItemsOf(p, x, t)
    case Steps => cost + Work(t.kids)
  }

  function ItemsOf(p: Plan, x: Item, t: Task): int { Recursive(p, t.rel, t.kids)[x] }

  function PcItems(p: Plan, x: Item, pc: Pc): int {
    if pc.Top? || pc.Claim? || pc.Fail? || pc.Exited? then 0
    else if !pc.Push? then ItemsOf(p, x, pc.task)
    else if |pc.task.kids| > 0 && Current(pc.task).Dir? then
      ItemsOf(p, x, Child(pc.task)) + ItemsOf(p, x, Rest(pc.task))
    else 0
  }

  function PcSteps(pc: Pc): int {
    match pc
    case Top => 2
    case Claim => 1
    case Scan(t) => 3 + Work(t.kids)
    case Look(t) => 2 + Work(t.kids)
    case Lock(t) => 1 + Work(t.kids)
    case Enter(t) => Work(t.kids)
    case Visit(t) => Work(t.kids) - 1
    case Push(t) => Work(t.kids) - 2
    case Fail(_) => 3
    case Exited => 0
  }

  function PcVal(p: Plan, g: Gauge, pc: Pc): int {
    if g.Steps? then PcSteps(pc) else PcItems(p, g.x, pc)
  }

  function Sum(ns: seq<int>): int { if |ns| == 0 then 0 else ns[0] + Sum(ns[1..]) }

  function TaskVals(p: Plan, g: Gauge, ts: seq<Task>, cost: nat): seq<int> {
    seq(|ts|, i requires 0 <= i < |ts| => TaskVal(p, g, ts[i], cost))
  }

  function PcVals(p: Plan, g: Gauge, pcs: seq<Pc>): seq<int> {
    seq(|pcs|, i requires 0 <= i < |pcs| => PcVal(p, g, pcs[i]))
  }

  function TasksVal(p: Plan, g: Gauge, ts: seq<Task>, cost: nat): int { Sum(TaskVals(p, g, ts, cost)) }

  function PcsVal(p: Plan, g: Gauge, pcs: seq<Pc>): int { Sum(PcVals(p, g, pcs)) }

  function Unclaimed(st: State): seq<Task> {
    if |st.claims| <= |st.level| then st.level[|st.claims|..] else []
  }

  /** What is neither visited nor dropped yet, and the steps it can cost. */
  function Outstanding(p: Plan, g: Gauge, st: State): int {
    PcsVal(p, g, st.pcs) + TasksVal(p, g, Unclaimed(st), 3) + TasksVal(p, g, Concat(st.queues), 6)
  }

  lemma {:induction false} SumUpdate(ns: seq<int>, w: nat, n: int)
    requires w < |ns|
    ensures Sum(ns[w := n]) + ns[w] == Sum(ns) + n
  {
    if w == 0 {
      assert ns[w := n][1..] == ns[1..];
    } else {
      SumUpdate(ns[1..], w - 1, n);
      assert ns[w := n][1..] == ns[1..][w - 1 := n];
    }
  }

  lemma {:induction false} SumConcat(a: seq<int>, b: seq<int>)
    ensures Sum(a + b) == Sum(a) + Sum(b)
  {
    if |a| == 0 {
      assert a + b == b;
    } else {
      SumConcat(a[1..], b);
      assert (a + b)[1..] == a[1..] + b;
    }
  }

  lemma {:induction false} SumConstant(ns: seq<int>, n: int)
    requires forall i :: 0 <= i < |ns| ==> ns[i] == n
    ensures Sum(ns) == n * |ns|
  {
    if |ns| > 0 { SumConstant(ns[1..], n); }
  }

  lemma {:induction false} SumNonNegative(ns: seq<int>)
    requires forall i :: 0 <= i < |ns| ==> ns[i] >= 0
    ensures Sum(ns) >= 0
  {
    if |ns| > 0 { SumNonNegative(ns[1..]); }
  }

  /** Moving one worker changes the total by the difference of its two points. */
  lemma PcsMove(p: Plan, g: Gauge, pcs: seq<Pc>, w: nat, pc: Pc)
    requires w < |pcs|
    ensures PcsVal(p, g, pcs[w := pc]) + PcVal(p, g, pcs[w]) == PcsVal(p, g, pcs) + PcVal(p, g, pc)
  {
    SumUpdate(PcVals(p, g, pcs), w, PcVal(p, g, pc));
    assert PcVals(p, g, pcs)[w := PcVal(p, g, pc)] == PcVals(p, g, pcs[w := pc]);
  }

  lemma TasksConcat(p: Plan, g: Gauge, a: seq<Task>, b: seq<Task>, cost: nat)
    ensures TasksVal(p, g, a + b, cost) == TasksVal(p, g, a, cost) + TasksVal(p, g, b, cost)
  {
    SumConcat(TaskVals(p, g, a, cost), TaskVals(p, g, b, cost));
    assert TaskVals(p, g, a, cost) + TaskVals(p, g, b, cost) == TaskVals(p, g, a + b, cost);
  }

  lemma OneTask(p: Plan, g: Gauge, t: Task, cost: nat)
    ensures TasksVal(p, g, [t], cost) == TaskVal(p, g, t, cost)
    ensures TasksVal(p, g, [], cost) == 0
  {
    assert TaskVals(p, g, [t], cost) == [TaskVal(p, g, t, cost)];
    assert Sum([TaskVal(p, g, t, cost)][1..]) == 0;
  }

  lemma {:induction false} ConcatPush(qs: seq<seq<Task>>, w: nat, t: Task) returns (a: seq<Task>, b: seq<Task>)
    requires w < |qs|
    ensures Concat(qs) == a + b && Concat(qs[w := qs[w] + [t]]) == a + [t] + b
  {
    var qs' := qs[w := qs[w] + [t]];
    if w == 0 {
      assert qs'[1..] == qs[1..];
      a, b := qs[0], Concat(qs[1..]);
    } else {
      a, b := ConcatPush(qs[1..], w - 1, t);
      assert qs'[1..] == qs[1..][w - 1 := qs[w] + [t]];
      a := qs[0] + a;
    }
  }

  lemma QueuePush(p: Plan, g: Gauge, qs: seq<seq<Task>>, w: nat, t: Task)
    requires w < |qs|
    ensures TasksVal(p, g, Concat(qs[w := qs[w] + [t]]), 6) == TasksVal(p, g, Concat(qs), 6) + TaskVal(p, g, t, 6)
  {
    var a, b := ConcatPush(qs, w, t);
    TasksConcat(p, g, a, b, 6);
    TasksConcat(p, g, a + [t], b, 6);
    TasksConcat(p, g, a, [t], 6);
    OneTask(p, g, t, 6);
  }

  lemma {:induction false} TasksCost(p: Plan, g: Gauge, ts: seq<Task>)
    ensures TasksVal(p, g, ts, 6) == TasksVal(p, g, ts, 3) + if g.Steps? then 3 * |ts| else 0
  {
    if |ts| > 0 {
      TasksCost(p, g, ts[1..]);
      assert TaskVals(p, g, ts, 6)[1..] == TaskVals(p, g, ts[1..], 6);
      assert TaskVals(p, g, ts, 3)[1..] == TaskVals(p, g, ts[1..], 3);
    }
  }

  lemma {:induction false} NoTasks(qs: seq<seq<Task>>)
    requires forall i :: 0 <= i < |qs| ==> qs[i] == []
    ensures Concat(qs) == []
  {
    if |qs| > 0 { NoTasks(qs[1..]); }
  }

  // ---------------------------------------------------------------------
  // One local step
  // ---------------------------------------------------------------------

  /** A stop was called for: the visitor failed, or took the last item allowed. */
  ghost predicate Stopped(p: Plan, sh: Shared) { sh.faults != {} || (p.limit > 0 && sh.left == 0) }

  /** The limit counts successful calls, and the flag is only raised for a stop. */
  ghost predicate SharedSound(p: Plan, sh: Shared) {
    (sh.up ==> Stopped(p, sh)) &&
    (p.limit <= 0 ==> sh.left == p.limit) &&
    (p.limit > 0 ==> 0 <= sh.left == p.limit - |sh.visited|) &&
    (p.limit > 0 && sh.left == 0 ==> sh.up)
  }

  ghost predicate PointSound(p: Plan, sh: Shared, pc: Pc) {
    Sound(p, pc) && (pc.Fail? ==> Stopped(p, sh)) && (pc.Visit? && p.limit > 0 ==> sh.left > 0)
  }

  /** The recursive walk and its cost, one entry unfolded. */
  lemma Unfold(p: Plan, x: Item, t: Task)
    requires |t.kids| > 0
    ensures ItemsOf(p, x, t)
            == (if Pruned(p, Current(t)) then 0
                else MatchedOf(p, x, t) + if Current(t).Dir? then ItemsOf(p, x, Child(t)) else 0)
               + ItemsOf(p, x, Rest(t))
    ensures Work(t.kids) == Work(Rest(t).kids) + if Current(t).Dir? then 12 + Work(Child(t).kids) else 7
    ensures !Hit(p, t) ==> MatchedOf(p, x, t) == 0
  {
    var e := Current(t);
    assert Recursive(p, t.rel, t.kids) == RecursiveEntry(p, t.rel, e) + Recursive(p, t.rel, t.kids[1..]);
    assert RecursiveEntry(p, t.rel, e)[x] ==
      if Pruned(p, e) then 0 else MatchedOf(p, x, t) + if e.Dir? then ItemsOf(p, x, Child(t)) else 0;
  }

  function MatchedOf(p: Plan, x: Item, t: Task): int
    requires |t.kids| > 0
  {
    Matched(p, t.rel, Current(t))[x]
  }

  /** The same for a task whose current entry is not pruned: visiting it leaves
      its match visited and the rest outstanding. */
  lemma VisitLoad(p: Plan, x: Item, t: Task)
    requires |t.kids| > 0 && !Pruned(p, Current(t))
    ensures ItemsOf(p, x, t) == MatchedOf(p, x, t) + PcItems(p, x, AfterVisit(t))
    ensures PcSteps(AfterVisit(t)) < Work(t.kids) - 1 && Work(t.kids) >= 7 && MatchedOf(p, x, t) >= 0
    ensures PcItems(p, x, AfterVisit(t)) >= 0
  {
    Unfold(p, x, t);
  }

  lemma LookBalance(p: Plan, x: Item, t: Task)
    requires |t.kids| > 0
    ensures PcItems(p, x, LookNext(p, t)) == ItemsOf(p, x, t) && PcSteps(LookNext(p, t)) < 2 + Work(t.kids)
  {
    if Pruned(p, Current(t)) {
      Unfold(p, x, t);
    } else if !Hit(p, t) {
      Unfold(p, x, t);
      VisitLoad(p, x, t);
    }
  }

  /** A local step loses nothing to visit unless a stop was called for, and it
      is paid for. */
  ghost predicate Balanced(p: Plan, x: Item, sh: Shared, pc: Pc, m: Move) {
    m.sh.visited[x] + PcItems(p, x, m.pc) <= sh.visited[x] + PcItems(p, x, pc) &&
    (m.sh.visited[x] + PcItems(p, x, m.pc) == sh.visited[x] + PcItems(p, x, pc) || Stopped(p, m.sh)) &&
    PcSteps(m.pc) < PcSteps(pc)
  }

  lemma AcceptBalance(p: Plan, x: Item, sh: Shared, t: Task)
    requires |t.kids| > 0 && !Pruned(p, Current(t)) && SharedSound(p, sh) && (p.limit > 0 ==> sh.left > 0)
    ensures Balanced(p, x, sh, Visit(t), Accept(p, sh, t))
  {
    VisitLoad(p, x, t);
    var m := Accept(p, sh, t);
    assert m.sh.visited[x] == sh.visited[x] + MatchedOf(p, x, t);
    assert m.pc == AfterVisit(t) || (m.pc == Fail(ErrDone) && Stopped(p, m.sh));
  }

  lemma LocalBalance(p: Plan, x: Item, sh: Shared, w: nat, pc: Pc, fails: bool, fault: Failure)
    requires SharedSound(p, sh) && PointSound(p, sh, pc) && IsLocal(pc)
    ensures Balanced(p, x, sh, pc, Local(p, sh, w, pc, fails, fault))
  {
    if pc.Look? {
      LookBalance(p, x, pc.task);
    } else if pc.Visit? && !fails {
      AcceptBalance(p, x, sh, pc.task);
    } else if pc.Enter? || pc.Visit? {
      HolderBalance(p, x, sh, w, pc, fails, fault);
    } else {
      PlainBalance(p, x, sh, w, pc, fails, fault);
    }
  }

  lemma HolderBalance(p: Plan, x: Item, sh: Shared, w: nat, pc: Pc, fails: bool, fault: Failure)
    requires SharedSound(p, sh) && PointSound(p, sh, pc) && (pc.Enter? || pc.Visit?) && (pc.Visit? ==> fails)
    ensures Balanced(p, x, sh, pc, Local(p, sh, w, pc, fails, fault))
  {
    VisitLoad(p, x, pc.task);
  }

  lemma PlainBalance(p: Plan, x: Item, sh: Shared, w: nat, pc: Pc, fails: bool, fault: Failure)
    requires SharedSound(p, sh) && PointSound(p, sh, pc) && (pc.Top? || pc.Scan? || pc.Lock? || pc.Fail?)
    ensures Balanced(p, x, sh, pc, Local(p, sh, w, pc, fails, fault))
  {}

  lemma LocalSound(p: Plan, sh: Shared, w: nat, pc: Pc, fails: bool, fault: Failure)
    requires SharedSound(p, sh) && PointSound(p, sh, pc) && IsLocal(pc)
    ensures var m := Local(p, sh, w, pc, fails, fault);
            SharedSound(p, m.sh) && PointSound(p, m.sh, m.pc) &&
            (Stopped(p, sh) ==> Stopped(p, m.sh)) && (sh.up ==> m.sh.up) && (m.sh.left == sh.left || pc.Visit?) &&
            (m.pc.Exited? ==> sh.up)
  {}

  predicate HoldsMutex(pc: Pc) { pc.Enter? || pc.Visit? }

  lemma LocalMutex(p: Plan, sh: Shared, w: nat, pc: Pc, fails: bool, fault: Failure)
    requires Sound(p, pc) && IsLocal(pc)
    ensures var m := Local(p, sh, w, pc, fails, fault);
            m.sh.mutex == if pc.Lock? then w else if HoldsMutex(pc) && !HoldsMutex(m.pc) then -1 else sh.mutex
    ensures var m := Local(p, sh, w, pc, fails, fault); HoldsMutex(m.pc) <==> pc.Lock? || (pc.Enter? && !sh.up)
  {}

  /** A local step records a failure of the visitor, turns a pending failure into
      the recorded error, or does neither. */
  lemma LocalErrors(p: Plan, sh: Shared, w: nat, pc: Pc, fails: bool, fault: Failure)
    requires Sound(p, pc) && IsLocal(pc)
    ensures var m := Local(p, sh, w, pc, fails, fault);
            if pc.Fail? then
              m.pc == Top && m.sh.faults == sh.faults &&
              m.sh.firstErr == if sh.firstErr == ErrDone then pc.failure else sh.firstErr
            else if pc.Visit? && fails then
              m.pc == Fail(fault) && m.sh.faults == sh.faults + {fault} && m.sh.firstErr == sh.firstErr
            else
              (m.pc.Fail? ==> m.pc.failure == ErrDone) && m.sh.faults == sh.faults && m.sh.firstErr == sh.firstErr
  {}

  // ---------------------------------------------------------------------
  // The invariant of every run
  // ---------------------------------------------------------------------

  /** Workers are at well-formed points, task indexes are handed out as 0, 1, 2,
      ... each once, and a worker leaves with the flag down only when the level
      has been handed out completely. */
  ghost predicate Shape(p: Plan, st: State, workers: nat) {
    0 < |st.pcs| <= |st.queues| && |st.queues| == workers && SharedSound(p, st.sh) &&
    |st.pcs| == (if workers < |st.level| then workers else |st.level|) &&
    (forall w :: 0 <= w < |st.pcs| ==> PointSound(p, st.sh, st.pcs[w])) &&
    (forall i :: 0 <= i < |st.claims| ==> st.claims[i] == i) &&
    (forall w :: 0 <= w < |st.pcs| && st.pcs[w] == Exited && !st.sh.up ==> |st.claims| >= |st.level|) &&
    (st.done ==> forall w :: 0 <= w < |st.pcs| ==> st.pcs[w] == Exited)
  }

  ghost predicate MutexSound(st: State) {
    (forall w :: 0 <= w < |st.pcs| && HoldsMutex(st.pcs[w]) ==> st.sh.mutex == w) &&
    (st.sh.mutex != -1 ==> 0 <= st.sh.mutex < |st.pcs| && HoldsMutex(st.pcs[st.sh.mutex]))
  }

  predicate Pending(pc: Pc) { pc.Fail? && pc.failure != ErrDone }

  /** The recorded error is one the visitor gave, and none is forgotten. */
  ghost predicate ErrorsSound(st: State) {
    (st.sh.firstErr != ErrDone ==> st.sh.firstErr in st.sh.faults) &&
    (forall w :: 0 <= w < |st.pcs| && Pending(st.pcs[w]) ==> st.pcs[w].failure in st.sh.faults) &&
    ((exists f :: f in st.sh.faults && f != ErrDone) ==>
      st.sh.firstErr != ErrDone || exists w :: 0 <= w < |st.pcs| && Pending(st.pcs[w]))
  }

  /** Visited and outstanding entries add up to the plain traversal until a stop
      is called for, and never exceed it. */
  ghost predicate Conserved(p: Plan, st: State, all: multiset<Item>) {
    forall x :: Accounted(p, st, all, x)
  }

  ghost predicate Accounted(p: Plan, st: State, all: multiset<Item>, x: Item) {
    st.sh.visited[x] + Outstanding(p, Occurrences(x), st) <= all[x] &&
    (st.sh.visited[x] + Outstanding(p, Occurrences(x), st) == all[x] || Stopped(p, st.sh)) &&
    (st.done && !Stopped(p, st.sh) ==> st.sh.visited[x] == all[x])
  }

  ghost predicate Inv(p: Plan, st: State, all: multiset<Item>, workers: nat) {
    Shape(p, st, workers) && MutexSound(st) && ErrorsSound(st) && Conserved(p, st, all)
  }

  /** Steps still to come, at most. */
  ghost function Measure(p: Plan, st: State): int { Outstanding(p, Steps, st) + if st.done then 0 else 1 }

  lemma ClaimStep(p: Plan, g: Gauge, st: State, w: nat)
    requires Ready(p, st, w) && st.pcs[w] == Claim
    ensures Outstanding(p, g, After(p, st, w, false, ErrDone)) == Outstanding(p, g, st) - if g.Steps? then 1 else 0
  {
    var st' := After(p, st, w, false, ErrDone);
    PcsMove(p, g, st.pcs, w, st'.pcs[w]);
    if |st.claims| < |st.level| {
      var t := st.level[|st.claims|];
      assert Unclaimed(st) == [t] + Unclaimed(st');
      TasksConcat(p, g, [t], Unclaimed(st'), 3);
      OneTask(p, g, t, 3);
    } else {
      assert Unclaimed(st) == Unclaimed(st') == [];
    }
  }

  lemma PushStep(p: Plan, g: Gauge, st: State, w: nat, t: Task)
    requires Ready(p, st, w) && st.pcs[w] == Push(t)
    ensures Outstanding(p, g, After(p, st, w, false, ErrDone)) == Outstanding(p, g, st) - if g.Steps? then 1 else 0
  {
    var st' := After(p, st, w, false, ErrDone);
    PcsMove(p, g, st.pcs, w, st'.pcs[w]);
    QueuePush(p, g, st.queues, w, Child(t));
    Unfold(p, Item("", false), t);
    assert Unclaimed(st') == Unclaimed(st);
  }

  lemma LocalStep(p: Plan, g: Gauge, st: State, w: nat, fails: bool, fault: Failure)
    requires Ready(p, st, w) && IsLocal(st.pcs[w])
    ensures var m := Local(p, st.sh, w, st.pcs[w], fails, fault);
            Outstanding(p, g, After(p, st, w, fails, fault))
            == Outstanding(p, g, st) + PcVal(p, g, m.pc) - PcVal(p, g, st.pcs[w])
  {
    var st' := After(p, st, w, fails, fault);
    PcsMove(p, g, st.pcs, w, st'.pcs[w]);
    assert Unclaimed(st') == Unclaimed(st);
  }

  lemma StepAccounts(p: Plan, st: State, w: nat, fails: bool, fault: Failure, all: multiset<Item>, x: Item,
                     workers: nat)
    requires Shape(p, st, workers) && Ready(p, st, w) && !st.done && Accounted(p, st, all, x)
    ensures Accounted(p, After(p, st, w, fails, fault), all, x)
    ensures Measure(p, After(p, st, w, fails, fault)) < Measure(p, st)
  {
    var pc := st.pcs[w];
    if pc.Claim? {
      ClaimStep(p, Occurrences(x), st, w);
      ClaimStep(p, Steps, st, w);
    } else if pc.Push? {
      PushStep(p, Occurrences(x), st, w, pc.task);
      PushStep(p, Steps, st, w, pc.task);
    } else {
      LocalBalance(p, x, st.sh, w, pc, fails, fault);
      LocalSound(p, st.sh, w, pc, fails, fault);
      LocalStep(p, Occurrences(x), st, w, fails, fault);
      LocalStep(p, Steps, st, w, fails, fault);
    }
  }

  lemma StepShape(p: Plan, st: State, w: nat, fails: bool, fault: Failure, workers: nat)
    requires Shape(p, st, workers) && MutexSound(st) && Ready(p, st, w)
    ensures Shape(p, After(p, st, w, fails, fault), workers)
  {
    var st' := After(p, st, w, fails, fault);
    var pc := st.pcs[w];
    assert !st.done;
    if IsLocal(pc) { LocalSound(p, st.sh, w, pc, fails, fault); }
    forall v | 0 <= v < |st.pcs| && v != w
      ensures st'.pcs[v] == st.pcs[v] && PointSound(p, st'.sh, st'.pcs[v])
    {
      assert PointSound(p, st.sh, st.pcs[v]);
    }
  }

  lemma StepMutex(p: Plan, st: State, w: nat, fails: bool, fault: Failure)
    requires MutexSound(st) && Ready(p, st, w)
    ensures MutexSound(After(p, st, w, fails, fault))
  {
    if IsLocal(st.pcs[w]) { LocalMutex(p, st.sh, w, st.pcs[w], fails, fault); }
  }

  lemma StepErrors(p: Plan, st: State, w: nat, fails: bool, fault: Failure)
    requires ErrorsSound(st) && Ready(p, st, w)
    ensures ErrorsSound(After(p, st, w, fails, fault))
  {
    var st' := After(p, st, w, fails, fault);
    var pc := st.pcs[w];
    if IsLocal(pc) { LocalErrors(p, st.sh, w, pc, fails, fault); }
    if (exists f :: f in st'.sh.faults && f != ErrDone) && st'.sh.firstErr == ErrDone {
      if exists f :: f in st.sh.faults && f != ErrDone {
        var v :| 0 <= v < |st.pcs| && Pending(st.pcs[v]);
        assert st'.pcs[v] == st.pcs[v];
      } else {
        assert Pending(st'.pcs[w]);
      }
    }
  }

  lemma WorkerKeepsInv(p: Plan, st: State, w: nat, fails: bool, fault: Failure, all: multiset<Item>, workers: nat)
    requires Inv(p, st, all, workers) && Ready(p, st, w)
    ensures Inv(p, After(p, st, w, fails, fault), all, workers)
    ensures Measure(p, After(p, st, w, fails, fault)) < Measure(p, st)
  {
    assert !st.done;
    StepShape(p, st, w, fails, fault, workers);
    StepMutex(p, st, w, fails, fault);
    StepErrors(p, st, w, fails, fault);
    forall x
      ensures Accounted(p, After(p, st, w, fails, fault), all, x)
    {
      assert Accounted(p, st, all, x);
      StepAccounts(p, st, w, fails, fault, all, x, workers);
    }
    var x := Item("", false);
    assert Accounted(p, st, all, x);
    StepAccounts(p, st, w, fails, fault, all, x, workers);
  }

  lemma StartVal(p: Plan, g: Gauge, sh: Shared, queue: seq<Task>, workers: nat)
    requires |queue| > 0 && workers > 0
    ensures var n := Outstanding(p, g, StartLevel(sh, queue, workers));
            if g.Steps? then n <= TasksVal(p, g, queue, 3) + 2 * |queue| else n == TasksVal(p, g, queue, 3)
  {
    var st := StartLevel(sh, queue, workers);
    SumConstant(PcVals(p, g, st.pcs), if g.Steps? then 2 else 0);
    NoTasks(st.queues);
    assert Unclaimed(st) == queue;
    OneTask(p, g, queue[0], 6);
  }

  lemma StartSound(p: Plan, sh: Shared, queue: seq<Task>, workers: nat)
    requires |queue| > 0 && workers > 0 && SharedSound(p, sh) && sh.mutex == -1
    requires sh.firstErr == ErrDone ==> forall f :: f in sh.faults ==> f == ErrDone
    requires sh.firstErr != ErrDone ==> sh.firstErr in sh.faults
    ensures var st := StartLevel(sh, queue, workers); Shape(p, st, workers) && MutexSound(st) && ErrorsSound(st)
  {
    assert StartLevel(sh, queue, workers).pcs[0] == Top;
  }

  /** With every worker gone and the flag down, only the queues are left. */
  lemma LevelVal(p: Plan, g: Gauge, st: State, workers: nat)
    requires Shape(p, st, workers) && LevelOver(st) && !st.sh.up
    ensures Outstanding(p, g, st) == TasksVal(p, g, Concat(st.queues), 6)
  {
    SumConstant(PcVals(p, g, st.pcs), 0);
    assert st.pcs[0] == Exited;
    assert Unclaimed(st) == [];
    OneTask(p, g, Task("", []), 3);
  }

  lemma LevelKeepsInv(p: Plan, st: State, all: multiset<Item>, workers: nat)
    requires Inv(p, st, all, workers) && LevelOver(st)
    ensures Inv(p, NextLevel(st, workers), all, workers)
    ensures Measure(p, NextLevel(st, workers)) < Measure(p, st)
  {
    var st' := NextLevel(st, workers);
    var next := Concat(st.queues);
    forall x
      ensures Accounted(p, st', all, x)
    {
      assert Accounted(p, st, all, x);
      if st'.done {
        FinishAccounts(p, st, all, x, workers);
      } else {
        LevelVal(p, Occurrences(x), st, workers);
        TasksCost(p, Occurrences(x), next);
        StartVal(p, Occurrences(x), st.sh, next, workers);
      }
    }
    if !st'.done {
      LevelVal(p, Steps, st, workers);
      TasksCost(p, Steps, next);
      StartVal(p, Steps, st.sh, next, workers);
      StartSound(p, st.sh, next, workers);
    }
  }

  lemma FinishAccounts(p: Plan, st: State, all: multiset<Item>, x: Item, workers: nat)
    requires Shape(p, st, workers) && ErrorsSound(st) && LevelOver(st) && Accounted(p, st, all, x)
    requires st.sh.firstErr != ErrDone || |Concat(st.queues)| == 0 || st.sh.up
    ensures Accounted(p, st.(done := true), all, x)
  {
    assert Unclaimed(st.(done := true)) == Unclaimed(st);
    if !Stopped(p, st.sh) {
      LevelVal(p, Occurrences(x), st, workers);
      assert Concat(st.queues) == [];
      OneTask(p, Occurrences(x), Task("", []), 6);
    }
  }

  // ---------------------------------------------------------------------
  // Every run
  // ---------------------------------------------------------------------

  ghost predicate Run(p: Plan, trace: seq<State>, rel: string, kids: seq<Entry>, workers: nat) {
    |trace| > 0 && trace[0] == Init(p, rel, kids, workers) &&
    forall i :: 0 < i < |trace| ==> Step(p, trace[i - 1], trace[i], workers)
  }

  lemma InitInv(p: Plan, rel: string, kids: seq<Entry>, workers: nat)
    requires workers > 0
    ensures Inv(p, Init(p, rel, kids, workers), Recursive(p, rel, kids), workers)
    ensures Measure(p, Init(p, rel, kids, workers)) <= 6 + Work(kids)
  {
    var sh := Shared(false, p.limit, -1, multiset{}, {}, ErrDone);
    var queue := [Task(rel, kids)];
    StartSound(p, sh, queue, workers);
    StartVal(p, Steps, sh, queue, workers);
    OneTask(p, Steps, queue[0], 3);
    forall x
      ensures Accounted(p, Init(p, rel, kids, workers), Recursive(p, rel, kids), x)
    {
      StartVal(p, Occurrences(x), sh, queue, workers);
      OneTask(p, Occurrences(x), queue[0], 3);
    }
  }

  lemma StepKeepsInv(p: Plan, st: State, st': State, all: multiset<Item>, workers: nat)
    requires Inv(p, st, all, workers) && Step(p, st, st', workers)
    ensures Inv(p, st', all, workers) && Measure(p, st') < Measure(p, st)
  {
    if LevelOver(st) && st' == NextLevel(st, workers) {
      LevelKeepsInv(p, st, all, workers);
    } else {
      var w, fails, fault :| Ready(p, st, w) && st' == After(p, st, w, fails, fault);
      WorkerKeepsInv(p, st, w, fails, fault, all, workers);
    }
  }

  lemma {:induction false} RunInv(p: Plan, trace: seq<State>, rel: string, kids: seq<Entry>, workers: nat, k: nat)
    requires Run(p, trace, rel, kids, workers) && workers > 0 && k < |trace|
    ensures Inv(p, trace[k], Recursive(p, rel, kids), workers)
    ensures Measure(p, trace[k]) + k <= 6 + Work(kids)
  {
    InitInv(p, rel, kids, workers);
    if k > 0 {
      RunInv(p, trace, rel, kids, workers, k - 1);
      StepKeepsInv(p, trace[k - 1], trace[k], Recursive(p, rel, kids), workers);
    }
  }

  lemma MeasureNonNegative(p: Plan, st: State, workers: nat)
    requires Shape(p, st, workers)
    ensures Measure(p, st) >= 0
  {
    forall i | 0 <= i < |st.pcs|
      ensures PcVals(p, Steps, st.pcs)[i] >= 0
    {
      var pc := st.pcs[i];
      assert PointSound(p, st.sh, pc);
      if pc.Visit? || pc.Push? { Unfold(p, Item("", false), pc.task); }
    }
    SumNonNegative(PcVals(p, Steps, st.pcs));
    SumNonNegative(TaskVals(p, Steps, Unclaimed(st), 3));
    SumNonNegative(TaskVals(p, Steps, Concat(st.queues), 6));
  }

  /** The walk ends: a run takes at most as many steps as the tree is worth, and a
      run that has not returned can always take one more. */
  lemma WalkTerminates(p: Plan, trace: seq<State>, rel: string, kids: seq<Entry>, workers: nat)
    requires Run(p, trace, rel, kids, workers) && workers > 0
    ensures |trace| <= 7 + Work(kids)
    ensures var last := trace[|trace| - 1]; !last.done ==> exists next :: Step(p, last, next, workers)
  {
    var last := trace[|trace| - 1];
    RunInv(p, trace, rel, kids, workers, |trace| - 1);
    MeasureNonNegative(p, last, workers);
    if !last.done {
      var w := EnabledWorker(last);
      if w < 0 {
        assert Step(p, last, NextLevel(last, workers), workers);
      } else {
        assert PointSound(p, last.sh, last.pcs[w]);
        assert Ready(p, last, w);
        assert Step(p, last, After(p, last, w, false, ErrDone), workers);
      }
    }
  }

  /** A worker that can step; -1 when all have returned. The holder of the mutex
      is never blocked. */
  lemma EnabledWorker(st: State) returns (w: int)
    requires MutexSound(st)
    ensures -1 <= w < |st.pcs|
    ensures if w < 0 then forall v :: 0 <= v < |st.pcs| ==> st.pcs[v] == Exited
            else st.pcs[w] != Exited && (st.pcs[w].Lock? ==> st.sh.mutex == -1)
  {
    if st.sh.mutex != -1 {
      w := st.sh.mutex;
    } else if v :| 0 <= v < |st.pcs| && st.pcs[v] != Exited {
      w := v;
    } else {
      w := -1;
    }
  }

  lemma {:induction false} SubsetCardinality(a: multiset<Item>, b: multiset<Item>)
    requires a <= b
    ensures |a| <= |b|
  {
    assert b == a + (b - a);
  }

  /** A walk that returned with no visitor failure has visited exactly what the
      plain traversal visits, each entry as often; under a limit, exactly as many
      of its entries as the limit allows. Nothing is ever visited that the plain
      traversal would not visit, nor more often, nor beyond the limit, even when
      the visitor fails. The returned error is nil unless a visitor call gave a
      real error, and then it is one of those. */
  lemma WalkRefinesRecursion(p: Plan, trace: seq<State>, rel: string, kids: seq<Entry>, workers: nat)
    requires Run(p, trace, rel, kids, workers) && workers > 0
    ensures var sh, all := trace[|trace| - 1].sh, Recursive(p, rel, kids);
            sh.visited <= all && (p.limit > 0 ==> |sh.visited| <= p.limit)
    ensures var last, all := trace[|trace| - 1], Recursive(p, rel, kids);
            last.done && last.sh.faults == {} ==>
              if p.limit <= 0 then last.sh.visited == all
              else |last.sh.visited| == if p.limit < |all| then p.limit else |all|
    ensures var last := trace[|trace| - 1];
            last.done ==>
              (last.sh.firstErr == ErrDone <==> forall f :: f in last.sh.faults ==> f == ErrDone) &&
              (last.sh.firstErr != ErrDone ==> last.sh.firstErr in last.sh.faults)
  {
    var last, all := trace[|trace| - 1], Recursive(p, rel, kids);
    RunInv(p, trace, rel, kids, workers, |trace| - 1);
    forall x
      ensures last.sh.visited[x] <= all[x]
      ensures last.done && !Stopped(p, last.sh) ==> last.sh.visited[x] == all[x]
    {
      assert Accounted(p, last, all, x);
      OutstandingNonNegative(p, x, last);
    }
    SubsetCardinality(last.sh.visited, all);
    if last.done && !Stopped(p, last.sh) { assert last.sh.visited == all; }
  }

  lemma OutstandingNonNegative(p: Plan, x: Item, st: State)
    ensures Outstanding(p, Occurrences(x), st) >= 0
  {
    var g := Occurrences(x);
    SumNonNegative(PcVals(p, g, st.pcs));
    SumNonNegative(TaskVals(p, g, Unclaimed(st), 3));
    SumNonNegative(TaskVals(p, g, Concat(st.queues), 6));
  }

  /** Within a level every directory of the queue is handed to one worker only,
      and to some worker by the time a level ends with the flag down. */
  lemma LevelHandedOut(p: Plan, trace: seq<State>, rel: string, kids: seq<Entry>, workers: nat, k: nat)
    requires Run(p, trace, rel, kids, workers) && workers > 0 && k < |trace|
    ensures |trace[k].pcs| == if workers < |trace[k].level| then workers else |trace[k].level|
    ensures forall i, j :: 0 <= i < j < |trace[k].claims| ==> trace[k].claims[i] != trace[k].claims[j]
    ensures LevelOver(trace[k]) && !trace[k].sh.up ==>
              forall i :: 0 <= i < |trace[k].level| ==> i in trace[k].claims
  {
    RunInv(p, trace, rel, kids, workers, k);
    var st := trace[k];
    if LevelOver(st) && !st.sh.up {
      assert st.pcs[0] == Exited;
      forall i | 0 <= i < |st.level|
        ensures i in st.claims
      {
        assert st.claims[i] == i;
      }
    }
  }

  /** Without a term, a type and an extension nothing is filtered: the plain
      traversal that the walk refines is the whole tree. */
  function WholeTree(rel: string, kids: seq<Entry>): multiset<Item>
    decreases kids, 0
  {
    if |kids| == 0 then multiset{} else WholeEntry(rel, kids[0]) + WholeTree(rel, kids[1..])
  }

  function WholeEntry(rel: string, e: Entry): multiset<Item>
    decreases e, 1
  {
    var child := ChildRel(rel, e.name);
    multiset{Item(child, e.Dir?)} + if e.Dir? then WholeTree(child, e.kids) else multiset{}
  }

  /** Nothing is pruned and everything matches. */
  ghost predicate Unfiltered(p: Plan) {
    forall rel: string, e: Entry ::
      !Pruned(p, e) && Matched(p, rel, e) == multiset{Item(ChildRel(rel, e.name), e.Dir?)}
  }

  lemma {:induction false} WholeWalk(p: Plan, rel: string, kids: seq<Entry>)
    requires Unfiltered(p)
    ensures Recursive(p, rel, kids) == WholeTree(rel, kids)
    decreases kids
  {
    if |kids| > 0 {
      var e := kids[0];
      WholeWalk(p, rel, kids[1..]);
      assert Matched(p, rel, e) == multiset{Item(ChildRel(rel, e.name), e.Dir?)};
      if e.Dir? { WholeWalk(p, ChildRel(rel, e.name), e.kids); }
      assert RecursiveEntry(p, rel, e) == WholeEntry(rel, e);
    }
  }

  lemma UnfilteredWalk(s: Search, rel: string, kids: seq<Entry>)
    requires !s.IsSearch() && s.lib.lower("") == ""
    ensures Recursive(PlanOf(s), rel, kids) == WholeTree(rel, kids)
  {
    WholeWalk(PlanOf(s), rel, kids);
  }

  // ---------------------------------------------------------------------
  // What the plain traversal holds, without following it
  // ---------------------------------------------------------------------

  /** The names lead down kids to the entry e, past no pruned directory. */
  ghost predicate Leads(prune: string -> bool, kids: seq<Entry>, names: seq<string>, e: Entry)
    decreases |names|
  {
    |names| > 0 &&
    exists i :: 0 <= i < |kids| && StartsAt(prune, kids[i], names) &&
      if |names| == 1 then kids[i] == e else kids[i].Dir? && Leads(prune, kids[i].kids, names[1..], e)
  }

  predicate StartsAt(prune: string -> bool, e: Entry, names: seq<string>)
    requires |names| > 0
  {
    e.name == names[0] && !(e.Dir? && prune(e.name))
  }

  /** The path of what lies names below rel. */
  function Full(rel: string, names: seq<string>): string {
    if rel == "." || rel == "" then P.Join(names) else rel + "/" + P.Join(names)
  }

  /** No file system has entries named "" or ".". */
  predicate Named(kids: seq<Entry>)
    decreases kids, 0
  {
    |kids| == 0 || (NamedEntry(kids[0]) && Named(kids[1..]))
  }

  predicate NamedEntry(e: Entry)
    decreases e, 1
  {
    e.name != "" && e.name != "." && (e.Dir? ==> Named(e.kids))
  }

  lemma {:induction false} NamedAt(kids: seq<Entry>, i: nat)
    requires Named(kids) && i < |kids|
    ensures NamedEntry(kids[i])
  {
    if i > 0 { NamedAt(kids[1..], i - 1); }
  }

  lemma FullStep(rel: string, name: string, names: seq<string>)
    requires name != "" && name != "." && |names| > 0
    ensures Full(rel, [name]) == ChildRel(rel, name)
    ensures Full(ChildRel(rel, name), names) == Full(rel, [name] + names)
  {
    var all := [name] + names;
    assert all[1..] == names && P.Join(all) == name + "/" + P.Join(names);
    var child := ChildRel(rel, name);
    if rel != "." && rel != "" {
      assert |child| == |rel| + 1 + |name| >= 3;
      assert child + "/" + P.Join(names) == rel + "/" + (name + "/" + P.Join(names));
    }
  }

  /** Something the walk of p should visit at path. */
  ghost predicate Wanted(p: Plan, rel: string, kids: seq<Entry>, x: Item, names: seq<string>, e: Entry) {
    Leads(p.prune, kids, names, e) && x == Item(Full(rel, names), e.Dir?) && p.hit(x.path, e)
  }

  /** A list that starts at the entry e. */
  ghost predicate WantedIn(p: Plan, rel: string, e: Entry, x: Item, names: seq<string>, target: Entry) {
    |names| > 0 && StartsAt(p.prune, e, names) &&
    (if |names| == 1 then e == target else e.Dir? && Leads(p.prune, e.kids, names[1..], target)) &&
    x == Item(Full(rel, names), target.Dir?) && p.hit(x.path, target)
  }

  /** An item of the traversal has its names. */
  lemma {:induction false} VisitedIsWanted(p: Plan, rel: string, kids: seq<Entry>, x: Item)
    returns (names: seq<string>, e: Entry)
    requires Named(kids) && x in Recursive(p, rel, kids)
    ensures Wanted(p, rel, kids, x, names, e)
    decreases kids, 0
  {
    if x in RecursiveEntry(p, rel, kids[0]) {
      names, e := VisitedInEntry(p, rel, kids[0], x);
      assert StartsAt(p.prune, kids[0], names);
    } else {
      names, e := VisitedIsWanted(p, rel, kids[1..], x);
      var i :| 0 <= i < |kids[1..]| && StartsAt(p.prune, kids[1..][i], names) &&
        if |names| == 1 then kids[1..][i] == e
        else kids[1..][i].Dir? && Leads(p.prune, kids[1..][i].kids, names[1..], e);
      assert kids[i + 1] == kids[1..][i];
    }
  }

  lemma {:induction false} VisitedInEntry(p: Plan, rel: string, e: Entry, x: Item)
    returns (names: seq<string>, target: Entry)
    requires NamedEntry(e) && x in RecursiveEntry(p, rel, e)
    ensures WantedIn(p, rel, e, x, names, target)
    decreases e, 1
  {
    if x in Matched(p, rel, e) {
      names, target := [e.name], e;
      FullStep(rel, e.name, names);
    } else {
      var below: seq<string>;
      below, target := VisitedIsWanted(p, ChildRel(rel, e.name), e.kids, x);
      names := [e.name] + below;
      assert names[1..] == below;
      FullStep(rel, e.name, below);
    }
  }

  /** What has its names is an item of the traversal. */
  lemma {:induction false} WantedIsVisited(p: Plan, rel: string, kids: seq<Entry>, x: Item, names: seq<string>,
                                           e: Entry)
    requires Named(kids) && Wanted(p, rel, kids, x, names, e)
    ensures x in Recursive(p, rel, kids)
    decreases kids, 0
  {
    var i :| 0 <= i < |kids| && StartsAt(p.prune, kids[i], names) &&
      if |names| == 1 then kids[i] == e else kids[i].Dir? && Leads(p.prune, kids[i].kids, names[1..], e);
    if i == 0 {
      WantedInEntry(p, rel, kids[0], x, names, e);
    } else {
      assert kids[1..][i - 1] == kids[i];
      WantedIsVisited(p, rel, kids[1..], x, names, e);
    }
  }

  lemma {:induction false} WantedInEntry(p: Plan, rel: string, e: Entry, x: Item, names: seq<string>, target: Entry)
    requires NamedEntry(e) && WantedIn(p, rel, e, x, names, target)
    ensures x in RecursiveEntry(p, rel, e)
    decreases e, 1
  {
    if |names| == 1 {
      assert names == [e.name];
      FullStep(rel, e.name, names);
    } else {
      assert names == [e.name] + names[1..];
      FullStep(rel, e.name, names[1..]);
      WantedIsVisited(p, ChildRel(rel, e.name), e.kids, x, names[1..], target);
    }
  }

  // ---------------------------------------------------------------------
  // What a search asks for
  // ---------------------------------------------------------------------

  /** t occurs in s from some position on. */
  ghost predicate Infix(t: string, s: string) { exists i :: OccursAt(t, s, i) }

  predicate OccursAt(t: string, s: string, i: int) { 0 <= i <= |s| - |t| && s[i..i + |t|] == t }

  lemma {:induction false} ContainsIsInfix(s: string, t: string)
    ensures Contains(s, t) <==> Infix(t, s)
  {
    assert t <= s <==> OccursAt(t, s, 0);
    if !(t <= s) && s != "" {
      ContainsIsInfix(s[1..], t);
      if i :| OccursAt(t, s, i) {
        if i > 0 { OccursInTail(t, s, i - 1); }
      }
      if i :| OccursAt(t, s[1..], i) { OccursInTail(t, s, i); }
    }
  }

  lemma OccursInTail(t: string, s: string, i: int)
    requires s != "" && i >= 0
    ensures OccursAt(t, s[1..], i) <==> OccursAt(t, s, i + 1)
  {
    if i <= |s| - 1 - |t| { assert s[1..][i..i + |t|] == s[i + 1..i + 1 + |t|]; }
  }

  /** An entry at path that the search asks for: of its kind and extension, with
      the term in its name or path, in lower case. */
  ghost predicate Asked(s: Search, path: string, e: Entry) {
    (s.opts.kind == "" ||
      if e.Dir? then s.opts.kind == "dir" else s.opts.kind != "dir" && s.lib.detect(e.name) == s.opts.kind) &&
    (s.opts.ext == "" || (e.File? && s.lib.extOf(e.name) == s.opts.ext)) &&
    (Infix(s.lib.lower(s.opts.term), s.lib.lower(e.name)) || Infix(s.lib.lower(s.opts.term), s.lib.lower(path)))
  }

  /** A directory a search leaves out: noise that neither holds nor is held by the
      term. */
  ghost predicate LeftOut(s: Search, name: string) {
    (s.opts.term != "" || s.opts.kind != "" || s.opts.ext != "") && name in NOISE_DIRS &&
    (s.lib.lower(s.opts.term) == "" ||
      (!Infix(s.lib.lower(name), s.lib.lower(s.opts.term)) && !Infix(s.lib.lower(s.opts.term), s.lib.lower(name))))
  }

  lemma FiltersAsk(s: Search, path: string, e: Entry)
    ensures PlanOf(s).hit(path, e) <==> Asked(s, path, e)
    ensures PlanOf(s).prune(e.name) <==> LeftOut(s, e.name)
  {
    var term, name := s.lib.lower(s.opts.term), s.lib.lower(e.name);
    ContainsIsInfix(name, term);
    ContainsIsInfix(s.lib.lower(path), term);
    ContainsIsInfix(term, name);
    if term == "" { assert OccursAt(term, name, 0); }
  }

  /** The members of the traversal of a search: an entry is visited if and only if
      a list of names leads to it past no directory the search leaves out, its path
      is the names joined by slashes, below rel, and the search asks for it. */
  lemma SearchVisits(s: Search, rel: string, kids: seq<Entry>, path: string, isDir: bool)
    requires Named(kids)
    ensures Item(path, isDir) in Recursive(PlanOf(s), rel, kids) <==>
              exists names, e ::
                Leads(PlanOf(s).prune, kids, names, e) && path == Full(rel, names) && isDir == e.Dir? &&
                Asked(s, path, e)
    ensures forall name :: PlanOf(s).prune(name) <==> LeftOut(s, name)
  {
    var p, x := PlanOf(s), Item(path, isDir);
    if x in Recursive(p, rel, kids) {
      var names, e := VisitedIsWanted(p, rel, kids, x);
      FiltersAsk(s, path, e);
    }
    if names, e :| Leads(p.prune, kids, names, e) && path == Full(rel, names) && isDir == e.Dir? && Asked(s, path, e) {
      FiltersAsk(s, path, e);
      WantedIsVisited(p, rel, kids, x, names, e);
    }
    forall name
      ensures p.prune(name) <==> LeftOut(s, name)
    {
      FiltersAsk(s, "", File(name));
    }
  }

  /** Without a search, everything below rel is visited. */
  lemma WholeTreeVisits(s: Search, rel: string, kids: seq<Entry>, path: string, isDir: bool)
    requires Named(kids) && !s.IsSearch() && s.lib.lower("") == ""
    ensures Item(path, isDir) in WholeTree(rel, kids) <==>
              exists names, e :: Leads(PlanOf(s).prune, kids, names, e) && path == Full(rel, names) && isDir == e.Dir?
    ensures forall name :: !PlanOf(s).prune(name)
  {
    UnfilteredWalk(s, rel, kids);
    SearchVisits(s, rel, kids, path, isDir);
    forall e
      ensures Asked(s, path, e)
    {
      assert OccursAt("", s.lib.lower(e.name), 0);
    }
  }
}
