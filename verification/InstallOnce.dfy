/**
 Lazy installation of cells under races, through any number of tiers. Any number of
 callers run "get(key)->push_back(val)": on each tier a caller loads a cell, allocates an
 item if the cell is null, tries to swap it in, discards it if another item got there
 first, and reloads. Inner arrays and entry lists are both items. The steps of all callers
 interleave arbitrarily. A key is given as its path of cell numbers, one per tier.
 */
module InstallOnce {

  type Ref = nat

  /** The root array. */
  const ROOT: Ref := 0

  /** What a caller does next; Broken stands for following a null or freed pointer. */
  datatype Pc = Load | Alloc | Swap(item: Ref) | Discard(item: Ref) | Reload | Push | Done | Broken

  /** A caller has passed level tiers and stands on item cur. */
  datatype Caller = Caller(path: seq<nat>, val: nat, level: nat, cur: Ref, pc: Pc)

  datatype Entry = Entry(path: seq<nat>, val: nat)

  /** Cell n of array r is cells[(r, n)]; heap holds the entries of every item ever
      allocated; pushes is the history of executed push_backs. */
  datatype State = State(
    depth: nat,
    cells: map<(Ref, nat), Ref>,
    heap: seq<seq<nat>>,
    freed: set<Ref>,
    callers: seq<Caller>,
    pushes: seq<Entry>)

  datatype Step = Call(path: seq<nat>, val: nat) | Move(caller: nat)

  ghost function Init(depth: nat): State { State(depth, map[], [[]], {}, [], []) }

  ghost predicate Enabled(s: State, step: Step) {
    match step
    case Call(path, _) => |path| == s.depth
    case Move(c) => c < |s.callers| && !s.callers[c].pc.Done? && !s.callers[c].pc.Broken?
  }

  /** The cell a caller is dealing with. */
  ghost function CellOf(c: Caller): (Ref, nat) {
    (c.cur, if c.level < |c.path| then c.path[c.level] else 0)
  }

  ghost function After(c: Caller, item: Ref): Caller {
    c.(level := c.level + 1, cur := item, pc := if c.level + 1 < |c.path| then Load else Push)
  }

  ghost function Put(s: State, k: nat, c: Caller): State
    requires k < |s.callers|
  { s.(callers := s.callers[k := c]) }

  ghost function Apply(s: State, step: Step): State
    requires Enabled(s, step)
  {
    match step
    case Call(path, val) => s.(callers := s.callers + [Caller(path, val, 0, ROOT, if path == [] then Push else Load)])
    case Move(k) =>
      var c := s.callers[k];
      if c.cur >= |s.heap| || c.cur in s.freed then Put(s, k, c.(pc := Broken))
      else
        match c.pc
        case Load => Put(s, k, c.(pc := if CellOf(c) in s.cells then Reload else Alloc))
        case Alloc => Put(s.(heap := s.heap + [[]]), k, c.(pc := Swap(|s.heap|)))
        case Swap(item) =>
          if CellOf(c) in s.cells then Put(s, k, c.(pc := Discard(item)))
          else Put(s.(cells := s.cells[CellOf(c) := item]), k, c.(pc := Reload))
        case Discard(item) => Put(s.(freed := s.freed + {item}), k, c.(pc := Reload))
        case Reload => Put(s, k, if CellOf(c) in s.cells then After(c, s.cells[CellOf(c)]) else c.(pc := Broken))
        case Push =>
          Put(s.(heap := s.heap[c.cur := s.heap[c.cur] + [c.val]], pushes := s.pushes + [Entry(c.path, c.val)]),
              k, c.(pc := Done))
  }

  ghost predicate RunOk(s: State, run: seq<Step>)
    decreases |run|
  { run == [] || (Enabled(s, run[0]) && RunOk(Apply(s, run[0]), run[1..])) }

  ghost function Run(s: State, run: seq<Step>): State
    requires RunOk(s, run)
    decreases |run|
  { if run == [] then s else Run(Apply(s, run[0]), run[1..]) }

  // ----- following cells from the root -----

  ghost function Walk(cells: map<(Ref, nat), Ref>, path: seq<nat>): int {
    if path == [] then ROOT
    else
      var n := |path| - 1;
      var r := Walk(cells, path[..n]);
      if r >= 0 && (r, path[n]) in cells then cells[(r, path[n])] else -1
  }

  ghost predicate CellsOk(s: State) {
    && ROOT < |s.heap| && ROOT !in s.freed
    && (forall k :: k in s.cells ==>
          k.0 < |s.heap| && s.cells[k] < |s.heap| && s.cells[k] !in s.freed && s.cells[k] != ROOT)
    && (forall k, m :: k in s.cells && m in s.cells && s.cells[k] == s.cells[m] ==> k == m)
    && (forall r :: r in s.freed ==> r < |s.heap|)
  }

  /** Whatever the root leads to is alive. */
  lemma WalkLive(s: State, path: seq<nat>)
    requires CellsOk(s) && Walk(s.cells, path) >= 0
    ensures Walk(s.cells, path) < |s.heap| && Walk(s.cells, path) !in s.freed
  {
  }

  lemma WalkOn(cells: map<(Ref, nat), Ref>, path: seq<nat>, n: nat)
    requires n < |path| && Walk(cells, path[..n]) >= 0 && (Walk(cells, path[..n]), path[n]) in cells
    ensures Walk(cells, path[..n + 1]) == cells[(Walk(cells, path[..n]), path[n])]
  {
    assert path[..n + 1][..n] == path[..n];
  }

  /** Different paths of one length lead to different items. */
  lemma {:induction false} WalkInjective(s: State, p: seq<nat>, q: seq<nat>)
    requires CellsOk(s) && |p| == |q| && Walk(s.cells, p) == Walk(s.cells, q) >= 0
    ensures p == q
    decreases |p|
  {
    if p != [] {
      var n := |p| - 1;
      WalkInjective(s, p[..n], q[..n]);
      assert p == p[..n] + [p[n]] && q == q[..n] + [q[n]];
    }
  }

  /** Installing an item that leads nowhere adds one path and changes none. */
  lemma {:induction false} WalkExtended(cells: map<(Ref, nat), Ref>, key: (Ref, nat), item: Ref, path: seq<nat>)
    requires key !in cells && key.0 != item && forall k :: k in cells ==> k.0 != item
    ensures var w := Walk(cells, path);
            Walk(cells[key := item], path) ==
            if w >= 0 then w
            else if path != [] && Walk(cells, path[..|path| - 1]) == key.0 && path[|path| - 1] == key.1 then item
            else -1
    decreases |path|
  {
    if path != [] { WalkExtended(cells, key, item, path[..|path| - 1]); }
  }

  // ----- the invariant -----

  /** An item that only its allocator knows. */
  ghost predicate Private(s: State, item: Ref) {
    && ROOT < item < |s.heap| && item !in s.freed && s.heap[item] == []
    && (forall k :: k in s.cells ==> s.cells[k] != item && k.0 != item)
  }

  ghost predicate HasItem(c: Caller) { c.pc.Swap? || c.pc.Discard? }

  ghost predicate CallerOk(s: State, c: Caller) {
    && |c.path| == s.depth && c.level <= |c.path| && Walk(s.cells, c.path[..c.level]) == c.cur && !c.pc.Broken?
    && (c.level < |c.path| <==> !(c.pc.Push? || c.pc.Done?))
    && (c.pc.Reload? || c.pc.Discard? ==> CellOf(c) in s.cells)
    && (HasItem(c) ==> Private(s, c.pc.item))
  }

  ghost predicate CallersOk(s: State) {
    Apart(s.callers) && forall c :: 0 <= c < |s.callers| ==> CallerOk(s, s.callers[c])
  }

  /** The values pushed under a path, in order. */
  ghost function Pushed(pushes: seq<Entry>, path: seq<nat>): seq<nat> {
    if pushes == [] then []
    else
      var e := pushes[|pushes| - 1];
      Pushed(pushes[..|pushes| - 1], path) + if e.path == path then [e.val] else []
  }

  lemma PushedMore(pushes: seq<Entry>, e: Entry, path: seq<nat>)
    ensures Pushed(pushes + [e], path) == Pushed(pushes, path) + if e.path == path then [e.val] else []
  {
    assert (pushes + [e])[..|pushes|] == pushes;
  }

  /** The list a path leads to holds what was pushed under the path. */
  ghost predicate ListOk(s: State, path: seq<nat>) {
    var r := Walk(s.cells, path);
    Pushed(s.pushes, path) == if 0 <= r < |s.heap| then s.heap[r] else []
  }

  ghost predicate ListsOk(s: State) { forall path: seq<nat> :: |path| == s.depth ==> ListOk(s, path) }

  ghost function Made(c: Caller): multiset<Entry> {
    if c.pc.Done? then multiset{Entry(c.path, c.val)} else multiset{}
  }

  /** Entries of the callers that have finished. */
  ghost function Finished(callers: seq<Caller>): multiset<Entry> {
    if callers == [] then multiset{} else Finished(callers[..|callers| - 1]) + Made(callers[|callers| - 1])
  }

  ghost predicate Inv(s: State) {
    CellsOk(s) && CallersOk(s) && ListsOk(s) && multiset(s.pushes) == Finished(s.callers)
  }

  lemma {:induction false} FinishedUpdate(callers: seq<Caller>, k: nat, c: Caller)
    requires k < |callers| && !callers[k].pc.Done?
    ensures Finished(callers[k := c]) == Finished(callers) + Made(c)
    decreases |callers|
  {
    var n := |callers| - 1;
    var next := callers[k := c];
    if k == n {
      assert next[..n] == callers[..n];
    } else {
      FinishedUpdate(callers[..n], k, c);
      assert next[..n] == callers[..n][k := c] && next[n] == callers[n];
      Swapped(Finished(callers[..n]), Made(c), Made(callers[n]));
    }
  }

  lemma Swapped(a: multiset<Entry>, b: multiset<Entry>, c: multiset<Entry>)
    ensures a + b + c == a + c + b
  {
  }

  // ----- one step -----

  /** A caller of a consistent state is never about to follow a dead pointer. */
  lemma Alive(s: State, k: nat)
    requires CellsOk(s) && CallersOk(s) && k < |s.callers|
    ensures CallerOk(s, s.callers[k]) && s.callers[k].cur < |s.heap| && s.callers[k].cur !in s.freed
  {
    WalkLive(s, s.callers[k].path[..s.callers[k].level]);
  }

  lemma StepCells(s: State, step: Step)
    requires Enabled(s, step) && CellsOk(s) && CallersOk(s)
    ensures CellsOk(Apply(s, step))
  {
    if step.Move? { Alive(s, step.caller); }
  }

  /** What others rely on survives a step: set cells stay, private items stay private. */
  lemma OthersKept(s: State, step: Step, c: Caller)
    requires Enabled(s, step) && CellsOk(s) && CallersOk(s) && CallerOk(s, c)
    requires step.Move? && HasItem(c) && HasItem(s.callers[step.caller]) ==> s.callers[step.caller].pc.item != c.pc.item
    ensures CallerOk(Apply(s, step), c)
  {
    if step.Move? {
      var m := s.callers[step.caller];
      Alive(s, step.caller);
      if m.pc.Swap? && CellOf(m) !in s.cells { WalkExtended(s.cells, CellOf(m), m.pc.item, c.path[..c.level]); }
    }
  }

  lemma MoverKept(s: State, k: nat)
    requires Enabled(s, Move(k)) && CellsOk(s) && CallersOk(s)
    ensures CallerOk(Apply(s, Move(k)), Apply(s, Move(k)).callers[k])
  {
    var c := s.callers[k];
    Alive(s, k);
    if c.pc.Swap? && CellOf(c) !in s.cells {
      InstallerKept(s, c);
    } else if c.pc.Reload? {
      WalkOn(s.cells, c.path, c.level);
    }
  }

  lemma InstallerKept(s: State, c: Caller)
    requires CellsOk(s) && CallerOk(s, c) && c.pc.Swap? && CellOf(c) !in s.cells
    ensures CallerOk(s.(cells := s.cells[CellOf(c) := c.pc.item]), c.(pc := Reload))
  {
    WalkExtended(s.cells, CellOf(c), c.pc.item, c.path[..c.level]);
  }

  /** The items of the callers in a sequence are pairwise different. */
  ghost predicate Apart(callers: seq<Caller>) {
    forall a, b :: 0 <= a < b < |callers| && HasItem(callers[a]) && HasItem(callers[b]) ==>
      callers[a].pc.item != callers[b].pc.item
  }

  lemma ApartUpdate(callers: seq<Caller>, k: nat, c: Caller)
    requires Apart(callers) && k < |callers|
    requires HasItem(c) ==>
               forall a :: 0 <= a < |callers| && a != k && HasItem(callers[a]) ==> callers[a].pc.item != c.pc.item
    ensures Apart(callers[k := c])
  {
  }

  lemma StepApart(s: State, step: Step)
    requires Enabled(s, step) && CellsOk(s) && CallersOk(s)
    ensures Apart(Apply(s, step).callers)
  {
    if step.Move? {
      var k := step.caller;
      Alive(s, k);
      var c := Apply(s, step).callers[k];
      forall a | 0 <= a < |s.callers| && a != k && HasItem(s.callers[a]) && HasItem(c)
        ensures s.callers[a].pc.item != c.pc.item
      {
        assert CallerOk(s, s.callers[a]);
        OtherItem(s, a, k);
      }
      ApartUpdate(s.callers, k, c);
    }
  }

  lemma OtherItem(s: State, a: nat, b: nat)
    requires Apart(s.callers) && a < |s.callers| && b < |s.callers| && a != b
    ensures HasItem(s.callers[a]) && HasItem(s.callers[b]) ==> s.callers[a].pc.item != s.callers[b].pc.item
  {
  }

  lemma StepCallers(s: State, step: Step)
    requires Enabled(s, step) && CellsOk(s) && CallersOk(s)
    ensures CallersOk(Apply(s, step))
  {
    var t := Apply(s, step);
    StepApart(s, step);
    forall a | 0 <= a < |t.callers| ensures CallerOk(t, t.callers[a]) {
      if step == Move(a) { MoverKept(s, a); }
      else if a < |s.callers| { OthersKept(s, step, s.callers[a]); }
    }
  }

  lemma StepLists(s: State, step: Step)
    requires Enabled(s, step) && CellsOk(s) && CallersOk(s) && ListsOk(s)
    ensures ListsOk(Apply(s, step))
  {
    var t := Apply(s, step);
    forall path: seq<nat> | |path| == s.depth ensures ListOk(t, path) {
      assert ListOk(s, path);
      if step.Move? { MoveList(s, step.caller, path); }
    }
  }

  lemma MoveList(s: State, k: nat, path: seq<nat>)
    requires Enabled(s, Move(k)) && CellsOk(s) && CallersOk(s) && ListOk(s, path) && |path| == s.depth
    ensures ListOk(Apply(s, Move(k)), path)
  {
    var c := s.callers[k];
    Alive(s, k);
    if Walk(s.cells, path) >= 0 { WalkLive(s, path); }
    if c.pc.Swap? && CellOf(c) !in s.cells {
      InstallList(s, k, path);
    } else if c.pc.Push? {
      PushList(s, k, path);
    }
  }

  /** Installing an item leads no path to a list with entries. */
  lemma InstallList(s: State, k: nat, path: seq<nat>)
    requires k < |s.callers| && s.callers[k].pc.Swap? && CellOf(s.callers[k]) !in s.cells
    requires CellsOk(s) && CallerOk(s, s.callers[k]) && ListOk(s, path)
    ensures ListOk(s.(cells := s.cells[CellOf(s.callers[k]) := s.callers[k].pc.item]), path)
  {
    var c := s.callers[k];
    WalkLive(s, c.path[..c.level]);
    WalkExtended(s.cells, CellOf(c), c.pc.item, path);
  }

  /** A push goes to the list of its own path. */
  lemma PushList(s: State, k: nat, path: seq<nat>)
    requires k < |s.callers| && s.callers[k].pc.Push? && s.callers[k].cur < |s.heap|
    requires CellsOk(s) && CallerOk(s, s.callers[k]) && ListOk(s, path) && |path| == s.depth
    ensures var c := s.callers[k];
            ListOk(s.(heap := s.heap[c.cur := s.heap[c.cur] + [c.val]], pushes := s.pushes + [Entry(c.path, c.val)]), path)
  {
    var c := s.callers[k];
    PushedMore(s.pushes, Entry(c.path, c.val), path);
    assert c.path[..c.level] == c.path;
    if Walk(s.cells, path) == c.cur { WalkInjective(s, path, c.path); }
  }

  lemma StepFinished(s: State, step: Step)
    requires Enabled(s, step) && CellsOk(s) && CallersOk(s) && multiset(s.pushes) == Finished(s.callers)
    ensures multiset(Apply(s, step).pushes) == Finished(Apply(s, step).callers)
  {
    match step
    case Call(_, _) => assert Apply(s, step).callers[..|s.callers|] == s.callers;
    case Move(k) => MoveFinished(s, k, Apply(s, step));
  }

  lemma MoveFinished(s: State, k: nat, t: State)
    requires Enabled(s, Move(k)) && CellsOk(s) && CallersOk(s) && multiset(s.pushes) == Finished(s.callers)
    requires t == Apply(s, Move(k))
    ensures multiset(t.pushes) == Finished(t.callers)
  {
    MovePushes(s, k);
    FinishedMove(s.pushes, s.callers, k, t.callers[k]);
  }

  ghost function Appended(pushes: seq<Entry>, c: Caller): seq<Entry> {
    if c.pc.Done? then pushes + [Entry(c.path, c.val)] else pushes
  }

  lemma MovePushes(s: State, k: nat)
    requires Enabled(s, Move(k)) && CellsOk(s) && CallersOk(s)
    ensures var t := Apply(s, Move(k));
            t.callers == s.callers[k := t.callers[k]] && t.pushes == Appended(s.pushes, t.callers[k])
  {
    Alive(s, k);
  }

  lemma FinishedMove(pushes: seq<Entry>, callers: seq<Caller>, k: nat, c: Caller)
    requires k < |callers| && !callers[k].pc.Done? && multiset(pushes) == Finished(callers)
    ensures multiset(Appended(pushes, c)) == Finished(callers[k := c])
  {
    FinishedUpdate(callers, k, c);
  }

  lemma StepInv(s: State, step: Step)
    requires Enabled(s, step) && Inv(s)
    ensures Inv(Apply(s, step))
  {
    StepCells(s, step);
    StepCallers(s, step);
    StepLists(s, step);
    StepFinished(s, step);
  }

  lemma {:induction false} InitInv(depth: nat)
    ensures Inv(Init(depth))
  {
    forall path: seq<nat> ensures ListOk(Init(depth), path) {
      if path != [] { assert Walk(map[], path) == -1; }
    }
  }

  lemma {:induction false} RunInv(s: State, run: seq<Step>)
    requires RunOk(s, run) && Inv(s)
    ensures Inv(Run(s, run))
    decreases |run|
  {
    if run != [] {
      StepInv(s, run[0]);
      RunInv(Apply(s, run[0]), run[1..]);
    }
  }

  // ----- what it means -----

  /** Once set, a cell of any tier keeps its pointer through every later step of anyone. */
  lemma {:induction false} CellsNeverChange(s: State, run: seq<Step>)
    requires RunOk(s, run)
    ensures forall k :: k in s.cells ==> k in Run(s, run).cells && Run(s, run).cells[k] == s.cells[k]
    decreases |run|
  {
    if run != [] { CellsNeverChange(Apply(s, run[0]), run[1..]); }
  }

  /** In every reachable state, callers that have followed the same cells stand on the same
      live item, array or list; callers that hold the lists of different keys hold
      different lists. */
  lemma SameItem(depth: nat, run: seq<Step>, a: nat, b: nat)
    requires RunOk(Init(depth), run)
    requires a < |Run(Init(depth), run).callers| && b < |Run(Init(depth), run).callers|
    ensures var s := Run(Init(depth), run);
            var c, d := s.callers[a], s.callers[b];
            && c.level <= |c.path| && d.level <= |d.path|
            && (c.path[..c.level] == d.path[..d.level] ==> c.cur == d.cur)
            && (c.level == d.level && c.cur == d.cur ==> c.path[..c.level] == d.path[..d.level])
            && c.cur < |s.heap| && c.cur !in s.freed
  {
    var s := Run(Init(depth), run);
    InitInv(depth);
    RunInv(Init(depth), run);
    Alive(s, a);
    Alive(s, b);
    var c, d := s.callers[a], s.callers[b];
    if c.level == d.level && c.cur == d.cur { WalkInjective(s, c.path[..c.level], d.path[..d.level]); }
  }

  /**
   In every reachable state the pushes executed are exactly those of the finished callers,
   the list that the cells lead to for a key holds that key's pushes in order, a key whose
   path is not yet installed has none, and no caller has followed a null or freed pointer.
   */
  lemma NothingLost(depth: nat, run: seq<Step>)
    requires RunOk(Init(depth), run)
    ensures var s := Run(Init(depth), run);
            && multiset(s.pushes) == Finished(s.callers)
            && (forall path: seq<nat> :: |path| == s.depth ==> ListOk(s, path))
            && (forall k :: 0 <= k < |s.callers| ==> !s.callers[k].pc.Broken?)
  {
    var s := Run(Init(depth), run);
    InitInv(depth);
    RunInv(Init(depth), run);
    forall k | 0 <= k < |s.callers| ensures !s.callers[k].pc.Broken? { Alive(s, k); }
  }

  /** Steps a caller has before it: at most five per tier and the push. */
  ghost function Remaining(c: Caller): nat {
    var tiers := if c.level < |c.path| then |c.path| - c.level - 1 else 0;
    match c.pc
    case Load => 5 * tiers + 6 case Alloc => 5 * tiers + 5 case Swap(_) => 5 * tiers + 4
    case Discard(_) => 5 * tiers + 3 case Reload => 5 * tiers + 2
    case Push => 1 case Done => 0 case Broken => 0
  }

  ghost function MovesOf(run: seq<Step>, c: nat): nat {
    if run == [] then 0 else (if run[0] == Move(c) then 1 else 0) + MovesOf(run[1..], c)
  }

  lemma StepRemaining(s: State, step: Step, k: nat)
    requires Enabled(s, step) && k < |s.callers|
    ensures k < |Apply(s, step).callers|
    ensures Remaining(Apply(s, step).callers[k]) + (if step == Move(k) then 1 else 0) <= Remaining(s.callers[k])
  {
  }

  /** Wait-free: whatever the others do, a caller has at most Remaining steps of its own left. */
  lemma {:induction false} WaitFree(s: State, run: seq<Step>, k: nat)
    requires RunOk(s, run) && k < |s.callers|
    ensures k < |Run(s, run).callers|
    ensures MovesOf(run, k) + Remaining(Run(s, run).callers[k]) <= Remaining(s.callers[k])
    decreases |run|
  {
    if run != [] {
      StepRemaining(s, run[0], k);
      WaitFree(Apply(s, run[0]), run[1..], k);
    }
  }
}
