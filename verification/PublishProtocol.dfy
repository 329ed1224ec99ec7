/**
 The multi-writer publish protocol of the packet store as a step machine.

 Every call of insert_pktburst is a job. A job runs the statements of that
 method in program order, one shared-memory access per step, and the steps of
 any number of jobs interleave arbitrarily (sequentially consistent memory).
 A job's position is a point (i, stage, sub): packet i, or the prelude when
 i == -1; the statement within that packet; the access within that statement.
 */
module PublishProtocol {
  import opened Packets
  import MonoLog

  /** Elements per block of the data log and of the offset log. */
  const BLOCK: nat := 0x4000_0000
  const ID_BLOCK: nat := 0x100_0000
  /** Bytes of slack at the end of every block. */
  const BUFFER: nat := 1024
  /** Bytes of the timestamp stored in front of each packet. */
  const STAMP: nat := 8

  datatype Burst = Burst(start: nat, now: nat, pkts: seq<Packet>) {
    function End(): nat { start + |pkts| }
    predicate Owns(id: nat) { start <= id < End() }
    function Rec(k: nat): Record requires k < |pkts| { Record(now, pkts[k]) }
  }

  datatype Key = Key(index: Index, token: nat)

  datatype Op =
    | AllocIds
    | ReserveBytes
    | AllocBytes
    | Push(key: Key, first: nat, count: nat)
    | SetOfflen
    | Store(data: seq<Byte>)
    | Skip

  const PRELUDE: nat := 4
  const FIXED: nat := 6

  function Width(nf: nat, i: int): (w: nat) { if i < 0 then PRELUDE else FIXED + nf }

  predicate ValidPoint(nf: nat, b: Burst, i: int, st: nat) {
    -1 <= i < |b.pkts| && st < Width(nf, i)
  }

  /** The statement at a point, in the order of the method body. */
  function OpAt(fs: seq<FilterList>, b: Burst, i: int, st: nat): Op
    requires ValidPoint(|fs|, b, i, st)
  {
    if i < 0 then
      if st == 0 then AllocIds
      else if st == 1 then ReserveBytes
      else if st == 2 then AllocBytes
      else Push(Key(Timestamp, b.now), b.start, |b.pkts|)
    else
      var p := b.pkts[i];
      var id := b.start + i;
      if st == 0 then Push(Key(SrcIp, SrcAddr(p)), id, 1)
      else if st == 1 then Push(Key(DstIp, DstAddr(p)), id, 1)
      else if st == 2 then if HasPorts(p) then Push(Key(SrcPrt, SrcPort(p)), id, 1) else Skip
      else if st == 3 then if HasPorts(p) then Push(Key(DstPrt, DstPort(p)), id, 1) else Skip
      else if st == 4 then SetOfflen
      else if st == 5 then Store(EncodeWord(b.now, STAMP) + p)
      else if Matches(fs[st - FIXED], p) then Push(Key(Character(st - FIXED), b.now), id, 1)
      else Skip
  }

  /** Number of shared-memory accesses of a statement. A push installs its list, reserves
      its slots with one fetch-add, and then for each slot makes sure of the bucket and
      stores the value; a copy writes bytes. */
  function Steps(op: Op): (n: nat)
    ensures n >= 1
  {
    match op
    case Push(_, _, count) => 2 * count + 2
    case Store(data) => if |data| == 0 then 1 else |data|
    case _ => 1
  }

  // The accesses of a push.
  const INSTALL: nat := 0
  const RESERVE: nat := 1
  function AllocSub(k: nat): nat { 2 * k + 2 }
  function StoreSub(k: nat): nat { 2 * k + 3 }

  /** Which of its slots access sub of a push is about. */
  function SlotOfSub(sub: nat): nat
    requires sub > RESERVE
  { (sub - 2) / 2 }

  /** Offset of packet k's record inside the bytes reserved for its burst. */
  function RelOff(pkts: seq<Packet>, k: nat): nat
    requires k <= |pkts|
  {
    if k == 0 then 0 else RelOff(pkts, k - 1) + STAMP + |pkts[k - 1]|
  }

  function Bytes(b: Burst): nat { RelOff(b.pkts, |b.pkts|) }

  // ----- shared state -----

  /** Who reserved a slot: job, point and the position inside that push. */
  datatype Owner = Owner(job: nat, i: int, st: nat, k: nat)

  /** An entry list. Its tail is |owners|; a reserved slot missing from vals has not been
      filled yet, and its bucket need not exist. The owners are history: no step reads them. */
  datatype EntryList = EntryList(owners: seq<Owner>, vals: map<nat, nat>, buckets: set<nat>)

  const NEW_LIST := EntryList([], map[], {0})

  datatype Job = Job(
    burst: Burst, off: nat, i: int, st: nat, sub: nat, bases: map<(int, nat), nat>, done: bool)

  datatype State = State(
    filters: seq<FilterList>,
    writeId: nat, readId: nat, dtail: nat,
    idBlocks: set<nat>, dataBlocks: set<nat>,
    offlens: map<nat, nat>,
    mem: map<(nat, nat), Byte>,
    lists: map<Key, EntryList>,
    jobs: seq<Job>,
    owner: seq<nat>)   // history: the job that reserved each id

  function Init(fs: seq<FilterList>): State {
    State(fs, 0, 0, 0, {0}, {0}, map[], map[], map[], [], [])
  }

  predicate AtEnd(job: Job) { job.i >= |job.burst.pkts| }

  function ListAt(s: State, key: Key): EntryList {
    if key in s.lists then s.lists[key] else NEW_LIST
  }

  function BaseOf(job: Job, i: int, st: nat): nat {
    if (i, st) in job.bases then job.bases[(i, st)] else 0
  }

  // ----- offset-log words and data-log addresses -----

  const OFFSET_SPAN: nat := 0x1_0000_0000_0000

  /** length << 48 | (offset & 0xFFFFFFFFFFFF) */
  function Pack(offset: nat, length: nat): nat { length * OFFSET_SPAN + Low48(offset) }
  function Low48(x: nat): nat { if x < OFFSET_SPAN then x else Low48(x - OFFSET_SPAN) }
  function OffsetOf(word: nat): nat { word % OFFSET_SPAN }
  function LengthOf(word: nat): nat { word / OFFSET_SPAN }

  /** The k-th byte behind the pointer handed out for a data-log offset. */
  function Address(offset: nat, k: nat): (nat, nat) { (offset / BLOCK, offset % BLOCK + k) }

  function RecordOffset(job: Job, i: nat): nat
    requires i <= |job.burst.pkts|
  { job.off + RelOff(job.burst.pkts, i) }

  /** The offset-log word of packet i of a job. */
  function WordFor(job: Job, i: nat): nat
    requires i < |job.burst.pkts|
  { Pack(RecordOffset(job, i), |job.burst.pkts[i]|) }

  // ----- steps -----

  datatype Step = Start(now: nat, pkts: seq<Packet>) | Work(job: nat) | Publish(job: nat) | Spin(job: nat)

  predicate Enabled(s: State, step: Step) {
    match step
    case Start(_, pkts) => |pkts| < 0x1_0000 && forall k :: 0 <= k < |pkts| ==> |pkts[k]| < 0x1_0000
    case Work(j) => j < |s.jobs| && ValidPoint(|s.filters|, s.jobs[j].burst, s.jobs[j].i, s.jobs[j].st)
    case Publish(j) =>
      j < |s.jobs| && AtEnd(s.jobs[j]) && !s.jobs[j].done && s.readId == s.jobs[j].burst.start
    // A weak compare-exchange may fail for no reason, so spinning is always possible.
    case Spin(j) => j < |s.jobs| && AtEnd(s.jobs[j]) && !s.jobs[j].done
  }

  function Advance(fs: seq<FilterList>, job: Job): Job
    requires ValidPoint(|fs|, job.burst, job.i, job.st)
  {
    if job.sub + 1 < Steps(OpAt(fs, job.burst, job.i, job.st)) then job.(sub := job.sub + 1)
    else if job.st + 1 < Width(|fs|, job.i) then job.(st := job.st + 1, sub := 0)
    else job.(i := job.i + 1, st := 0, sub := 0)
  }

  function Blocks(first: nat, last: nat, size: nat): set<nat>
    requires size > 0
  { set b: nat | 0 <= b <= last / size && InSpan(first, b, size) }

  /** Block b starts no earlier than the block holding element x. */
  predicate InSpan(x: nat, b: nat, size: nat)
    requires size > 0
  { x / size <= b }

  function Tickets(j: nat, i: int, st: nat, count: nat): seq<Owner> {
    seq(count, k requires 0 <= k => Owner(j, i, st, k))
  }

  function Pc(s: State, j: nat): Op
    requires Enabled(s, Work(j))
  { OpAt(s.filters, s.jobs[j].burst, s.jobs[j].i, s.jobs[j].st) }

  /** The job's own variables after its next access: a byte reservation returns an
      offset, the fetch-add of a push returns its first slot. */
  function JobAfter(s: State, j: nat): Job
    requires Enabled(s, Work(j))
  {
    var job := s.jobs[j];
    var op := Pc(s, j);
    Advance(s.filters, job).(
      off := if op.ReserveBytes? then s.dtail else job.off,
      bases := if op.Push? && job.sub == RESERVE then job.bases[(job.i, job.st) := |ListAt(s, op.key).owners|]
               else job.bases)
  }

  function DtailAfter(s: State, j: nat): nat
    requires Enabled(s, Work(j))
  { if Pc(s, j).ReserveBytes? then s.dtail + Bytes(s.jobs[j].burst) else s.dtail }

  /** A list after the next access of a push of job j. */
  function PushAfter(l: EntryList, j: nat, job: Job, first: nat, count: nat): EntryList {
    if job.sub == INSTALL then l
    else if job.sub == RESERVE then l.(owners := l.owners + Tickets(j, job.i, job.st, count))
    else
      var k := SlotOfSub(job.sub);
      var n := BaseOf(job, job.i, job.st) + k;
      if job.sub == AllocSub(k) then l.(buckets := l.buckets + {MonoLog.Bucket(n)})
      else l.(vals := l.vals[n := first + k])
  }

  function ListsAfter(s: State, j: nat): map<Key, EntryList>
    requires Enabled(s, Work(j))
  {
    var job := s.jobs[j];
    match Pc(s, j)
    case Push(key, first, count) =>
      s.lists[key := PushAfter(ListAt(s, key), j, job, first, count)]
    case _ => s.lists
  }

  function OfflensAfter(s: State, j: nat): map<nat, nat>
    requires Enabled(s, Work(j))
  {
    var job := s.jobs[j];
    if Pc(s, j).SetOfflen? then s.offlens[job.burst.start + job.i := WordFor(job, job.i)] else s.offlens
  }

  function MemAfter(s: State, j: nat): map<(nat, nat), Byte>
    requires Enabled(s, Work(j))
  {
    var job := s.jobs[j];
    var op := Pc(s, j);
    if op.Store? && job.sub < |op.data| then
      s.mem[Address(RecordOffset(job, job.i), job.sub) := op.data[job.sub]]
    else s.mem
  }

  function IdBlocksAfter(s: State, j: nat): set<nat>
    requires Enabled(s, Work(j))
  {
    var b := s.jobs[j].burst;
    if Pc(s, j).AllocIds? then s.idBlocks + Blocks(b.start, b.End(), ID_BLOCK) else s.idBlocks
  }

  function DataBlocksAfter(s: State, j: nat): set<nat>
    requires Enabled(s, Work(j))
  {
    var job := s.jobs[j];
    if Pc(s, j).AllocBytes? then s.dataBlocks + Blocks(job.off, job.off + Bytes(job.burst), BLOCK)
    else s.dataBlocks
  }

  /** The next shared-memory access of job j. */
  function DoWork(s: State, j: nat): State
    requires Enabled(s, Work(j))
  {
    s.(dtail := DtailAfter(s, j), idBlocks := IdBlocksAfter(s, j), dataBlocks := DataBlocksAfter(s, j),
       offlens := OfflensAfter(s, j), mem := MemAfter(s, j), lists := ListsAfter(s, j),
       jobs := s.jobs[j := JobAfter(s, j)])
  }

  function Apply(s: State, step: Step): State
    requires Enabled(s, step)
  {
    match step
    case Start(now, pkts) =>
      var b := Burst(s.writeId, now, pkts);
      s.(writeId := b.End(),
         jobs := s.jobs + [Job(b, 0, -1, 0, 0, map[], false)],
         owner := s.owner + seq(|pkts|, _ => |s.jobs|))
    case Work(j) => DoWork(s, j)
    case Publish(j) =>
      s.(readId := s.jobs[j].burst.End(), jobs := s.jobs[j := s.jobs[j].(done := true)])
    case Spin(j) => s
  }

  // ----- runs -----

  predicate RunOk(s: State, steps: seq<Step>)
    decreases |steps|
  {
    steps != [] ==> Enabled(s, steps[0]) && RunOk(Apply(s, steps[0]), steps[1..])
  }

  function Run(s: State, steps: seq<Step>): State
    requires RunOk(s, steps)
    decreases |steps|
  {
    if steps == [] then s else Run(Apply(s, steps[0]), steps[1..])
  }

  lemma RunCons(s: State, step: Step, rest: seq<Step>)
    requires Enabled(s, step) && RunOk(Apply(s, step), rest)
    ensures RunOk(s, [step] + rest) && Run(s, [step] + rest) == Run(Apply(s, step), rest)
  {
    assert ([step] + rest)[1..] == rest;
  }

  lemma {:induction false} RunConcat(s: State, a: seq<Step>, b: seq<Step>)
    requires RunOk(s, a) && RunOk(Run(s, a), b)
    ensures RunOk(s, a + b) && Run(s, a + b) == Run(Run(s, a), b)
    decreases |a|
  {
    if a == [] {
      assert a + b == b;
    } else {
      RunConcat(Apply(s, a[0]), a[1..], b);
      assert (a + b)[1..] == a[1..] + b;
    }
  }
}
