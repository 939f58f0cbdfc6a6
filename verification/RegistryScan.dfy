/** Summing the registry while other threads keep allocating.

    The scan reads each block's bytes and then its count, holding the registry's lock; the
    lock keeps new blocks out, but not the writers. */
module RegistryScan {
  import opened MachineIntegers
  import opened AllocationCounters
  import opened ProcessSpans

  /** One thread's true totals; its cells hold them modulo 2^64. */
  datatype Block = Block(bytes: nat, count: nat)

  datatype Sums = Sums(bytes: nat, count: nat)

  /** A completed scan: what it returned, and the true totals when it started and ended. */
  datatype Scan = Scan(start: Sums, found: AllocationTotals, truly: Sums, end: Sums)

  /** The scanner: `next` blocks are done, and half of the following one if `half`. The last
      two fields are history that no step reads: the sums of the true values read so far and
      the blocks at the start. */
  datatype Scanner =
    | NoScan
    | Scanning(next: nat, half: bool, bytes: U64, count: U64, truly: Sums, started: seq<Block>)

  datatype State = State(blocks: seq<Block>, scanner: Scanner, scans: seq<Scan>)

  /** A request of a thread is `AddBytes` and then `AddCount`. */
  datatype Action =
    | AddBytes(thread: nat, size: Size)
    | AddCount(thread: nat)
    | Register
    | StartScan
    | ReadBytes
    | ReadCount
    | FinishScan

  function BytesOf(blocks: seq<Block>): nat {
    if blocks == [] then 0 else blocks[0].bytes + BytesOf(blocks[1..])
  }

  function CountOf(blocks: seq<Block>): nat {
    if blocks == [] then 0 else blocks[0].count + CountOf(blocks[1..])
  }

  function Whole(blocks: seq<Block>): Sums {
    Sums(BytesOf(blocks), CountOf(blocks))
  }

  /** The cells of the blocks, as the registry has them. */
  ghost predicate CellsHold(cells: seq<Counters>, blocks: seq<Block>) {
    && |cells| == |blocks|
    && forall i :: 0 <= i < |cells| ==>
         cells[i].bytes == WrapU64(blocks[i].bytes) && cells[i].count == WrapU64(blocks[i].count)
  }

  /** The totals that the registry's loop computes are those of the true figures, modulo 2^64. */
  lemma {:induction false} TotalsAreTheWhole(cells: seq<Counters>, blocks: seq<Block>)
    requires CellsHold(cells, blocks)
    ensures WrapU64(SumBytes(cells)) == WrapU64(BytesOf(blocks))
    ensures WrapU64(SumCount(cells)) == WrapU64(CountOf(blocks))
    decreases |cells|
  {
    if cells != [] {
      var n := |cells| - 1;
      TotalsAreTheWhole(cells[..n], blocks[..n]);
      SumsAppend(blocks[..n], blocks[n]);
      assert blocks == blocks[..n] + [blocks[n]];
      AddsWrapped(SumBytes(cells[..n]), BytesOf(blocks[..n]), blocks[n].bytes);
      AddsWrapped(SumCount(cells[..n]), CountOf(blocks[..n]), blocks[n].count);
    }
  }

  lemma AddsWrapped(x: int, y: int, delta: int)
    requires WrapU64(x) == WrapU64(y)
    ensures WrapU64(x + WrapU64(delta)) == WrapU64(y + delta)
  {
    WrapU64Absorbs(x, WrapU64(delta));
    WrapU64Absorbs(y, WrapU64(delta));
    WrapU64Absorbs(delta, y);
    assert WrapU64(delta) + y == y + WrapU64(delta) && delta + y == y + delta;
  }

  predicate Enabled(s: State, action: Action) {
    match action
    case AddBytes(thread, _) => thread < |s.blocks|
    case AddCount(thread) => thread < |s.blocks|
    case Register => s.scanner.NoScan?
    case StartScan => s.scanner.NoScan?
    case ReadBytes => s.scanner.Scanning? && s.scanner.next < |s.blocks| && !s.scanner.half
    case ReadCount => s.scanner.Scanning? && s.scanner.next < |s.blocks| && s.scanner.half
    case FinishScan => s.scanner.Scanning? && s.scanner.next >= |s.blocks|
  }

  function Step(s: State, action: Action): State
    requires Enabled(s, action)
  {
    match action
    case AddBytes(thread, size) =>
      var b := s.blocks[thread];
      s.(blocks := s.blocks[thread := b.(bytes := b.bytes + size)])
    case AddCount(thread) =>
      var b := s.blocks[thread];
      s.(blocks := s.blocks[thread := b.(count := b.count + 1)])
    case Register => s.(blocks := s.blocks + [Block(0, 0)])
    case StartScan => s.(scanner := Scanning(0, false, 0, 0, Sums(0, 0), s.blocks))
    case ReadBytes =>
      var c, b := s.scanner, s.blocks[s.scanner.next];
      s.(scanner := c.(half := true, bytes := WrapU64(c.bytes + WrapU64(b.bytes)),
                       truly := c.truly.(bytes := c.truly.bytes + b.bytes)))
    case ReadCount =>
      var c, b := s.scanner, s.blocks[s.scanner.next];
      s.(scanner := c.(half := false, next := c.next + 1, count := WrapU64(c.count + WrapU64(b.count)),
                       truly := c.truly.(count := c.truly.count + b.count)))
    case FinishScan =>
      var c := s.scanner;
      s.(scanner := NoScan,
         scans := s.scans + [Scan(Whole(c.started), AllocationTotals(c.bytes, c.count), c.truly, Whole(s.blocks))])
  }

  predicate Schedule(s: State, actions: seq<Action>)
    decreases |actions|
  {
    actions == [] || (Enabled(s, actions[0]) && Schedule(Step(s, actions[0]), actions[1..]))
  }

  function Run(s: State, actions: seq<Action>): State
    requires Schedule(s, actions)
    decreases |actions|
  {
    if actions == [] then s else Run(Step(s, actions[0]), actions[1..])
  }

  // ----- the invariant -----

  predicate Below(a: Sums, b: Sums) {
    a.bytes <= b.bytes && a.count <= b.count
  }

  /** Blocks only grow. */
  ghost predicate GrownFrom(started: seq<Block>, now: seq<Block>) {
    && |started| == |now|
    && forall i :: 0 <= i < |now| ==> started[i].bytes <= now[i].bytes && started[i].count <= now[i].count
  }

  /** What has been read lies between the start and now, over the same prefix. */
  ghost predicate ScannerHolds(s: State) {
    s.scanner.Scanning? ==>
      var c := s.scanner;
      var read := if c.half then c.next + 1 else c.next;
      && GrownFrom(c.started, s.blocks) && read <= |s.blocks|
      && c.bytes == WrapU64(c.truly.bytes) && c.count == WrapU64(c.truly.count)
      && BytesOf(c.started[..read]) <= c.truly.bytes <= BytesOf(s.blocks[..read])
      && CountOf(c.started[..c.next]) <= c.truly.count <= CountOf(s.blocks[..c.next])
      && (s.scans != [] ==> Below(s.scans[|s.scans| - 1].end, Whole(c.started)))
  }

  ghost predicate ScansHold(s: State) {
    && (forall k :: 0 <= k < |s.scans| ==>
          var scan := s.scans[k];
          && Below(scan.start, scan.truly) && Below(scan.truly, scan.end) && Below(scan.end, Whole(s.blocks))
          && scan.found == AllocationTotals(WrapU64(scan.truly.bytes), WrapU64(scan.truly.count)))
    && forall k, l :: 0 <= k < l < |s.scans| ==> Below(s.scans[k].end, s.scans[l].start)
  }

  ghost predicate Inv(s: State) {
    ScannerHolds(s) && ScansHold(s)
  }

  // ----- sums -----

  lemma {:induction false} SumsGrow(a: seq<Block>, b: seq<Block>)
    requires GrownFrom(a, b)
    ensures Below(Whole(a), Whole(b))
    decreases |a|
  {
    if a != [] {
      assert forall i :: 0 <= i < |b[1..]| ==> a[1..][i] == a[i + 1] && b[1..][i] == b[i + 1];
      SumsGrow(a[1..], b[1..]);
    }
  }

  lemma {:induction false} SumsAppend(blocks: seq<Block>, b: Block)
    ensures BytesOf(blocks + [b]) == BytesOf(blocks) + b.bytes
    ensures CountOf(blocks + [b]) == CountOf(blocks) + b.count
    decreases |blocks|
  {
    if blocks == [] {
      assert ([] + [b])[1..] == [];
    } else {
      assert (blocks + [b])[1..] == blocks[1..] + [b];
      SumsAppend(blocks[1..], b);
    }
  }

  lemma PrefixSums(blocks: seq<Block>, n: nat)
    requires n < |blocks|
    ensures BytesOf(blocks[..n + 1]) == BytesOf(blocks[..n]) + blocks[n].bytes
    ensures CountOf(blocks[..n + 1]) == CountOf(blocks[..n]) + blocks[n].count
  {
    assert blocks[..n + 1] == blocks[..n] + [blocks[n]];
    SumsAppend(blocks[..n], blocks[n]);
  }

  lemma PrefixesGrow(a: seq<Block>, b: seq<Block>, n: nat)
    requires GrownFrom(a, b) && n <= |a|
    ensures Below(Whole(a[..n]), Whole(b[..n]))
  {
    SumsGrow(a[..n], b[..n]);
  }

  // ----- every step keeps it -----

  lemma GrowthKeepsInv(s: State, t: State)
    requires Inv(s) && GrownFrom(s.blocks, t.blocks) && t.scanner == s.scanner && t.scans == s.scans
    ensures Inv(t)
  {
    SumsGrow(s.blocks, t.blocks);
    if s.scanner.Scanning? {
      var c := s.scanner;
      PrefixesGrow(s.blocks, t.blocks, c.next);
      PrefixesGrow(s.blocks, t.blocks, if c.half then c.next + 1 else c.next);
    }
  }

  lemma ReadBytesKeepsInv(s: State)
    requires Inv(s) && Enabled(s, ReadBytes)
    ensures Inv(Step(s, ReadBytes))
  {
    var c := s.scanner;
    PrefixSums(s.blocks, c.next);
    PrefixSums(c.started, c.next);
    SumWraps(c.truly.bytes, s.blocks[c.next].bytes);
  }

  lemma ReadCountKeepsInv(s: State)
    requires Inv(s) && Enabled(s, ReadCount)
    ensures Inv(Step(s, ReadCount))
  {
    var c := s.scanner;
    PrefixSums(s.blocks, c.next);
    PrefixSums(c.started, c.next);
    SumWraps(c.truly.count, s.blocks[c.next].count);
  }

  lemma SumWraps(x: nat, y: nat)
    ensures WrapU64(WrapU64(x) + WrapU64(y)) == WrapU64(x + y)
  {
    WrapU64Absorbs(x, WrapU64(y));
    WrapU64Absorbs(y, x);
  }

  lemma FinishKeepsInv(s: State)
    requires Inv(s) && Enabled(s, FinishScan)
    ensures Inv(Step(s, FinishScan))
  {
    var c := s.scanner;
    assert s.blocks[..c.next] == s.blocks && c.started[..c.next] == c.started;
    SumsGrow(c.started, s.blocks);
  }

  lemma StepKeepsInv(s: State, action: Action)
    requires Inv(s) && Enabled(s, action)
    ensures Inv(Step(s, action))
  {
    match action
    case AddBytes(_, _) => GrowthKeepsInv(s, Step(s, action));
    case AddCount(_) => GrowthKeepsInv(s, Step(s, action));
    case Register => SumsAppend(s.blocks, Block(0, 0));
    case StartScan =>
    case ReadBytes => ReadBytesKeepsInv(s);
    case ReadCount => ReadCountKeepsInv(s);
    case FinishScan => FinishKeepsInv(s);
  }

  lemma {:induction false} RunKeepsInv(s: State, actions: seq<Action>)
    requires Inv(s) && Schedule(s, actions)
    ensures Inv(Run(s, actions))
    decreases |actions|
  {
    if actions != [] {
      StepKeepsInv(s, actions[0]);
      RunKeepsInv(Step(s, actions[0]), actions[1..]);
    }
  }

  // ----- the theorems -----

  function Start(): State {
    State([], NoScan, [])
  }

  predicate FitsU64(sums: Sums) {
    sums.bytes <= U64_MAX && sums.count <= U64_MAX
  }

  /** However the writers interleave, each scan returns bytes and a count that lie between
      the true totals when it started and when it ended, as long as no total has wrapped. */
  lemma ScansLieBetween(actions: seq<Action>, k: nat)
    requires Schedule(Start(), actions)
    requires var s := Run(Start(), actions); k < |s.scans| && FitsU64(s.scans[k].end)
    ensures var scan := Run(Start(), actions).scans[k];
            && scan.start.bytes <= scan.found.bytes <= scan.end.bytes
            && scan.start.count <= scan.found.count <= scan.end.count
  {
    RunKeepsInv(Start(), actions);
  }

  /** Both totals have wrapped equally often. */
  predicate SameLap(a: Sums, b: Sums) {
    a.bytes / U64_MODULUS == b.bytes / U64_MODULUS && a.count / U64_MODULUS == b.count / U64_MODULUS
  }

  /** If none wraps during the scan, what it returns lies between the wrapped totals. */
  lemma ScansLieBetweenWithinALap(actions: seq<Action>, k: nat)
    requires Schedule(Start(), actions)
    requires var s := Run(Start(), actions); k < |s.scans| && SameLap(s.scans[k].start, s.scans[k].end)
    ensures var scan := Run(Start(), actions).scans[k];
            && WrapU64(scan.start.bytes) <= scan.found.bytes <= WrapU64(scan.end.bytes)
            && WrapU64(scan.start.count) <= scan.found.count <= WrapU64(scan.end.count)
  {
    RunKeepsInv(Start(), actions);
    var scan := Run(Start(), actions).scans[k];
    WrapsBetween(scan.start.bytes, scan.truly.bytes, scan.end.bytes);
    WrapsBetween(scan.start.count, scan.truly.count, scan.end.count);
  }

  lemma WrapsBetween(a: int, x: int, b: int)
    requires a <= x <= b && a / U64_MODULUS == b / U64_MODULUS
    ensures WrapU64(a) <= WrapU64(x) <= WrapU64(b)
  {
    LapsBetween(a, x, x, b);
    LapsGrow(a, x);
    LapsGrow(x, b);
    DeltaIsOffByLaps(a, x);
    DeltaIsOffByLaps(x, b);
  }

  /** The deltas of a process span over two scans of a run. */
  function DeltasOf(open: Scan, close: Scan): Option<(U64, U64)> {
    ProcessDeltas(open.found.bytes, open.found.count, close.found)
  }

  /** They are the difference of what the two scans truly read. */
  predicate AreTrue(deltas: Option<(U64, U64)>, open: Scan, close: Scan) {
    && deltas.Some?
    && deltas.value.0 == close.truly.bytes - open.truly.bytes
    && deltas.value.1 == close.truly.count - open.truly.count
  }

  /** In every run, whatever wrapped before: a process span has true deltas exactly if no total
      wrapped between what they read. Otherwise it panics, or its figures are wrong. */
  lemma ProcessDeltasAreTrueExactlyWhen(actions: seq<Action>, k: nat, l: nat)
    requires Schedule(Start(), actions) && k < l < |Run(Start(), actions).scans|
    ensures var open, close := Run(Start(), actions).scans[k], Run(Start(), actions).scans[l];
            AreTrue(DeltasOf(open, close), open, close) <==> SameLap(open.truly, close.truly)
  {
    RunKeepsInv(Start(), actions);
    var open, close := Run(Start(), actions).scans[k], Run(Start(), actions).scans[l];
    DeltaIsOffByLaps(open.truly.bytes, close.truly.bytes);
    DeltaIsOffByLaps(open.truly.count, close.truly.count);
  }

  /** Hence a process span during which no total wraps never sees one go down, and its deltas
      are the true traffic up to what happened during the two scans. */
  lemma ProcessSpansNeverPanic(actions: seq<Action>, k: nat, l: nat)
    requires Schedule(Start(), actions) && k < l < |Run(Start(), actions).scans|
    requires var s := Run(Start(), actions); SameLap(s.scans[k].start, s.scans[l].end)
    ensures var open, close := Run(Start(), actions).scans[k], Run(Start(), actions).scans[l];
            var deltas := DeltasOf(open, close);
            && deltas.Some?
            && close.start.bytes - open.end.bytes <= deltas.value.0 <= close.end.bytes - open.start.bytes
            && close.start.count - open.end.count <= deltas.value.1 <= close.end.count - open.start.count
  {
    RunKeepsInv(Start(), actions);
    ProcessDeltasAreTrueExactlyWhen(actions, k, l);
    var open, close := Run(Start(), actions).scans[k], Run(Start(), actions).scans[l];
    LapsBetween(open.start.bytes, open.truly.bytes, close.truly.bytes, close.end.bytes);
    LapsBetween(open.start.count, open.truly.count, close.truly.count, close.end.count);
  }

  lemma LapsBetween(a: int, x: int, y: int, b: int)
    requires a <= x <= y <= b && a / U64_MODULUS == b / U64_MODULUS
    ensures x / U64_MODULUS == y / U64_MODULUS
  {
    LapsGrow(a, x);
    LapsGrow(x, y);
    LapsGrow(y, b);
  }
}
