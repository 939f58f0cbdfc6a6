/** Runs of the registry scan that show where its theorems end.

    Each of them is a schedule from the start of the process, of requests that a layout allows.
    It is put together from short ones: `Leads` says that a piece is a schedule from one state to
    another, and `LeadsOn` joins two pieces. The first run has the byte total wrap between two
    scans that nobody interrupts; in the second one a request falls between the two reads of its
    thread's block. */
module ScanWitnesses {
  import opened MachineIntegers
  import opened AllocationCounters
  import opened ProcessSpans
  import opened RegistryScan

  // ----- a run in which a total wraps -----

  /** From `s`, the actions are a schedule that ends in `t`. */
  ghost predicate Leads(s: State, actions: seq<Action>, t: State) {
    Schedule(s, actions) && Run(s, actions) == t
  }

  lemma {:induction false} LeadsOn(s: State, a: seq<Action>, t: State, b: seq<Action>, u: State)
    requires Leads(s, a, t) && Leads(t, b, u)
    ensures Leads(s, a + b, u)
    decreases |a|
  {
    if a == [] {
      assert a + b == b;
    } else {
      assert (a + b)[1..] == a[1..] + b;
      LeadsOn(Step(s, a[0]), a[1..], t, b, u);
    }
  }

  lemma {:induction false} OneStepLeads(s: State, action: Action)
    requires Enabled(s, action)
    ensures Leads(s, [action], Step(s, action))
  {
    assert [action][1..] == [];
  }

  /** One request of the first thread, and one scan. */
  function Request(size: Size): seq<Action> {
    [AddBytes(0, size)] + [AddCount(0)]
  }

  const SCAN := [StartScan] + [ReadBytes] + [ReadCount] + [FinishScan]

  /** One thread, no scan under way. */
  function Quiet(bytes: nat, count: nat, scans: seq<Scan>): State {
    State([Block(bytes, count)], NoScan, scans)
  }

  lemma {:induction false} RequestLeads(bytes: nat, count: nat, scans: seq<Scan>, size: Size)
    ensures Leads(Quiet(bytes, count, scans), Request(size), Quiet(bytes + size, count + 1, scans))
  {
    var s := Quiet(bytes, count, scans);
    var t := Step(s, AddBytes(0, size));
    OneStepLeads(s, AddBytes(0, size));
    OneStepLeads(t, AddCount(0));
    assert t == Quiet(bytes + size, count, scans);
    assert Step(t, AddCount(0)) == Quiet(bytes + size, count + 1, scans);
    LeadsOn(s, [AddBytes(0, size)], t, [AddCount(0)], Quiet(bytes + size, count + 1, scans));
  }

  /** What a scan that nobody interrupts finds. */
  function QuietScan(bytes: nat, count: nat): Scan {
    Scan(Sums(bytes, count), AllocationTotals(WrapU64(bytes), WrapU64(count)), Sums(bytes, count), Sums(bytes, count))
  }

  lemma WholeOfOne(b: Block)
    ensures Whole([b]) == Sums(b.bytes, b.count)
  {
    assert BytesOf([b]) == b.bytes + BytesOf([]) && CountOf([b]) == b.count + CountOf([]);
  }

  lemma {:induction false} ScanLeads(bytes: nat, count: nat, scans: seq<Scan>)
    ensures Leads(Quiet(bytes, count, scans), SCAN, Quiet(bytes, count, scans + [QuietScan(bytes, count)]))
  {
    var blocks := [Block(bytes, count)];
    var s0 := Quiet(bytes, count, scans);
    var s1 := s0.(scanner := Scanning(0, false, 0, 0, Sums(0, 0), blocks));
    var s2 := s0.(scanner := Scanning(0, true, WrapU64(bytes), 0, Sums(bytes, 0), blocks));
    var s3 := s0.(scanner := Scanning(1, false, WrapU64(bytes), WrapU64(count), Sums(bytes, count), blocks));
    var s4 := Quiet(bytes, count, scans + [QuietScan(bytes, count)]);
    WholeOfOne(blocks[0]);
    OneStepLeads(s0, StartScan);
    OneStepLeads(s1, ReadBytes);
    OneStepLeads(s2, ReadCount);
    OneStepLeads(s3, FinishScan);
    LeadsOn(s0, [StartScan], s1, [ReadBytes], s2);
    LeadsOn(s0, [StartScan] + [ReadBytes], s2, [ReadCount], s3);
    LeadsOn(s0, [StartScan] + [ReadBytes] + [ReadCount], s3, [FinishScan], s4);
  }

  /** A thread fills its byte total up and has it wrap between two scans: three requests of
      2^64 - 1 bytes together, and then one of one byte. */
  function WrapBetweenScans(): seq<Action> {
    [Register] + Request(I64_MAX) + Request(I64_MAX) + Request(1) + SCAN + Request(1) + SCAN
  }

  lemma {:induction false} FillUp()
    ensures Leads(Start(), [Register] + Request(I64_MAX) + Request(I64_MAX) + Request(1), Quiet(U64_MAX, 3, []))
  {
    var first := [Register] + Request(I64_MAX);
    OneStepLeads(Start(), Register);
    assert Step(Start(), Register) == Quiet(0, 0, []);
    RequestLeads(0, 0, [], I64_MAX);
    LeadsOn(Start(), [Register], Quiet(0, 0, []), Request(I64_MAX), Quiet(I64_MAX, 1, []));
    RequestLeads(I64_MAX, 1, [], I64_MAX);
    LeadsOn(Start(), first, Quiet(I64_MAX, 1, []), Request(I64_MAX), Quiet(2 * I64_MAX, 2, []));
    RequestLeads(2 * I64_MAX, 2, [], 1);
    LeadsOn(Start(), first + Request(I64_MAX), Quiet(2 * I64_MAX, 2, []), Request(1), Quiet(U64_MAX, 3, []));
  }

  /** If a total wraps between the two scans, the closing span can panic: nobody interrupts
      these two, and the second one finds no bytes at all. */
  lemma {:induction false} WrappedTotalsPanic()
    ensures Schedule(Start(), WrapBetweenScans())
    ensures var s := Run(Start(), WrapBetweenScans());
            |s.scans| == 2 && DeltasOf(s.scans[0], s.scans[1]) == None
  {
    var fill := [Register] + Request(I64_MAX) + Request(I64_MAX) + Request(1);
    var one, two := QuietScan(U64_MAX, 3), QuietScan(U64_MODULUS, 4);
    FillUp();
    ScanLeads(U64_MAX, 3, []);
    assert [] + [one] == [one];
    LeadsOn(Start(), fill, Quiet(U64_MAX, 3, []), SCAN, Quiet(U64_MAX, 3, [one]));
    RequestLeads(U64_MAX, 3, [one], 1);
    LeadsOn(Start(), fill + SCAN, Quiet(U64_MAX, 3, [one]), Request(1), Quiet(U64_MODULUS, 4, [one]));
    ScanLeads(U64_MODULUS, 4, [one]);
    assert [one] + [two] == [one, two];
    LeadsOn(Start(), fill + SCAN + Request(1), Quiet(U64_MODULUS, 4, [one]), SCAN, Quiet(U64_MODULUS, 4, [one, two]));
    assert WrapU64(U64_MODULUS) == 0;
  }

  /** A request between the two reads of its thread's block. */
  function WriteDuringScan(size: Size): seq<Action> {
    [Register] + [StartScan] + [ReadBytes] + Request(size) + [ReadCount] + [FinishScan]
  }

  /** Bytes and count need not belong to one moment: this scan returns a count of one with no
      bytes, although the count was raised only after the bytes. */
  lemma {:induction false} ScansMixMoments(size: Size)
    requires 0 < size
    ensures Schedule(Start(), WriteDuringScan(size))
    ensures var s := Run(Start(), WriteDuringScan(size));
            |s.scans| == 1 && s.scans[0].found == AllocationTotals(0, 1)
  {
    var s1 := Quiet(0, 0, []);
    var s2 := Step(s1, StartScan);
    var s3 := Step(s2, ReadBytes);
    var s4 := Step(Step(s3, AddBytes(0, size)), AddCount(0));
    var s5 := Step(s4, ReadCount);
    assert Step(Start(), Register) == s1;
    OneStepLeads(Start(), Register);
    OneStepLeads(s1, StartScan);
    OneStepLeads(s2, ReadBytes);
    OneStepLeads(s3, AddBytes(0, size));
    OneStepLeads(Step(s3, AddBytes(0, size)), AddCount(0));
    OneStepLeads(s4, ReadCount);
    OneStepLeads(s5, FinishScan);
    LeadsOn(s3, [AddBytes(0, size)], Step(s3, AddBytes(0, size)), [AddCount(0)], s4);
    LeadsOn(Start(), [Register], s1, [StartScan], s2);
    LeadsOn(Start(), [Register] + [StartScan], s2, [ReadBytes], s3);
    LeadsOn(Start(), [Register] + [StartScan] + [ReadBytes], s3, Request(size), s4);
    LeadsOn(Start(), [Register] + [StartScan] + [ReadBytes] + Request(size), s4, [ReadCount], s5);
    LeadsOn(Start(), [Register] + [StartScan] + [ReadBytes] + Request(size) + [ReadCount], s5,
            [FinishScan], Step(s5, FinishScan));
  }
}
