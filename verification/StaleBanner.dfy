/** The warning banner of a rolling comment: replacing complete owned blocks of lines
    (packages/cargo-bench-history-github/src/message.rs:161-203). */
module StaleBanner {
  import opened Texts
  import opened Markers

  const WARNING_HEADING := "> [!WARNING]"

  // ----- removing blocks -----

  /** Position of the first line equal to `wanted`, or the number of lines. */
  function FirstIndex(lines: seq<string>, wanted: string): (k: nat)
    ensures k <= |lines| && (k < |lines| ==> lines[k] == wanted)
    ensures forall j :: 0 <= j < k ==> lines[j] != wanted
  {
    if lines == [] || lines[0] == wanted then 0 else 1 + FirstIndex(lines[1..], wanted)
  }

  /** The lines that stay: each start up to its end goes; a start without an end stays with
      everything after it. */
  function Keep(lines: seq<string>, start: string, end: string): seq<string>
    decreases |lines|
  {
    if lines == [] then []
    else if lines[0] != start then [lines[0]] + Keep(lines[1..], start, end)
    else
      var e := FirstIndex(lines[1..], end) + 1;
      if e < |lines| then Keep(lines[e + 1..], start, end) else lines
  }

  /** From line `s` to line `e` is one complete block. */
  ghost predicate IsBlock(lines: seq<string>, start: string, end: string, s: nat, e: nat) {
    && s < e < |lines| && lines[s] == start && lines[e] == end
    && forall j :: s <= j < e ==> lines[j] != end
  }

  ghost predicate InBlock(lines: seq<string>, start: string, end: string, k: nat) {
    exists s: nat, e: nat :: s <= k <= e && IsBlock(lines, start, end, s, e)
  }

  /** The lines from `i` on that are in no complete block, in order. */
  ghost function Outside(lines: seq<string>, start: string, end: string, i: nat): seq<string>
    requires i <= |lines|
    decreases |lines| - i
  {
    if i == |lines| then []
    else (if InBlock(lines, start, end, i) then [] else [lines[i]]) + Outside(lines, start, end, i + 1)
  }

  /** No start before `i` is still waiting for its end. */
  ghost predicate NothingOpen(lines: seq<string>, start: string, end: string, i: nat) {
    forall s :: 0 <= s < i <= |lines| && lines[s] == start ==> exists j :: s < j < i && lines[j] == end
  }

  lemma {:induction false} SkipBlock(lines: seq<string>, start: string, end: string, s: nat, e: nat, k: nat)
    requires IsBlock(lines, start, end, s, e) && s <= k <= e + 1
    ensures Outside(lines, start, end, k) == Outside(lines, start, end, e + 1)
    decreases e + 1 - k
  {
    if k <= e {
      assert InBlock(lines, start, end, k);
      SkipBlock(lines, start, end, s, e, k + 1);
    }
  }

  lemma {:induction false} OutsideKeepsRest(lines: seq<string>, start: string, end: string, i: nat)
    requires i <= |lines| && forall j :: i <= j < |lines| ==> lines[j] != end
    ensures Outside(lines, start, end, i) == lines[i..]
    decreases |lines| - i
  {
    if i < |lines| {
      OutsideKeepsRest(lines, start, end, i + 1);
    }
  }

  /** What the scan does at line `i`, in positions of the whole. */
  lemma {:induction false} KeepFrom(lines: seq<string>, start: string, end: string, i: nat)
    requires i < |lines|
    ensures var e := i + 1 + FirstIndex(lines[i + 1..], end);
            Keep(lines[i..], start, end)
            == if lines[i] != start then [lines[i]] + Keep(lines[i + 1..], start, end)
               else if e < |lines| then Keep(lines[e + 1..], start, end) else lines[i..]
  {
    var rest := lines[i..];
    assert rest[1..] == lines[i + 1..];
    var e := FirstIndex(rest[1..], end) + 1;
    if e < |rest| {
      assert rest[e + 1..] == lines[i + e + 1..];
    }
  }

  /** The end that the scan finds closes a block. */
  lemma {:induction false} FoundEndCloses(lines: seq<string>, start: string, end: string, i: nat)
    requires start != end && i < |lines| && lines[i] == start
    ensures var e := i + 1 + FirstIndex(lines[i + 1..], end);
            if e < |lines| then IsBlock(lines, start, end, i, e) && NothingOpen(lines, start, end, e + 1)
            else forall j :: i <= j < |lines| ==> lines[j] != end
  {
    var rest := lines[i + 1..];
    assert forall j :: i < j < |lines| ==> lines[j] == rest[j - i - 1];
  }

  lemma {:induction false} PlainLineStays(lines: seq<string>, start: string, end: string, i: nat)
    requires i < |lines| && lines[i] != start && NothingOpen(lines, start, end, i)
    ensures !InBlock(lines, start, end, i) && NothingOpen(lines, start, end, i + 1)
  {
  }

  lemma {:induction false} KeepFollowsOutside(lines: seq<string>, start: string, end: string, i: nat)
    requires start != end && i <= |lines| && NothingOpen(lines, start, end, i)
    ensures Keep(lines[i..], start, end) == Outside(lines, start, end, i)
    decreases |lines| - i
  {
    if i < |lines| {
      KeepFrom(lines, start, end, i);
      if lines[i] != start {
        PlainLineStays(lines, start, end, i);
        KeepFollowsOutside(lines, start, end, i + 1);
      } else {
        var e := i + 1 + FirstIndex(lines[i + 1..], end);
        FoundEndCloses(lines, start, end, i);
        if e < |lines| {
          SkipBlock(lines, start, end, i, e, i);
          KeepFollowsOutside(lines, start, end, e + 1);
        } else {
          OutsideKeepsRest(lines, start, end, i);
        }
      }
    }
  }

  /** Exactly the lines outside of complete blocks stay, in their order. */
  lemma {:induction false} KeepsExactlyTheOutside(lines: seq<string>, start: string, end: string)
    requires start != end
    ensures Keep(lines, start, end) == Outside(lines, start, end, 0)
  {
    KeepFollowsOutside(lines, start, end, 0);
    assert lines[0..] == lines;
  }

  // ----- inserting the banner -----

  /** Position of the first marker line of any kind, or the number of lines. */
  function FirstMarker(lines: seq<string>): (k: nat)
    ensures k <= |lines| && (k < |lines| ==> StartsWith(lines[k], NAMESPACE))
    ensures forall j :: 0 <= j < k ==> !StartsWith(lines[j], NAMESPACE)
  {
    if lines == [] || StartsWith(lines[0], NAMESPACE) then 0 else 1 + FirstMarker(lines[1..])
  }

  /** Behind the first marker, or at the top when there is none. */
  function Insertion(lines: seq<string>): (k: nat)
    ensures k <= |lines|
  {
    if FirstMarker(lines) < |lines| then FirstMarker(lines) + 1 else 0
  }

  function Banner(instance: Instance, warning: string): (lines: seq<string>)
    ensures |lines| == 4
  {
    [StaleStart(instance), WARNING_HEADING, "> " + warning, StaleEnd(instance)]
  }

  function WithBanner(kept: seq<string>, instance: Instance, warning: string): seq<string> {
    kept[..Insertion(kept)] + Banner(instance, warning) + kept[Insertion(kept)..]
  }

  function Kept(lines: seq<string>, instance: Instance): seq<string> {
    Keep(lines, StaleStart(instance), StaleEnd(instance))
  }

  function Rewritten(lines: seq<string>, instance: Instance, warning: string): seq<string> {
    WithBanner(Kept(lines, instance), instance, warning)
  }

  /** The text that replaces a body. */
  function Warned(body: string, instance: Instance, warning: string): string {
    Join(Rewritten(Lines(body), instance, warning), "\n")
  }

  /** Reads the lines from a start on, up to and with its end if there is one. */
  method ReadBlock(lines: seq<string>, end: string, first: nat) returns (block: seq<string>, next: nat, complete: bool)
    requires first < |lines|
    ensures first < next <= |lines| && block == lines[first..next]
    ensures complete == (FirstIndex(lines[first + 1..], end) < |lines| - first - 1)
    ensures next == if complete then first + 2 + FirstIndex(lines[first + 1..], end) else |lines|
  {
    block, next, complete := [lines[first]], first + 1, false;
    while next < |lines| && !complete
      invariant first < next <= |lines| && block == lines[first..next]
      invariant !complete ==>
          FirstIndex(lines[first + 1..], end) == next - first - 1 + FirstIndex(lines[next..], end)
      invariant complete ==> next == first + 2 + FirstIndex(lines[first + 1..], end)
      decreases |lines| - next, !complete
    {
      var line := lines[next];
      assert lines[next..][1..] == lines[next + 1..];
      next := next + 1;
      block := block + [line];
      if line == end {
        complete := true;
      }
    }
  }

  /** The first loop: skips nothing but complete blocks. */
  method RemoveBlocks(lines: seq<string>, start: string, end: string) returns (withoutOld: seq<string>)
    ensures withoutOld == Keep(lines, start, end)
  {
    withoutOld := [];
    var next := 0;
    while next < |lines|
      invariant 0 <= next <= |lines|
      invariant withoutOld + Keep(lines[next..], start, end) == Keep(lines, start, end)
      decreases |lines| - next
    {
      var line := lines[next];
      assert lines[next..][1..] == lines[next + 1..];
      if line != start {
        withoutOld := withoutOld + [line];
        next := next + 1;
      } else {
        ghost var first := next;
        var block, after, complete := ReadBlock(lines, end, next);
        next := after;
        assert complete ==> lines[first..][next - first..] == lines[next..];
        if !complete {
          withoutOld := withoutOld + block;
        }
      }
    }
  }

  method InsertStaleBanner(body: string, instance: Instance, warning: string) returns (r: string)
    ensures r == Warned(body, instance, warning)
  {
    var start, end := StaleStart(instance), StaleEnd(instance);
    var withoutOld := RemoveBlocks(Lines(body), start, end);
    var banner := [start, WARNING_HEADING, "> " + warning, end];
    var insertion := Insertion(withoutOld);
    withoutOld := withoutOld[..insertion] + banner + withoutOld[insertion..];
    r := Join(withoutOld, "\n");
  }
}
