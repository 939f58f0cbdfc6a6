/** What replacing the banner guarantees: one block, the same result on every repetition, and
    untouched metadata; and exactly where it does not. */
module BannerLaws {
  import opened Texts
  import opened Markers
  import opened StaleBanner

  // ----- the delimiters -----

  lemma DelimitersDiffer(instance: Instance)
    ensures StaleStart(instance) != StaleEnd(instance)
    ensures '\n' !in StaleStart(instance) && '\n' !in StaleEnd(instance)
    ensures WithoutCr(StaleStart(instance)) == StaleStart(instance)
    ensures WithoutCr(StaleEnd(instance)) == StaleEnd(instance)
    ensures StartsWith(StaleStart(instance), NAMESPACE) && StartsWith(StaleEnd(instance), NAMESPACE)
  {
    var s, e := StaleStart(instance), StaleEnd(instance);
    var k := |NAMESPACE + instance + ":stale:"|;
    assert s == NAMESPACE + instance + ":stale:" + ("start" + CLOSE);
    assert e == NAMESPACE + instance + ":stale:" + ("end" + CLOSE);
    assert s[k] == 's' && e[k] == 'e';
    assert s[..|NAMESPACE|] == NAMESPACE && e[..|NAMESPACE|] == NAMESPACE;
    assert s[|s| - 1] == '>' && e[|e| - 1] == '>';
    assert forall c :: c in instance ==> IsNameChar(c);
  }

  // ----- exactly one complete block -----

  /** Line `e` ends a complete block. */
  ghost predicate EndsBlock(lines: seq<string>, start: string, end: string, e: int) {
    exists s: nat :: s < e && IsBlock(lines, start, end, s, e)
  }

  ghost predicate NoBlock(lines: seq<string>, start: string, end: string) {
    forall s: nat, e: nat :: !IsBlock(lines, start, end, s, e)
  }

  lemma NoBlockInFront(line: string, lines: seq<string>, start: string, end: string)
    requires line != start && NoBlock(lines, start, end)
    ensures NoBlock([line] + lines, start, end)
  {
    var all := [line] + lines;
    forall s: nat, e: nat ensures !IsBlock(all, start, end, s, e) {
      if IsBlock(all, start, end, s, e) {
        assert forall j :: s - 1 <= j <= e - 1 ==> lines[j] == all[j + 1];
        assert IsBlock(lines, start, end, s - 1, e - 1);
      }
    }
  }

  lemma {:induction false} NothingCompleteIsKept(lines: seq<string>, start: string, end: string)
    requires start != end
    ensures NoBlock(Keep(lines, start, end), start, end)
    decreases |lines|
  {
    if lines != [] {
      if lines[0] != start {
        NothingCompleteIsKept(lines[1..], start, end);
        NoBlockInFront(lines[0], Keep(lines[1..], start, end), start, end);
      } else {
        var e := FirstIndex(lines[1..], end) + 1;
        if e < |lines| {
          NothingCompleteIsKept(lines[e + 1..], start, end);
        } else {
          assert forall j :: 1 <= j < |lines| ==> lines[j] == lines[1..][j - 1];
        }
      }
    }
  }

  lemma BlockStaysBefore(a: seq<string>, rest: seq<string>, start: string, end: string, s: nat, e: nat)
    requires e < |a|
    ensures IsBlock(a + rest, start, end, s, e) <==> IsBlock(a, start, end, s, e)
  {
    assert forall j :: 0 <= j <= e ==> (a + rest)[j] == a[j];
  }

  lemma BlockStaysBehind(front: seq<string>, b: seq<string>, start: string, end: string, s: nat, e: nat)
    ensures IsBlock(front + b, start, end, s + |front|, e + |front|) <==> IsBlock(b, start, end, s, e)
  {
    var n, all := |front|, front + b;
    assert forall j :: 0 <= j < |b| ==> all[j + n] == b[j];
    if IsBlock(b, start, end, s, e) {
      assert forall j :: s + n <= j < e + n ==> all[j] == b[j - n];
    }
  }

  lemma NoBlockBefore(a: seq<string>, b: seq<string>, start: string, end: string)
    requires NoBlock(a + b, start, end)
    ensures NoBlock(a, start, end)
  {
    forall s: nat, e: nat ensures !IsBlock(a, start, end, s, e) {
      if e < |a| {
        BlockStaysBefore(a, b, start, end, s, e);
      }
    }
  }

  lemma NoBlockBehind(a: seq<string>, b: seq<string>, start: string, end: string)
    requires NoBlock(a + b, start, end)
    ensures NoBlock(b, start, end)
  {
    forall s: nat, e: nat ensures !IsBlock(b, start, end, s, e) {
      BlockStaysBehind(a, b, start, end, s, e);
    }
  }

  /** A block that ends elsewhere than the banner is wholly before or behind it. */
  lemma BlockIsBeforeOrBehind(
      a: seq<string>, banner: seq<string>, b: seq<string>, start: string, end: string, s: nat, e: nat)
    requires start != end && |banner| == 4 && banner[0] == start && banner[3] == end
    requires banner[1] != end && banner[2] != end
    requires IsBlock(a + banner + b, start, end, s, e)
    ensures e < |a| || e == |a| + 3 || |a| + 4 <= s
  {
    var n, all := |a|, a + banner + b;
    assert all[n] == start && all[n + 1] == banner[1] && all[n + 2] == banner[2] && all[n + 3] == end;
  }

  /** The banner is the only complete block exactly if there is none before it and none behind
      it. */
  lemma OnlyTheBannerEndsExactlyWhen(a: seq<string>, banner: seq<string>, b: seq<string>, start: string, end: string)
    requires start != end && |banner| == 4 && banner[0] == start && banner[3] == end
    requires banner[1] != end && banner[2] != end
    ensures (forall e: nat :: EndsBlock(a + banner + b, start, end, e) <==> e == |a| + 3)
            <==> NoBlock(a, start, end) && NoBlock(b, start, end)
  {
    var n, all := |a|, a + banner + b;
    assert all[n] == start && all[n + 1] == banner[1] && all[n + 2] == banner[2] && all[n + 3] == end;
    assert IsBlock(all, start, end, n, n + 3);
    if s: nat, e: nat :| IsBlock(a, start, end, s, e) {
      assert all == a + (banner + b);
      BlockStaysBefore(a, banner + b, start, end, s, e);
      assert EndsBlock(all, start, end, e) && e != n + 3;
    } else if s: nat, e: nat :| IsBlock(b, start, end, s, e) {
      BlockStaysBehind(a + banner, b, start, end, s, e);
      assert EndsBlock(all, start, end, e + n + 4);
    } else {
      forall s: nat, e: nat | IsBlock(all, start, end, s, e) ensures e == n + 3 {
        NoBlockAround(a, banner, b, start, end, s, e);
      }
    }
  }

  lemma NoBlockAround(a: seq<string>, banner: seq<string>, b: seq<string>, start: string, end: string, s: nat, e: nat)
    requires start != end && |banner| == 4 && banner[0] == start && banner[3] == end
    requires banner[1] != end && banner[2] != end
    requires NoBlock(a, start, end) && NoBlock(b, start, end)
    requires IsBlock(a + banner + b, start, end, s, e)
    ensures e == |a| + 3
  {
    BlockIsBeforeOrBehind(a, banner, b, start, end, s, e);
    if e < |a| {
      assert a + banner + b == a + (banner + b);
      BlockStaysBefore(a, banner + b, start, end, s, e);
    } else if |a| + 4 <= s {
      BlockStaysBehind(a + banner, b, start, end, s - |a| - 4, e - |a| - 4);
    }
  }

  /** Whatever the body, the lines that are joined have exactly one complete block, the banner,
      just behind the first marker. */
  lemma {:induction false} ExactlyOneBlock(lines: seq<string>, instance: Instance, warning: string, e: nat)
    ensures EndsBlock(Rewritten(lines, instance, warning), StaleStart(instance), StaleEnd(instance), e)
            <==> e == Insertion(Kept(lines, instance)) + 3
  {
    DelimitersDiffer(instance);
    var kept := Kept(lines, instance);
    var i := Insertion(kept);
    NothingCompleteIsKept(lines, StaleStart(instance), StaleEnd(instance));
    assert kept[..i] + kept[i..] == kept;
    assert StaleEnd(instance)[0] == '<';
    NoBlockBefore(kept[..i], kept[i..], StaleStart(instance), StaleEnd(instance));
    NoBlockBehind(kept[..i], kept[i..], StaleStart(instance), StaleEnd(instance));
    OnlyTheBannerEndsExactlyWhen(kept[..i], Banner(instance, warning), kept[i..],
                                 StaleStart(instance), StaleEnd(instance));
  }

  // ----- reading back what was written -----

  /** How much text the lines are, each with its line feed. */
  function Weight(lines: seq<string>): nat {
    if lines == [] then 0 else |lines[0]| + 1 + Weight(lines[1..])
  }

  lemma {:induction false} WeightAppends(a: seq<string>, b: seq<string>)
    ensures Weight(a + b) == Weight(a) + Weight(b)
    decreases |a|
  {
    if a == [] {
      assert a + b == b;
    } else {
      assert (a + b)[1..] == a[1..] + b;
      WeightAppends(a[1..], b);
    }
  }

  lemma {:induction false} CutShrinks(lines: seq<string>, k: nat)
    requires 0 < k <= |lines|
    ensures Weight(lines[k..]) < Weight(lines)
  {
    WeightAppends(lines[..k], lines[k..]);
    assert lines == lines[..k] + lines[k..];
  }

  /** The scan of lines that a banner follows: an open start takes the rest with it. */
  function Settled(lines: seq<string>, start: string, end: string): seq<string>
    decreases |lines|
  {
    if lines == [] then []
    else if lines[0] != start then [lines[0]] + Settled(lines[1..], start, end)
    else
      var e := FirstIndex(lines[1..], end) + 1;
      if e < |lines| then Settled(lines[e + 1..], start, end) else []
  }

  lemma {:induction false} FirstIndexBeyond(a: seq<string>, b: seq<string>, wanted: string)
    ensures FirstIndex(a + b, wanted)
            == if FirstIndex(a, wanted) < |a| then FirstIndex(a, wanted) else |a| + FirstIndex(b, wanted)
    decreases |a|
  {
    if a == [] {
      assert a + b == b;
    } else {
      assert (a + b)[1..] == a[1..] + b;
      FirstIndexBeyond(a[1..], b, wanted);
    }
  }

  /** Four lines that a scan can only leave at the last one. */
  ghost predicate IsBanner(banner: seq<string>, start: string, end: string) {
    |banner| == 4 && banner[0] == start && banner[3] == end && FirstIndex(banner, end) == 3
  }

  /** A start that is open when the banner comes ends with it. */
  lemma {:induction false} BannerEndsOpenStart(
      a: seq<string>, banner: seq<string>, b: seq<string>, start: string, end: string)
    requires IsBanner(banner, start, end)
    requires a != [] && a[0] == start && FirstIndex(a[1..], end) == |a| - 1
    ensures Keep(a + banner + b, start, end) == Keep(b, start, end)
  {
    var all := a + banner + b;
    assert all[1..] == a[1..] + (banner + b);
    FirstIndexBeyond(a[1..], banner + b, end);
    FirstIndexBeyond(banner, b, end);
    assert all[|a| + 4..] == b;
  }

  lemma {:induction false} BannerIsRemoved(banner: seq<string>, b: seq<string>, start: string, end: string)
    requires IsBanner(banner, start, end) && start != end
    ensures Keep(banner + b, start, end) == Keep(b, start, end)
  {
    var all := banner + b;
    assert banner == [start] + banner[1..];
    assert all == [start] + (banner[1..] + b);
    assert FirstIndex(banner[1..], end) == 2;
    FirstIndexBeyond(banner[1..], b, end);
    assert all[4..] == b;
  }

  /** A banner takes with it whatever is open before it, and nothing after it. */
  lemma {:induction false} KeepAroundBanner(
      a: seq<string>, banner: seq<string>, b: seq<string>, start: string, end: string)
    requires IsBanner(banner, start, end) && start != end
    ensures Keep(a + banner + b, start, end) == Settled(a, start, end) + Keep(b, start, end)
    decreases |a|
  {
    var all := a + banner + b;
    if a == [] {
      BannerIsRemoved(banner, b, start, end);
      assert all == banner + b;
    } else if a[0] != start {
      assert all == [a[0]] + (a[1..] + banner + b);
      KeepAroundBanner(a[1..], banner, b, start, end);
    } else {
      var e := FirstIndex(a[1..], end) + 1;
      if e < |a| {
        assert all[1..] == a[1..] + (banner + b);
        FirstIndexBeyond(a[1..], banner + b, end);
        assert all[e + 1..] == a[e + 1..] + banner + b;
        KeepAroundBanner(a[e + 1..], banner, b, start, end);
      } else {
        BannerEndsOpenStart(a, banner, b, start, end);
      }
    }
  }

  // ----- nothing grows -----

  lemma {:induction false} SettledShrinks(lines: seq<string>, start: string, end: string)
    ensures Weight(Settled(lines, start, end)) <= Weight(lines)
    ensures Weight(Settled(lines, start, end)) == Weight(lines) <==> start !in lines
    ensures start !in lines ==> Settled(lines, start, end) == lines
    decreases |lines|
  {
    if lines != [] {
      if lines[0] != start {
        SettledShrinks(lines[1..], start, end);
        assert lines == [lines[0]] + lines[1..];
      } else {
        var e := FirstIndex(lines[1..], end) + 1;
        if e < |lines| {
          SettledShrinks(lines[e + 1..], start, end);
          CutShrinks(lines, e + 1);
        }
      }
    }
  }

  lemma {:induction false} KeepShrinks(lines: seq<string>, start: string, end: string)
    ensures Keep(lines, start, end) == lines || Weight(Keep(lines, start, end)) < Weight(lines)
    decreases |lines|
  {
    if lines != [] {
      if lines[0] != start {
        var rest := Keep(lines[1..], start, end);
        KeepShrinks(lines[1..], start, end);
        assert ([lines[0]] + rest)[1..] == rest;
        assert lines == [lines[0]] + lines[1..];
      } else {
        var e := FirstIndex(lines[1..], end) + 1;
        if e < |lines| {
          KeepShrinks(lines[e + 1..], start, end);
          CutShrinks(lines, e + 1);
        }
      }
    }
  }

  predicate EndsInCr(line: string) {
    line != "" && line[|line| - 1] == '\r'
  }

  /** Writing the lines and reading them again changes nothing. */
  ghost predicate ReadsBack(lines: seq<string>) {
    && (forall j :: 0 <= j < |lines| - 1 ==> !EndsInCr(lines[j]))
    && (lines != [] ==> lines[|lines| - 1] != "")
  }

  lemma ReadsBackByOne(lines: seq<string>)
    requires |lines| > 1
    ensures ReadsBack(lines) <==> !EndsInCr(lines[0]) && ReadsBack(lines[1..])
  {
    assert lines[1..][|lines| - 2] == lines[|lines| - 1];
    assert forall j :: 1 <= j < |lines| - 1 ==> lines[1..][j - 1] == lines[j];
  }

  lemma {:induction false} TerminatedShrinks(lines: seq<string>)
    ensures if ReadsBack(lines) then Terminated(lines) == lines else Weight(Terminated(lines)) < Weight(lines)
    decreases |lines|
  {
    if |lines| > 1 {
      TerminatedShrinks(lines[1..]);
      ReadsBackByOne(lines);
      assert lines == [lines[0]] + lines[1..];
      assert Terminated(lines)[1..] == Terminated(lines[1..]);
    }
  }
}
