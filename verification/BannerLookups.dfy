/** Metadata behind a banner: which lookups in a comment's body a warning leaves alone. */
module BannerLookups {
  import opened Texts
  import opened Markers
  import opened StaleBanner
  import opened BannerLaws
  import opened RepeatedBanner

  // ----- the lines that are written -----

  /** No line that goes away carries the prefix. */
  ghost predicate RemovedAreSilent(lines: seq<string>, instance: Instance, prefix: string) {
    forall k: nat :: k < |lines| && InBlock(lines, StaleStart(instance), StaleEnd(instance), k)
        ==> !StartsWith(lines[k], prefix)
  }

  lemma {:induction false} OutsideHasTheValues(lines: seq<string>, instance: Instance, prefix: string, i: nat)
    requires i <= |lines| && RemovedAreSilent(lines, instance, prefix)
    ensures Values(Outside(lines, StaleStart(instance), StaleEnd(instance), i), prefix) == Values(lines[i..], prefix)
    decreases |lines| - i
  {
    if i < |lines| {
      var rest := Outside(lines, StaleStart(instance), StaleEnd(instance), i + 1);
      OutsideHasTheValues(lines, instance, prefix, i + 1);
      assert lines[i..] == [lines[i]] + lines[i + 1..];
      ValuesAppend([lines[i]], lines[i + 1..], prefix);
      ValuesAppend([lines[i]], rest, prefix);
      if InBlock(lines, StaleStart(instance), StaleEnd(instance), i) {
        assert [] + rest == rest;
        SilentHasNoValues([lines[i]], prefix);
      }
    }
  }

  lemma {:induction false} KeptHasTheValues(lines: seq<string>, instance: Instance, prefix: string)
    requires RemovedAreSilent(lines, instance, prefix)
    ensures Values(Kept(lines, instance), prefix) == Values(lines, prefix)
  {
    DelimitersDiffer(instance);
    KeepsExactlyTheOutside(lines, StaleStart(instance), StaleEnd(instance));
    OutsideHasTheValues(lines, instance, prefix, 0);
    assert lines[0..] == lines;
  }

  /** The banner's own lines carry no other key. */
  lemma BannerIsSilent(instance: Instance, warning: string, other: Instance, key: string)
    requires ':' !in key && key != "stale"
    ensures Silent(Banner(instance, warning), ValuePrefix(other, key))
  {
    assert "stale" + ":" + "start" == "stale:start" && "stale" + ":" + "end" == "stale:end";
    KeysAreSeparate(instance, "stale", "start", other, key);
    KeysAreSeparate(instance, "stale", "end", other, key);
    var p := ValuePrefix(other, key);
    assert p[0] == '<' && WARNING_HEADING[0] == '>' && ("> " + warning)[0] == '>';
  }

  // ----- reading them back -----

  /** A prefix that a carriage return cannot complete. */
  predicate Plain(prefix: string) {
    prefix != "" && '\r' !in prefix
  }

  lemma PrefixIsPlain(instance: Instance, key: string)
    requires '\r' !in key
    ensures Plain(ValuePrefix(instance, key))
  {
    assert forall c :: c in instance ==> IsNameChar(c);
  }

  lemma CrKeepsPrefix(line: string, prefix: string)
    requires Plain(prefix)
    ensures StartsWith(WithoutCr(line), prefix) <==> StartsWith(line, prefix)
  {
    if StartsWith(line, prefix) && WithoutCr(line) != line {
      assert line[..|prefix|][|prefix| - 1] == line[|prefix| - 1] == prefix[|prefix| - 1] != '\r';
      assert |line| > |prefix|;
      assert WithoutCr(line)[..|prefix|] == line[..|prefix|];
    }
    if StartsWith(WithoutCr(line), prefix) {
      assert line[..|prefix|] == WithoutCr(line)[..|prefix|];
    }
  }

  /** What reading back does to one line. */
  lemma {:induction false} TerminatedAt(lines: seq<string>, k: nat)
    requires k < |lines| && (k < |lines| - 1 || lines[k] != "")
    ensures |lines| - 1 <= |Terminated(lines)| <= |lines| && k < |Terminated(lines)|
    ensures Terminated(lines)[k] == if k < |lines| - 1 then WithoutCr(lines[k]) else lines[k]
    decreases |lines|
  {
    if |lines| > 1 {
      if k > 0 {
        TerminatedAt(lines[1..], k - 1);
      } else if |lines| > 2 {
        TerminatedAt(lines[1..], 0);
      }
    }
  }

  lemma {:induction false} ReadingKeepsCount(lines: seq<string>, prefix: string)
    requires Plain(prefix)
    ensures |Values(Terminated(lines), prefix)| == |Values(lines, prefix)|
    decreases |lines|
  {
    if |lines| == 1 {
      assert !StartsWith("", prefix);
      assert lines[1..] == [];
    } else if |lines| > 1 {
      CrKeepsPrefix(lines[0], prefix);
      ReadingKeepsCount(lines[1..], prefix);
      assert Terminated(lines)[1..] == Terminated(lines[1..]);
    }
  }

  lemma {:induction false} ReadingKeepsCarrier(lines: seq<string>, prefix: string, k: nat)
    requires Plain(prefix) && OnlyCarrier(lines, prefix, k)
    ensures Values(Terminated(lines), prefix)
            == [(if k < |lines| - 1 then WithoutCr(lines[k]) else lines[k])[|prefix|..]]
  {
    TerminatedAt(lines, k);
    CrKeepsPrefix(lines[k], prefix);
    OnlyCarrierHasTheValue(lines, prefix, k);
    ReadingKeepsCount(lines, prefix);
    var only := OneValueHasItsCarrier(Terminated(lines), prefix);
    OnlyCarrierHasTheValue(Terminated(lines), prefix, only);
  }

  /** A marker that only a second carriage return keeps from being closed. */
  predicate HidesBehindCr(line: string, prefix: string) {
    StartsWith(line, prefix) && EndsWith(line[|prefix|..], CLOSE + "\r")
  }

  lemma ClosingBehindCr(line: string, prefix: string)
    requires Plain(prefix) && StartsWith(line, prefix)
    ensures StartsWith(WithoutCr(line), prefix)
    ensures StripSuffix(WithoutCr(line)[|prefix|..], CLOSE) == StripSuffix(line[|prefix|..], CLOSE)
            <==> !HidesBehindCr(line, prefix)
  {
    CrKeepsPrefix(line, prefix);
    var value := line[|prefix|..];
    if WithoutCr(line) != line {
      assert line == WithoutCr(line) + "\r";
      var shorter := WithoutCr(line)[|prefix|..];
      assert value == shorter + "\r";
      if EndsWith(value, CLOSE) {
        SuffixEndsAlike(value, CLOSE);
      }
      CrExtends(shorter, CLOSE);
    } else if EndsWith(value, CLOSE + "\r") {
      SuffixEndsAlike(line, CLOSE + "\r");
    }
  }

  lemma SuffixEndsAlike(s: string, suffix: string)
    requires suffix != "" && EndsWith(s, suffix)
    ensures s[|s| - 1] == suffix[|suffix| - 1]
  {
    assert s[|s| - |suffix|..][|suffix| - 1] == s[|s| - 1];
  }

  lemma CrExtends(s: string, suffix: string)
    ensures EndsWith(s + "\r", suffix + "\r") <==> EndsWith(s, suffix)
  {
    if |suffix| <= |s| {
      assert (s + "\r")[|s| - |suffix|..] == s[|s| - |suffix|..] + "\r";
      assert s[|s| - |suffix|..] == (s[|s| - |suffix|..] + "\r")[..|suffix|];
      assert suffix == (suffix + "\r")[..|suffix|];
    }
  }

  // ----- the theorem -----

  /** A marker that is closed only once the banner is written: another line follows it. */
  ghost predicate Exposed(kept: seq<string>, prefix: string) {
    exists k: nat :: OnlyCarrier(kept, prefix, k) && HidesBehindCr(kept[k], prefix)
      && (k < Insertion(kept) || k < |kept| - 1)
  }

  lemma BannerMovesCarrier(kept: seq<string>, instance: Instance, warning: string, prefix: string, k: nat)
    requires OnlyCarrier(kept, prefix, k) && Silent(Banner(instance, warning), prefix)
    ensures OnlyCarrier(WithBanner(kept, instance, warning), prefix, if k < Insertion(kept) then k else k + 4)
  {
    var i, all := Insertion(kept), WithBanner(kept, instance, warning);
    forall j | 0 <= j < |all| && j != (if k < i then k else k + 4) ensures !StartsWith(all[j], prefix) {
      if j < i {
        assert all[j] == kept[j];
      } else if j < i + 4 {
        assert all[j] == Banner(instance, warning)[j - i];
      } else {
        assert all[j] == kept[j - 4];
      }
    }
  }

  lemma {:induction false} SilentInTheMiddle(a: seq<string>, middle: seq<string>, b: seq<string>, prefix: string)
    requires Silent(middle, prefix)
    ensures Values(a + middle + b, prefix) == Values(a + b, prefix)
  {
    ValuesAppend(a + middle, b, prefix);
    ValuesAppend(a, middle, prefix);
    SilentHasNoValues(middle, prefix);
    assert Values(a + middle, prefix) == Values(a, prefix);
    ValuesAppend(a, b, prefix);
  }

  lemma {:induction false} BannerKeepsValues(kept: seq<string>, instance: Instance, warning: string, prefix: string)
    requires Silent(Banner(instance, warning), prefix)
    ensures Values(WithBanner(kept, instance, warning), prefix) == Values(kept, prefix)
  {
    var a, b := kept[..Insertion(kept)], kept[Insertion(kept)..];
    SilentInTheMiddle(a, Banner(instance, warning), b, prefix);
    assert a + b == kept;
  }

  lemma {:induction false} ReadingKeepsOnlyExactlyWhen(
      kept: seq<string>, instance: Instance, warning: string, prefix: string, k: nat)
    requires Plain(prefix) && Silent(Banner(instance, warning), prefix) && OnlyCarrier(kept, prefix, k)
    ensures UniqueValue(Terminated(WithBanner(kept, instance, warning)), prefix) == UniqueValue(kept, prefix)
            <==> !(HidesBehindCr(kept[k], prefix) && (k < Insertion(kept) || k < |kept| - 1))
  {
    OnlyCarrierHasTheValue(kept, prefix, k);
    BannerMovesCarrier(kept, instance, warning, prefix, k);
    ReadingKeepsCarrier(WithBanner(kept, instance, warning), prefix, if k < Insertion(kept) then k else k + 4);
    ClosingBehindCr(kept[k], prefix);
  }

  lemma {:induction false} ReadingKeepsUniqueExactlyWhen(
      kept: seq<string>, instance: Instance, warning: string, prefix: string)
    requires Plain(prefix) && Silent(Banner(instance, warning), prefix)
    ensures UniqueValue(Terminated(WithBanner(kept, instance, warning)), prefix) == UniqueValue(kept, prefix)
            <==> !Exposed(kept, prefix)
  {
    if |Values(kept, prefix)| == 1 {
      var k := OneValueHasItsCarrier(kept, prefix);
      ReadingKeepsOnlyExactlyWhen(kept, instance, warning, prefix, k);
    } else {
      BannerKeepsValues(kept, instance, warning, prefix);
      ReadingKeepsCount(WithBanner(kept, instance, warning), prefix);
      if k: nat :| OnlyCarrier(kept, prefix, k) {
        OnlyCarrierHasTheValue(kept, prefix, k);
      }
    }
  }

  /** A warning changes no lookup whose markers are outside of the removed blocks, except
      exactly this one: the only line of the key is followed by another one and keeps a
      carriage return behind its end, which writing and reading takes away. */
  lemma {:induction false} LookupSurvivesExactlyWhen(
      body: string, instance: Instance, warning: string, other: Instance, key: string)
    requires ':' !in key && '\r' !in key && key != "stale" && '\n' !in warning
    requires RemovedAreSilent(Lines(body), instance, ValuePrefix(other, key))
    ensures var prefix := ValuePrefix(other, key);
            UniqueValue(Lines(Warned(body, instance, warning)), prefix) == UniqueValue(Lines(body), prefix)
            <==> !Exposed(Kept(Lines(body), instance), prefix)
  {
    var lines, kept, prefix := Lines(body), Kept(Lines(body), instance), ValuePrefix(other, key);
    BannerIsSilent(instance, warning, other, key);
    PrefixIsPlain(other, key);
    KeptHasTheValues(lines, instance, prefix);
    LinesAreFree(body);
    KeepIsFree(lines, StaleStart(instance), StaleEnd(instance));
    FreeParts(kept, instance, warning);
    LinesOfJoin(WithBanner(kept, instance, warning));
    ReadingKeepsUniqueExactlyWhen(kept, instance, warning, prefix);
  }

  ghost predicate OwnersReadAlike(before: string, after: string, instance: Instance) {
    && FindOwner(after, instance) == FindOwner(before, instance)
    && FindState(after, instance) == FindState(before, instance)
    && FindAnalyzedSha(after, instance) == FindAnalyzedSha(before, instance)
  }

  ghost predicate KeyIsSafe(body: string, instance: Instance, other: Instance, key: string) {
    && RemovedAreSilent(Lines(body), instance, ValuePrefix(other, key))
    && !Exposed(Kept(Lines(body), instance), ValuePrefix(other, key))
  }

  /** Owner, state and measured commit, of this instance or any other, read as before. */
  lemma {:induction false} WarningKeepsMetadata(body: string, instance: Instance, warning: string, other: Instance)
    requires '\n' !in warning
    requires KeyIsSafe(body, instance, other, "run") && KeyIsSafe(body, instance, other, "state")
    requires KeyIsSafe(body, instance, other, "analyzed-sha")
    ensures OwnersReadAlike(body, Warned(body, instance, warning), other)
  {
    LookupSurvivesExactlyWhen(body, instance, warning, other, "run");
    LookupSurvivesExactlyWhen(body, instance, warning, other, "state");
    LookupSurvivesExactlyWhen(body, instance, warning, other, "analyzed-sha");
  }

  /** A body in which the exception happens: a state with two carriage returns behind it is not
      read, and is read once a warning has been written. */
  lemma {:induction false} HiddenStateIsExposed(instance: Instance, warning: string)
    requires '\n' !in warning
    ensures var body := StateMarker(instance, "clean") + "\r\r" + "\n" + "x";
            FindState(Warned(body, instance, warning), instance) != FindState(body, instance)
  {
    var marker, prefix := StateMarker(instance, "clean"), ValuePrefix(instance, "state");
    var body := marker + "\r\r" + "\n" + "x";
    var lines := [marker + "\r", "x"];
    MarkerIsOnOneLine(instance, "state:clean");
    LinesBehindCr(marker);
    NothingStale(lines, instance, prefix);
    MarkerIsPrefixed(instance, "state", "clean");
    assert "state" + ":" + "clean" == "state:clean";
    HiddenLine(prefix, "clean");
    assert OnlyCarrier(lines, prefix, 0);
    assert Exposed(Kept(lines, instance), prefix);
    LookupSurvivesExactlyWhen(body, instance, warning, instance, "state");
  }

  lemma {:induction false} LinesBehindCr(marker: string)
    requires '\n' !in marker
    ensures Lines(marker + "\r\r" + "\n" + "x") == [marker + "\r", "x"]
  {
    var first := marker + "\r\r";
    SplitWhole(first, '\n');
    SplitWhole("x", '\n');
    SplitAppends(first, '\n', "x");
    assert first + ['\n'] + "x" == first + "\n" + "x";
    assert first[|first| - 1] == '\r' && first[..|first| - 1] == marker + "\r";
    assert WithoutCr(first) == marker + "\r";
    assert "x" != "" && Terminated(["x"]) == ["x"];
    assert [first, "x"][1..] == ["x"];
    assert Split(first + "\n" + "x", '\n') == [first, "x"];
  }

  lemma HiddenLine(prefix: string, value: string)
    requires prefix != "" && prefix[0] == '<'
    ensures HidesBehindCr(prefix + value + CLOSE + "\r", prefix) && !StartsWith("x", prefix)
  {
    var line, behind := prefix + value + CLOSE + "\r", value + (CLOSE + "\r");
    assert line == prefix + behind;
    assert line[..|prefix|] == prefix && line[|prefix|..] == behind;
    assert behind[|value|..] == CLOSE + "\r";
  }

  lemma MarkerIsOnOneLine(instance: Instance, tail: string)
    requires '\n' !in tail
    ensures '\n' !in Marker(instance, tail)
  {
    assert forall c :: c in instance ==> IsNameChar(c);
  }

  lemma {:induction false} NothingStale(lines: seq<string>, instance: Instance, prefix: string)
    requires |lines| == 2 && lines[1] == "x" && EndsInCr(lines[0])
    ensures RemovedAreSilent(lines, instance, prefix) && Kept(lines, instance) == lines
  {
    var start, end := StaleStart(instance), StaleEnd(instance);
    DelimitersDiffer(instance);
    assert start[|start| - 1] == '>' && start[0] == '<' && lines[1][0] == 'x';
    assert lines[0] != start && lines[1] != start;
    assert lines[1..] == [lines[1]] && [lines[1]][1..] == [];
    assert Keep([lines[1]], start, end) == [lines[1]];
    assert NoBlock(lines, start, end);
  }
}
