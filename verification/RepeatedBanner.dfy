/** Replacing a banner again: when a second warning leaves what it alone would have left. */
module RepeatedBanner {
  import opened Texts
  import opened Markers
  import opened StaleBanner
  import opened BannerLaws

  // ----- what the second pass reads -----

  /** The banner's lines as they are read back. */
  function BannerRead(instance: Instance, warning: string): (lines: seq<string>)
    ensures |lines| == 4
  {
    [StaleStart(instance), WARNING_HEADING, WithoutCr("> " + warning), StaleEnd(instance)]
  }

  lemma {:induction false} BannerReadIsBanner(instance: Instance, warning: string)
    ensures IsBanner(BannerRead(instance, warning), StaleStart(instance), StaleEnd(instance))
    ensures StaleStart(instance) != StaleEnd(instance)
  {
    DelimitersDiffer(instance);
    var banner, end := BannerRead(instance, warning), StaleEnd(instance);
    assert end[0] == '<' && banner[1][0] == '>' && banner[2][0] == '>';
    assert banner[1..] == [banner[1], banner[2], banner[3]];
    assert banner[1..][1..] == [banner[2], banner[3]];
    assert banner[1..][1..][1..] == [banner[3]];
    assert FirstIndex(banner[1..][1..], end) == 1;
  }

  lemma {:induction false} BannerTerminates(instance: Instance, warning: string)
    ensures Stripped(Banner(instance, warning)) == BannerRead(instance, warning)
            == Terminated(Banner(instance, warning))
  {
    DelimitersDiffer(instance);
    var banner, read := Banner(instance, warning), BannerRead(instance, warning);
    assert banner[1..] == [banner[1], banner[2], banner[3]];
    assert [banner[1], banner[2], banner[3]][1..] == [banner[2], banner[3]];
    assert [banner[2], banner[3]][1..] == [banner[3]];
    assert [banner[3]][1..] == [];
    assert Stripped([banner[3]]) == [read[3]] == Terminated([banner[3]]);
    assert Stripped([banner[2], banner[3]]) == [read[2], read[3]] == Terminated([banner[2], banner[3]]);
    assert WithoutCr(banner[1]) == banner[1];
    assert Stripped(banner[1..]) == read[1..] == Terminated(banner[1..]);
  }

  lemma {:induction false} RereadSplits(a: seq<string>, b: seq<string>, instance: Instance, warning: string)
    ensures Terminated(a + Banner(instance, warning) + b) == Stripped(a) + BannerRead(instance, warning) + Terminated(b)
  {
    var banner := Banner(instance, warning);
    BannerTerminates(instance, warning);
    TerminatedAppends(a, banner + b);
    assert a + banner + b == a + (banner + b);
    if b == [] {
      assert banner + b == banner;
    } else {
      TerminatedAppends(banner, b);
    }
  }

  /** What a second pass keeps of the lines a first one wrote. */
  function KeptAgain(kept: seq<string>, instance: Instance): seq<string> {
    var start, end := StaleStart(instance), StaleEnd(instance);
    Settled(Stripped(kept[..Insertion(kept)]), start, end) + Keep(Terminated(kept[Insertion(kept)..]), start, end)
  }

  lemma FreeParts(kept: seq<string>, instance: Instance, warning: string)
    requires Free(kept, '\n') && '\n' !in warning
    ensures Free(WithBanner(kept, instance, warning), '\n')
  {
    DelimitersDiffer(instance);
    var banner := Banner(instance, warning);
    assert Free(banner, '\n');
  }

  lemma {:induction false} SecondPassKeeps(kept: seq<string>, instance: Instance, warning: string)
    requires Free(kept, '\n') && '\n' !in warning
    ensures Kept(Lines(Join(WithBanner(kept, instance, warning), "\n")), instance) == KeptAgain(kept, instance)
  {
    var a, b := kept[..Insertion(kept)], kept[Insertion(kept)..];
    FreeParts(kept, instance, warning);
    LinesOfJoin(WithBanner(kept, instance, warning));
    RereadSplits(a, b, instance, warning);
    BannerReadIsBanner(instance, warning);
    KeepAroundBanner(Stripped(a), BannerRead(instance, warning), Terminated(b), StaleStart(instance),
      StaleEnd(instance));
  }

  // ----- when it keeps the same lines -----

  lemma {:induction false} StrippedShrinks(lines: seq<string>)
    ensures if forall j :: 0 <= j < |lines| ==> !EndsInCr(lines[j]) then Stripped(lines) == lines
            else Weight(Stripped(lines)) < Weight(lines)
    decreases |lines|
  {
    if lines != [] {
      StrippedShrinks(lines[1..]);
      assert lines == [lines[0]] + lines[1..];
      assert Stripped(lines)[1..] == Stripped(lines[1..]);
      assert forall j :: 0 < j < |lines| ==> lines[j] == lines[1..][j - 1];
    }
  }

  lemma FirstBlock(lines: seq<string>, start: string, end: string)
    requires start != end && lines != [] && lines[0] == start && FirstIndex(lines[1..], end) < |lines| - 1
    ensures IsBlock(lines, start, end, 0, FirstIndex(lines[1..], end) + 1)
  {
    assert forall j :: 1 <= j < |lines| ==> lines[j] == lines[1..][j - 1];
  }

  /** Lines without a complete block are all kept. */
  lemma {:induction false} NoBlockIsKept(lines: seq<string>, start: string, end: string)
    requires start != end && NoBlock(lines, start, end)
    ensures Keep(lines, start, end) == lines
    decreases |lines|
  {
    if lines != [] {
      if lines[0] != start {
        assert lines == [lines[0]] + lines[1..];
        NoBlockBehind([lines[0]], lines[1..], start, end);
        NoBlockIsKept(lines[1..], start, end);
      } else {
        var e := FirstIndex(lines[1..], end) + 1;
        if e < |lines| {
          FirstBlock(lines, start, end);
        }
      }
    }
  }

  /** The first marker that is kept is a start: it has no end. */
  predicate StartsUnterminated(kept: seq<string>, instance: Instance) {
    Insertion(kept) > 0 && kept[Insertion(kept) - 1] == StaleStart(instance)
  }

  /** The kept lines survive being written around the banner and read again: no line that
      another one follows ends in a carriage return, and the text does not end in a line feed. */
  ghost predicate SurviveWriting(kept: seq<string>) {
    && (forall j :: 0 <= j < Insertion(kept) ==> !EndsInCr(kept[j]))
    && ReadsBack(kept[Insertion(kept)..])
  }

  lemma StartBeforeInsertion(kept: seq<string>, instance: Instance)
    ensures StaleStart(instance) in kept[..Insertion(kept)] <==> StartsUnterminated(kept, instance)
  {
    DelimitersDiffer(instance);
    var i := Insertion(kept);
    assert forall j :: 0 <= j < i - 1 ==> !StartsWith(kept[j], NAMESPACE);
    assert i > 0 ==> kept[..i][i - 1] == kept[i - 1];
  }

  lemma {:induction false} KeptAgainIsSame(kept: seq<string>, instance: Instance)
    requires NoBlock(kept, StaleStart(instance), StaleEnd(instance))
    requires !StartsUnterminated(kept, instance) && SurviveWriting(kept)
    ensures KeptAgain(kept, instance) == kept
  {
    var start, end := StaleStart(instance), StaleEnd(instance);
    var a, b := kept[..Insertion(kept)], kept[Insertion(kept)..];
    DelimitersDiffer(instance);
    assert kept == a + b;
    StartBeforeInsertion(kept, instance);
    StrippedShrinks(a);
    SettledShrinks(a, start, end);
    TerminatedShrinks(b);
    NoBlockBehind(a, b, start, end);
    NoBlockIsKept(b, start, end);
  }

  lemma {:induction false} KeptAgainIsLess(kept: seq<string>, instance: Instance)
    requires StartsUnterminated(kept, instance) || !SurviveWriting(kept)
    ensures Weight(KeptAgain(kept, instance)) < Weight(kept)
  {
    var start, end := StaleStart(instance), StaleEnd(instance);
    var a, b := kept[..Insertion(kept)], kept[Insertion(kept)..];
    assert kept == a + b;
    WeightAppends(a, b);
    WeightAppends(Settled(Stripped(a), start, end), Keep(Terminated(b), start, end));
    StartBeforeInsertion(kept, instance);
    StrippedShrinks(a);
    SettledShrinks(Stripped(a), start, end);
    TerminatedShrinks(b);
    KeepShrinks(Terminated(b), start, end);
  }

  lemma {:induction false} KeepIsFree(lines: seq<string>, start: string, end: string)
    requires Free(lines, '\n')
    ensures Free(Keep(lines, start, end), '\n')
    decreases |lines|
  {
    if lines != [] {
      if lines[0] != start {
        KeepIsFree(lines[1..], start, end);
      } else {
        var e := FirstIndex(lines[1..], end) + 1;
        if e < |lines| {
          KeepIsFree(lines[e + 1..], start, end);
        }
      }
    }
  }

  lemma {:induction false} BannersDiffer(a: seq<string>, b: seq<string>, instance: Instance, warning: string)
    requires Free(a, '\n') && Free(b, '\n') && '\n' !in warning && Weight(a) < Weight(b)
    ensures Join(WithBanner(a, instance, warning), "\n") != Join(WithBanner(b, instance, warning), "\n")
  {
    FreeParts(a, instance, warning);
    FreeParts(b, instance, warning);
    BannerWeighs(a, instance, warning);
    BannerWeighs(b, instance, warning);
    if Join(WithBanner(a, instance, warning), "\n") == Join(WithBanner(b, instance, warning), "\n") {
      JoinIsInjective(WithBanner(a, instance, warning), WithBanner(b, instance, warning), '\n');
    }
  }

  lemma {:induction false} BannerWeighs(kept: seq<string>, instance: Instance, warning: string)
    ensures Weight(WithBanner(kept, instance, warning)) == Weight(kept) + Weight(Banner(instance, warning))
  {
    var i, banner := Insertion(kept), Banner(instance, warning);
    WeightAppends(kept[..i] + banner, kept[i..]);
    WeightAppends(kept[..i], banner);
    WeightAppends(kept[..i], kept[i..]);
    assert kept == kept[..i] + kept[i..];
  }

  /** Warning twice is the same as only the second warning, for every body and any one-line
      warnings, exactly if the first marker kept is not an unterminated start and the kept
      lines survive being written and read again. */
  lemma {:induction false} SecondWarningReplacesFirstExactlyWhen(
      body: string, instance: Instance, first: string, second: string)
    requires '\n' !in first && '\n' !in second
    ensures var kept := Kept(Lines(body), instance);
            Warned(Warned(body, instance, first), instance, second) == Warned(body, instance, second)
            <==> !StartsUnterminated(kept, instance) && SurviveWriting(kept)
  {
    var start, end := StaleStart(instance), StaleEnd(instance);
    var kept := Kept(Lines(body), instance);
    DelimitersDiffer(instance);
    LinesAreFree(body);
    KeepIsFree(Lines(body), start, end);
    NothingCompleteIsKept(Lines(body), start, end);
    SecondPassKeeps(kept, instance, first);
    if !StartsUnterminated(kept, instance) && SurviveWriting(kept) {
      KeptAgainIsSame(kept, instance);
    } else {
      KeptAgainIsLess(kept, instance);
      LinesAreFree(Warned(body, instance, first));
      KeepIsFree(Lines(Warned(body, instance, first)), start, end);
      BannersDiffer(KeptAgain(kept, instance), kept, instance, second);
    }
  }

  // ----- one block in the text -----

  /** The banner is the only complete block of the text. */
  ghost predicate OnlyBannerEnds(body: string, instance: Instance, warning: string) {
    forall e: nat ::
      EndsBlock(Lines(Warned(body, instance, warning)), StaleStart(instance), StaleEnd(instance), e)
      <==> e == Insertion(Kept(Lines(body), instance)) + 3
  }

  lemma {:induction false} StrippedKeepsLength(lines: seq<string>)
    ensures |Stripped(lines)| == |lines|
    decreases |lines|
  {
    if lines != [] {
      StrippedKeepsLength(lines[1..]);
    }
  }

  lemma {:induction false} WarnedReads(body: string, instance: Instance, warning: string)
    requires '\n' !in warning
    ensures var kept := Kept(Lines(body), instance);
            Lines(Warned(body, instance, warning))
            == Stripped(kept[..Insertion(kept)]) + BannerRead(instance, warning) + Terminated(kept[Insertion(kept)..])
  {
    var kept := Kept(Lines(body), instance);
    LinesAreFree(body);
    KeepIsFree(Lines(body), StaleStart(instance), StaleEnd(instance));
    FreeParts(kept, instance, warning);
    LinesOfJoin(WithBanner(kept, instance, warning));
    RereadSplits(kept[..Insertion(kept)], kept[Insertion(kept)..], instance, warning);
  }

  /** The text has exactly one complete block if and only if losing carriage returns makes no
      block of kept lines, before the banner or behind it. */
  lemma {:induction false} ExactlyOneBlockExactlyWhen(body: string, instance: Instance, warning: string)
    requires '\n' !in warning
    ensures var kept := Kept(Lines(body), instance);
            OnlyBannerEnds(body, instance, warning)
            <==> NoBlock(Stripped(kept[..Insertion(kept)]), StaleStart(instance), StaleEnd(instance))
                 && NoBlock(Terminated(kept[Insertion(kept)..]), StaleStart(instance), StaleEnd(instance))
  {
    var kept := Kept(Lines(body), instance);
    var a, b := kept[..Insertion(kept)], kept[Insertion(kept)..];
    WarnedReads(body, instance, warning);
    StrippedKeepsLength(a);
    BannerReadIsBanner(instance, warning);
    assert StaleEnd(instance)[0] == '<';
    OnlyTheBannerEndsExactlyWhen(Stripped(a), BannerRead(instance, warning), Terminated(b),
                                 StaleStart(instance), StaleEnd(instance));
  }

  lemma {:induction false} TerminatedIsPrefix(lines: seq<string>)
    requires forall j :: 0 <= j < |lines| ==> !EndsInCr(lines[j])
    ensures Terminated(lines) <= lines
    decreases |lines|
  {
    if |lines| > 1 {
      TerminatedIsPrefix(lines[1..]);
      assert lines == [lines[0]] + lines[1..];
    }
  }

  /** In particular it has if no kept line ends in a carriage return. */
  lemma {:induction false} OneBlockWithoutCr(body: string, instance: Instance, warning: string)
    requires '\n' !in warning
    requires forall j :: 0 <= j < |Kept(Lines(body), instance)| ==> !EndsInCr(Kept(Lines(body), instance)[j])
    ensures OnlyBannerEnds(body, instance, warning)
  {
    var start, end := StaleStart(instance), StaleEnd(instance);
    var kept := Kept(Lines(body), instance);
    var a, b := kept[..Insertion(kept)], kept[Insertion(kept)..];
    DelimitersDiffer(instance);
    NothingCompleteIsKept(Lines(body), start, end);
    assert kept == a + b;
    StrippedShrinks(a);
    TerminatedIsPrefix(b);
    NoBlockBefore(a, b, start, end);
    NoBlockBehind(a, b, start, end);
    assert b == Terminated(b) + b[|Terminated(b)|..];
    NoBlockBefore(Terminated(b), b[|Terminated(b)|..], start, end);
    ExactlyOneBlockExactlyWhen(body, instance, warning);
  }

  // ----- the exceptions are real -----

  /** A body in whose text a second block appears: behind any marker, its delimiters keep a
      carriage return each, which writing takes away. */
  lemma {:induction false} HiddenBlockAppears(instance: Instance, marker: string, warning: string)
    requires IsMarkerLine(marker) && marker != StaleStart(instance) && '\n' !in warning
    ensures var body := Join([marker, StaleStart(instance) + "\r\r", StaleEnd(instance) + "\r\r", "x"], "\n");
            var lines := Lines(Warned(body, instance, warning));
            && EndsBlock(lines, StaleStart(instance), StaleEnd(instance), 4)
            && EndsBlock(lines, StaleStart(instance), StaleEnd(instance), 6)
            && !OnlyBannerEnds(body, instance, warning)
  {
    var start, end := StaleStart(instance), StaleEnd(instance);
    var kept := [marker, start + "\r", end + "\r", "x"];
    var body := Join([marker, start + "\r\r", end + "\r\r", "x"], "\n");
    DelimitersDiffer(instance);
    HiddenLines(marker, start, end);
    HiddenAreKept(instance, marker, kept);
    WarnedReads(body, instance, warning);
    HiddenAreRead(marker, start, end);
    var lines := Lines(Warned(body, instance, warning));
    assert lines == [marker] + BannerRead(instance, warning) + [start, end, "x"];
    assert lines[1] == start && lines[2] == WARNING_HEADING && lines[4] == end && lines[5] == start && lines[6] == end;
    assert end[0] == '<' && lines[3][0] == '>';
    assert IsBlock(lines, start, end, 1, 4) && IsBlock(lines, start, end, 5, 6);
  }

  /** One line that starts like a marker and ends in no carriage return. */
  ghost predicate IsMarkerLine(line: string) {
    StartsWith(line, NAMESPACE) && '\n' !in line && !EndsInCr(line)
  }

  lemma {:induction false} FourTerminated(a: string, b: string, c: string)
    ensures Terminated([a, b, c, "x"]) == [WithoutCr(a), WithoutCr(b), WithoutCr(c), "x"]
    ensures Terminated([b, c, "x"]) == [WithoutCr(b), WithoutCr(c), "x"]
  {
    assert Terminated(["x"]) == ["x"];
    assert [c, "x"][1..] == ["x"];
    assert Terminated([c, "x"]) == [WithoutCr(c), "x"];
    assert [b, c, "x"][1..] == [c, "x"];
    assert Terminated([b, c, "x"]) == [WithoutCr(b), WithoutCr(c), "x"];
    assert [a, b, c, "x"][1..] == [b, c, "x"];
  }

  lemma {:induction false} HiddenLines(marker: string, start: string, end: string)
    requires '\n' !in marker && '\n' !in start && '\n' !in end && !EndsInCr(marker)
    ensures Lines(Join([marker, start + "\r\r", end + "\r\r", "x"], "\n")) == [marker, start + "\r", end + "\r", "x"]
  {
    LinesOfJoin([marker, start + "\r\r", end + "\r\r", "x"]);
    FourTerminated(marker, start + "\r\r", end + "\r\r");
    LosesOneCr(start);
    LosesOneCr(end);
  }

  lemma LosesOneCr(line: string)
    ensures WithoutCr(line + "\r\r") == line + "\r" && WithoutCr(line + "\r") == line
  {
    assert (line + "\r\r")[..|line| + 1] == line + "\r" && (line + "\r")[..|line|] == line;
  }

  lemma {:induction false} HiddenAreKept(instance: Instance, marker: string, lines: seq<string>)
    requires IsMarkerLine(marker) && marker != StaleStart(instance)
    requires lines == [marker, StaleStart(instance) + "\r", StaleEnd(instance) + "\r", "x"]
    ensures Kept(lines, instance) == lines && Insertion(lines) == 1
  {
    var start, end := StaleStart(instance), StaleEnd(instance);
    DelimitersDiffer(instance);
    assert start[|start| - 1] == '>' && lines[1][|start|] == '\r' && lines[2][|end|] == '\r' && start[0] == '<';
    assert start !in lines;
    NoStartIsKept(lines, start, end);
    assert FirstMarker(lines) == 0;
  }

  lemma {:induction false} NoStartIsKept(lines: seq<string>, start: string, end: string)
    requires start !in lines
    ensures Keep(lines, start, end) == lines
    decreases |lines|
  {
    if lines != [] {
      NoStartIsKept(lines[1..], start, end);
      assert lines == [lines[0]] + lines[1..];
    }
  }

  lemma {:induction false} HiddenAreRead(marker: string, start: string, end: string)
    requires !EndsInCr(marker)
    ensures var kept := [marker, start + "\r", end + "\r", "x"];
            Stripped(kept[..1]) == [marker] && Terminated(kept[1..]) == [start, end, "x"]
  {
    var kept := [marker, start + "\r", end + "\r", "x"];
    assert kept[..1] == [marker] && [marker][1..] == [];
    assert kept[1..] == [start + "\r", end + "\r", "x"];
    FourTerminated(marker, start + "\r", end + "\r");
    LosesOneCr(start);
    LosesOneCr(end);
  }

  /** A body that is one unterminated start: the second warning takes that start away. */
  lemma {:induction false} UnterminatedStartIsLost(instance: Instance, first: string, second: string)
    requires '\n' !in first && '\n' !in second
    ensures var body := StaleStart(instance);
            Warned(Warned(body, instance, first), instance, second) != Warned(body, instance, second)
  {
    var body := StaleStart(instance);
    DelimitersDiffer(instance);
    SplitWhole(body, '\n');
    assert StartsUnterminated([body], instance);
    SecondWarningReplacesFirstExactlyWhen(body, instance, first, second);
  }

  /** A body of two empty lines: the second pass reads one of them. */
  lemma {:induction false} TrailingLineIsLost(instance: Instance, first: string, second: string)
    requires '\n' !in first && '\n' !in second
    ensures var body := "\n\n";
            Warned(Warned(body, instance, first), instance, second) != Warned(body, instance, second)
  {
    assert Split("\n", '\n') == ["", ""];
    assert Split("\n\n", '\n') == [""] + Split("\n", '\n') == ["", "", ""];
    assert Terminated(["", "", ""]) == [""] + Terminated(["", ""]) == ["", ""];
    assert Keep([""], StaleStart(instance), StaleEnd(instance)) == [""];
    assert Kept(["", ""], instance) == ["", ""];
    assert Insertion(["", ""]) == 0;
    SecondWarningReplacesFirstExactlyWhen("\n\n", instance, first, second);
  }
}
