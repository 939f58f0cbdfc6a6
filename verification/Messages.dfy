/** The bodies of completed reports, and their metadata under any number of warnings
    (packages/cargo-bench-history-github/src/message.rs). */
module Messages {
  import opened MachineIntegers
  import opened Texts
  import opened Markers
  import opened StaleBanner
  import opened BannerLaws
  import opened RepeatedBanner
  import opened BannerLookups

  const ADVISORY := "Benchmark results are " + "advisory and do not " + "block merging."

  lemma AdvisoryIsOneLine()
    ensures ADVISORY != "" && ADVISORY[0] == 'B' && '\n' !in ADVISORY && !EndsInCr(ADVISORY)
  {
    var a, b, c := "Benchmark results are ", "advisory and do not ", "block merging.";
    assert '\n' !in a && '\n' !in b && '\n' !in c && a[0] == 'B' && c[13] == '.' && |c| == 14;
    assert ADVISORY == a + b + c;
    assert (a + b + c)[|a + b + c| - 1] == c[|c| - 1];
  }

  datatype Kind = RegressionIssue | PullRequestResult

  datatype PublicationState = Findings | Clean | Inconclusive

  function StateValue(state: PublicationState): string {
    match state
    case Findings => "findings"
    case Clean => "clean"
    case Inconclusive => "no-data"
  }

  /** What a report is composed of; `rest` are its headline, scope, summary and links. */
  datatype Report =
    Report(kind: Kind, instance: Instance, sha: CommitSha, owner: Owner, state: PublicationState, rest: seq<string>)

  function Identity(kind: Kind, instance: Instance): string {
    match kind
    case RegressionIssue => Marker(instance, "issue:regression")
    case PullRequestResult => Marker(instance, "pr-comment")
  }

  function NonEmpty(sections: seq<string>): seq<string> {
    if sections == [] then []
    else (if sections[0] == "" then [] else [sections[0]]) + NonEmpty(sections[1..])
  }

  function JoinSections(sections: seq<string>): string {
    Join(NonEmpty(sections), "\n\n")
  }

  function Body(r: Report): string {
    JoinSections([Identity(r.kind, r.instance), AnalyzedSha(r.instance, r.sha), RunOwner(r.instance, r.owner),
                  StateMarker(r.instance, StateValue(r.state)), ADVISORY] + r.rest)
  }

  // ----- the lines of a report -----

  ghost predicate SilentForReaders(lines: seq<string>, instance: Instance) {
    && Silent(lines, ValuePrefix(instance, "run"))
    && Silent(lines, ValuePrefix(instance, "state"))
    && Silent(lines, ValuePrefix(instance, "analyzed-sha"))
  }

  /** The metadata between the first marker and the text. */
  function Metadata(r: Report): (lines: seq<string>)
    ensures |lines| == 7
  {
    ["", AnalyzedSha(r.instance, r.sha), "", RunOwner(r.instance, r.owner), "",
     StateMarker(r.instance, StateValue(r.state)), ""]
  }

  /** A report as lines: its identity, perhaps a banner, its metadata, and text that says
      nothing under its keys. */
  ghost predicate ReportLines(lines: seq<string>, r: Report, banner: seq<string>, text: seq<string>) {
    && lines == [Identity(r.kind, r.instance)] + banner + Metadata(r) + text
    && (banner == [] || exists warning :: banner == BannerRead(r.instance, warning))
    && text != [] && text[0] == ADVISORY && SilentForReaders(text, r.instance)
  }

  // ----- reading a report -----

  lemma IdentityIsSilent(kind: Kind, instance: Instance, other: Instance, key: string)
    requires ':' !in key && key != "issue"
    ensures !StartsWith(Identity(kind, instance), ValuePrefix(other, key))
  {
    assert "issue" + ":" + "regression" == "issue:regression";
    KeysAreSeparate(instance, "issue", "regression", other, key);
    PlainMarkersHaveNoKey(instance, "pr-comment", other, key);
  }

  lemma BannerReadIsSilent(instance: Instance, warning: string, other: Instance, key: string)
    requires ':' !in key && key != "stale"
    ensures Silent(BannerRead(instance, warning), ValuePrefix(other, key))
  {
    BannerIsSilent(instance, warning, other, key);
    var banner, read, p := Banner(instance, warning), BannerRead(instance, warning), ValuePrefix(other, key);
    assert read[0] == banner[0] && read[1] == banner[1] && read[3] == banner[3];
    assert read[2][0] == '>' && p[0] == '<';
  }

  /** Which line of the metadata carries which key. */
  lemma MetadataCarries(r: Report, key: string)
    requires key == "run" || key == "state" || key == "analyzed-sha"
    ensures OnlyCarrier(Metadata(r), ValuePrefix(r.instance, key),
                        if key == "run" then 3 else if key == "state" then 5 else 1)
  {
    var i, state := r.instance, StateValue(r.state);
    assert "analyzed-sha" + ":" + r.sha == "analyzed-sha:" + r.sha;
    assert "run" + ":" + OwnerValue(r.owner) == "run:" + OwnerValue(r.owner);
    assert "state" + ":" + state == "state:" + state;
    KeysAreSeparate(i, "analyzed-sha", r.sha, i, key);
    KeysAreSeparate(i, "run", OwnerValue(r.owner), i, key);
    KeysAreSeparate(i, "state", state, i, key);
    assert !StartsWith("", ValuePrefix(i, key));
  }

  lemma CarrierInTheMiddle(a: seq<string>, lines: seq<string>, b: seq<string>, prefix: string, k: nat)
    requires Silent(a, prefix) && OnlyCarrier(lines, prefix, k) && Silent(b, prefix)
    ensures OnlyCarrier(a + lines + b, prefix, |a| + k)
  {
    var all := a + lines + b;
    forall j | 0 <= j < |all| && j != |a| + k ensures !StartsWith(all[j], prefix) {
      if j < |a| {
        assert all[j] == a[j];
      } else if j < |a| + |lines| {
        assert all[j] == lines[j - |a|];
      } else {
        assert all[j] == b[j - |a| - |lines|];
      }
    }
  }

  lemma ReportCarries(lines: seq<string>, r: Report, banner: seq<string>, text: seq<string>, key: string)
    requires ReportLines(lines, r, banner, text)
    requires key == "run" || key == "state" || key == "analyzed-sha"
    ensures OnlyCarrier(lines, ValuePrefix(r.instance, key),
                        1 + |banner| + if key == "run" then 3 else if key == "state" then 5 else 1)
  {
    var prefix, front := ValuePrefix(r.instance, key), [Identity(r.kind, r.instance)] + banner;
    IdentityIsSilent(r.kind, r.instance, r.instance, key);
    if banner != [] {
      var warning :| banner == BannerRead(r.instance, warning);
      BannerReadIsSilent(r.instance, warning, r.instance, key);
    }
    assert Silent(front, prefix);
    MetadataCarries(r, key);
    CarrierInTheMiddle(front, Metadata(r), text, prefix, if key == "run" then 3 else if key == "state" then 5 else 1);
  }

  ghost predicate ReadsAs(body: string, r: Report) {
    && FindOwner(body, r.instance) == Some(r.owner)
    && FindState(body, r.instance) == Some(StateValue(r.state))
    && FindAnalyzedSha(body, r.instance) == Some(r.sha)
  }

  lemma {:induction false} ReportIsRead(body: string, r: Report, banner: seq<string>, text: seq<string>)
    requires ReportLines(Lines(body), r, banner, text)
    ensures ReadsAs(body, r)
  {
    var lines, n := Lines(body), 1 + |banner|;
    ReportCarries(lines, r, banner, text, "run");
    ReportCarries(lines, r, banner, text, "state");
    ReportCarries(lines, r, banner, text, "analyzed-sha");
    assert lines[n + 3] == Metadata(r)[3] && lines[n + 5] == Metadata(r)[5] && lines[n + 1] == Metadata(r)[1];
    OwnerRoundTrips(body, r.instance, r.owner, n + 3);
    StateRoundTrips(body, r.instance, StateValue(r.state), n + 5);
    ShaRoundTrips(body, r.instance, r.sha, n + 1);
  }

  // ----- warning a report -----

  lemma {:induction false} KeepPlainFront(a: seq<string>, b: seq<string>, start: string, end: string)
    requires start !in a
    ensures Keep(a + b, start, end) == a + Keep(b, start, end)
    decreases |a|
  {
    if a == [] {
      assert a + b == b;
    } else {
      assert a + b == [a[0]] + (a[1..] + b);
      assert a == [a[0]] + a[1..];
      KeepPlainFront(a[1..], b, start, end);
    }
  }

  lemma {:induction false} KeepIsSilent(lines: seq<string>, start: string, end: string, prefix: string)
    requires Silent(lines, prefix)
    ensures Silent(Keep(lines, start, end), prefix)
    decreases |lines|
  {
    if lines != [] {
      if lines[0] != start {
        KeepIsSilent(lines[1..], start, end, prefix);
      } else {
        var e := FirstIndex(lines[1..], end) + 1;
        if e < |lines| {
          KeepIsSilent(lines[e + 1..], start, end, prefix);
        }
      }
    }
  }

  lemma {:induction false} TextStaysSilent(text: seq<string>, instance: Instance, key: string)
    requires Silent(text, ValuePrefix(instance, key)) && '\r' !in key
    ensures Silent(Terminated(Kept(text, instance)), ValuePrefix(instance, key))
  {
    var prefix := ValuePrefix(instance, key);
    PrefixIsPlain(instance, key);
    KeepIsSilent(text, StaleStart(instance), StaleEnd(instance), prefix);
    SilentHasNoValues(Kept(text, instance), prefix);
    ReadingKeepsCount(Kept(text, instance), prefix);
    SilentHasNoValues(Terminated(Kept(text, instance)), prefix);
  }

  lemma MarkerIsOneLine(instance: Instance, tail: string)
    requires '\n' !in tail
    ensures '\n' !in Marker(instance, tail) && WithoutCr(Marker(instance, tail)) == Marker(instance, tail)
    ensures StartsWith(Marker(instance, tail), NAMESPACE)
  {
    var m := Marker(instance, tail);
    assert forall c :: c in instance ==> IsNameChar(c);
    assert m[|m| - 1] == '>' && m[..|NAMESPACE|] == NAMESPACE;
  }

  lemma OwnerIsOneLine(owner: Owner)
    ensures '\n' !in OwnerValue(owner)
  {
    assert forall c :: c in Decimal(owner.runId) ==> IsDigit(c);
    assert forall c :: c in Decimal(owner.runAttempt) ==> IsDigit(c);
    assert forall c :: c in owner.head ==> IsHex(c);
  }

  lemma IdentityIsOneLine(kind: Kind, instance: Instance)
    ensures '\n' !in Identity(kind, instance) && WithoutCr(Identity(kind, instance)) == Identity(kind, instance)
    ensures StartsWith(Identity(kind, instance), NAMESPACE)
  {
    MarkerIsOneLine(instance, "issue:regression");
    MarkerIsOneLine(instance, "pr-comment");
  }

  lemma MetadataIsOneLineEach(r: Report)
    ensures forall j :: 0 <= j < 7 ==> '\n' !in Metadata(r)[j] && !EndsInCr(Metadata(r)[j])
  {
    OwnerIsOneLine(r.owner);
    assert forall c :: c in r.sha ==> IsHex(c);
    MarkerIsOneLine(r.instance, "analyzed-sha:" + r.sha);
    MarkerIsOneLine(r.instance, "run:" + OwnerValue(r.owner));
    MarkerIsOneLine(r.instance, "state:" + StateValue(r.state));
  }

  /** No line of the metadata opens a stale block. */
  lemma NoStartInMetadata(r: Report)
    ensures StaleStart(r.instance) !in [Identity(r.kind, r.instance)]
    ensures StaleStart(r.instance) !in Metadata(r)
  {
    var i, stale := r.instance, ValuePrefix(r.instance, "stale");
    assert "stale" + ":" + "start" == "stale:start";
    KeysAreSeparate(i, "stale", "start", i, "stale");
    IdentityIsSilent(r.kind, i, i, "stale");
    assert "analyzed-sha" + ":" + r.sha == "analyzed-sha:" + r.sha;
    assert "run" + ":" + OwnerValue(r.owner) == "run:" + OwnerValue(r.owner);
    assert "state" + ":" + StateValue(r.state) == "state:" + StateValue(r.state);
    KeysAreSeparate(i, "analyzed-sha", r.sha, i, "stale");
    KeysAreSeparate(i, "run", OwnerValue(r.owner), i, "stale");
    KeysAreSeparate(i, "state", StateValue(r.state), i, "stale");
    assert !StartsWith("", stale);
  }

  lemma {:induction false} ReportKeeps(lines: seq<string>, r: Report, banner: seq<string>, text: seq<string>)
    requires ReportLines(lines, r, banner, text)
    ensures Kept(lines, r.instance) == [Identity(r.kind, r.instance)] + (Metadata(r) + Kept(text, r.instance))
  {
    var start, end := StaleStart(r.instance), StaleEnd(r.instance);
    var front, rest := [Identity(r.kind, r.instance)], Metadata(r) + text;
    NoStartInMetadata(r);
    KeepPlainFront(Metadata(r), text, start, end);
    if banner == [] {
      assert lines == front + rest;
      KeepPlainFront(front, rest, start, end);
    } else {
      var warning :| banner == BannerRead(r.instance, warning);
      BannerReadIsBanner(r.instance, warning);
      assert lines == front + banner + rest;
      KeepAroundBanner(front, banner, rest, start, end);
      SettledShrinks(front, start, end);
    }
  }

  lemma {:induction false} StrippedKeeps(lines: seq<string>)
    requires forall j :: 0 <= j < |lines| ==> !EndsInCr(lines[j])
    ensures Stripped(lines) == lines
  {
    StrippedShrinks(lines);
  }

  lemma {:induction false} AdvisoryStaysFirst(text: seq<string>, instance: Instance)
    requires text != [] && text[0] == ADVISORY
    ensures Terminated(Kept(text, instance)) != [] && Terminated(Kept(text, instance))[0] == ADVISORY
  {
    AdvisoryIsOneLine();
    assert StaleStart(instance)[0] == '<';
    assert Kept(text, instance)[0] == ADVISORY;
  }

  lemma InsertionBehindFirst(lines: seq<string>)
    requires lines != [] && StartsWith(lines[0], NAMESPACE)
    ensures Insertion(lines) == 1
  {
    assert FirstMarker(lines) == 0;
  }

  lemma {:induction false} WarnedLines(body: string, r: Report, banner: seq<string>, text: seq<string>, warning: string)
    requires ReportLines(Lines(body), r, banner, text) && '\n' !in warning
    ensures Lines(Warned(body, r.instance, warning))
            == Stripped([Identity(r.kind, r.instance)]) + BannerRead(r.instance, warning)
               + Terminated(Metadata(r) + Kept(text, r.instance))
  {
    var i := r.instance;
    var front, rest := [Identity(r.kind, i)], Metadata(r) + Kept(text, i);
    var kept := Kept(Lines(body), i);
    LinesAreFree(body);
    KeepIsFree(Lines(body), StaleStart(i), StaleEnd(i));
    ReportKeeps(Lines(body), r, banner, text);
    IdentityIsOneLine(r.kind, i);
    InsertionBehindFirst(kept);
    assert kept[..1] == front && kept[1..] == rest;
    FreeParts(kept, i, warning);
    LinesOfJoin(WithBanner(kept, i, warning));
    RereadSplits(front, rest, i, warning);
  }

  lemma {:induction false} MetadataIsReadBack(r: Report, text: seq<string>)
    requires text != []
    ensures Stripped([Identity(r.kind, r.instance)]) == [Identity(r.kind, r.instance)]
    ensures Terminated(Metadata(r) + text) == Metadata(r) + Terminated(text)
  {
    IdentityIsOneLine(r.kind, r.instance);
    MetadataIsOneLineEach(r);
    StrippedKeeps(Metadata(r));
    StrippedKeeps([Identity(r.kind, r.instance)]);
    TerminatedAppends(Metadata(r), text);
  }

  /** A warned report is a report with the banner behind its identity. */
  lemma {:induction false} WarningKeepsReport(
      body: string, r: Report, banner: seq<string>, text: seq<string>, warning: string)
    requires ReportLines(Lines(body), r, banner, text) && '\n' !in warning
    ensures ReportLines(Lines(Warned(body, r.instance, warning)), r, BannerRead(r.instance, warning),
                        Terminated(Kept(text, r.instance)))
  {
    AdvisoryStaysFirst(text, r.instance);
    WarnedLines(body, r, banner, text, warning);
    MetadataIsReadBack(r, Kept(text, r.instance));
    TextStaysSilent(text, r.instance, "run");
    TextStaysSilent(text, r.instance, "state");
    TextStaysSilent(text, r.instance, "analyzed-sha");
  }

  // ----- composing a report -----

  lemma {:induction false} SectionsAppend(a: seq<string>, b: seq<string>)
    ensures NonEmpty(a + b) == NonEmpty(a) + NonEmpty(b)
    decreases |a|
  {
    if a == [] {
      assert a + b == b;
    } else {
      assert (a + b)[1..] == a[1..] + b;
      SectionsAppend(a[1..], b);
    }
  }

  /** Two sections are apart by one empty line. */
  lemma {:induction false} SectionPieces(section: string, rest: seq<string>)
    requires rest != []
    ensures Split(Join([section] + rest, "\n\n"), '\n')
            == Split(section, '\n') + [""] + Split(Join(rest, "\n\n"), '\n')
  {
    var tail := Join(rest, "\n\n");
    assert ([section] + rest)[1..] == rest;
    assert section + "\n\n" + tail == section + ['\n'] + ("" + ['\n'] + tail);
    SplitAppends(section, '\n', "" + ['\n'] + tail);
    SplitAppends("", '\n', tail);
  }

  /** No line of any section carries the prefix. */
  ghost predicate SectionsSilent(sections: seq<string>, prefix: string) {
    forall j :: 0 <= j < |sections| ==> Silent(Split(sections[j], '\n'), prefix)
  }

  lemma {:induction false} JoinStaysSilent(sections: seq<string>, prefix: string)
    requires sections != [] && prefix != "" && SectionsSilent(sections, prefix)
    ensures Silent(Split(Join(sections, "\n\n"), '\n'), prefix)
    decreases |sections|
  {
    if |sections| == 1 {
      assert Silent(Split(sections[0], '\n'), prefix);
    } else {
      assert sections == [sections[0]] + sections[1..];
      SectionPieces(sections[0], sections[1..]);
      JoinStaysSilent(sections[1..], prefix);
      assert Silent(Split(sections[0], '\n'), prefix);
    }
  }

  lemma {:induction false} NonEmptyStaysSilent(sections: seq<string>, prefix: string)
    requires SectionsSilent(sections, prefix)
    ensures SectionsSilent(NonEmpty(sections), prefix)
    decreases |sections|
  {
    if sections != [] {
      NonEmptyStaysSilent(sections[1..], prefix);
    }
  }

  /** The text of a report, from its first sentence on. */
  function Text(rest: seq<string>): string {
    Join([ADVISORY] + NonEmpty(rest), "\n\n")
  }

  lemma {:induction false} TextIsSilent(rest: seq<string>, instance: Instance, key: string)
    requires '\r' !in key && SectionsSilent(rest, ValuePrefix(instance, key))
    ensures Silent(Lines(Text(rest)), ValuePrefix(instance, key))
  {
    var prefix := ValuePrefix(instance, key);
    PrefixIsPlain(instance, key);
    NonEmptyStaysSilent(rest, prefix);
    AdvisoryIsOneLine();
    SplitWhole(ADVISORY, '\n');
    assert prefix[0] == '<';
    JoinStaysSilent([ADVISORY] + NonEmpty(rest), prefix);
    var pieces := Split(Text(rest), '\n');
    SilentHasNoValues(pieces, prefix);
    ReadingKeepsCount(pieces, prefix);
    SilentHasNoValues(Lines(Text(rest)), prefix);
  }

  lemma {:induction false} TextStartsWithAdvisory(rest: seq<string>)
    ensures Split(Text(rest), '\n')[0] == ADVISORY
    ensures Lines(Text(rest)) != [] && Lines(Text(rest))[0] == ADVISORY
  {
    AdvisoryIsOneLine();
    SplitWhole(ADVISORY, '\n');
    if NonEmpty(rest) != [] {
      SectionPieces(ADVISORY, NonEmpty(rest));
    }
  }

  lemma {:induction false} MarkerPieces(marker: string, rest: seq<string>)
    requires '\n' !in marker && rest != []
    ensures Split(Join([marker] + rest, "\n\n"), '\n') == [marker, ""] + Split(Join(rest, "\n\n"), '\n')
  {
    SplitWhole(marker, '\n');
    SectionPieces(marker, rest);
  }

  lemma {:induction false} AllNonEmpty(sections: seq<string>)
    requires forall j :: 0 <= j < |sections| ==> sections[j] != ""
    ensures NonEmpty(sections) == sections
    decreases |sections|
  {
    if sections != [] {
      AllNonEmpty(sections[1..]);
      assert sections == [sections[0]] + sections[1..];
    }
  }

  lemma {:induction false} FourMarkers(a: string, b: string, c: string, d: string, rest: seq<string>)
    requires '\n' !in a && '\n' !in b && '\n' !in c && '\n' !in d && rest != []
    ensures Split(Join([a] + ([b] + ([c] + ([d] + rest))), "\n\n"), '\n')
            == [a] + ["", b, "", c, "", d, ""] + Split(Join(rest, "\n\n"), '\n')
  {
    MarkerPieces(d, rest);
    MarkerPieces(c, [d] + rest);
    MarkerPieces(b, [c] + ([d] + rest));
    MarkerPieces(a, [b] + ([c] + ([d] + rest)));
  }

  lemma {:induction false} PiecesOfBody(r: Report)
    ensures Split(Body(r), '\n') == [Identity(r.kind, r.instance)] + Metadata(r) + Split(Text(r.rest), '\n')
  {
    var a, b, c, d := Identity(r.kind, r.instance), AnalyzedSha(r.instance, r.sha), RunOwner(r.instance, r.owner),
                      StateMarker(r.instance, StateValue(r.state));
    AdvisoryIsOneLine();
    IdentityIsOneLine(r.kind, r.instance);
    MetadataIsOneLineEach(r);
    assert b == Metadata(r)[1] && c == Metadata(r)[3] && d == Metadata(r)[5];
    SectionsAppend([a, b, c, d, ADVISORY], r.rest);
    AllNonEmpty([a, b, c, d, ADVISORY]);
    assert [a, b, c, d, ADVISORY] + NonEmpty(r.rest) == [a] + ([b] + ([c] + ([d] + ([ADVISORY] + NonEmpty(r.rest)))));
    FourMarkers(a, b, c, d, [ADVISORY] + NonEmpty(r.rest));
  }

  /** No line of the further sections looks like metadata of an instance. */
  ghost predicate RestIsQuiet(rest: seq<string>, instance: Instance) {
    && SectionsSilent(rest, ValuePrefix(instance, "run"))
    && SectionsSilent(rest, ValuePrefix(instance, "state"))
    && SectionsSilent(rest, ValuePrefix(instance, "analyzed-sha"))
  }

  lemma {:induction false} BodyIsReport(r: Report)
    requires RestIsQuiet(r.rest, r.instance)
    ensures ReportLines(Lines(Body(r)), r, [], Lines(Text(r.rest)))
  {
    var front := [Identity(r.kind, r.instance)] + Metadata(r);
    PiecesOfBody(r);
    TerminatedAppends(front, Split(Text(r.rest), '\n'));
    IdentityIsOneLine(r.kind, r.instance);
    MetadataIsOneLineEach(r);
    assert forall j :: 1 <= j < |front| ==> front[j] == Metadata(r)[j - 1];
    StrippedKeeps(front);
    TextStartsWithAdvisory(r.rest);
    TextIsSilent(r.rest, r.instance, "run");
    TextIsSilent(r.rest, r.instance, "state");
    TextIsSilent(r.rest, r.instance, "analyzed-sha");
    assert [Identity(r.kind, r.instance)] + [] + Metadata(r) == front;
  }

  // ----- the words of a report -----

  lemma {:induction false} MarkersAreWords(r: Report)
    ensures Identity(r.kind, r.instance)
            == "<!-- cargo-bench-history:" + r.instance + ":"
               + (if r.kind.PullRequestResult? then "pr-comment" else "issue:regression") + " -->"
    ensures AnalyzedSha(r.instance, r.sha)
            == "<!-- cargo-bench-history:" + r.instance + ":" + ("analyzed-sha:" + r.sha) + " -->"
    ensures RunOwner(r.instance, r.owner)
            == "<!-- cargo-bench-history:" + r.instance + ":"
               + ("run:" + (Decimal(r.owner.runId) + ":" + Decimal(r.owner.runAttempt) + ":" + r.owner.head)) + " -->"
    ensures StateMarker(r.instance, StateValue(r.state))
            == "<!-- cargo-bench-history:" + r.instance + ":"
               + ("state:" + match r.state {
                               case Findings => "findings"
                               case Clean => "clean"
                               case Inconclusive => "no-data"
                             }) + " -->"
  {
  }

  lemma {:induction false} JoinsOn(first: string, rest: seq<string>)
    requires rest != []
    ensures Join([first] + rest, "\n\n") == first + "\n\n" + Join(rest, "\n\n")
  {
    assert ([first] + rest)[1..] == rest;
  }

  lemma {:induction false} FourJoined(a: string, b: string, c: string, d: string, rest: seq<string>)
    requires rest != []
    ensures Join([a] + ([b] + ([c] + ([d] + rest))), "\n\n")
            == a + "\n\n" + (b + "\n\n" + (c + "\n\n" + (d + "\n\n" + Join(rest, "\n\n"))))
  {
    JoinsOn(d, rest);
    JoinsOn(c, [d] + rest);
    JoinsOn(b, [c] + ([d] + rest));
    JoinsOn(a, [b] + ([c] + ([d] + rest)));
  }

  lemma {:induction false} BodyIsJoined(r: Report)
    ensures Body(r)
            == Identity(r.kind, r.instance) + "\n\n"
               + (AnalyzedSha(r.instance, r.sha) + "\n\n"
                  + (RunOwner(r.instance, r.owner) + "\n\n"
                     + (StateMarker(r.instance, StateValue(r.state)) + "\n\n" + Text(r.rest))))
  {
    var a, b, c, d := Identity(r.kind, r.instance), AnalyzedSha(r.instance, r.sha), RunOwner(r.instance, r.owner),
                      StateMarker(r.instance, StateValue(r.state));
    AdvisoryIsOneLine();
    IdentityIsOneLine(r.kind, r.instance);
    MetadataIsOneLineEach(r);
    SectionsAppend([a, b, c, d, ADVISORY], r.rest);
    AllNonEmpty([a, b, c, d, ADVISORY]);
    assert [a, b, c, d, ADVISORY] + NonEmpty(r.rest) == [a] + ([b] + ([c] + ([d] + ([ADVISORY] + NonEmpty(r.rest)))));
    FourJoined(a, b, c, d, [ADVISORY] + NonEmpty(r.rest));
  }

  /** Of the sections, exactly those with text are kept, in order. */
  lemma {:induction false} NonEmptyByOne(sections: seq<string>, last: string)
    ensures NonEmpty([]) == []
    ensures NonEmpty(sections + [last]) == NonEmpty(sections) + if last == "" then [] else [last]
    decreases |sections|
  {
    if sections == [] {
      assert [] + [last] == [last];
    } else {
      assert (sections + [last])[1..] == sections[1..] + [last];
      NonEmptyByOne(sections[1..], last);
    }
  }

  /** A report is its four markers and its text, an empty line between any two of them; and the
      markers are these words. */
  lemma {:induction false} BodyWords(r: Report)
    ensures Body(r)
            == "<!-- cargo-bench-history:" + r.instance + ":"
               + (if r.kind.PullRequestResult? then "pr-comment" else "issue:regression") + " -->" + "\n\n"
               + ("<!-- cargo-bench-history:" + r.instance + ":" + ("analyzed-sha:" + r.sha) + " -->" + "\n\n"
                  + ("<!-- cargo-bench-history:" + r.instance + ":"
                     + ("run:" + (Decimal(r.owner.runId) + ":" + Decimal(r.owner.runAttempt) + ":" + r.owner.head))
                     + " -->" + "\n\n"
                     + ("<!-- cargo-bench-history:" + r.instance + ":"
                        + ("state:" + match r.state {
                                        case Findings => "findings"
                                        case Clean => "clean"
                                        case Inconclusive => "no-data"
                                      })
                        + " -->" + "\n\n" + Text(r.rest))))
  {
    MarkersAreWords(r);
    BodyIsJoined(r);
  }

  /** The lines of a warning banner, word by word. */
  lemma {:induction false} BannerWords(instance: Instance, warning: string)
    ensures Banner(instance, warning)
            == ["<!-- cargo-bench-history:" + instance + ":" + "stale:start" + " -->", "> [!WARNING]", "> " + warning,
                "<!-- cargo-bench-history:" + instance + ":" + "stale:end" + " -->"]
    ensures ADVISORY == "Benchmark results are " + "advisory and do not " + "block merging."
  {
  }

  // ----- every run of warnings -----

  function WarnedByAll(body: string, instance: Instance, warnings: seq<string>): string
    decreases |warnings|
  {
    if warnings == [] then body
    else WarnedByAll(Warned(body, instance, warnings[0]), instance, warnings[1..])
  }

  lemma {:induction false} WarningsKeepReport(
      body: string, r: Report, banner: seq<string>, text: seq<string>, warnings: seq<string>)
    requires ReportLines(Lines(body), r, banner, text) && Free(warnings, '\n')
    ensures ReadsAs(WarnedByAll(body, r.instance, warnings), r)
    decreases |warnings|
  {
    if warnings == [] {
      ReportIsRead(body, r, banner, text);
    } else {
      var warned := Warned(body, r.instance, warnings[0]);
      WarningKeepsReport(body, r, banner, text, warnings[0]);
      WarningsKeepReport(warned, r, BannerRead(r.instance, warnings[0]), Terminated(Kept(text, r.instance)),
        warnings[1..]);
    }
  }

  /** Whatever report is composed and however often it is warned about: its owner, state and
      commit are read back exactly, if no other section of it imitates those markers. */
  lemma {:induction false} ReportsKeepTheirMetadata(r: Report, warnings: seq<string>)
    requires RestIsQuiet(r.rest, r.instance) && Free(warnings, '\n')
    ensures ReadsAs(WarnedByAll(Body(r), r.instance, warnings), r)
  {
    BodyIsReport(r);
    WarningsKeepReport(Body(r), r, [], Lines(Text(r.rest)), warnings);
  }
}
