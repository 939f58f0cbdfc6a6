/** The metadata markers in the bodies of rolling comments: printing them and reading them
    back (packages/cargo-bench-history-github/src/marker.rs). */
module Markers {
  import opened MachineIntegers
  import opened Texts

  const NAMESPACE := "<!-- cargo-bench-history:"
  const CLOSE := " -->"

  // ----- values -----

  predicate IsNameChar(c: char) {
    IsDigit(c) || 'a' <= c <= 'z' || 'A' <= c <= 'Z' || c == '.' || c == '-' || c == '_'
  }

  predicate IsInstance(s: string) {
    s != "" && forall i :: 0 <= i < |s| ==> IsNameChar(s[i])
  }

  type Instance = s: string | IsInstance(s) witness "default"

  predicate IsHex(c: char) {
    IsDigit(c) || 'a' <= c <= 'f' || 'A' <= c <= 'F'
  }

  predicate IsSha(s: string) {
    |s| == 40 && forall i :: 0 <= i < |s| ==> IsHex(s[i]) && LowerChar(s[i]) == s[i]
  }

  type CommitSha = s: string | IsSha(s) witness "0123456789abcdef0123456789abcdef01234567"

  function ParseSha(s: string): Option<CommitSha>
  {
    if |s| == 40 && forall i :: 0 <= i < |s| ==> IsHex(s[i]) then Some(Lower(s)) else None
  }

  type NonZeroU64 = x: int | 1 <= x <= U64_MAX witness 1

  function ParseNonZero(s: string): Option<NonZeroU64> {
    var n := ParseUnsigned(s, U64_MAX);
    if n.Some? && n.value != 0 then Some(n.value) else None
  }

  /** Ownership of work against a frozen head. */
  datatype Owner = Owner(runId: NonZeroU64, runAttempt: NonZeroU64, head: CommitSha)

  // ----- printing -----

  function Marker(instance: Instance, tail: string): string {
    NAMESPACE + instance + ":" + tail + CLOSE
  }

  function OwnerValue(owner: Owner): string {
    Decimal(owner.runId) + ":" + Decimal(owner.runAttempt) + ":" + owner.head
  }

  function RunOwner(instance: Instance, owner: Owner): string {
    Marker(instance, "run:" + OwnerValue(owner))
  }

  function AnalyzedSha(instance: Instance, sha: CommitSha): string {
    Marker(instance, "analyzed-sha:" + sha)
  }

  function StateMarker(instance: Instance, state: string): string {
    Marker(instance, "state:" + state)
  }

  function StaleStart(instance: Instance): string {
    Marker(instance, "stale:start")
  }

  function StaleEnd(instance: Instance): string {
    Marker(instance, "stale:end")
  }

  // ----- reading -----

  function ValuePrefix(instance: Instance, key: string): string {
    NAMESPACE + instance + ":" + key + ":"
  }

  /** What follows the prefix in each line that carries it. */
  function Values(lines: seq<string>, prefix: string): seq<string> {
    if lines == [] then []
    else
      var value := StripPrefix(lines[0], prefix);
      (if value.Some? then [value.value] else []) + Values(lines[1..], prefix)
  }

  /** The value of the only line that carries the prefix, if its marker is closed. */
  function UniqueValue(lines: seq<string>, prefix: string): Option<string> {
    var values := Values(lines, prefix);
    if |values| == 1 then StripSuffix(values[0], CLOSE) else None
  }

  function FindOwner(body: string, instance: Instance): Option<Owner> {
    var value := UniqueValue(Lines(body), ValuePrefix(instance, "run"));
    if value.None? then None
    else
      var parts := Split(value.value, ':');
      if |parts| != 3 then None
      else
        var run, attempt, head := ParseNonZero(parts[0]), ParseNonZero(parts[1]), ParseSha(parts[2]);
        if run.Some? && attempt.Some? && head.Some? then Some(Owner(run.value, attempt.value, head.value)) else None
  }

  function FindState(body: string, instance: Instance): Option<string> {
    UniqueValue(Lines(body), ValuePrefix(instance, "state"))
  }

  function FindAnalyzedSha(body: string, instance: Instance): Option<CommitSha> {
    var value := UniqueValue(Lines(body), ValuePrefix(instance, "analyzed-sha"));
    if value.None? then None else ParseSha(value.value)
  }

  // ----- one line, several lines -----

  /** Line `k` carries the prefix and no other line does. */
  ghost predicate OnlyCarrier(lines: seq<string>, prefix: string, k: nat) {
    && k < |lines| && StartsWith(lines[k], prefix)
    && forall j :: 0 <= j < |lines| && j != k ==> !StartsWith(lines[j], prefix)
  }

  lemma {:induction false} ValuesAppend(a: seq<string>, b: seq<string>, prefix: string)
    ensures Values(a + b, prefix) == Values(a, prefix) + Values(b, prefix)
    decreases |a|
  {
    if a == [] {
      assert a + b == b;
    } else {
      assert (a + b)[1..] == a[1..] + b;
      ValuesAppend(a[1..], b, prefix);
    }
  }

  ghost predicate Silent(lines: seq<string>, prefix: string) {
    forall j :: 0 <= j < |lines| ==> !StartsWith(lines[j], prefix)
  }

  lemma {:induction false} SilentHasNoValues(lines: seq<string>, prefix: string)
    ensures Silent(lines, prefix) <==> Values(lines, prefix) == []
    decreases |lines|
  {
    if lines != [] {
      SilentHasNoValues(lines[1..], prefix);
      assert Silent(lines, prefix) <==> !StartsWith(lines[0], prefix) && Silent(lines[1..], prefix);
    }
  }

  lemma {:induction false} OnlyCarrierHasTheValue(lines: seq<string>, prefix: string, k: nat)
    requires OnlyCarrier(lines, prefix, k)
    ensures Values(lines, prefix) == [lines[k][|prefix|..]]
  {
    assert lines == lines[..k] + ([lines[k]] + lines[k + 1..]);
    ValuesAppend(lines[..k], [lines[k]] + lines[k + 1..], prefix);
    SilentHasNoValues(lines[..k], prefix);
    SilentHasNoValues(lines[k + 1..], prefix);
    assert ([lines[k]] + lines[k + 1..])[1..] == lines[k + 1..];
  }

  lemma {:induction false} OneValueHasItsCarrier(lines: seq<string>, prefix: string) returns (k: nat)
    requires |Values(lines, prefix)| == 1
    ensures OnlyCarrier(lines, prefix, k)
    decreases |lines|
  {
    if StartsWith(lines[0], prefix) {
      k := 0;
      SilentHasNoValues(lines[1..], prefix);
      assert forall j :: 1 <= j < |lines| ==> lines[j] == lines[1..][j - 1];
    } else {
      var before := OneValueHasItsCarrier(lines[1..], prefix);
      k := before + 1;
      assert forall j :: 1 <= j < |lines| ==> lines[j] == lines[1..][j - 1];
    }
  }

  lemma {:induction false} CarriedValueIsRead(lines: seq<string>, prefix: string, k: nat, value: string)
    requires OnlyCarrier(lines, prefix, k) && lines[k] == prefix + value + CLOSE
    ensures UniqueValue(lines, prefix) == Some(value)
  {
    OnlyCarrierHasTheValue(lines, prefix, k);
    assert lines[k] == prefix + (value + CLOSE);
    assert lines[k][|prefix|..] == value + CLOSE;
  }

  lemma {:induction false} ReadValueIsCarried(lines: seq<string>, prefix: string) returns (k: nat)
    requires UniqueValue(lines, prefix).Some?
    ensures OnlyCarrier(lines, prefix, k) && lines[k] == prefix + UniqueValue(lines, prefix).value + CLOSE
  {
    k := OneValueHasItsCarrier(lines, prefix);
    OnlyCarrierHasTheValue(lines, prefix, k);
    var value := UniqueValue(lines, prefix).value;
    assert prefix + (value + CLOSE) == prefix + value + CLOSE;
    assert lines[k] == prefix + lines[k][|prefix|..];
  }

  /** A value is read exactly if one line alone carries the prefix and is that marker. */
  lemma {:induction false} UniqueValueIsExact(lines: seq<string>, prefix: string, value: string)
    ensures UniqueValue(lines, prefix) == Some(value)
            <==> exists k: nat :: OnlyCarrier(lines, prefix, k) && lines[k] == prefix + value + CLOSE
  {
    if UniqueValue(lines, prefix) == Some(value) {
      var k := ReadValueIsCarried(lines, prefix);
    }
    if k: nat :| OnlyCarrier(lines, prefix, k) && lines[k] == prefix + value + CLOSE {
      CarriedValueIsRead(lines, prefix, k, value);
    }
  }

  /** Two lines under one key make it unreadable. */
  lemma {:induction false} RepeatedIsUnusable(body: string, instance: Instance, key: string, j: nat, k: nat)
    requires j < k < |Lines(body)|
    requires StartsWith(Lines(body)[j], ValuePrefix(instance, key))
             && StartsWith(Lines(body)[k], ValuePrefix(instance, key))
    ensures key == "run" ==> FindOwner(body, instance) == None
    ensures key == "state" ==> FindState(body, instance) == None
    ensures key == "analyzed-sha" ==> FindAnalyzedSha(body, instance) == None
  {
    var lines, prefix := Lines(body), ValuePrefix(instance, key);
    if |Values(lines, prefix)| == 1 {
      var only := OneValueHasItsCarrier(lines, prefix);
    }
  }

  // ----- exact reading -----

  lemma SpellingHasNoColon(s: string, n: nat)
    requires Spells(s, n)
    ensures ':' !in s
  {
  }

  lemma {:induction false} JoinThree(a: string, b: string, c: string)
    ensures Join([a, b, c], ":") == a + ":" + b + ":" + c
  {
    assert [a, b, c][1..] == [b, c] && [b, c][1..] == [c];
    assert Join([b, c], ":") == b + ":" + Join([c], ":");
    assert a + ":" + b + ":" + c == a + ":" + (b + ":" + c);
  }

  lemma {:induction false} SplitThree(a: string, b: string, c: string)
    requires ':' !in a && ':' !in b && ':' !in c
    ensures Split(a + ":" + b + ":" + c, ':') == [a, b, c]
  {
    SplitUndoesJoin([a, b, c], ':');
    JoinThree(a, b, c);
  }

  /** The owners that a value spells: plus signs, leading zeros and upper-case digits of the
      commit are the only freedom. */
  ghost predicate SpellsOwner(value: string, owner: Owner) {
    exists a, b, c ::
      && value == a + ":" + b + ":" + c
      && Spells(a, owner.runId) && Spells(b, owner.runAttempt) && ParseSha(c) == Some(owner.head)
  }

  lemma {:induction false} OwnerValueParses(value: string, owner: Owner)
    ensures var parts := Split(value, ':');
            SpellsOwner(value, owner)
            <==> |parts| == 3 && ParseNonZero(parts[0]) == Some(owner.runId)
                 && ParseNonZero(parts[1]) == Some(owner.runAttempt) && ParseSha(parts[2]) == Some(owner.head)
  {
    var parts := Split(value, ':');
    if |parts| == 3 {
      JoinUndoesSplit(value, ':');
      assert parts == [parts[0], parts[1], parts[2]];
      JoinThree(parts[0], parts[1], parts[2]);
      ParseAcceptsExactlySpellings(parts[0], owner.runId, U64_MAX);
      ParseAcceptsExactlySpellings(parts[1], owner.runAttempt, U64_MAX);
    }
    if SpellsOwner(value, owner) {
      var a, b, c :|
        && value == a + ":" + b + ":" + c
        && Spells(a, owner.runId) && Spells(b, owner.runAttempt) && ParseSha(c) == Some(owner.head);
      SpellingHasNoColon(a, owner.runId);
      SpellingHasNoColon(b, owner.runAttempt);
      SplitThree(a, b, c);
      ParseAcceptsExactlySpellings(a, owner.runId, U64_MAX);
      ParseAcceptsExactlySpellings(b, owner.runAttempt, U64_MAX);
    }
  }

  /** An owner is found in a body exactly if one line alone carries the key, is a closed
      marker, and spells that owner. */
  lemma {:induction false} OwnerIsFoundExactlyWhen(body: string, instance: Instance, owner: Owner)
    ensures FindOwner(body, instance) == Some(owner)
            <==> exists k: nat, value ::
                   && OnlyCarrier(Lines(body), ValuePrefix(instance, "run"), k)
                   && Lines(body)[k] == ValuePrefix(instance, "run") + value + CLOSE
                   && SpellsOwner(value, owner)
  {
    var lines, prefix := Lines(body), ValuePrefix(instance, "run");
    var unique := UniqueValue(lines, prefix);
    if unique.Some? {
      UniqueValueIsExact(lines, prefix, unique.value);
      OwnerValueParses(unique.value, owner);
    }
    if k: nat, value :|
        OnlyCarrier(lines, prefix, k) && lines[k] == prefix + value + CLOSE && SpellsOwner(value, owner) {
      UniqueValueIsExact(lines, prefix, value);
    }
  }

  /** So is a state: the one value under its key, whatever it is. */
  lemma {:induction false} StateIsFoundExactlyWhen(body: string, instance: Instance, state: string)
    ensures FindState(body, instance) == Some(state)
            <==> exists k: nat ::
                   && OnlyCarrier(Lines(body), ValuePrefix(instance, "state"), k)
                   && Lines(body)[k] == ValuePrefix(instance, "state") + state + CLOSE
  {
    UniqueValueIsExact(Lines(body), ValuePrefix(instance, "state"), state);
  }

  const HEX_DIGITS := "0123456789abcdefABCDEF"

  lemma HexDigitsAre(c: char)
    ensures IsHex(c) <==> c in HEX_DIGITS
  {
    if '0' <= c <= '9' { assert HEX_DIGITS[c as int - '0' as int] == c; }
    if 'a' <= c <= 'f' { assert HEX_DIGITS[c as int - 'a' as int + 10] == c; }
    if 'A' <= c <= 'F' { assert HEX_DIGITS[c as int - 'A' as int + 16] == c; }
  }

  lemma ShaParsesExactlyWhen(s: string, sha: CommitSha)
    ensures ParseSha(s) == Some(sha) <==> Lower(s) == sha && forall i :: 0 <= i < |s| ==> s[i] in HEX_DIGITS
  {
    forall i | 0 <= i < |s| ensures IsHex(s[i]) <==> s[i] in HEX_DIGITS {
      HexDigitsAre(s[i]);
    }
  }

  /** And a commit: forty hexadecimal digits in any case, read as lower case. */
  lemma {:induction false} ShaIsFoundExactlyWhen(body: string, instance: Instance, sha: CommitSha)
    ensures FindAnalyzedSha(body, instance) == Some(sha)
            <==> exists k: nat, value ::
                   && OnlyCarrier(Lines(body), ValuePrefix(instance, "analyzed-sha"), k)
                   && Lines(body)[k] == ValuePrefix(instance, "analyzed-sha") + value + CLOSE
                   && (forall i :: 0 <= i < |value| ==> value[i] in HEX_DIGITS) && Lower(value) == sha
  {
    var lines, prefix := Lines(body), ValuePrefix(instance, "analyzed-sha");
    var unique := UniqueValue(lines, prefix);
    if unique.Some? {
      UniqueValueIsExact(lines, prefix, unique.value);
      ShaParsesExactlyWhen(unique.value, sha);
    }
    if k: nat, value :|
        && OnlyCarrier(lines, prefix, k) && lines[k] == prefix + value + CLOSE
        && (forall i :: 0 <= i < |value| ==> value[i] in HEX_DIGITS) && Lower(value) == sha {
      UniqueValueIsExact(lines, prefix, value);
    }
  }

  lemma MarkerIsPrefixed(instance: Instance, key: string, value: string)
    ensures Marker(instance, key + ":" + value) == ValuePrefix(instance, key) + value + CLOSE
  {
    assert NAMESPACE + instance + ":" + (key + ":" + value) == NAMESPACE + instance + ":" + key + ":" + value;
  }

  lemma RunOwnerIsPrefixed(instance: Instance, owner: Owner)
    ensures RunOwner(instance, owner) == ValuePrefix(instance, "run") + OwnerValue(owner) + CLOSE
  {
    MarkerIsPrefixed(instance, "run", OwnerValue(owner));
    assert "run" + ":" + OwnerValue(owner) == "run:" + OwnerValue(owner);
  }

  lemma PrintedOwnerIsSpelled(owner: Owner)
    ensures SpellsOwner(OwnerValue(owner), owner)
  {
    var a, b, c := Decimal(owner.runId), Decimal(owner.runAttempt), owner.head;
    assert a == Zeros(0) + a && b == Zeros(0) + b && Lower(c) == c;
    assert Spells(a, owner.runId) && Spells(b, owner.runAttempt) && ParseSha(c) == Some(c);
  }

  /** What is printed for an instance is read back from any body with one line of the key. */
  lemma {:induction false} OwnerRoundTrips(body: string, instance: Instance, owner: Owner, k: nat)
    requires OnlyCarrier(Lines(body), ValuePrefix(instance, "run"), k) && Lines(body)[k] == RunOwner(instance, owner)
    ensures FindOwner(body, instance) == Some(owner)
  {
    PrintedOwnerIsSpelled(owner);
    RunOwnerIsPrefixed(instance, owner);
    OwnerIsFoundExactlyWhen(body, instance, owner);
  }

  lemma {:induction false} StateRoundTrips(body: string, instance: Instance, state: string, k: nat)
    requires OnlyCarrier(Lines(body), ValuePrefix(instance, "state"), k)
             && Lines(body)[k] == StateMarker(instance, state)
    ensures FindState(body, instance) == Some(state)
  {
    MarkerIsPrefixed(instance, "state", state);
    assert "state" + ":" + state == "state:" + state;
    UniqueValueIsExact(Lines(body), ValuePrefix(instance, "state"), state);
  }

  lemma {:induction false} ShaRoundTrips(body: string, instance: Instance, sha: CommitSha, k: nat)
    requires OnlyCarrier(Lines(body), ValuePrefix(instance, "analyzed-sha"), k)
    requires Lines(body)[k] == AnalyzedSha(instance, sha)
    ensures FindAnalyzedSha(body, instance) == Some(sha)
  {
    MarkerIsPrefixed(instance, "analyzed-sha", sha);
    assert "analyzed-sha" + ":" + sha == "analyzed-sha:" + sha;
    UniqueValueIsExact(Lines(body), ValuePrefix(instance, "analyzed-sha"), sha);
    assert Lower(sha) == sha;
  }

  // ----- no line is read under another instance or key -----

  lemma ColonsLineUp(a: string, b: string, x: string, y: string)
    requires ':' !in a && ':' !in b
    ensures StartsWith(a + ":" + x, b + ":" + y) <==> a == b && StartsWith(x, y)
  {
    var s, p := a + ":" + x, b + ":" + y;
    assert s[|a|] == ':' && p[|b|] == ':';
    assert forall i :: 0 <= i < |a| ==> s[i] == a[i] && a[i] != ':';
    assert forall i :: 0 <= i < |b| ==> p[i] == b[i] && b[i] != ':';
    if StartsWith(s, p) {
      assert forall i :: 0 <= i < |p| ==> p[i] == s[i];
      assert |a| == |b|;
      assert a == s[..|a|] == p[..|b|] == b;
      PrefixSplits(a + ":", y, s);
      assert s[|a + ":"|..] == x;
    }
    if a == b && StartsWith(x, y) {
      assert s[..|p|] == a + ":" + x[..|y|];
    }
  }

  lemma NamespaceCancels(x: string, y: string)
    ensures StartsWith(NAMESPACE + x, NAMESPACE + y) <==> StartsWith(x, y)
  {
    var s, p := NAMESPACE + x, NAMESPACE + y;
    if StartsWith(s, p) {
      PrefixSplits(NAMESPACE, y, s);
      assert s[|NAMESPACE|..] == x;
    }
    if StartsWith(x, y) {
      assert s[..|p|] == NAMESPACE + x[..|y|];
    }
  }

  /** A marker is read under a key exactly if it has that instance and that key: an instance
      name has no colon. */
  lemma MarkersAreSeparate(instance: Instance, tail: string, other: Instance, key: string)
    ensures StartsWith(Marker(instance, tail), ValuePrefix(other, key))
            <==> instance == other && StartsWith(tail + CLOSE, key + ":")
  {
    assert Marker(instance, tail) == NAMESPACE + (instance + ":" + (tail + CLOSE));
    assert ValuePrefix(other, key) == NAMESPACE + (other + ":" + (key + ":"));
    NamespaceCancels(instance + ":" + (tail + CLOSE), other + ":" + (key + ":"));
    ColonsLineUp(instance, other, tail + CLOSE, key + ":");
  }

  /** Markers with a value stay apart by their keys. */
  lemma KeysAreSeparate(instance: Instance, key: string, value: string, other: Instance, wanted: string)
    requires ':' !in key && ':' !in wanted
    ensures StartsWith(Marker(instance, key + ":" + value), ValuePrefix(other, wanted))
            <==> instance == other && key == wanted
  {
    MarkersAreSeparate(instance, key + ":" + value, other, wanted);
    assert key + ":" + value + CLOSE == key + ":" + (value + CLOSE);
    assert wanted + ":" == wanted + ":" + "";
    ColonsLineUp(key, wanted, value + CLOSE, "");
  }

  /** Markers without a value are read under no key. */
  lemma PlainMarkersHaveNoKey(instance: Instance, name: string, other: Instance, wanted: string)
    requires ':' !in name
    ensures !StartsWith(Marker(instance, name), ValuePrefix(other, wanted))
  {
    MarkersAreSeparate(instance, name, other, wanted);
    var s, p := name + CLOSE, wanted + ":";
    assert p[|wanted|] == ':' && forall i :: 0 <= i < |s| ==> s[i] != ':';
    assert |p| <= |s| ==> s[..|p|][|wanted|] == s[|wanted|];
  }
}
