/** Strings as Rust's standard library splits, joins and parses them.

    `Split` and `Join` are inverse to each other where the pieces have no separator. `Lines` is
    `str::lines`: a line loses its line feed and one carriage return in front of it, and nothing
    is behind the last line feed. `ParseUnsigned` is `str::parse` for unsigned integers, which
    takes one plus sign and any number of leading zeros. */
module Texts {
  import opened MachineIntegers

  // ----- prefixes -----

  predicate StartsWith(s: string, prefix: string) {
    |prefix| <= |s| && s[..|prefix|] == prefix
  }

  predicate EndsWith(s: string, suffix: string) {
    |suffix| <= |s| && s[|s| - |suffix|..] == suffix
  }

  function StripPrefix(s: string, prefix: string): (r: Option<string>)
    ensures r.Some? <==> StartsWith(s, prefix)
    ensures r.Some? ==> s == prefix + r.value
  {
    if StartsWith(s, prefix) then Some(s[|prefix|..]) else None
  }

  function StripSuffix(s: string, suffix: string): (r: Option<string>)
    ensures r.Some? <==> EndsWith(s, suffix)
    ensures r.Some? ==> s == r.value + suffix
  {
    if EndsWith(s, suffix) then Some(s[..|s| - |suffix|]) else None
  }

  lemma PrefixSplits(p: string, q: string, s: string)
    requires StartsWith(s, p + q)
    ensures StartsWith(s, p) && StartsWith(s[|p|..], q)
  {
    assert s[..|p|] == (p + q)[..|p|] == p;
    assert s[|p|..][..|q|] == s[..|p| + |q|][|p|..] == (p + q)[|p|..] == q;
  }

  // ----- letter case -----

  function LowerChar(c: char): char {
    if 'A' <= c <= 'Z' then c + 32 as char else c
  }

  /** Rust's `to_ascii_lowercase`. */
  function Lower(s: string): (r: string)
    ensures |r| == |s| && forall i :: 0 <= i < |s| ==> r[i] == LowerChar(s[i])
  {
    seq(|s|, i requires 0 <= i < |s| => LowerChar(s[i]))
  }

  const UPPER_CASE := "ABCDEFGHIJKLMNOPQRSTUVWXYZ"
  const LOWER_CASE := "abcdefghijklmnopqrstuvwxyz"

  /** The same character, or one letter of the alphabet in both cases. */
  predicate SameLetter(c: char, d: char) {
    c == d || exists k :: 0 <= k < 26 && {c, d} == {UPPER_CASE[k], LOWER_CASE[k]}
  }

  lemma LettersInOrder(k: nat)
    requires k < 26
    ensures UPPER_CASE[k] as int == 'A' as int + k && LOWER_CASE[k] as int == 'a' as int + k
  {
  }

  lemma LowersAlikeExactlyWhen(c: char, d: char)
    ensures LowerChar(c) == LowerChar(d) <==> SameLetter(c, d)
  {
    if 'A' <= c <= 'Z' { LettersInOrder(c as int - 'A' as int); }
    if 'A' <= d <= 'Z' { LettersInOrder(d as int - 'A' as int); }
    if LowerChar(c) == LowerChar(d) && c != d {
      var k := (if 'A' <= c <= 'Z' then c else d) as int - 'A' as int;
      assert {c, d} == {UPPER_CASE[k], LOWER_CASE[k]};
    }
    if k :| 0 <= k < 26 && {c, d} == {UPPER_CASE[k], LOWER_CASE[k]} {
      LettersInOrder(k);
      assert c in {UPPER_CASE[k], LOWER_CASE[k]} && d in {UPPER_CASE[k], LOWER_CASE[k]};
    }
  }

  /** Two texts fold alike exactly if they differ in the case of letters only; and folding
      leaves no capital letter. */
  lemma FoldAlikeExactlyWhen(s: string, t: string)
    ensures Lower(s) == Lower(t) <==> |s| == |t| && forall i :: 0 <= i < |s| ==> SameLetter(s[i], t[i])
    ensures forall i :: 0 <= i < |s| ==> Lower(s)[i] !in UPPER_CASE
  {
    forall i | 0 <= i < |s| && i < |t| ensures LowerChar(s[i]) == LowerChar(t[i]) <==> SameLetter(s[i], t[i]) {
      LowersAlikeExactlyWhen(s[i], t[i]);
    }
    if Lower(s) == Lower(t) {
      assert forall i :: 0 <= i < |s| ==> Lower(s)[i] == Lower(t)[i];
    }
    forall i, k | 0 <= i < |s| && 0 <= k < 26 ensures Lower(s)[i] != UPPER_CASE[k] {
      LettersInOrder(k);
    }
  }

  // ----- splitting and joining -----

  /** All pieces between separators; the empty string has one empty piece. */
  function Split(s: string, separator: char): (r: seq<string>)
    ensures |r| >= 1
  {
    if s == "" then [""]
    else
      var rest := Split(s[1..], separator);
      if s[0] == separator then [""] + rest else [[s[0]] + rest[0]] + rest[1..]
  }

  function Join(parts: seq<string>, separator: string): string {
    if parts == [] then ""
    else if |parts| == 1 then parts[0]
    else parts[0] + separator + Join(parts[1..], separator)
  }

  lemma {:induction false} SplitWhole(s: string, separator: char)
    requires separator !in s
    ensures Split(s, separator) == [s]
  {
    if s != "" {
      SplitWhole(s[1..], separator);
      assert s[0] in s && [s[0]] + s[1..] == s;
    }
  }

  lemma {:induction false} SplitAppends(a: string, separator: char, b: string)
    ensures Split(a + [separator] + b, separator) == Split(a, separator) + Split(b, separator)
  {
    var s := a + [separator] + b;
    if a == "" {
      assert s[1..] == b;
    } else {
      assert s[1..] == a[1..] + [separator] + b;
      SplitAppends(a[1..], separator, b);
    }
  }

  ghost predicate Free(parts: seq<string>, c: char) {
    forall i :: 0 <= i < |parts| ==> c !in parts[i]
  }

  lemma {:induction false} SplitUndoesJoin(parts: seq<string>, separator: char)
    requires parts != [] && Free(parts, separator)
    ensures Split(Join(parts, [separator]), separator) == parts
    decreases |parts|
  {
    if |parts| == 1 {
      SplitWhole(parts[0], separator);
    } else {
      SplitUndoesJoin(parts[1..], separator);
      SplitWhole(parts[0], separator);
      SplitAppends(parts[0], separator, Join(parts[1..], [separator]));
    }
  }

  lemma {:induction false} JoinUndoesSplit(s: string, separator: char)
    ensures Join(Split(s, separator), [separator]) == s
    ensures Free(Split(s, separator), separator)
  {
    if s != "" {
      JoinUndoesSplit(s[1..], separator);
      var rest := Split(s[1..], separator);
      assert s == [s[0]] + s[1..];
      if s[0] != separator && |rest| > 1 {
        assert ([[s[0]] + rest[0]] + rest[1..])[1..] == rest[1..];
      }
    }
  }

  lemma JoinIsInjective(a: seq<string>, b: seq<string>, separator: char)
    requires a != [] && b != [] && Free(a, separator) && Free(b, separator)
    requires Join(a, [separator]) == Join(b, [separator])
    ensures a == b
  {
    SplitUndoesJoin(a, separator);
    SplitUndoesJoin(b, separator);
  }

  // ----- lines -----

  function WithoutCr(line: string): (r: string)
    ensures r == line || line == r + "\r"
  {
    if line != "" && line[|line| - 1] == '\r' then line[..|line| - 1] else line
  }

  /** Pieces between line feeds as lines: only a piece that a line feed ends loses one
      carriage return, and an empty last piece is no line. */
  function Terminated(pieces: seq<string>): seq<string> {
    if pieces == [] then []
    else if |pieces| == 1 then (if pieces[0] == "" then [] else pieces)
    else [WithoutCr(pieces[0])] + Terminated(pieces[1..])
  }

  function Lines(s: string): seq<string> {
    Terminated(Split(s, '\n'))
  }

  lemma {:induction false} TerminatedIsFree(pieces: seq<string>)
    requires Free(pieces, '\n')
    ensures Free(Terminated(pieces), '\n')
    decreases |pieces|
  {
    if |pieces| > 1 {
      TerminatedIsFree(pieces[1..]);
    }
  }

  lemma LinesAreFree(s: string)
    ensures Free(Lines(s), '\n')
  {
    JoinUndoesSplit(s, '\n');
    TerminatedIsFree(Split(s, '\n'));
  }

  lemma LinesOfJoin(lines: seq<string>)
    requires Free(lines, '\n')
    ensures Lines(Join(lines, "\n")) == Terminated(lines)
  {
    if lines != [] {
      SplitUndoesJoin(lines, '\n');
    }
  }

  /** Lines that line feeds end, read back. */
  function Stripped(lines: seq<string>): seq<string> {
    if lines == [] then [] else [WithoutCr(lines[0])] + Stripped(lines[1..])
  }

  lemma {:induction false} TerminatedAppends(a: seq<string>, b: seq<string>)
    requires b != []
    ensures Terminated(a + b) == Stripped(a) + Terminated(b)
    decreases |a|
  {
    if a == [] {
      assert a + b == b;
    } else {
      assert (a + b)[1..] == a[1..] + b;
      TerminatedAppends(a[1..], b);
    }
  }

  // ----- decimal numbers -----

  predicate IsDigit(c: char) {
    '0' <= c <= '9'
  }

  ghost predicate AllDigits(s: string) {
    forall i :: 0 <= i < |s| ==> IsDigit(s[i])
  }

  function Digit(n: nat): (c: char)
    requires n < 10
    ensures IsDigit(c) && c as int == '0' as int + n
  {
    '0' + n as char
  }

  /** The canonical decimal form: no sign, no leading zero. */
  function Decimal(n: nat): (s: string)
    ensures s != "" && AllDigits(s)
  {
    if n < 10 then [Digit(n)] else Decimal(n / 10) + [Digit(n % 10)]
  }

  /** The number that a string of digits spells, or none if it has any other character. */
  function Value(s: string): Option<nat> {
    if s == "" then Some(0)
    else
      var last := s[|s| - 1];
      var rest := Value(s[..|s| - 1]);
      if rest.Some? && IsDigit(last) then Some(10 * rest.value + (last as int - '0' as int)) else None
  }

  /** Rust's `str::parse` for an unsigned integer up to `max`: one leading plus sign is
      allowed, at least one digit is needed, and a number above `max` is refused. */
  function ParseUnsigned(s: string, max: nat): Option<nat> {
    var digits := if s != "" && s[0] == '+' then s[1..] else s;
    if digits == "" then None
    else
      var n := Value(digits);
      if n.Some? && n.value <= max then n else None
  }

  lemma {:induction false} ValueOfDecimal(n: nat)
    ensures Value(Decimal(n)) == Some(n)
  {
    var s := Decimal(n);
    if n >= 10 {
      ValueOfDecimal(n / 10);
      assert s[..|s| - 1] == Decimal(n / 10);
    } else {
      assert s[..0] == "";
    }
  }

  lemma ParseUndoesDecimal(n: nat, max: nat)
    requires n <= max
    ensures ParseUnsigned(Decimal(n), max) == Some(n)
  {
    ValueOfDecimal(n);
    assert IsDigit(Decimal(n)[0]);
  }

  function Zeros(count: nat): (s: string)
    ensures |s| == count && forall i :: 0 <= i < count ==> s[i] == '0'
  {
    seq(count, i => '0')
  }

  /** What a nonempty string of digits spells: its decimal form behind some zeros. */
  lemma {:induction false} ValueSpells(s: string) returns (zeros: nat)
    requires s != "" && Value(s).Some?
    ensures s == Zeros(zeros) + Decimal(Value(s).value)
  {
    var rest := s[..|s| - 1];
    var n := Value(s).value;
    assert s == rest + [s[|s| - 1]] && [s[|s| - 1]] == [Digit(n % 10)];
    if rest == "" {
      zeros := 0;
      assert s == Zeros(0) + Decimal(n);
    } else {
      var before := ValueSpells(rest);
      if Value(rest).value == 0 {
        assert Decimal(0) == "0";
        zeros := before + 1;
        assert rest == Zeros(zeros);
        assert Decimal(n) == [Digit(n)];
      } else {
        zeros := before;
        assert Decimal(n) == Decimal(n / 10) + [Digit(n % 10)];
        assert s == Zeros(zeros) + (Decimal(n / 10) + [Digit(n % 10)]);
      }
    }
  }

  lemma {:induction false} ValueSkipsZeros(zeros: nat, s: string)
    ensures Value(Zeros(zeros) + s) == Value(s)
    decreases zeros + |s|
  {
    var whole := Zeros(zeros) + s;
    if s != "" {
      assert whole[..|whole| - 1] == Zeros(zeros) + s[..|s| - 1];
      ValueSkipsZeros(zeros, s[..|s| - 1]);
    } else if zeros > 0 {
      assert whole[..|whole| - 1] == Zeros(zeros - 1) + s;
      ValueSkipsZeros((zeros - 1) as nat, s);
    }
  }

  /** The spellings of `n`: its decimal form, behind any zeros and one optional plus sign. */
  ghost predicate Spells(s: string, n: nat) {
    exists zeros: nat :: var digits := Zeros(zeros) + Decimal(n); s == digits || s == "+" + digits
  }

  lemma AcceptedIsSpelled(s: string, max: nat)
    requires ParseUnsigned(s, max).Some?
    ensures Spells(s, ParseUnsigned(s, max).value)
  {
    var digits := if s[0] == '+' then s[1..] else s;
    var zeros := ValueSpells(digits);
    var spelled := Zeros(zeros) + Decimal(ParseUnsigned(s, max).value);
    assert digits == spelled;
    assert s == spelled || s == "+" + spelled;
  }

  lemma ParseSkipsPlus(digits: string, n: nat, max: nat)
    requires digits != "" && digits[0] != '+' && Value(digits) == Some(n) && n <= max
    ensures ParseUnsigned(digits, max) == Some(n) == ParseUnsigned("+" + digits, max)
  {
    assert ("+" + digits)[1..] == digits;
  }

  lemma DigitsSpelled(zeros: nat, n: nat)
    ensures var digits := Zeros(zeros) + Decimal(n); digits[0] != '+' && Value(digits) == Some(n)
  {
    ValueSkipsZeros(zeros, Decimal(n));
    ValueOfDecimal(n);
    assert IsDigit(Decimal(n)[0]);
  }

  lemma SpelledIsAccepted(s: string, n: nat, max: nat)
    requires n <= max && Spells(s, n)
    ensures ParseUnsigned(s, max) == Some(n)
  {
    var zeros: nat :| var digits := Zeros(zeros) + Decimal(n); s == digits || s == "+" + digits;
    DigitsSpelled(zeros, n);
    ParseSkipsPlus(Zeros(zeros) + Decimal(n), n, max);
  }

  lemma ParseAcceptsExactlySpellings(s: string, n: nat, max: nat)
    ensures ParseUnsigned(s, max) == Some(n) <==> n <= max && Spells(s, n)
  {
    if ParseUnsigned(s, max) == Some(n) {
      AcceptedIsSpelled(s, max);
    }
    if n <= max && Spells(s, n) {
      SpelledIsAccepted(s, n, max);
    }
  }
}
