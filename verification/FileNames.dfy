/** Names that every file system takes as one component
    (packages/folo_utils/src/file_name.rs). */
module FileNames {
  import opened Texts

  predicate IsSafe(c: char) {
    IsDigit(c) || 'a' <= c <= 'z' || 'A' <= c <= 'Z' || c == '.' || c == '_' || c == '-'
  }

  function Replaced(name: string): (r: string)
    ensures |r| == |name| && forall i :: 0 <= i < |r| ==> r[i] == if IsSafe(name[i]) then name[i] else '_'
  {
    seq(|name|, i requires 0 <= i < |name| => if IsSafe(name[i]) then name[i] else '_')
  }

  function WithoutTrailingDots(name: string): (r: string)
    ensures r == "" || r[|r| - 1] != '.'
    ensures |r| <= |name| && r == name[..|r|]
  {
    if name != "" && name[|name| - 1] == '.' then WithoutTrailingDots(name[..|name| - 1]) else name
  }

  /** The name up to its first dot. */
  function Stem(name: string): string {
    if name == "" || name[0] == '.' then "" else [name[0]] + Stem(name[1..])
  }

  /** `CON`, `PRN`, `AUX`, `NUL`, and `COM` or `LPT` with one digit, in any letter case and
      with any extension. */
  predicate IsReserved(name: string) {
    var stem := Lower(Stem(name));
    || stem == "con" || stem == "prn" || stem == "aux" || stem == "nul"
    || (|stem| == 4 && (stem[..3] == "com" || stem[..3] == "lpt") && IsDigit(stem[3]))
  }

  function Sanitize(name: string): string {
    var trimmed := WithoutTrailingDots(Replaced(name));
    if trimmed == "" || IsReserved(trimmed) then "_" + trimmed else trimmed
  }

  /** What a path can take as one component of its own, on any system. */
  predicate IsComponent(name: string) {
    && name != "" && name[|name| - 1] != '.' && !IsReserved(name)
    && forall i :: 0 <= i < |name| ==> IsSafe(name[i])
  }

  lemma UnderscoreIsNotReserved(name: string)
    requires name != "" && name[0] == '_'
    ensures !IsReserved(name)
  {
    assert Stem(name)[0] == '_' && Lower(Stem(name))[0] == '_';
    var stem := Lower(Stem(name));
    assert |stem| == 4 ==> stem[..3][0] == '_';
  }

  lemma SanitizedIsComponent(name: string)
    ensures IsComponent(Sanitize(name))
  {
    var trimmed := WithoutTrailingDots(Replaced(name));
    UnderscoreIsNotReserved("_" + trimmed);
  }

  /** Only names that are no component are changed. */
  lemma SanitizedExactlyWhen(name: string)
    ensures Sanitize(name) == name <==> IsComponent(name)
  {
    SanitizedIsComponent(name);
    if IsComponent(name) {
      assert Replaced(name) == name;
    }
  }

  // ----- what is changed, and how -----

  /** The safe characters, written out. */
  lemma SafeCharacters(c: char)
    ensures IsSafe(c) <==> c in UPPER_CASE || c in LOWER_CASE || c in "0123456789" || c in "._-"
  {
    if 'A' <= c <= 'Z' { LettersInOrder(c as int - 'A' as int); }
    if 'a' <= c <= 'z' { LettersInOrder(c as int - 'a' as int); }
    if k :| 0 <= k < 26 && (c == UPPER_CASE[k] || c == LOWER_CASE[k]) { LettersInOrder(k); }
    if '0' <= c <= '9' { assert "0123456789"[c as int - '0' as int] == c; }
  }

  /** Names of devices, in any case. */
  predicate IsDevice(name: string) {
    || Lower(name) in ["con", "prn", "aux", "nul"]
    || (|name| == 4 && Lower(name[..3]) in ["com", "lpt"] && name[3] in "0123456789")
  }

  lemma {:induction false} StemIsBeforeTheDot(name: string)
    ensures '.' !in Stem(name)
    ensures name == Stem(name) || exists extension :: name == Stem(name) + "." + extension
    decreases |name|
  {
    if name != "" && name[0] != '.' {
      StemIsBeforeTheDot(name[1..]);
      assert name == [name[0]] + name[1..];
      if name[1..] != Stem(name[1..]) {
        var extension :| name[1..] == Stem(name[1..]) + "." + extension;
        assert name == Stem(name) + "." + extension;
      }
    } else if name != "" {
      assert name == "" + "." + name[1..];
    }
  }

  lemma {:induction false} StemOfDevice(device: string, rest: string)
    requires '.' !in device && (rest == "" || rest[0] == '.')
    ensures Stem(device + rest) == device
    decreases |device|
  {
    if device == "" {
      assert device + rest == rest;
    } else {
      assert (device + rest)[1..] == device[1..] + rest && device[0] in device;
      StemOfDevice(device[1..], rest);
    }
  }

  lemma DeviceHasNoDot(device: string)
    requires IsDevice(device)
    ensures '.' !in device
  {
    assert LowerChar('.') == '.';
    if i :| 0 <= i < |device| && device[i] == '.' {
      assert Lower(device)[i] == '.';
      if |device| == 4 && i < 3 { assert Lower(device[..3])[i] == '.'; }
    }
  }

  lemma StemDecides(name: string)
    ensures IsReserved(name) <==> IsDevice(Stem(name))
  {
    var stem := Stem(name);
    if |stem| == 4 {
      assert Lower(stem)[..3] == Lower(stem[..3]);
      assert IsDigit(Lower(stem)[3]) <==> IsDigit(stem[3]);
      assert IsDigit(stem[3]) <==> stem[3] in "0123456789" by { Digits(stem[3]); }
    }
  }

  lemma Digits(c: char)
    ensures IsDigit(c) <==> c in "0123456789"
  {
    if '0' <= c <= '9' { assert "0123456789"[c as int - '0' as int] == c; }
  }

  /** A name is reserved exactly if it is a device, or a device with an extension. */
  lemma ReservedExactlyWhen(name: string)
    ensures IsReserved(name)
            <==> IsDevice(name) || exists device, extension :: IsDevice(device) && name == device + "." + extension
  {
    StemDecides(name);
    StemIsBeforeTheDot(name);
    if IsDevice(name) {
      DeviceHasNoDot(name);
      StemOfDevice(name, "");
      assert name + "" == name;
    }
    if device, extension :| IsDevice(device) && name == device + "." + extension {
      DeviceHasNoDot(device);
      StemOfDevice(device, "." + extension);
      assert name == device + ("." + extension);
    }
  }

  /** Up to the trailing dots, which go, every character stays or becomes an underscore; one
      underscore more is put in front exactly if nothing is left or the name is reserved. */
  lemma {:induction false} SanitizedIsExactly(name: string, n: nat)
    requires n <= |name| && (n > 0 ==> name[n - 1] != '.') && forall i :: n <= i < |name| ==> name[i] == '.'
    ensures var kept := Replaced(name[..n]);
            Sanitize(name) == if n == 0 || IsReserved(kept) then "_" + kept else kept
  {
    DotsGo(Replaced(name), n);
    assert Replaced(name)[..n] == Replaced(name[..n]);
  }

  lemma {:induction false} DotsGo(name: string, n: nat)
    requires n <= |name| && (n > 0 ==> name[n - 1] != '.') && forall i :: n <= i < |name| ==> name[i] == '.'
    ensures WithoutTrailingDots(name) == name[..n]
    decreases |name|
  {
    if n < |name| {
      DotsGo(name[..|name| - 1], n);
      assert name[..|name| - 1][..n] == name[..n];
    } else {
      assert name[..n] == name;
    }
  }
}
