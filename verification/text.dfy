/** String helpers shared by the games and the gallery components.

    Strings are `seq<char>` and are treated as ASCII text: JavaScript's
    UTF-16 lengths and full Unicode case mapping are not modelled. */
module Text {

  /** `parts.join('')`: the concatenation of a sequence of strings. */
  function Join(parts: seq<string>): string
  {
    if parts == [] then [] else parts[0] + Join(parts[1..])
  }

  lemma {:induction false} JoinLengthBound(parts: seq<string>)
    requires forall i :: 0 <= i < |parts| ==> |parts[i]| <= 1
    ensures |Join(parts)| <= |parts|
  {
    if parts != [] {
      JoinLengthBound(parts[1..]);
    }
  }

  /** When every part holds at most one character, the joined string equals
      `target` exactly when every part is the matching one-character string:
      an empty part makes the joined string too short. */
  lemma {:induction false} JoinOfSingles(parts: seq<string>, target: string)
    requires |parts| == |target|
    requires forall i :: 0 <= i < |parts| ==> |parts[i]| <= 1
    ensures Join(parts) == target <==> forall i :: 0 <= i < |parts| ==> parts[i] == [target[i]]
  {
    if parts != [] {
      var rest, trest := parts[1..], target[1..];
      JoinOfSingles(rest, trest);
      JoinLengthBound(rest);
      assert Join(parts) == parts[0] + Join(rest);
      if parts[0] == [] {
        assert |Join(parts)| < |target|;
        assert parts[0] != [target[0]];
      } else {
        assert |parts[0]| == 1;
        if Join(parts) == target {
          assert parts[0] == [target[0]] by {
            assert Join(parts)[0] == parts[0][0];
          }
          assert Join(rest) == trest by {
            assert Join(parts)[1..] == Join(rest);
          }
          forall i | 0 <= i < |parts|
            ensures parts[i] == [target[i]]
          {
            if i > 0 {
              assert rest[i - 1] == [trest[i - 1]];
            }
          }
        }
        if forall i :: 0 <= i < |parts| ==> parts[i] == [target[i]] {
          assert forall i :: 0 <= i < |rest| ==> rest[i] == [trest[i]] by {
            forall i | 0 <= i < |rest|
              ensures rest[i] == [trest[i]]
            {
              assert parts[i + 1] == [target[i + 1]];
            }
          }
          assert Join(rest) == trest;
          assert Join(parts) == [target[0]] + trest;
          assert [target[0]] + trest == target;
        }
      }
    }
  }

  // ---------------------------------------------------------------------
  // Letters

  predicate IsUpperLetter(c: char) {
    'A' <= c <= 'Z'
  }

  predicate IsLowerLetter(c: char) {
    'a' <= c <= 'z'
  }

  /** ASCII `toUpperCase` of one character. */
  function UpperAscii(c: char): (u: char)
    ensures IsLowerLetter(c) ==> IsUpperLetter(u) && u as int == c as int - 32
    ensures !IsLowerLetter(c) ==> u == c
  {
    if IsLowerLetter(c) then (c as int - 32) as char else c
  }

  /** `value.toUpperCase().replace(/[^A-Z]/g, '')`: the ASCII letters of
      `value`, upper-cased, in their original order. */
  function Sanitize(value: string): (r: string)
    ensures |r| <= |value|
    ensures forall i :: 0 <= i < |r| ==> IsUpperLetter(r[i])
  {
    if value == [] then []
    else
      var u := UpperAscii(value[0]);
      (if IsUpperLetter(u) then [u] else []) + Sanitize(value[1..])
  }

  /** Sanitising keeps exactly the letters: a string of upper-case letters
      is left as it is, so sanitising twice is sanitising once. */
  lemma {:induction false} SanitizeKeepsLetters(value: string)
    requires forall i :: 0 <= i < |value| ==> IsUpperLetter(value[i])
    ensures Sanitize(value) == value
  {
    if value != [] {
      SanitizeKeepsLetters(value[1..]);
    }
  }

  lemma SanitizeIdempotent(value: string)
    ensures Sanitize(Sanitize(value)) == Sanitize(value)
  {
    SanitizeKeepsLetters(Sanitize(value));
  }

  /** A single typed character survives sanitising exactly when it is an
      ASCII letter, and then it is upper-cased. */
  lemma SanitizeOneChar(c: char)
    ensures IsUpperLetter(c) || IsLowerLetter(c) ==> Sanitize([c]) == [UpperAscii(c)]
    ensures !IsUpperLetter(c) && !IsLowerLetter(c) ==> Sanitize([c]) == []
  {
    assert [c][1..] == [];
  }

  // ---------------------------------------------------------------------
  // Trimming

  /** The white-space characters `String.prototype.trim` removes, limited
      to the ASCII ones plus no-break space and the byte-order mark. */
  predicate IsSpace(c: char) {
    c == ' ' || c == '\t' || c == '\n' || c == '\r' || c == '\U{000B}' || c == '\U{000C}'
    || c == '\U{00A0}' || c == '\U{FEFF}'
  }

  predicate IsBlank(s: string) {
    forall i :: 0 <= i < |s| ==> IsSpace(s[i])
  }

  function TrimStart(s: string): (r: string)
    ensures |r| <= |s| && r == s[|s| - |r|..]
    ensures r == [] || !IsSpace(r[0])
    ensures IsBlank(s[..|s| - |r|])
  {
    if s != [] && IsSpace(s[0]) then
      var r := TrimStart(s[1..]);
      assert s[..|s| - |r|] == [s[0]] + s[1..][..|s| - 1 - |r|];
      r
    else s
  }

  function TrimEnd(s: string): (r: string)
    ensures |r| <= |s| && r == s[..|r|]
    ensures r == [] || !IsSpace(r[|r| - 1])
    ensures IsBlank(s[|r|..])
  {
    if s != [] && IsSpace(s[|s| - 1]) then
      var r := TrimEnd(s[..|s| - 1]);
      assert s[|r|..] == s[..|s| - 1][|r|..] + [s[|s| - 1]];
      r
    else s
  }

  /** `s.trim()`: `s` without leading and trailing white space. */
  function Trim(s: string): (r: string)
    ensures r == [] || (!IsSpace(r[0]) && !IsSpace(r[|r| - 1]))
  {
    TrimEnd(TrimStart(s))
  }

  /** A string trims to the empty string exactly when it is all white space. */
  lemma TrimEmptyIffBlank(s: string)
    ensures Trim(s) == [] <==> IsBlank(s)
  {
    var a := TrimStart(s);
    if Trim(s) == [] {
      assert IsBlank(a[0..]);
      assert s == s[..|s| - |a|] + a;
    } else {
      var r := Trim(s);
      assert a[..|r|] == r;
      assert s[|s| - |a|] == r[0];
      assert !IsSpace(s[|s| - |a|]);
    }
  }

  // ---------------------------------------------------------------------
  // Separators and lines

  /** The text before the first `sep`, or all of `s` when there is none. */
  function Before(s: string, sep: char): (r: string)
    ensures sep !in r
    ensures |r| <= |s| && r == s[..|r|]
    ensures |r| < |s| ==> s[|r|] == sep
  {
    if s == [] || s[0] == sep then [] else [s[0]] + Before(s[1..], sep)
  }

  /** Text joined at a separator it does not contain splits back there. */
  lemma {:induction false} BeforeJoined(a: string, sep: char, b: string)
    requires sep !in a
    ensures Before(a + [sep] + b, sep) == a
  {
    if a != [] {
      assert (a + [sep] + b)[1..] == a[1..] + [sep] + b;
      BeforeJoined(a[1..], sep, b);
    }
  }

  /** `s.split('\n')`: the lines of `s`. */
  function Lines(s: string): (ls: seq<string>)
    ensures |ls| >= 1
    ensures forall i :: 0 <= i < |ls| ==> '\n' !in ls[i]
    decreases |s|
  {
    var first := Before(s, '\n');
    if |first| == |s| then [s] else [first] + Lines(s[|first| + 1..])
  }

  /** Splitting a line followed by more text gives that line first. */
  lemma LinesOfJoined(a: string, b: string)
    requires '\n' !in a
    ensures Lines(a + "\n" + b) == [a] + Lines(b)
  {
    var s := a + "\n" + b;
    BeforeJoined(a, '\n', b);
    assert s[|a| + 1..] == b;
  }

  // ---------------------------------------------------------------------
  // Decimal numerals

  predicate IsDigit(c: char) {
    '0' <= c <= '9'
  }

  function DigitChar(d: nat): (c: char)
    requires d < 10
    ensures IsDigit(c) && c as int - '0' as int == d
  {
    ('0' as int + d) as char
  }

  /** The decimal numeral of `n`, as a template literal prints a whole number. */
  function NatToDecimal(n: nat): (r: string)
    ensures |r| >= 1
    ensures forall i :: 0 <= i < |r| ==> IsDigit(r[i])
  {
    if n < 10 then [DigitChar(n)] else NatToDecimal(n / 10) + [DigitChar(n % 10)]
  }

  /** The number a string of decimal digits denotes. */
  function DecimalValue(s: string): nat
    requires forall i :: 0 <= i < |s| ==> IsDigit(s[i])
  {
    if s == [] then 0
    else DecimalValue(s[..|s| - 1]) * 10 + DigitValue(s[|s| - 1])
  }

  function DigitValue(c: char): (d: nat)
    requires IsDigit(c)
    ensures d < 10
  {
    assert '0' as int <= c as int <= '9' as int;
    c as int - '0' as int
  }

  lemma {:induction false} DecimalRoundTrip(n: nat)
    ensures DecimalValue(NatToDecimal(n)) == n
  {
    if n >= 10 {
      var r := NatToDecimal(n);
      assert r[..|r| - 1] == NatToDecimal(n / 10);
      DecimalRoundTrip(n / 10);
    }
  }
}
