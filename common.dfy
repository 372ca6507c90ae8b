/** Shared vocabulary: the outcomes of Python calls (values or raised
    exceptions) and the handful of Python string and integer operations the
    configuration and command-line code relies on. */
module Common {

  datatype Option<+T> = None | Some(value: T)

  /** The exceptions the modelled code raises or lets escape. */
  datatype Error =
    | ConfigurationError(what: string)   // elasticluster.exceptions.ConfigurationError, naming the key, field or section
    | NoSectionError(section: string)    // ConfigParser.NoSectionError
    | NoOptionError(option: string)      // ConfigParser.NoOptionError
    | KeyError(key: string)              // a dict lookup or pop on a missing key
    | ValueError                         // int() on a malformed string
    | TypeError                          // a number where a string is concatenated
    | IndexError                         // indexing an empty string, pop() from an empty list
    | UnboundLocalError(variable: string)
    | NodeNotFound
    | ClusterNotFound(name: string)

  datatype Result<+T> = Ok(value: T) | Err(error: Error) {
    predicate IsFailure() { Err? }
    function PropagateFailure<U>(): Result<U> requires Err? { Err(error) }
    function Extract(): T requires Ok? { value }
  }

  /** `dict(a.items() + b.items())`: every key of either map, and on a
      collision the right-hand value. */
  function Merge<K, V>(a: map<K, V>, b: map<K, V>): (r: map<K, V>)
    ensures r.Keys == a.Keys + b.Keys
    ensures forall k :: k in b ==> r[k] == b[k]
    ensures forall k :: k in a && k !in b ==> r[k] == a[k]
  {
    a + b
  }

  predicate StartsWith(s: string, prefix: string) {
    |prefix| <= |s| && s[..|prefix|] == prefix
  }

  predicate EndsWith(s: string, suffix: string) {
    |suffix| <= |s| && s[|s| - |suffix|..] == suffix
  }

  predicate Distinct<T(==)>(s: seq<T>) {
    forall i, j :: 0 <= i < j < |s| ==> s[i] != s[j]
  }

  // ---------------------------------------------------------------------
  // str.strip(chars)

  /** `s.lstrip(cs)`: drops every leading character that is in `cs`. */
  function StripLeft(s: string, cs: set<char>): (r: string)
    ensures |r| <= |s|
  {
    if s != [] && s[0] in cs then StripLeft(s[1..], cs) else s
  }

  /** `s.rstrip(cs)`: drops every trailing character that is in `cs`. */
  function StripRight(s: string, cs: set<char>): (r: string)
    ensures |r| <= |s|
  {
    if s != [] && s[|s| - 1] in cs then StripRight(s[..|s| - 1], cs) else s
  }

  /** `s.strip(cs)`: what is left once the characters of `cs` are taken off
      both ends. */
  function Strip(s: string, cs: set<char>): string {
    StripRight(StripLeft(s, cs), cs)
  }

  /** What `strip` leaves neither starts nor ends with a stripped
      character. */
  lemma StripEnds(s: string, cs: set<char>)
    ensures var r := Strip(s, cs); r == [] || (r[0] !in cs && r[|r| - 1] !in cs)
  {
    StripLeftShape(s, cs);
    StripRightShape(StripLeft(s, cs), cs);
  }

  /** `lstrip` drops a prefix made only of characters of `cs`, and what is
      left does not start with one. */
  lemma {:induction false} StripLeftShape(s: string, cs: set<char>)
    ensures var r := StripLeft(s, cs);
            && r == s[|s| - |r|..]
            && (forall i :: 0 <= i < |s| - |r| ==> s[i] in cs)
            && (r == [] || r[0] !in cs)
  {
    if s != [] && s[0] in cs {
      StripLeftShape(s[1..], cs);
      var r := StripLeft(s, cs);
      assert s[1..][|s| - 1 - |r|..] == s[|s| - |r|..];
      forall i | 0 <= i < |s| - |r| ensures s[i] in cs {
        if i > 0 {
          assert s[1..][i - 1] == s[i];
        }
      }
    }
  }

  /** `rstrip` drops a suffix made only of characters of `cs`, and what is
      left does not end with one. */
  lemma {:induction false} StripRightShape(s: string, cs: set<char>)
    ensures var r := StripRight(s, cs);
            && r == s[..|r|]
            && (forall i :: |r| <= i < |s| ==> s[i] in cs)
            && (r == [] || r[|r| - 1] !in cs)
  {
    if s != [] && s[|s| - 1] in cs {
      StripRightShape(s[..|s| - 1], cs);
      var r := StripRight(s, cs);
      assert s[..|s| - 1][..|r|] == s[..|r|];
      forall i | |r| <= i < |s| ensures s[i] in cs {
        if i < |s| - 1 {
          assert s[..|s| - 1][i] == s[i];
        }
      }
    }
  }

  lemma StripIdempotent(s: string, cs: set<char>)
    ensures Strip(Strip(s, cs), cs) == Strip(s, cs)
  {
    var t := Strip(s, cs);
    StripEnds(s, cs);
    assert StripLeft(t, cs) == t;
    assert StripRight(t, cs) == t;
  }

  // ---------------------------------------------------------------------
  // str.split(sep) and its inverse, sep.join(parts)

  /** `s.split(sep)` for a one-character separator: the pieces between the
      separators, empty ones included (`"".split(",") == [""]`). */
  function Split(s: string, sep: char): (r: seq<string>)
    ensures |r| >= 1
    ensures forall i :: 0 <= i < |r| ==> sep !in r[i]
    decreases |s|
  {
    if s == [] then [""]
    else
      var rest := Split(s[1..], sep);
      if s[0] == sep then [""] + rest
      else [[s[0]] + rest[0]] + rest[1..]
  }

  function Join(parts: seq<string>, sep: char): string
    requires |parts| >= 1
  {
    if |parts| == 1 then parts[0] else parts[0] + [sep] + Join(parts[1..], sep)
  }

  lemma {:induction false} JoinSplit(s: string, sep: char)
    ensures Join(Split(s, sep), sep) == s
    decreases |s|
  {
    if s != [] {
      var rest := Split(s[1..], sep);
      JoinSplit(s[1..], sep);
      if s[0] == sep {
        assert Split(s, sep) == [""] + rest;
        assert Join([""] + rest, sep) == [sep] + Join(rest, sep);
      } else if |rest| == 1 {
        assert Split(s, sep) == [[s[0]] + rest[0]];
      } else {
        assert Split(s, sep) == [[s[0]] + rest[0]] + rest[1..];
        assert Join(rest, sep) == rest[0] + [sep] + Join(rest[1..], sep);
      }
    }
  }

  lemma {:induction false} SplitJoin(parts: seq<string>, sep: char)
    requires |parts| >= 1
    requires forall i :: 0 <= i < |parts| ==> sep !in parts[i]
    ensures Split(Join(parts, sep), sep) == parts
    decreases |parts|, |parts[0]|
  {
    if |parts| == 1 {
      SplitPiece(parts[0], sep);
    } else if parts[0] == [] {
      var tail := parts[1..];
      SplitJoin(tail, sep);
      assert Join(parts, sep) == [sep] + Join(tail, sep);
      assert parts == [""] + tail;
    } else {
      var p := parts[0];
      var parts' := [p[1..]] + parts[1..];
      assert forall i :: 0 <= i < |parts'| ==> sep !in parts'[i] by {
        forall i | 0 <= i < |parts'| ensures sep !in parts'[i] {
          if i == 0 { assert forall c :: c in p[1..] ==> c in p; }
        }
      }
      SplitJoin(parts', sep);
      assert Join(parts, sep) == [p[0]] + Join(parts', sep);
      assert [p[0]] + p[1..] == p;
    }
  }

  lemma {:induction false} SplitPiece(s: string, sep: char)
    requires sep !in s
    ensures Split(s, sep) == [s]
    decreases |s|
  {
    if s != [] {
      assert sep !in s[1..] by { assert forall c :: c in s[1..] ==> c in s; }
      SplitPiece(s[1..], sep);
      assert [s[0]] + s[1..] == s;
    }
  }

  // ---------------------------------------------------------------------
  // Decimal integers: int(s) and "%d" / "%03d"

  const Whitespace: set<char> := {' ', '\t', '\n', '\r', '\U{000B}', '\U{000C}'}

  predicate IsDigit(c: char) { '0' <= c <= '9' }

  predicate AllDigits(s: string) { forall i :: 0 <= i < |s| ==> IsDigit(s[i]) }

  /** The value of a string of decimal digits, most significant first. */
  function DigitsValue(s: string): (n: nat)
    requires AllDigits(s)
  {
    if s == [] then 0 else DigitsValue(s[..|s| - 1]) * 10 + (s[|s| - 1] as int - '0' as int)
  }

  /** Python 2's `int(s)` in base 10: surrounding whitespace, an optional
      sign, more whitespace after the sign, and at least one digit; `None`
      where Python raises `ValueError`. */
  function ParseInt(s: string): Option<int> {
    ParseSigned(Strip(s, Whitespace))
  }

  function ParseSigned(t: string): Option<int> {
    if |t| > 0 && t[0] == '-' then
      match ParseUnsigned(StripLeft(t[1..], Whitespace))
      case Some(v) => Some(-v)
      case None => None
    else if |t| > 0 && t[0] == '+' then ParseUnsigned(StripLeft(t[1..], Whitespace))
    else ParseUnsigned(t)
  }

  function ParseUnsigned(d: string): Option<int> {
    if |d| > 0 && AllDigits(d) then Some(DigitsValue(d)) else None
  }

  /** `"%d" % n` for a natural number: no sign and no leading zero. */
  function ShowNat(n: nat): (s: string)
    ensures |s| >= 1 && AllDigits(s)
    ensures |s| > 1 ==> s[0] != '0'
  {
    if n < 10 then [('0' as int + n) as char] else ShowNat(n / 10) + [('0' as int + n % 10) as char]
  }

  /** `"%03d" % n`: the decimal digits of `n`, zero-padded on the left to width 3. */
  function Format03(n: nat): (s: string)
    ensures |s| >= 3 && AllDigits(s)
  {
    var d := ShowNat(n);
    seq(if |d| < 3 then 3 - |d| else 0, _ => '0') + d
  }

  lemma {:induction false} ShowNatValue(n: nat)
    ensures DigitsValue(ShowNat(n)) == n
  {
    if n >= 10 {
      ShowNatValue(n / 10);
      var s := ShowNat(n);
      assert s[..|s| - 1] == ShowNat(n / 10);
    }
  }

  lemma {:induction false} LeadingZerosValue(z: nat, d: string)
    requires AllDigits(d)
    ensures AllDigits(seq(z, _ => '0') + d)
    ensures DigitsValue(seq(z, _ => '0') + d) == DigitsValue(d)
    decreases |d|
  {
    var s := seq(z, _ => '0') + d;
    if d == [] {
      assert s == seq(z, _ => '0');
      ZerosValue(z);
    } else {
      LeadingZerosValue(z, d[..|d| - 1]);
      assert s[..|s| - 1] == seq(z, _ => '0') + d[..|d| - 1];
    }
  }

  lemma {:induction false} ZerosValue(z: nat)
    ensures AllDigits(seq(z, _ => '0')) && DigitsValue(seq(z, _ => '0')) == 0
  {
    if z > 0 {
      ZerosValue(z - 1);
      assert seq(z, _ => '0')[..z - 1] == seq(z - 1, _ => '0');
    }
  }

  /** `int("%03d" % n) == n`: the padded index in a node name reads back as
      the index. */
  lemma ParseFormat03(n: nat)
    ensures ParseInt(Format03(n)) == Some(n)
  {
    var d := ShowNat(n);
    var s := Format03(n);
    var z := if |d| < 3 then 3 - |d| else 0;
    LeadingZerosValue(z, d);
    ShowNatValue(n);
    ParseDigits(s);
  }

  /** `int(str(n)) == n` for every natural number. */
  lemma ParseShowNat(n: nat)
    ensures ParseInt(ShowNat(n)) == Some(n)
  {
    ShowNatValue(n);
    ParseDigits(ShowNat(n));
  }

  /** A non-empty run of digits parses as its value. */
  lemma ParseDigits(s: string)
    requires |s| >= 1 && AllDigits(s)
    ensures ParseInt(s) == Some(DigitsValue(s))
  {
    assert ParseSigned(s) == ParseUnsigned(s) by { assert IsDigit(s[0]); }
    assert ParseInt(s) == ParseSigned(s) by { DigitsUnstripped(s); }
  }

  /** Whitespace may separate the sign from the digits in Python 2:
      `int("- 3")` is -3. */
  lemma ParseSignSpace(sign: char, w: char, d: string)
    requires (sign == '-' || sign == '+') && w in Whitespace && |d| >= 1 && AllDigits(d)
    ensures ParseInt([sign, w] + d) == Some(if sign == '-' then -(DigitsValue(d) as int) else DigitsValue(d))
  {
    SpaceThenDigits(w, d);
    var m := [sign, w] + d;
    assert m[1..] == [w] + d && m[|m| - |d|..] == d;
    SignedDigits(m, d);
    SignedUnstripped(m, d);
  }

  lemma SpaceThenDigits(w: char, d: string)
    requires w in Whitespace && |d| >= 1 && AllDigits(d)
    ensures StripLeft([w] + d, Whitespace) == d
  {
    var s := [w] + d;
    assert s[0] == w && s[1..] == d;
    LeadingDigit(d);
  }

  /** A sign, then whatever `lstrip` reduces to the digits `d`. */
  lemma SignedDigits(m: string, d: string)
    requires |m| > 0 && (m[0] == '-' || m[0] == '+')
    requires |d| >= 1 && AllDigits(d) && StripLeft(m[1..], Whitespace) == d
    ensures ParseSigned(m) == Some(if m[0] == '-' then -(DigitsValue(d) as int) else DigitsValue(d))
  {
  }

  /** A string that starts with a sign and ends with the digits `d` is left
      alone by `strip`. */
  lemma SignedUnstripped(s: string, d: string)
    requires |d| >= 1 && AllDigits(d) && |s| > |d| && s[|s| - |d|..] == d
    requires s[0] == '-' || s[0] == '+'
    ensures Strip(s, Whitespace) == s
  {
    assert s[|s| - 1] == d[|d| - 1] && IsDigit(d[|d| - 1]);
    assert StripLeft(s, Whitespace) == s;
    assert StripRight(s, Whitespace) == s;
  }

  /** `lstrip` leaves alone a string that starts with a digit. */
  lemma LeadingDigit(d: string)
    requires |d| >= 1 && IsDigit(d[0])
    ensures StripLeft(d, Whitespace) == d
  {
  }

  lemma DigitsUnstripped(s: string)
    requires |s| >= 1 && AllDigits(s)
    ensures Strip(s, Whitespace) == s
  {
    assert IsDigit(s[0]) && s[0] !in Whitespace;
    assert StripLeft(s, Whitespace) == s;
    assert IsDigit(s[|s| - 1]) && s[|s| - 1] !in Whitespace;
    assert StripRight(s, Whitespace) == s;
  }

  /** Two indexes give the same padded string only if they are equal. */
  lemma Format03Injective(i: nat, j: nat)
    requires Format03(i) == Format03(j)
    ensures i == j
  {
    ParseFormat03(i);
    ParseFormat03(j);
  }

  // ---------------------------------------------------------------------
  // Python's ordering of strings (code point by code point, a proper prefix first)

  predicate LexLessEq(a: string, b: string) {
    if a == [] then true
    else if b == [] then false
    else if a[0] != b[0] then a[0] < b[0]
    else LexLessEq(a[1..], b[1..])
  }

  lemma {:induction false} LexReflexive(a: string)
    ensures LexLessEq(a, a)
  {
    if a != [] { LexReflexive(a[1..]); }
  }

  lemma {:induction false} LexTotal(a: string, b: string)
    ensures LexLessEq(a, b) || LexLessEq(b, a)
  {
    if a != [] && b != [] && a[0] == b[0] { LexTotal(a[1..], b[1..]); }
  }

  lemma {:induction false} LexAntisymmetric(a: string, b: string)
    requires LexLessEq(a, b) && LexLessEq(b, a)
    ensures a == b
  {
    if a != [] && b != [] {
      LexAntisymmetric(a[1..], b[1..]);
      assert a == [a[0]] + a[1..] && b == [b[0]] + b[1..];
    }
  }

  lemma {:induction false} LexTransitive(a: string, b: string, c: string)
    requires LexLessEq(a, b) && LexLessEq(b, c)
    ensures LexLessEq(a, c)
  {
    if a != [] && b != [] && c != [] && a[0] == b[0] && b[0] == c[0] {
      LexTransitive(a[1..], b[1..], c[1..]);
    }
  }

  // ---------------------------------------------------------------------
  // str.upper() on ASCII letters

  function UpperChar(c: char): char {
    if 'a' <= c <= 'z' then (c as int - 32) as char else c
  }

  function Upper(s: string): (r: string)
    ensures |r| == |s| && forall i :: 0 <= i < |s| ==> r[i] == UpperChar(s[i])
  {
    seq(|s|, i requires 0 <= i < |s| => UpperChar(s[i]))
  }
}
