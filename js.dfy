/** The small slice of JavaScript's String and Number semantics that the
    handlers lean on: truthiness of optional values, startsWith/includes,
    split/join on one character, ASCII case mapping, trim, and
    parseInt(s, 10) with the `|| default` idiom. */
module Js {

  datatype Option<+T> = None | Some(value: T)

  datatype Result<+T, +E> = Success(value: T) | Failure(error: E)

  /** `if (v)` for a string that may be undefined: undefined and "" are falsy. */
  predicate Truthy(v: Option<string>) {
    v.Some? && v.value != ""
  }

  /** `if (n)` for a number that may be undefined: undefined and 0 are falsy. */
  predicate TruthyNumber(v: Option<int>) {
    v.Some? && v.value != 0
  }

  predicate StartsWith(s: string, prefix: string) {
    |prefix| <= |s| && s[..|prefix|] == prefix
  }

  /** String.prototype.includes. */
  function Contains(s: string, part: string): (r: bool)
    ensures r <==> exists i :: 0 <= i <= |s| - |part| && StartsWith(s[i..], part)
    decreases |s|
  {
    if StartsWith(s, part) then
      assert StartsWith(s[0..], part);
      true
    else if |s| == 0 then
      false
    else
      var r := Contains(s[1..], part);
      assert forall i :: 1 <= i <= |s| ==> s[i..] == s[1..][i - 1..];
      assert r ==> exists i :: 1 <= i <= |s| - |part| && StartsWith(s[i..], part);
      r
  }

  // ---------------------------------------------------------------- split/join

  /** String.prototype.split with a one-character separator: always at least
      one field, and no field contains the separator. */
  function Split(s: string, sep: char): (r: seq<string>)
    ensures |r| >= 1
    ensures forall i :: 0 <= i < |r| ==> sep !in r[i]
    decreases |s|
  {
    if |s| == 0 then [""]
    else
      var rest := Split(s[1..], sep);
      if s[0] == sep then [""] + rest
      else [[s[0]] + rest[0]] + rest[1..]
  }

  /** Array.prototype.join with a separator string. */
  function Join(parts: seq<string>, sep: string): string
    decreases |parts|
  {
    if |parts| == 0 then ""
    else if |parts| == 1 then parts[0]
    else parts[0] + sep + Join(parts[1..], sep)
  }

  /** Every occurrence of `a` replaced by `b`: the reference meaning of
      `s.split(a).join(b)`. */
  function ReplaceChar(s: string, a: char, b: char): (r: string)
    ensures |r| == |s|
    ensures forall i :: 0 <= i < |s| ==> r[i] == (if s[i] == a then b else s[i])
  {
    if |s| == 0 then "" else [if s[0] == a then b else s[0]] + ReplaceChar(s[1..], a, b)
  }

  lemma {:induction false} JoinConsFirst(c: char, parts: seq<string>, sep: string)
    requires |parts| >= 1
    ensures Join([[c] + parts[0]] + parts[1..], sep) == [c] + Join(parts, sep)
  {
    var q := [[c] + parts[0]] + parts[1..];
    assert q[1..] == parts[1..];
  }

  /** `s.split(a).join(b)` replaces every `a` by `b`. */
  lemma {:induction false} SplitJoinReplaces(s: string, a: char, b: char)
    ensures Join(Split(s, a), [b]) == ReplaceChar(s, a, b)
    decreases |s|
  {
    if |s| > 0 {
      var rest := Split(s[1..], a);
      SplitJoinReplaces(s[1..], a, b);
      if s[0] == a {
        assert ([""] + rest)[1..] == rest;
      } else {
        JoinConsFirst(s[0], rest, [b]);
      }
    }
  }

  /** Splitting and re-joining on the same character gives the string back. */
  lemma SplitJoinRoundTrip(s: string, a: char)
    ensures Join(Split(s, a), [a]) == s
  {
    SplitJoinReplaces(s, a, a);
    assert ReplaceChar(s, a, a) == s;
  }

  /** `s.split(sep)[1]`, undefined when there is no second field. */
  function SecondField(s: string, sep: char): Option<string> {
    var parts := Split(s, sep);
    if |parts| > 1 then Some(parts[1]) else None
  }

  lemma {:induction false} SplitAfterWord(w: string, sep: char, tail: string)
    requires sep !in w
    ensures Split(w + [sep] + tail, sep) == [w] + Split(tail, sep)
    decreases |w|
  {
    if |w| == 0 {
      assert w + [sep] + tail == [sep] + tail;
      assert ([sep] + tail)[1..] == tail;
    } else {
      var s := w + [sep] + tail;
      assert s[1..] == w[1..] + [sep] + tail;
      SplitAfterWord(w[1..], sep, tail);
      assert [w[0]] + w[1..] == w;
    }
  }

  lemma {:induction false} SplitWordHead(w: string, sep: char, tail: string)
    requires sep !in w
    requires tail == [] || tail[0] == sep
    ensures Split(w + tail, sep)[0] == w
    decreases |w|
  {
    if |w| == 0 {
      assert w + tail == tail;
    } else {
      var s := w + tail;
      assert s[1..] == w[1..] + tail;
      SplitWordHead(w[1..], sep, tail);
      assert [w[0]] + w[1..] == w;
    }
  }

  /** The second field of `first sep word tail` is `word` when neither `first`
      nor `word` holds the separator and `tail` is empty or starts a new field. */
  lemma SecondFieldIsWord(first: string, sep: char, word: string, tail: string)
    requires sep !in first && sep !in word
    requires tail == [] || tail[0] == sep
    ensures SecondField(first + [sep] + word + tail, sep) == Some(word)
  {
    assert first + [sep] + word + tail == first + [sep] + (word + tail);
    SplitAfterWord(first, sep, word + tail);
    SplitWordHead(word, sep, tail);
  }

  /** A string without the separator has no second field. */
  lemma {:induction false} NoSeparatorNoSecondField(s: string, sep: char)
    requires sep !in s
    ensures Split(s, sep) == [s]
    ensures SecondField(s, sep) == None
    decreases |s|
  {
    if |s| > 0 {
      NoSeparatorNoSecondField(s[1..], sep);
      assert [s[0]] + s[1..] == s;
    }
  }

  // ---------------------------------------------------------------- case mapping

  function UpperChar(c: char): char {
    if 'a' <= c <= 'z' then (c as int - 32) as char else c
  }

  function LowerChar(c: char): char {
    if 'A' <= c <= 'Z' then (c as int + 32) as char else c
  }

  predicate IsUpperCase(s: string) {
    forall i :: 0 <= i < |s| ==> !('a' <= s[i] <= 'z')
  }

  predicate IsLowerCase(s: string) {
    forall i :: 0 <= i < |s| ==> !('A' <= s[i] <= 'Z')
  }

  /** String.prototype.toUpperCase on the ASCII letters. */
  function Upper(s: string): (r: string)
    ensures |r| == |s| && IsUpperCase(r)
    ensures forall i :: 0 <= i < |s| ==> r[i] == UpperChar(s[i])
  {
    if |s| == 0 then "" else [UpperChar(s[0])] + Upper(s[1..])
  }

  /** String.prototype.toLowerCase on the ASCII letters. */
  function Lower(s: string): (r: string)
    ensures |r| == |s| && IsLowerCase(r)
    ensures forall i :: 0 <= i < |s| ==> r[i] == LowerChar(s[i])
  {
    if |s| == 0 then "" else [LowerChar(s[0])] + Lower(s[1..])
  }

  lemma UpperOfConcat(a: string, b: string)
    ensures Upper(a + b) == Upper(a) + Upper(b)
  {
    assert Upper(a + b) == Upper(a) + Upper(b);
  }

  /** Upper-casing neither makes nor removes white space. */
  lemma UpperCharSpace(c: char)
    ensures IsSpace(UpperChar(c)) <==> IsSpace(c)
  {
    if 'a' <= c <= 'z' {
      assert 'A' <= UpperChar(c) <= 'Z';
    }
  }

  lemma UpperIdempotent(s: string)
    ensures Upper(Upper(s)) == Upper(s)
  {
  }

  // ---------------------------------------------------------------- trim

  /** The white space and line terminators that String.prototype.trim and
      parseInt skip. */
  predicate IsSpace(c: char) {
    c == ' ' || c == '\t' || c == '\n' || c == '\r' || c == '\U{B}' || c == '\U{C}'
    || c == '\U{A0}' || c == '\U{1680}' || ('\U{2000}' <= c <= '\U{200A}')
    || c == '\U{2028}' || c == '\U{2029}' || c == '\U{202F}' || c == '\U{205F}'
    || c == '\U{3000}' || c == '\U{FEFF}'
  }

  predicate AllSpace(s: string) {
    forall i :: 0 <= i < |s| ==> IsSpace(s[i])
  }

  function TrimStart(s: string): (r: string)
    ensures |r| <= |s| && r == s[|s| - |r|..]
    ensures AllSpace(s[..|s| - |r|])
    ensures r == [] || !IsSpace(r[0])
  {
    if |s| > 0 && IsSpace(s[0]) then
      var r := TrimStart(s[1..]);
      assert s[..|s| - |r|] == [s[0]] + s[1..][..|s[1..]| - |r|];
      r
    else s
  }

  function TrimEnd(s: string): (r: string)
    ensures |r| <= |s| && r == s[..|r|]
    ensures AllSpace(s[|r|..])
    ensures r == [] || !IsSpace(r[|r| - 1])
  {
    if |s| > 0 && IsSpace(s[|s| - 1]) then
      var r := TrimEnd(s[..|s| - 1]);
      assert s[|r|..] == s[..|s| - 1][|r|..] + [s[|s| - 1]];
      r
    else s
  }

  /** String.prototype.trim: the part of `s` between its leading and trailing
      white space. */
  function Trim(s: string): (r: string)
  {
    TrimEnd(TrimStart(s))
  }

  /** `Trim(s)` is `s` with white space cut from both ends ... */
  lemma TrimCutsSpace(s: string) returns (pre: string, post: string)
    ensures s == pre + Trim(s) + post && AllSpace(pre) && AllSpace(post)
  {
    var t := TrimStart(s);
    var r := TrimEnd(t);
    pre, post := s[..|s| - |t|], t[|r|..];
    Reassemble(s, t, r);
  }

  /** A suffix `t` of `s` and a prefix `r` of `t` split `s` in three. */
  lemma Reassemble<T>(s: seq<T>, t: seq<T>, r: seq<T>)
    requires |t| <= |s| && t == s[|s| - |t|..]
    requires |r| <= |t| && r == t[..|r|]
    ensures s == s[..|s| - |t|] + r + t[|r|..]
  {
    assert t == r + t[|r|..];
  }

  /** No white space at either end. */
  predicate Trimmed(s: string) {
    s == [] || (!IsSpace(s[0]) && !IsSpace(s[|s| - 1]))
  }

  /** ... and has no white space left at either end ... */
  lemma TrimmedEnds(s: string)
    ensures Trimmed(Trim(s))
  {
    var t := TrimStart(s);
    var r := TrimEnd(t);
    if r != [] {
      assert r[0] == t[0];
    }
  }

  /** ... and is exactly the strings that trimming leaves unchanged. */
  lemma TrimmedFixed(s: string)
    ensures Trim(s) == s <==> Trimmed(s)
  {
    if Trimmed(s) {
      assert TrimStart(s) == s;
    } else if Trim(s) == s {
      TrimmedEnds(s);
    }
  }

  /** Lower-casing neither makes nor removes white space ... */
  lemma LowerCharSpace(c: char)
    ensures IsSpace(LowerChar(c)) <==> IsSpace(c)
  {
    if 'A' <= c <= 'Z' {
      assert 'a' <= LowerChar(c) <= 'z';
    }
  }

  /** ... so a trimmed string stays trimmed. */
  lemma LowerTrimmed(s: string)
    requires Trimmed(s)
    ensures Trimmed(Lower(s))
  {
    if s != [] {
      LowerCharSpace(s[0]);
      LowerCharSpace(s[|s| - 1]);
    }
  }

  /** Trimming only cuts characters off the ends, so an upper-case string
      stays upper case. */
  lemma TrimKeepsUpperCase(s: string)
    requires IsUpperCase(s)
    ensures IsUpperCase(Trim(s))
  {
    var pre, post := TrimCutsSpace(s);
    var t := Trim(s);
    forall i | 0 <= i < |t| ensures !('a' <= t[i] <= 'z') {
      assert t[i] == s[|pre| + i];
    }
  }

  lemma TrimIdempotent(s: string)
    ensures Trim(Trim(s)) == Trim(s)
  {
    TrimmedEnds(s);
    TrimmedFixed(Trim(s));
  }

  // ---------------------------------------------------------------- parseInt

  predicate IsDigit(c: char) {
    '0' <= c <= '9'
  }

  function DigitValue(c: char): nat
    requires IsDigit(c)
  {
    c as int - '0' as int
  }

  /** The longest prefix of `s` made of decimal digits. */
  function DigitPrefix(s: string): (r: string)
    ensures |r| <= |s| && r == s[..|r|]
    ensures forall i :: 0 <= i < |r| ==> IsDigit(r[i])
    ensures |r| < |s| ==> !IsDigit(s[|r|])
  {
    if |s| > 0 && IsDigit(s[0]) then [s[0]] + DigitPrefix(s[1..]) else ""
  }

  /** The value of a string of decimal digits, most significant first. */
  function DigitsValue(ds: string): nat
    requires forall i :: 0 <= i < |ds| ==> IsDigit(ds[i])
  {
    if |ds| == 0 then 0 else DigitsValue(ds[..|ds| - 1]) * 10 + DigitValue(ds[|ds| - 1])
  }

  /** parseInt(s, 10): skip leading white space, read an optional sign and the
      longest run of decimal digits; no digit at all is NaN (None). */
  function ParseInt(s: string): Option<int> {
    var t := TrimStart(s);
    var negative := |t| > 0 && t[0] == '-';
    var body := if |t| > 0 && (t[0] == '-' || t[0] == '+') then t[1..] else t;
    var ds := DigitPrefix(body);
    if ds == "" then None
    else
      var magnitude: int := DigitsValue(ds);
      Some(if negative then -magnitude else magnitude)
  }

  /** `parseInt(v, 10) || d` for a query value that may be absent: parseInt of
      undefined is NaN, and both NaN and 0 fall back to `d`. */
  function IntOr(v: Option<string>, d: int): int {
    if v.None? then d
    else match ParseInt(v.value)
      case None => d
      case Some(n) => if n == 0 then d else n
  }

  /** The default is taken exactly when the value is absent, not a number or
      parses to zero, and a non-zero default never yields zero. */
  lemma IntOrDefault(v: Option<string>, d: int)
    requires d != 0
    ensures IntOr(v, d) != 0
    ensures IntOr(v, d) == d <==> (v.None? || ParseInt(v.value).None? || ParseInt(v.value) == Some(0) || ParseInt(v.value) == Some(d))
  {
  }

  function DigitChar(n: nat): (c: char)
    requires n < 10
    ensures IsDigit(c) && DigitValue(c) == n
  {
    ('0' as int + n) as char
  }

  /** The decimal representation of a natural number. */
  function ShowNat(n: nat): (r: string)
    ensures |r| >= 1 && forall i :: 0 <= i < |r| ==> IsDigit(r[i])
  {
    if n < 10 then [DigitChar(n)] else ShowNat(n / 10) + [DigitChar(n % 10)]
  }

  lemma {:induction false} ShowNatValue(n: nat)
    ensures DigitsValue(ShowNat(n)) == n
  {
    if n >= 10 {
      ShowNatValue(n / 10);
      var s := ShowNat(n);
      assert s[..|s| - 1] == ShowNat(n / 10);
    }
  }

  lemma {:induction false} DigitPrefixOfDigits(s: string)
    requires forall i :: 0 <= i < |s| ==> IsDigit(s[i])
    ensures DigitPrefix(s) == s
  {
    if |s| > 0 {
      DigitPrefixOfDigits(s[1..]);
      assert [s[0]] + s[1..] == s;
    }
  }

  /** parseInt reads back what ShowNat writes. */
  lemma ParseShowNat(n: nat)
    ensures ParseInt(ShowNat(n)) == Some(n)
  {
    var s := ShowNat(n);
    assert IsDigit(s[0]);
    assert !IsSpace(s[0]);
    assert TrimStart(s) == s;
    assert s[0] != '-' && s[0] != '+';
    DigitPrefixOfDigits(s);
    ShowNatValue(n);
  }
}
