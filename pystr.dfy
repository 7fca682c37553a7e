/** The Python `str` operations the contest module relies on: `strip`, `upper`,
    slicing, `ljust`/`rjust`, `str(int)` and `int(str)`. */
module PyStr {
  import opened Wrappers

  /** Python's `str.isspace()` for one character: the characters `strip()` and `int()` discard. */
  predicate IsSpace(c: char) {
    || c == ' '
    || '\t' <= c <= '\r'
    || '\U{1c}' <= c <= '\U{1f}'
    || c == '\U{85}' || c == '\U{a0}' || c == '\U{1680}'
    || '\U{2000}' <= c <= '\U{200a}'
    || c == '\U{2028}' || c == '\U{2029}' || c == '\U{202f}' || c == '\U{205f}' || c == '\U{3000}'
  }

  /** No whitespace at either end of `s`. */
  predicate Trimmed(s: string) {
    s == [] || (!IsSpace(s[0]) && !IsSpace(s[|s| - 1]))
  }

  /** `s.lstrip()` */
  function LStrip(s: string): (r: string)
    ensures |r| <= |s| && r == s[|s| - |r|..]
    ensures r == [] || !IsSpace(r[0])
    ensures forall k :: 0 <= k < |s| - |r| ==> IsSpace(s[k])
  {
    if s != [] && IsSpace(s[0]) then LStrip(s[1..]) else s
  }

  /** `s.rstrip()` */
  function RStrip(s: string): (r: string)
    ensures |r| <= |s| && r == s[..|r|]
    ensures r == [] || !IsSpace(r[|r| - 1])
    ensures forall k :: |r| <= k < |s| ==> IsSpace(s[k])
  {
    if s != [] && IsSpace(s[|s| - 1]) then RStrip(s[..|s| - 1]) else s
  }

  /** Every character of `s` outside the index range from `i` up to `j` is whitespace. */
  predicate BlankOutside(s: string, i: int, j: int) {
    forall k :: 0 <= k < |s| && (k < i || j <= k) ==> IsSpace(s[k])
  }

  /** Where `strip()` keeps `s` from: the number of leading whitespace characters. */
  function StripStart(s: string): (i: nat)
    ensures i <= |s|
  {
    |s| - |LStrip(s)|
  }

  /** `s.strip()`: no whitespace at its ends, and `s` itself exactly when `s` had
      none; `StripPiece` and `StripUnique` say which piece of `s` it is. */
  function Strip(s: string): (r: string)
    ensures |r| <= |s|
    ensures Trimmed(r)
    ensures r == s <==> Trimmed(s)
  {
    var l := LStrip(s);
    var r := RStrip(l);
    assert r != [] ==> r[0] == l[0];
    r
  }

  /** `strip()` keeps the piece of `s` that starts at its first non-whitespace
      character, and only whitespace lies around that piece. */
  lemma StripPiece(s: string)
    ensures StripStart(s) + |Strip(s)| <= |s| && Strip(s) == s[StripStart(s)..][..|Strip(s)|]
    ensures BlankOutside(s, StripStart(s), StripStart(s) + |Strip(s)|)
  {
    var l := LStrip(s);
    var r := RStrip(l);
    var i := |s| - |l|;
    assert s[i..] == l;
    assert forall k :: i + |r| <= k < |s| ==> s[k] == l[k - i];
  }

  /** `c.upper()` for ASCII letters; every other character is left as it is. */
  function UpperChar(c: char): char {
    if 'a' <= c <= 'z' then (c as int - 32) as char else c
  }

  /** `s.upper()`: the same length, each character upper-cased, no ASCII lower-case letter left. */
  function Upper(s: string): (r: string)
    ensures |r| == |s|
    ensures forall k :: 0 <= k < |s| ==> r[k] == UpperChar(s[k])
    ensures forall k :: 0 <= k < |r| ==> !('a' <= r[k] <= 'z')
  {
    seq(|s|, k requires 0 <= k < |s| => UpperChar(s[k]))
  }

  /** Upper-casing twice is upper-casing once. */
  lemma UpperIdempotent(s: string)
    ensures Upper(Upper(s)) == Upper(s)
  {
    var u := Upper(s);
    assert forall k :: 0 <= k < |u| ==> UpperChar(u[k]) == u[k];
  }

  /** Upper-casing neither makes nor removes whitespace at the ends. */
  lemma UpperKeepsTrimmed(s: string)
    requires Trimmed(s)
    ensures Trimmed(Upper(s))
  {
    if s != [] {
      assert !IsSpace(Upper(s)[0]) && !IsSpace(Upper(s)[|s| - 1]);
    }
  }

  /** `strip()` gives the one trimmed piece of `s` with only whitespace around it. */
  lemma StripUnique(s: string, t: string, i: int)
    requires 0 <= i && i + |t| <= |s| && t == s[i..][..|t|]
    requires BlankOutside(s, i, i + |t|) && Trimmed(t)
    ensures Strip(s) == t
  {
    var r, j := Strip(s), StripStart(s);
    StripPiece(s);
    assert |r| > 0 ==> r[0] == s[j] && r[|r| - 1] == s[j + |r| - 1];
    assert |t| > 0 ==> t[0] == s[i] && t[|t| - 1] == s[i + |t| - 1];
    if t == [] {
      assert r == [];
    } else {
      assert r != [];
      assert j == i;
      assert j + |r| == i + |t|;
    }
  }

  /** A trailing blank is cut off by `strip()`. */
  lemma StripPadded(s: string)
    ensures Strip(s + " ") == Strip(s)
  {
    var t, i := Strip(s), StripStart(s);
    StripPiece(s);
    var p := s + " ";
    assert p[i..][..|t|] == t;
    assert forall k :: 0 <= k < |s| ==> p[k] == s[k];
    StripUnique(p, t, i);
  }

  /** Stripping and upper-casing can be done in either order. */
  lemma StripOfUpper(s: string)
    ensures Strip(Upper(s)) == Upper(Strip(s))
  {
    var t, i := Strip(s), StripStart(s);
    StripPiece(s);
    var u, v := Upper(s), Upper(t);
    UpperOfPiece(s, i, |t|);
    UpperKeepsTrimmed(t);
    UpperKeepsBlank(s, i, i + |t|);
    StripUnique(u, v, i);
  }

  /** Upper-casing a string upper-cases each of its pieces. */
  lemma UpperOfPiece(s: string, i: nat, n: nat)
    requires i + n <= |s|
    ensures Upper(s)[i..][..n] == Upper(s[i..][..n])
  {
    var u, p := Upper(s), s[i..][..n];
    assert forall k :: 0 <= k < n ==> u[i..][..n][k] == u[i + k] && p[k] == s[i + k];
  }

  /** Upper-casing leaves whitespace where it was. */
  lemma UpperKeepsBlank(s: string, i: int, j: int)
    requires BlankOutside(s, i, j)
    ensures BlankOutside(Upper(s), i, j)
  {
    var u := Upper(s);
    forall k | 0 <= k < |u| && (k < i || j <= k)
      ensures IsSpace(u[k])
    {
      assert u[k] == UpperChar(s[k]) == s[k];
    }
  }



  function Min(a: int, b: int): int { if a <= b then a else b }

  function Max(a: int, b: int): int { if a <= b then b else a }

  /** `s[i:j]` for non-negative bounds: out-of-range bounds are clamped, never an error. */
  function Slice(s: string, i: nat, j: nat): (r: string)
    ensures |r| == if i < |s| && i < j then Min(j, |s|) - i else 0
    ensures forall k :: 0 <= k < |r| ==> r[k] == s[i + k]
  {
    if i < |s| && i < j then s[i..Min(j, |s|)] else []
  }

  /** `n` blanks. */
  function Spaces(n: nat): (r: string)
    ensures |r| == n && forall k :: 0 <= k < n ==> r[k] == ' '
  {
    seq(n, _ => ' ')
  }

  /** `s.ljust(width)`: `s` followed by blanks up to `width`; never truncated. */
  function LJust(s: string, width: nat): (r: string)
    ensures |r| == Max(|s|, width)
    ensures r[..|s|] == s
    ensures forall k :: |s| <= k < |r| ==> r[k] == ' '
  {
    if |s| < width then s + Spaces(width - |s|) else s
  }

  /** `s.rjust(width)`: blanks up to `width` followed by `s`; never truncated. */
  function RJust(s: string, width: nat): (r: string)
    ensures |r| == Max(|s|, width)
    ensures r[|r| - |s|..] == s
    ensures forall k :: 0 <= k < |r| - |s| ==> r[k] == ' '
  {
    if |s| < width then Spaces(width - |s|) + s else s
  }

  predicate IsDigit(c: char) { '0' <= c <= '9' }

  predicate AllDigits(s: string) { forall k :: 0 <= k < |s| ==> IsDigit(s[k]) }

  function DigitChar(d: nat): char
    requires d < 10
  {
    ('0' as int + d) as char
  }

  function DigitValue(c: char): nat
    requires IsDigit(c)
  {
    c as int - '0' as int
  }

  /** The decimal digits of `n`, most significant first, without leading zeros. */
  function NatToString(n: nat): (r: string)
    ensures |r| >= 1 && AllDigits(r)
    ensures r[0] == '0' ==> n == 0 && |r| == 1
  {
    if n < 10 then [DigitChar(n)] else NatToString(n / 10) + [DigitChar(n % 10)]
  }

  /** `str(i)` for a Python `int`. */
  function IntToString(i: int): (r: string)
    ensures |r| >= 1 && Trimmed(r)
    ensures forall k :: 0 <= k < |r| ==> r[k] != ' ' && r[k] != '\n'
  {
    if i < 0 then "-" + NatToString(-i) else NatToString(i)
  }

  /** The number a string of decimal digits denotes. */
  function DigitsValue(s: string): nat
    requires AllDigits(s)
  {
    if s == [] then 0 else DigitsValue(s[..|s| - 1]) * 10 + DigitValue(s[|s| - 1])
  }

  lemma {:induction false} NatToStringValue(n: nat)
    ensures DigitsValue(NatToString(n)) == n
  {
    if n >= 10 {
      var s := NatToString(n);
      assert s[..|s| - 1] == NatToString(n / 10);
      NatToStringValue(n / 10);
    }
  }

  /** Digits with single underscores between them, as Python's `int()` accepts
      (`"1_000"`, but neither `"_1"`, `"1_"` nor `"1__0"`). */
  predicate DigitGroups(s: string) {
    && |s| > 0
    && IsDigit(s[0])
    && IsDigit(s[|s| - 1])
    && (forall k :: 0 <= k < |s| ==> IsDigit(s[k]) || s[k] == '_')
    && forall k :: 0 <= k < |s| - 1 && s[k] == '_' ==> IsDigit(s[k + 1])
  }

  lemma DigitsAreGroups(s: string)
    requires |s| > 0 && AllDigits(s)
    ensures DigitGroups(s) && RemoveUnderscores(s) == s
  {
  }

  function RemoveUnderscores(s: string): (r: string)
    requires forall k :: 0 <= k < |s| ==> IsDigit(s[k]) || s[k] == '_'
    ensures AllDigits(r)
    ensures AllDigits(s) ==> r == s
  {
    if s == [] then []
    else if s[0] == '_' then RemoveUnderscores(s[1..])
    else [s[0]] + RemoveUnderscores(s[1..])
  }

  /** The value of underscore-grouped digits, `None` when `s` is not such a group. */
  function GroupedValue(s: string): Option<nat> {
    if DigitGroups(s) then Some(DigitsValue(RemoveUnderscores(s))) else None
  }

  /** `int(t)` once `t` has been stripped: an optional sign, then underscore-grouped digits. */
  function ParseSigned(t: string): Option<int> {
    if t != [] && t[0] == '-' then
      match GroupedValue(t[1..])
      case Some(v) => Some(-(v as int))
      case None => None
    else if t != [] && t[0] == '+' then
      match GroupedValue(t[1..])
      case Some(v) => Some(v)
      case None => None
    else
      match GroupedValue(t)
      case Some(v) => Some(v)
      case None => None
  }

  /** `int(s)` for a Python string: surrounding whitespace, an optional sign, then
      underscore-grouped decimal digits; `None` where Python raises `ValueError`. */
  function ParseInt(s: string): (r: Option<int>)
    ensures Strip(s) == [] ==> r == None
  {
    ParseSigned(Strip(s))
  }

  /** `int()` of a run of decimal digits is their value. */
  lemma ParseUnsigned(d: string)
    requires |d| > 0 && AllDigits(d)
    ensures ParseInt(d) == Some(DigitsValue(d))
  {
    DigitsAreTrimmed(d);
    SignedUnsigned(d);
  }

  /** Digits are not whitespace, so `strip()` leaves a run of them alone. */
  lemma DigitsAreTrimmed(d: string)
    requires |d| > 0 && AllDigits(d)
    ensures Strip(d) == d
  {
    assert '0' <= d[0] <= '9' && '0' <= d[|d| - 1] <= '9';
    assert Trimmed(d);
  }

  /** Without a sign, a run of digits reads as their value. */
  lemma SignedUnsigned(d: string)
    requires |d| > 0 && AllDigits(d)
    ensures ParseSigned(d) == Some(DigitsValue(d) as int)
  {
    assert d[0] != '-' && d[0] != '+';
    DigitsAreGroups(d);
  }


  /** A minus sign before a run of digits negates their value. */
  lemma SignedNegative(t: string, d: string)
    requires |d| > 0 && AllDigits(d)
    requires |t| > 0 && t[0] == '-' && t[1..] == d
    ensures ParseSigned(t) == Some(-(DigitsValue(d) as int))
  {
    DigitsAreGroups(d);
  }

  /** `int()` of a minus sign and a run of decimal digits is minus their value. */
  lemma ParseNegative(d: string)
    requires |d| > 0 && AllDigits(d)
    ensures ParseInt("-" + d) == Some(-(DigitsValue(d) as int))
  {
    var t := "-" + d;
    assert Trimmed(t);
    SignedNegative(t, d);
  }

  /** `int(str(i)) == i`: the decimal text written for an integer reads back as that integer. */
  lemma IntToStringRoundTrip(i: int)
    ensures ParseInt(IntToString(i)) == Some(i)
  {
    var n := if i < 0 then -i else i;
    NatToStringValue(n);
    if i < 0 {
      ParseNegative(NatToString(n));
    } else {
      ParseUnsigned(NatToString(n));
    }
  }

  /** `a.upper() + b.upper() == (a + b).upper()` */
  lemma UpperAppend(a: string, b: string)
    ensures Upper(a + b) == Upper(a) + Upper(b)
  {
    assert forall k :: 0 <= k < |a + b| ==> Upper(a + b)[k] == (Upper(a) + Upper(b))[k];
  }

  /** A non-empty run of characters with no blank in it. */
  predicate IsWord(w: string) {
    |w| > 0 && forall k :: 0 <= k < |w| ==> w[k] != ' '
  }

  /** The length of the leading run of `s` that holds no `stop` character: the
      first piece `s.split(stop)` cuts off. */
  function RunLength(s: string, stop: char): (n: nat)
    ensures n <= |s|
    ensures forall k :: 0 <= k < n ==> s[k] != stop
    ensures n < |s| ==> s[n] == stop
  {
    if s == [] || s[0] == stop then 0 else 1 + RunLength(s[1..], stop)
  }

  /** The blank-separated words of `s`, as `[w for w in s.split(" ") if w]`. */
  function Words(s: string): (r: seq<string>)
    ensures forall i :: 0 <= i < |r| ==> IsWord(r[i])
    decreases |s|
  {
    if s == [] then []
    else if s[0] == ' ' then Words(s[1..])
    else
      var n := RunLength(s, ' ');
      [s[..n]] + Words(s[n..])
  }

  /** A run without `stop`, followed by `stop` or by nothing, is read as one whole piece. */
  lemma {:induction false} RunLengthOfRun(run: string, stop: char, rest: string)
    requires forall k :: 0 <= k < |run| ==> run[k] != stop
    requires rest == [] || rest[0] == stop
    ensures RunLength(run + rest, stop) == |run|
    decreases |run|
  {
    if run == [] {
      assert run + rest == rest;
    } else {
      assert (run + rest)[0] == run[0];
      assert (run + rest)[1..] == run[1..] + rest;
      RunLengthOfRun(run[1..], stop, rest);
    }
  }

  /** Leading blanks are skipped. */
  lemma {:induction false} WordsAfterSpaces(k: nat, s: string)
    ensures Words(Spaces(k) + s) == Words(s)
  {
    if k > 0 {
      var t := Spaces(k) + s;
      assert t[0] == ' ';
      assert t[1..] == Spaces(k - 1) + s;
      assert Words(t) == Words(t[1..]);
      WordsAfterSpaces(k - 1, s);
    } else {
      assert Spaces(k) + s == s;
    }
  }

  /** A blank separates: no word runs across it. */
  lemma {:induction false} WordsAppend(a: string, b: string)
    ensures Words(a + " " + b) == Words(a) + Words(b)
    decreases |a|
  {
    var s := a + " " + b;
    if a == [] {
      assert s[1..] == b;
    } else if a[0] == ' ' {
      assert s[1..] == a[1..] + " " + b;
      assert Words(a) == Words(a[1..]);
      WordsAppend(a[1..], b);
    } else {
      var n := RunLength(a, ' ');
      assert Words(a) == [a[..n]] + Words(a[n..]);
      WordsAppendFirst(a, b);
      WordsAppend(a[n..], b);
    }
  }

  /** The first word of `a` is also the first word of `a + " " + b`. */
  lemma WordsAppendFirst(a: string, b: string)
    requires a != [] && a[0] != ' '
    ensures var n := RunLength(a, ' ');
      Words(a + " " + b) == [a[..n]] + Words(a[n..] + " " + b)
  {
    var s := a + " " + b;
    var n := RunLength(a, ' ');
    var rest := a[n..] + " " + b;
    assert s == a[..n] + rest;
    RunLengthOfRun(a[..n], ' ', rest);
    assert s[..n] == a[..n] && s[n..] == rest;
  }

  /** `str(i)` writes only a minus sign and digits. */
  lemma IntToStringChars(i: int)
    ensures forall k :: 0 <= k < |IntToString(i)| ==> IntToString(i)[k] == '-' || IsDigit(IntToString(i)[k])
  {
  }

  /** Upper-casing keeps a word a word: blanks are neither made nor removed. */
  lemma UpperOfWord(w: string)
    requires IsWord(w)
    ensures IsWord(Upper(w))
  {
  }

  /** A word padded with blanks on either side reads back as that word. */
  lemma WordsOfPadded(w: string, before: nat, after: nat)
    requires IsWord(w)
    ensures Words(Spaces(before) + w + Spaces(after)) == [w]
  {
    WordsAfterSpaces(before, w + Spaces(after));
    assert Spaces(before) + w + Spaces(after) == Spaces(before) + (w + Spaces(after));
    var s := w + Spaces(after);
    RunLengthOfRun(w, ' ', Spaces(after));
    assert s[..|w|] == w;
    assert s[|w|..] == Spaces(after) + [];
    WordsAfterSpaces(after, []);
  }

  /** A word reads back as itself. */
  lemma WordsOfWord(w: string)
    requires IsWord(w)
    ensures Words(w) == [w]
  {
    WordsOfPadded(w, 0, 0);
    assert Spaces(0) + w + Spaces(0) == w;
  }

  /** `w.ljust(width)` reads back as `w`. */
  lemma WordsOfLJust(w: string, width: nat)
    requires IsWord(w)
    ensures Words(LJust(w, width)) == [w]
  {
    var pad := if |w| < width then width - |w| else 0;
    assert LJust(w, width) == Spaces(0) + w + Spaces(pad);
    WordsOfPadded(w, 0, pad);
  }

  /** `w.rjust(width)` reads back as `w`. */
  lemma WordsOfRJust(w: string, width: nat)
    requires IsWord(w)
    ensures Words(RJust(w, width)) == [w]
  {
    var pad := if |w| < width then width - |w| else 0;
    assert RJust(w, width) == Spaces(pad) + w + Spaces(0);
    WordsOfPadded(w, pad, 0);
  }

  /** `" ".join(cols)`: the columns with one blank between each. */
  function Join(cols: seq<string>): string {
    if cols == [] then []
    else if |cols| == 1 then cols[0]
    else Join(cols[..|cols| - 1]) + " " + cols[|cols| - 1]
  }

  /** One more column is written after a blank. */
  lemma JoinAppend(cols: seq<string>, c: string)
    requires cols != []
    ensures Join(cols + [c]) == Join(cols) + " " + c
  {
    assert (cols + [c])[..|cols|] == cols;
  }

  /** Columns that each hold one word, joined by blanks, split back into those words. */
  lemma {:induction false} WordsOfJoin(cols: seq<string>, ws: seq<string>)
    requires |cols| == |ws|
    requires forall i :: 0 <= i < |cols| ==> Words(cols[i]) == [ws[i]]
    ensures Words(Join(cols)) == ws
  {
    var n := |cols|;
    if n > 1 {
      WordsOfJoin(cols[..n - 1], ws[..n - 1]);
      WordsAppend(Join(cols[..n - 1]), cols[n - 1]);
      assert ws == ws[..n - 1] + [ws[n - 1]];
    }
  }
}
