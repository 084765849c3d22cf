/** Python's string built-ins as the auditor uses them: `str(int)`,
    `int(str)`, `str.isspace`, `str.startswith`, `str.split`, `str.join`,
    `str.replace`, `str.zfill` and `str.format`. */
module Strings {
  import opened Wrappers
  import opened Exceptions

  predicate IsDigit(c: char) { '0' <= c <= '9' }

  predicate AllDigits(s: string) { forall i :: 0 <= i < |s| ==> IsDigit(s[i]) }

  /** The characters for which `str.isspace()` holds; `\s` in a str pattern
      matches exactly these. */
  predicate IsSpace(c: char) {
    var n := c as int;
    n == 0x20 || 0x09 <= n <= 0x0D || 0x1C <= n <= 0x1F || n == 0x85 || n == 0xA0
    || n == 0x1680 || 0x2000 <= n <= 0x200A || n == 0x2028 || n == 0x2029
    || n == 0x202F || n == 0x205F || n == 0x3000
  }

  predicate StartsWith(s: string, prefix: string) {
    |prefix| <= |s| && s[..|prefix|] == prefix
  }

  /** The text `p` occurs in `s` starting at position `i`. */
  predicate OccursAt(s: string, p: string, i: nat) {
    i + |p| <= |s| && s[i..i + |p|] == p
  }

  /** `p in s` for strings. */
  ghost predicate Contains(s: string, p: string) {
    exists i: nat :: OccursAt(s, p, i)
  }

  function DigitChar(d: nat): (c: char)
    requires d < 10
    ensures IsDigit(c) && DigitValue(c) == d
  {
    (('0' as int) + d) as char
  }

  function DigitValue(c: char): nat
    requires IsDigit(c)
  {
    (c as int) - ('0' as int)
  }

  /** `str(n)` for a non-negative integer: decimal digits, with a leading
      zero only for zero itself. */
  function NatToString(n: nat): (s: string)
    ensures |s| >= 1 && AllDigits(s)
    ensures (s[0] == '0') == (n == 0)
    decreases n
  {
    if n < 10 then [DigitChar(n)] else NatToString(n / 10) + [DigitChar(n % 10)]
  }

  /** `str(i)` for any integer. */
  function IntToString(i: int): string {
    if i < 0 then "-" + NatToString(-i) else NatToString(i)
  }

  /** The number a string of decimal digits denotes (leading zeros allowed). */
  function DigitsValue(s: string): nat
    requires AllDigits(s)
  {
    if s == [] then 0 else 10 * DigitsValue(s[..|s| - 1]) + DigitValue(s[|s| - 1])
  }

  function LStrip(s: string): (r: string)
    ensures |r| == 0 || !IsSpace(r[0])
  {
    if |s| > 0 && IsSpace(s[0]) then LStrip(s[1..]) else s
  }

  function RStrip(s: string): (r: string)
    ensures |r| == 0 || !IsSpace(r[|r| - 1])
  {
    if |s| > 0 && IsSpace(s[|s| - 1]) then RStrip(s[..|s| - 1]) else s
  }

  /** `str.strip()` with no argument. */
  function Strip(s: string): string {
    LStrip(RStrip(s))
  }

  /** `int(s)` for a string: surrounding whitespace, an optional sign and
      ASCII decimal digits; `None` where Python raises ValueError. */
  function ParseInt(s: string): Option<int> {
    var t := Strip(s);
    if |t| >= 2 && (t[0] == '-' || t[0] == '+') && AllDigits(t[1..]) then
      Some(if t[0] == '-' then -(DigitsValue(t[1..]) as int) else DigitsValue(t[1..]))
    else if |t| >= 1 && AllDigits(t) then
      Some(DigitsValue(t))
    else
      None
  }

  lemma {:induction false} DigitsValueOfNatToString(n: nat)
    ensures DigitsValue(NatToString(n)) == n
    decreases n
  {
    var s := NatToString(n);
    if n >= 10 {
      DigitsValueOfNatToString(n / 10);
      assert s[..|s| - 1] == NatToString(n / 10);
    }
  }

  lemma StripUnchanged(s: string)
    requires |s| > 0 && !IsSpace(s[0]) && !IsSpace(s[|s| - 1])
    ensures Strip(s) == s
  {
  }

  /** `int()` reads a digit string. */
  lemma ParseIntDigits(d: string)
    requires |d| > 0 && AllDigits(d)
    ensures ParseInt(d) == Some(DigitsValue(d))
  {
    assert IsDigit(d[0]) && IsDigit(d[|d| - 1]);
    StripUnchanged(d);
    assert d[0] != '-' && d[0] != '+';
  }

  /** `int()` reads a digit string after a minus sign. */
  lemma ParseIntNegativeDigits(d: string)
    requires |d| > 0 && AllDigits(d)
    ensures ParseInt("-" + d) == Some(-(DigitsValue(d) as int))
  {
    var m := "-" + d;
    assert m[1..] == d;
    assert m[|m| - 1] == d[|d| - 1];
    DigitNotSpace(d[|d| - 1]);
    StripUnchanged(m);
    ParseIntMinus(m);
  }

  lemma DigitNotSpace(c: char)
    requires IsDigit(c)
    ensures !IsSpace(c)
  {
  }

  lemma ParseIntMinus(t: string)
    requires Strip(t) == t && |t| >= 2 && t[0] == '-' && AllDigits(t[1..])
    ensures ParseInt(t) == Some(-(DigitsValue(t[1..]) as int))
  {
  }

  /** `int(str(i)) == i`. */
  lemma ParseIntToString(i: int)
    ensures ParseInt(IntToString(i)) == Some(i)
  {
    var n: nat := if i < 0 then -i else i;
    DigitsValueOfNatToString(n);
    if i < 0 {
      ParseIntNegativeDigits(NatToString(n));
    } else {
      ParseIntDigits(NatToString(n));
    }
  }

  lemma {:induction false} DigitsValueOfAllZeros(k: nat)
    ensures AllDigits(Zeros(k)) && DigitsValue(Zeros(k)) == 0
  {
    if k > 0 {
      DigitsValueOfAllZeros(k - 1);
      assert Zeros(k)[..k - 1] == Zeros(k - 1);
    }
  }

  /** Leading zeros do not change the number a digit string denotes. */
  lemma {:induction false} DigitsValueLeadingZeros(k: nat, d: string)
    requires AllDigits(d)
    ensures AllDigits(Zeros(k) + d) && DigitsValue(Zeros(k) + d) == DigitsValue(d)
    decreases |d|
  {
    DigitsValueOfAllZeros(k);
    var s := Zeros(k) + d;
    if d != [] {
      DigitsValueLeadingZeros(k, d[..|d| - 1]);
      assert s[..|s| - 1] == Zeros(k) + d[..|d| - 1];
    } else {
      assert s == Zeros(k);
    }
  }

  function IndexOf<T(==)>(s: seq<T>, x: T): (i: nat)
    requires x in s
    ensures i < |s| && s[i] == x && x !in s[..i]
  {
    if s[0] == x then 0 else 1 + IndexOf(s[1..], x)
  }

  lemma {:induction false} IndexOfAfter<T>(a: seq<T>, x: T, b: seq<T>)
    requires x !in a
    ensures x in a + [x] + b && IndexOf(a + [x] + b, x) == |a|
    decreases |a|
  {
    if a != [] {
      IndexOfAfter(a[1..], x, b);
      assert (a + [x] + b)[1..] == a[1..] + [x] + b;
    }
  }

  /** `s.split(sep)` for a one-character separator. */
  function Split(s: string, sep: char): (parts: seq<string>)
    ensures |parts| >= 1
    decreases |s|
  {
    if sep in s then
      var i := IndexOf(s, sep);
      [s[..i]] + Split(s[i + 1..], sep)
    else
      [s]
  }

  /** `sep.join(parts)`. */
  function Join(sep: string, parts: seq<string>): string
    decreases |parts|
  {
    if |parts| == 0 then "" else if |parts| == 1 then parts[0] else parts[0] + sep + Join(sep, parts[1..])
  }

  /** Joining the pieces of a split with the separator gives the string back. */
  lemma {:induction false} JoinSplit(s: string, sep: char)
    ensures Join([sep], Split(s, sep)) == s
    decreases |s|
  {
    if sep in s {
      var i := IndexOf(s, sep);
      var rest := Split(s[i + 1..], sep);
      assert Split(s, sep) == [s[..i]] + rest;
      JoinSplit(s[i + 1..], sep);
      JoinCons([sep], s[..i], rest);
      assert s == s[..i] + [sep] + s[i + 1..];
    }
  }

  lemma JoinCons(sep: string, first: string, rest: seq<string>)
    requires |rest| >= 1
    ensures Join(sep, [first] + rest) == first + sep + Join(sep, rest)
  {
    assert ([first] + rest)[1..] == rest;
  }

  /** No piece of a split holds the separator. */
  lemma {:induction false} SplitPartsFree(s: string, sep: char)
    ensures forall i :: 0 <= i < |Split(s, sep)| ==> sep !in Split(s, sep)[i]
    decreases |s|
  {
    if sep in s {
      var i := IndexOf(s, sep);
      SplitPartsFree(s[i + 1..], sep);
      assert Split(s, sep) == [s[..i]] + Split(s[i + 1..], sep);
    }
  }

  /** `s.split(sep)[0]`: the text before the first separator. */
  function FirstPart(s: string, sep: char): string {
    Split(s, sep)[0]
  }

  /** `s.split(sep)[-1]`: the text after the last separator. */
  function LastPart(s: string, sep: char): string {
    var parts := Split(s, sep);
    parts[|parts| - 1]
  }

  /** The first part is the longest prefix without the separator. */
  lemma FirstPartIsPrefix(s: string, sep: char)
    ensures var f := FirstPart(s, sep);
      sep !in f && |f| <= |s| && s[..|f|] == f && (|f| == |s| || s[|f|] == sep)
  {
    if sep in s {
      var i := IndexOf(s, sep);
      assert FirstPart(s, sep) == s[..i];
    } else {
      assert FirstPart(s, sep) == s;
    }
  }

  /** The last part is the longest suffix without the separator. */
  lemma {:induction false} LastPartIsSuffix(s: string, sep: char)
    ensures var l := LastPart(s, sep);
      sep !in l && |l| <= |s| && s[|s| - |l|..] == l && (|l| == |s| || s[|s| - |l| - 1] == sep)
    decreases |s|
  {
    if sep in s {
      var i := IndexOf(s, sep);
      LastPartIsSuffix(s[i + 1..], sep);
      assert LastPart(s, sep) == LastPart(s[i + 1..], sep);
    }
  }

  /** The text before a first separator is the first part. */
  lemma FirstPartBefore(t: string, sep: char, q: string)
    requires sep !in t
    ensures FirstPart(t + [sep] + q, sep) == t
  {
    IndexOfAfter(t, sep, q);
    var s := t + [sep] + q;
    assert s[..|t|] == t;
  }

  /** The text after a separator that it does not contain is the last part. */
  lemma LastPartAfter(p: string, sep: char, t: string)
    requires |p| > 0 && p[|p| - 1] == sep && sep !in t
    ensures LastPart(p + t, sep) == t
  {
    var s := p + t;
    var l := LastPart(s, sep);
    LastPartIsSuffix(s, sep);
    assert s[|p| - 1] == sep;
    assert forall k :: |p| <= k < |s| ==> s[k] == t[k - |p|];
    assert s[|s| - |t|..] == t;
  }

  /** `s.replace(pat, rep)` for a non-empty pattern: every occurrence, found
      left to right without overlapping, is replaced. */
  function Replace(s: string, pat: string, rep: string): string
    requires |pat| > 0
    decreases |s|
  {
    if |s| < |pat| then s
    else if s[..|pat|] == pat then rep + Replace(s[|pat|..], pat, rep)
    else [s[0]] + Replace(s[1..], pat, rep)
  }

  /** Text where the pattern does not occur is left unchanged. */
  lemma {:induction false} ReplaceAbsent(s: string, pat: string, rep: string)
    requires |pat| > 0 && !Contains(s, pat)
    ensures Replace(s, pat, rep) == s
    decreases |s|
  {
    if |s| >= |pat| {
      assert !OccursAt(s, pat, 0);
      forall i: nat ensures !OccursAt(s[1..], pat, i) {
        assert !OccursAt(s, pat, i + 1);
        if i + |pat| <= |s| - 1 {
          assert s[1..][i..i + |pat|] == s[i + 1..i + 1 + |pat|];
        }
      }
      ReplaceAbsent(s[1..], pat, rep);
    }
  }

  /** A character that is not part of the pattern splits the replacement:
      no occurrence can straddle it. */
  lemma {:induction false} ReplaceAround(a: string, c: char, b: string, pat: string, rep: string)
    requires |pat| > 0 && c !in pat
    ensures Replace(a + [c] + b, pat, rep) == Replace(a, pat, rep) + [c] + Replace(b, pat, rep)
    decreases |a|, 1
  {
    var s := a + [c] + b;
    if |s| < |pat| {
      assert Replace(a, pat, rep) == a && Replace(b, pat, rep) == b;
    } else if |a| < |pat| {
      ReplaceAroundStraddle(a, c, b, pat, rep);
    } else if a[..|pat|] == pat {
      ReplaceAroundMatch(a, c, b, pat, rep);
    } else {
      ReplaceAroundSkip(a, c, b, pat, rep);
    }
  }

  /** The first window of `a + [c] + b` reaches `c`. */
  lemma {:induction false} ReplaceAroundStraddle(a: string, c: char, b: string, pat: string, rep: string)
    requires |pat| > 0 && c !in pat && |a| < |pat| <= |a| + 1 + |b|
    ensures Replace(a + [c] + b, pat, rep) == Replace(a, pat, rep) + [c] + Replace(b, pat, rep)
    decreases |a|, 0
  {
    var s := a + [c] + b;
    WindowHolds(s, |a|, pat);
    ReplaceSkip(s, pat, rep);
    if a == [] {
      assert s[1..] == b;
      assert Replace(a, pat, rep) == [];
    } else {
      assert s[1..] == a[1..] + [c] + b;
      ReplaceAround(a[1..], c, b, pat, rep);
      assert Replace(a, pat, rep) == a;
      assert Replace(a[1..], pat, rep) == a[1..];
      assert [a[0]] + (a[1..] + [c] + Replace(b, pat, rep)) == a + [c] + Replace(b, pat, rep);
    }
  }

  /** The pattern occurs at the start of `a`. */
  lemma {:induction false} ReplaceAroundMatch(a: string, c: char, b: string, pat: string, rep: string)
    requires |pat| > 0 && c !in pat && |pat| <= |a| && a[..|pat|] == pat
    ensures Replace(a + [c] + b, pat, rep) == Replace(a, pat, rep) + [c] + Replace(b, pat, rep)
    decreases |a|, 0
  {
    var s := a + [c] + b;
    assert s[..|pat|] == a[..|pat|];
    ReplaceTake(s, pat, rep);
    ReplaceTake(a, pat, rep);
    assert s[|pat|..] == a[|pat|..] + [c] + b;
    ReplaceAround(a[|pat|..], c, b, pat, rep);
    var r := Replace(a[|pat|..], pat, rep);
    assert rep + (r + [c] + Replace(b, pat, rep)) == (rep + r) + [c] + Replace(b, pat, rep);
  }

  /** The pattern does not occur at the start of `a`. */
  lemma {:induction false} ReplaceAroundSkip(a: string, c: char, b: string, pat: string, rep: string)
    requires |pat| > 0 && c !in pat && |pat| <= |a| && a[..|pat|] != pat
    ensures Replace(a + [c] + b, pat, rep) == Replace(a, pat, rep) + [c] + Replace(b, pat, rep)
    decreases |a|, 0
  {
    var s := a + [c] + b;
    ConcatSlices(a, c, b, |pat|);
    ReplaceSkip(s, pat, rep);
    ReplaceSkip(a, pat, rep);
    ReplaceAround(a[1..], c, b, pat, rep);
    Regroup3([a[0]], Replace(a[1..], pat, rep), [c], Replace(b, pat, rep));
  }

  lemma ConcatSlices(a: string, c: char, b: string, k: nat)
    requires 0 < k <= |a|
    ensures (a + [c] + b)[..k] == a[..k] && (a + [c] + b)[1..] == a[1..] + [c] + b
  {
  }

  lemma Regroup3(w: string, x: string, y: string, z: string)
    ensures w + (x + y + z) == (w + x) + y + z
  {
  }

  /** A window that holds a character of the text at position `k` outside
      the pattern is not an occurrence. */
  lemma WindowHolds(s: string, k: nat, pat: string)
    requires k < |pat| <= |s| && s[k] !in pat
    ensures s[..|pat|] != pat
  {
    assert s[..|pat|][k] == s[k];
  }

  lemma ReplaceTake(s: string, pat: string, rep: string)
    requires |pat| > 0 && |pat| <= |s| && s[..|pat|] == pat
    ensures Replace(s, pat, rep) == rep + Replace(s[|pat|..], pat, rep)
  {
  }

  lemma ReplaceSkip(s: string, pat: string, rep: string)
    requires |pat| > 0 && |pat| <= |s| && s[..|pat|] != pat
    ensures Replace(s, pat, rep) == [s[0]] + Replace(s[1..], pat, rep)
  {
  }

  function Zeros(k: nat): (z: string)
    ensures |z| == k && forall i :: 0 <= i < k ==> z[i] == '0'
  {
    seq(k, _ => '0')
  }

  /** `s.zfill(width)`: pad with zeros on the left, after a leading sign. */
  function ZFill(s: string, width: nat): (r: string)
    ensures |r| == if |s| >= width then |s| else width
  {
    if |s| >= width then s
    else if |s| > 0 && (s[0] == '+' || s[0] == '-') then [s[0]] + Zeros(width - |s|) + s[1..]
    else Zeros(width - |s|) + s
  }

  /** Zero-padding the text of an integer keeps the number it denotes:
      `int(str(i).zfill(w)) == i`. */
  lemma ParseIntZFill(i: int, width: nat)
    ensures ParseInt(ZFill(IntToString(i), width)) == Some(i)
  {
    var s := IntToString(i);
    if |s| >= width {
      ParseIntToString(i);
    } else {
      var n: nat := if i < 0 then -i else i;
      var d := NatToString(n);
      var k := width - |s|;
      DigitsValueOfNatToString(n);
      DigitsValueLeadingZeros(k, d);
      ZFillOfIntToString(i, width);
      if i < 0 {
        ParseIntNegativeDigits(Zeros(k) + d);
      } else {
        ParseIntDigits(Zeros(k) + d);
      }
    }
  }

  lemma ZFillOfIntToString(i: int, width: nat)
    requires |IntToString(i)| < width
    ensures var d := NatToString(if i < 0 then -i else i);
      var k := width - |IntToString(i)|;
      ZFill(IntToString(i), width) == if i < 0 then "-" + (Zeros(k) + d) else Zeros(k) + d
  {
    var s := IntToString(i);
    var d := NatToString(if i < 0 then -i else i);
    if i < 0 {
      assert s[0] == '-' && s[1..] == d;
    } else {
      assert s[0] != '-' && s[0] != '+';
    }
  }

  predicate BraceFree(s: string) { '{' !in s && '}' !in s }

  /** `template.format(**args)` for templates whose replacement fields are
      plain names: `{name}` is replaced by `args[name]`, `{{` and `}}` stand
      for single braces; a missing name raises KeyError, an empty field
      `{}` IndexError (there are no positional arguments), and an unmatched
      brace ValueError. */
  function Format(t: string, args: map<string, string>): Result<string, Exc>
    decreases |t|
  {
    if t == [] then Ok([])
    else if t[0] == '{' then
      if |t| >= 2 && t[1] == '{' then
        var rest :- Format(t[2..], args);
        Ok("{" + rest)
      else if '}' !in t then Err(ValueError)
      else
        var j := IndexOf(t, '}');
        var name := t[1..j];
        if '{' in name then Err(ValueError)
        else if name == "" then Err(IndexError)
        else if name !in args then Err(KeyError)
        else
          var rest :- Format(t[j + 1..], args);
          Ok(args[name] + rest)
    else if t[0] == '}' then
      if |t| >= 2 && t[1] == '}' then
        var rest :- Format(t[2..], args);
        Ok("}" + rest)
      else Err(ValueError)
    else
      var rest :- Format(t[1..], args);
      Ok([t[0]] + rest)
  }

  /** Text without braces passes through `format` unchanged. */
  lemma {:induction false} FormatLiteral(a: string, b: string, args: map<string, string>)
    requires BraceFree(a)
    ensures Format(a + b, args) == (if Format(b, args).Ok? then Ok(a + Format(b, args).value) else Format(b, args))
    decreases |a|
  {
    if a != [] {
      var t := a + b;
      assert a[0] in a;
      assert Format(t, args) == (var r := Format(t[1..], args); if r.Err? then Err(r.error) else Ok([t[0]] + r.value));
      assert t[0] == a[0] && t[0] != '{' && t[0] != '}';
      assert t[1..] == a[1..] + b;
      assert forall c :: c in a[1..] ==> c in a;
      FormatLiteral(a[1..], b, args);
      if Format(b, args).Ok? {
        assert [a[0]] + (a[1..] + Format(b, args).value) == a + Format(b, args).value;
      }
    } else {
      assert a + b == b;
      if Format(b, args).Ok? {
        assert a + Format(b, args).value == Format(b, args).value;
      }
    }
  }

  /** A replacement field `{name}` is replaced by the argument of that name. */
  lemma FormatField(name: string, b: string, args: map<string, string>)
    requires BraceFree(name) && name != "" && name in args
    ensures Format("{" + name + "}" + b, args)
      == (if Format(b, args).Ok? then Ok(args[name] + Format(b, args).value) else Format(b, args))
  {
    var t := "{" + name + "}" + b;
    IndexOfAfter("{" + name, '}', b);
    assert t == ("{" + name) + ['}'] + b;
    assert t[1..|name| + 1] == name;
    assert t[|name| + 2..] == b;
  }

  /** Formatting brace-free text followed by one field and the rest. */
  lemma FormatOneField(a: string, name: string, b: string, args: map<string, string>)
    requires BraceFree(a) && BraceFree(name) && name != "" && name in args && Format(b, args).Ok?
    ensures Format(a + ("{" + name + "}" + b), args) == Ok(a + (args[name] + Format(b, args).value))
  {
    FormatField(name, b, args);
    FormatLiteral(a, "{" + name + "}" + b, args);
  }

  /** Brace-free text formats to itself. */
  lemma FormatBraceFree(a: string, args: map<string, string>)
    requires BraceFree(a)
    ensures Format(a, args) == Ok(a)
  {
    FormatLiteral(a, "", args);
    assert a + "" == a;
  }

  lemma IntToStringBraceFree(i: int)
    ensures BraceFree(IntToString(i))
  {
    var s := IntToString(i);
    var d := NatToString(if i < 0 then -i else i);
    assert forall c :: c in d ==> IsDigit(c);
    if i < 0 {
      assert forall c :: c in s ==> c == '-' || c in d;
    }
  }
}
