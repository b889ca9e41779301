/** The string operations of JavaScript and SQLite that the availability code
    relies on: `trim`, `split`, `join`, `padStart(2, '0')`, ASCII
    `toLowerCase`, `parseInt`, `Number.prototype.toString` and SQLite's BINARY
    text order. Strings are sequences of Unicode scalar values. */
module Text {
  import opened Results

  /** The code points JavaScript treats as white space: WhiteSpace and
      LineTerminator, the set `String.prototype.trim` strips and `\s` matches. */
  predicate IsSpace(c: char) {
    var n := c as int;
    n == 0x09 || n == 0x0A || n == 0x0B || n == 0x0C || n == 0x0D || n == 0x20 ||
    n == 0xA0 || n == 0x1680 || (0x2000 <= n <= 0x200A) || n == 0x2028 || n == 0x2029 ||
    n == 0x202F || n == 0x205F || n == 0x3000 || n == 0xFEFF
  }

  /** `\d` */
  predicate IsDigit(c: char) { '0' <= c <= '9' }

  /** `\w`: ASCII letters, digits and underscore. */
  predicate IsWordChar(c: char) {
    IsDigit(c) || 'a' <= c <= 'z' || 'A' <= c <= 'Z' || c == '_'
  }

  predicate IsHexDigit(c: char) {
    IsDigit(c) || 'a' <= c <= 'f' || 'A' <= c <= 'F'
  }

  /** The character classes the date and number scanners use. */
  datatype CharClass = Word | Space | Digit | HexDigit

  predicate InClass(c: char, k: CharClass) {
    match k
    case Word => IsWordChar(c)
    case Space => IsSpace(c)
    case Digit => IsDigit(c)
    case HexDigit => IsHexDigit(c)
  }

  predicate AllIn(s: string, k: CharClass) {
    forall i :: 0 <= i < |s| ==> InClass(s[i], k)
  }

  /** Length of the longest prefix of `s` in class `k` (what a greedy `k+`/`k*` consumes). */
  function Span(s: string, k: CharClass): (n: nat)
    ensures n <= |s| && AllIn(s[..n], k)
    ensures n < |s| ==> !InClass(s[n], k)
  {
    if s != [] && InClass(s[0], k) then 1 + Span(s[1..], k) else 0
  }

  /** A greedy run stops exactly where the class ends. */
  lemma {:induction false} SpanOf(a: string, b: string, k: CharClass)
    requires AllIn(a, k)
    requires b == [] || !InClass(b[0], k)
    ensures Span(a + b, k) == |a|
  {
    if a != [] {
      assert (a + b)[1..] == a[1..] + b;
      SpanOf(a[1..], b, k);
    }
  }

  /** Length of the longest run of class `k` starting at index `i` (what a
      greedy `k+`/`k*` consumes from there). */
  function SpanAt(s: string, i: nat, k: CharClass): (n: nat)
    requires i <= |s|
    ensures i + n <= |s|
    decreases |s| - i
  {
    if i < |s| && InClass(s[i], k) then 1 + SpanAt(s, i + 1, k) else 0
  }

  /** A greedy scan stops at the end or at a character outside its class. */
  lemma {:induction false} SpanAtStop(s: string, i: nat, k: CharClass)
    requires i <= |s|
    ensures i + SpanAt(s, i, k) == |s| || !InClass(s[i + SpanAt(s, i, k)], k)
    decreases |s| - i
  {
    if i < |s| && InClass(s[i], k) {
      SpanAtStop(s, i + 1, k);
    }
  }

  /** Everything a greedy scan consumes is of its class. */
  lemma {:induction false} SpanAtRun(s: string, i: nat, j: nat, k: CharClass)
    requires i <= |s| && j == i + SpanAt(s, i, k)
    ensures AllIn(s[i..j], k)
    decreases |s| - i
  {
    if i < j {
      SpanAtRun(s, i + 1, j, k);
      var t, r := s[i..j], s[i + 1..j];
      assert forall m :: 0 < m < j - i ==> t[m] == r[m - 1];
    }
  }


  /** A greedy run from `i` stops exactly where the class ends. */
  lemma {:induction false} SpanAtOf(s: string, i: nat, n: nat, k: CharClass)
    requires i + n <= |s|
    requires forall j :: i <= j < i + n ==> InClass(s[j], k)
    requires i + n == |s| || !InClass(s[i + n], k)
    ensures SpanAt(s, i, k) == n
    decreases n
  {
    if n > 0 {
      SpanAtOf(s, i + 1, n - 1, k);
    }
  }

  /** A run of class `k` followed by the end or by a character outside the
      class is exactly what a greedy scan from the start consumes. */
  lemma SpanAtHead(piece: string, post: string, k: CharClass)
    requires AllIn(piece, k)
    requires post == [] || !InClass(post[0], k)
    ensures SpanAt(piece + post, 0, k) == |piece|
  {
    var s := piece + post;
    assert forall j :: 0 <= j < |piece| ==> s[j] == piece[j];
    if post != [] {
      assert s[|piece|] == post[0];
    }
    SpanAtOf(s, 0, |piece|, k);
  }

  /** A scan that starts past a prefix does not see the prefix. */
  lemma {:induction false} SpanAtShift(a: string, b: string, i: nat, k: CharClass)
    requires i <= |b|
    ensures SpanAt(a + b, |a| + i, k) == SpanAt(b, i, k)
    decreases |b| - i
  {
    if i < |b| {
      assert (a + b)[|a| + i] == b[i];
      SpanAtShift(a, b, i + 1, k);
    }
  }

  // ---------------------------------------------------------------- trim

  /** Drops leading white space. */
  function TrimStart(s: string): (r: string)
    ensures |r| <= |s|
  {
    if s != [] && IsSpace(s[0]) then TrimStart(s[1..]) else s
  }

  /** What trimming the start leaves begins with a visible character. */
  lemma {:induction false} TrimStartVisible(s: string)
    ensures var r := TrimStart(s); r == [] || !IsSpace(r[0])
  {
    if s != [] && IsSpace(s[0]) {
      TrimStartVisible(s[1..]);
    }
  }

  lemma TrimStartNoop(s: string)
    requires s == [] || !IsSpace(s[0])
    ensures TrimStart(s) == s
  {
  }

  /** Drops trailing white space. */
  function TrimEnd(s: string): (r: string)
    ensures |r| <= |s| && r == s[..|r|]
  {
    if s != [] && IsSpace(s[|s| - 1]) then TrimEnd(s[..|s| - 1]) else s
  }

  /** What trimming the end leaves ends with a visible character. */
  lemma {:induction false} TrimEndVisible(s: string)
    ensures var r := TrimEnd(s); r == [] || !IsSpace(r[|r| - 1])
  {
    if s != [] && IsSpace(s[|s| - 1]) {
      TrimEndVisible(s[..|s| - 1]);
    }
  }

  /** Trimming the end stops at the last visible character. */
  lemma {:induction false} TrimEndKeeps(s: string, j: nat)
    requires j < |s| && !IsSpace(s[j])
    ensures j < |TrimEnd(s)|
  {
    if IsSpace(s[|s| - 1]) {
      assert s[..|s| - 1][j] == s[j];
      TrimEndKeeps(s[..|s| - 1], j);
    }
  }

  /** `String.prototype.trim`. */
  function Trim(s: string): (r: string)
    ensures |r| <= |s|
  {
    TrimEnd(TrimStart(s))
  }

  /** The trimmed string starts and ends with a visible character. */
  lemma TrimVisible(s: string)
    ensures var r := Trim(s); r == [] || (!IsSpace(r[0]) && !IsSpace(r[|r| - 1]))
  {
    var t := TrimStart(s);
    TrimStartVisible(s);
    TrimEndVisible(t);
    var r := TrimEnd(t);
    if r != [] {
      assert r[0] == t[0];
    }
  }

  /** A string with no white space at either end is its own trim. */
  lemma TrimNoop(s: string)
    requires s == [] || (!IsSpace(s[0]) && !IsSpace(s[|s| - 1]))
    ensures Trim(s) == s
  {
    TrimStartNoop(s);
  }

  /** Trimming twice is trimming once. */
  lemma TrimIdempotent(s: string)
    ensures Trim(Trim(s)) == Trim(s)
  {
    TrimVisible(s);
    TrimNoop(Trim(s));
  }

  // ---------------------------------------------------------------- split / join

  /** `s.split(sep)` with a one-character separator: the pieces between
      separators, always at least one ("" splits into [""]). */
  function Split(s: string, sep: char): (parts: seq<string>)
    ensures |parts| >= 1
    ensures forall p :: p in parts ==> sep !in p
  {
    if s == [] then [""]
    else
      var rest := Split(s[1..], sep);
      if s[0] == sep then [""] + rest else [[s[0]] + rest[0]] + rest[1..]
  }

  /** `parts.join(sep)`. */
  function Join(parts: seq<string>, sep: string): string
  {
    if |parts| == 0 then ""
    else if |parts| == 1 then parts[0]
    else parts[0] + sep + Join(parts[1..], sep)
  }

  /** `parts[i]`, with JavaScript's `undefined` as None. */
  function Part(parts: seq<string>, i: nat): Option<string>
  {
    if i < |parts| then Some(parts[i]) else None
  }

  lemma JoinCons(c: char, parts: seq<string>, sep: string)
    requires |parts| >= 1
    ensures Join([[c] + parts[0]] + parts[1..], sep) == [c] + Join(parts, sep)
  {
    var q := [[c] + parts[0]] + parts[1..];
    if |parts| > 1 {
      assert q[1..] == parts[1..];
    }
  }

  /** Splitting and re-joining with the same separator gives back the string. */
  lemma {:induction false} JoinSplit(s: string, sep: char)
    ensures Join(Split(s, sep), [sep]) == s
  {
    if s != [] {
      var rest := Split(s[1..], sep);
      JoinSplit(s[1..], sep);
      if s[0] == sep {
        assert ([""] + rest)[1..] == rest;
      } else {
        JoinCons(s[0], rest, [sep]);
      }
      assert s == [s[0]] + s[1..];
    }
  }

  /** Splitting a string whose head piece holds no separator keeps that piece whole. */
  lemma {:induction false} SplitPrefix(x: string, y: string, sep: char)
    requires sep !in x
    ensures var t := Split(y, sep);
      Split(x + y, sep) == [x + t[0]] + t[1..]
  {
    var t := Split(y, sep);
    if x == [] {
      assert x + y == y && x + t[0] == t[0];
      assert [t[0]] + t[1..] == t;
    } else {
      SplitPrefix(x[1..], y, sep);
      assert (x + y)[0] == x[0] && (x + y)[1..] == x[1..] + y;
      var rest := Split(x[1..] + y, sep);
      assert rest == [x[1..] + t[0]] + t[1..];
      assert rest[1..] == t[1..];
      assert [x[0]] + (x[1..] + t[0]) == x + t[0];
    }
  }

  /** Joining pieces free of the separator and splitting again gives back the pieces. */
  lemma {:induction false} SplitJoin(parts: seq<string>, sep: char)
    requires |parts| >= 1
    requires forall p :: p in parts ==> sep !in p
    ensures Split(Join(parts, [sep]), sep) == parts
  {
    if |parts| == 1 {
      SplitPrefix(parts[0], "", sep);
      assert parts[0] + "" == parts[0];
    } else {
      var tail := Join(parts[1..], [sep]);
      SplitJoin(parts[1..], sep);
      assert ([sep] + tail)[1..] == tail;
      assert Split([sep] + tail, sep) == [""] + parts[1..];
      SplitPrefix(parts[0], [sep] + tail, sep);
      assert parts[0] + [sep] + tail == parts[0] + ([sep] + tail);
      assert parts[0] + "" == parts[0];
      assert [parts[0]] + parts[1..] == parts;
    }
  }

  // ---------------------------------------------------------------- padding, case

  /** `s.padStart(2, '0')`: left-pads with zeros to length two; longer strings are kept. */
  function Pad2(s: string): (r: string)
    ensures |r| == if |s| >= 2 then |s| else 2
    ensures forall i :: 0 <= i < |r| ==> r[i] == if i < |r| - |s| then '0' else s[i - (|r| - |s|)]
  {
    if |s| >= 2 then s else if |s| == 1 then "0" + s else "00"
  }

  function LowerChar(c: char): char {
    if 'A' <= c <= 'Z' then (c as int + 32) as char else c
  }

  /** `toLowerCase` on ASCII letters; other characters are kept. */
  function Lower(s: string): (r: string)
    ensures |r| == |s|
  {
    if s == [] then [] else [LowerChar(s[0])] + Lower(s[1..])
  }

  /** A string without upper-case ASCII letters is its own lower case. */
  lemma {:induction false} LowerKeeps(s: string)
    requires forall c :: c in s ==> !('A' <= c <= 'Z')
    ensures Lower(s) == s
  {
    if s != [] {
      assert s[0] in s;
      assert forall c :: c in s[1..] ==> c in s;
      LowerKeeps(s[1..]);
      assert s == [s[0]] + s[1..];
    }
  }

  // ---------------------------------------------------------------- numbers

  function CharValue(c: char): nat {
    if '0' <= c <= '9' then c as int - '0' as int
    else if 'a' <= c <= 'f' then c as int - 'a' as int + 10
    else if 'A' <= c <= 'F' then c as int - 'A' as int + 10
    else 0
  }

  /** The value of a string of digits in the given radix (most significant first). */
  function NumberValue(s: string, radix: nat): nat {
    if s == [] then 0 else NumberValue(s[..|s| - 1], radix) * radix + CharValue(s[|s| - 1])
  }

  function DigitChar(d: nat): (c: char)
    requires d < 10
    ensures IsDigit(c) && CharValue(c) == d
  {
    ('0' as int + d) as char
  }

  /** `n.toString()` for a non-negative integer: decimal digits, no leading zero. */
  function DecimalText(n: nat): (s: string)
    ensures |s| >= 1 && AllIn(s, Digit)
    ensures NumberValue(s, 10) == n
    ensures |s| > 1 ==> s[0] != '0'
  {
    if n < 10 then [DigitChar(n)]
    else
      var s := DecimalText(n / 10) + [DigitChar(n % 10)];
      assert s[..|s| - 1] == DecimalText(n / 10);
      s
  }

  /** Different numbers print differently. */
  lemma DecimalTextInjective(m: nat, n: nat)
    requires DecimalText(m) == DecimalText(n)
    ensures m == n
  {
  }

  /** Zero-padding a digit string does not change its value. */
  lemma {:induction false} Pad2Value(s: string)
    ensures NumberValue(Pad2(s), 10) == NumberValue(s, 10)
  {
    if |s| < 2 {
      var p := Pad2(s);
      ZerosPrefixValue(p, |p| - |s|);
      assert p[|p| - |s|..] == s;
    }
  }

  /** Leading zeros add nothing to a decimal value. */
  lemma {:induction false} ZerosPrefixValue(s: string, k: nat)
    requires k <= |s|
    requires forall i :: 0 <= i < k ==> s[i] == '0'
    ensures NumberValue(s, 10) == NumberValue(s[k..], 10)
    decreases |s|
  {
    if |s| > k {
      ZerosPrefixValue(s[..|s| - 1], k);
      assert s[..|s| - 1][k..] == s[k..][..|s[k..]| - 1];
    } else {
      AllZerosValue(s);
    }
  }

  lemma {:induction false} AllZerosValue(s: string)
    requires forall i :: 0 <= i < |s| ==> s[i] == '0'
    ensures NumberValue(s, 10) == 0
  {
    if s != [] {
      AllZerosValue(s[..|s| - 1]);
    }
  }

  /** The unsigned part of `parseInt`: without a radix (`autoRadix`) a
      `0x`/`0X` prefix selects base 16; the longest run of digits that follows
      is the value, and no digit at all is NaN (None). */
  function ParseUnsigned(u: string, autoRadix: bool): Option<nat>
  {
    var hex := autoRadix && |u| >= 2 && u[0] == '0' && (u[1] == 'x' || u[1] == 'X');
    var body := if hex then u[2..] else u;
    var n := Span(body, if hex then HexDigit else Digit);
    if n == 0 then None else Some(NumberValue(body[..n], if hex then 16 else 10))
  }

  /** `parseInt(s, 10)` when `autoRadix` is false, `parseInt(s)` when it is
      true: leading white space is skipped and one sign is read before the
      unsigned part. */
  function ParseInt(s: string, autoRadix: bool): Option<int>
  {
    var t := TrimStart(s);
    if t != [] && (t[0] == '-' || t[0] == '+') then
      match ParseUnsigned(t[1..], autoRadix)
      case None => None
      case Some(v) => var w: int := v; Some(if t[0] == '-' then -w else w)
    else
      match ParseUnsigned(t, autoRadix)
      case None => None
      case Some(v) => Some(v)
  }

  /** parseInt reads the leading digits and ignores whatever follows them
      ("5abc" is 5), with or without a radix, as long as no hex prefix is present. */
  lemma ParseIntLeadingDigits(digits: string, rest: string, autoRadix: bool)
    requires |digits| >= 1 && AllIn(digits, Digit)
    requires rest == [] || !IsDigit(rest[0])
    requires autoRadix ==> !(|digits| == 1 && digits[0] == '0' && rest != [] && (rest[0] == 'x' || rest[0] == 'X'))
    ensures ParseInt(digits + rest, autoRadix) == Some(NumberValue(digits, 10))
  {
    var s := digits + rest;
    var n := |digits|;
    assert s[..n] == digits;
    if n < |s| {
      assert s[n] == rest[0];
    }
    if |s| >= 2 {
      assert s[1] == if n == 1 then rest[0] else digits[1];
    }
    SpanOf(digits, rest, Digit);
    ParseIntDigitRun(s, n, autoRadix);
  }

  /** parseInt on a string that starts with a run of `n` decimal digits. */
  lemma ParseIntDigitRun(s: string, n: nat, autoRadix: bool)
    requires 1 <= n <= |s| && IsDigit(s[0]) && Span(s, Digit) == n
    requires autoRadix ==> !(n == 1 && s[0] == '0' && |s| >= 2 && (s[1] == 'x' || s[1] == 'X'))
    ensures ParseInt(s, autoRadix) == Some(NumberValue(s[..n], 10))
  {
    TrimStartNoop(s);
    assert !(s[0] == '-' || s[0] == '+');
    ParseUnsignedDigitRun(s, n, autoRadix);
  }

  lemma ParseUnsignedDigitRun(s: string, n: nat, autoRadix: bool)
    requires 1 <= n <= |s| && IsDigit(s[0]) && Span(s, Digit) == n
    requires autoRadix ==> !(n == 1 && s[0] == '0' && |s| >= 2 && (s[1] == 'x' || s[1] == 'X'))
    ensures ParseUnsigned(s, autoRadix) == Some(NumberValue(s[..n], 10))
  {
    if autoRadix && |s| >= 2 && s[0] == '0' && n >= 2 {
      assert IsDigit(s[..n][1]);
    }
  }

  /** parseInt undoes toString on non-negative integers. */
  lemma ParseIntDecimal(n: nat, autoRadix: bool)
    ensures ParseInt(DecimalText(n), autoRadix) == Some(n)
  {
    var d := DecimalText(n);
    ParseIntLeadingDigits(d, "", autoRadix);
    assert d + "" == d;
  }

  /** A string whose first non-blank character is neither a sign nor a digit is NaN. */
  lemma ParseIntNaN(s: string, autoRadix: bool)
    requires var t := TrimStart(s); t == [] || !(IsDigit(t[0]) || t[0] == '-' || t[0] == '+')
    ensures ParseInt(s, autoRadix) == None
  {
  }

  // ---------------------------------------------------------------- order

  /** SQLite's BINARY collation on text: code-point lexicographic order, a
      proper prefix sorting first. */
  predicate TextLe(x: string, y: string) {
    x == [] || (y != [] && (x[0] < y[0] || (x[0] == y[0] && TextLe(x[1..], y[1..]))))
  }

  lemma {:induction false} TextLeTotal(x: string, y: string)
    ensures TextLe(x, y) || TextLe(y, x)
  {
    if x != [] && y != [] && x[0] == y[0] {
      TextLeTotal(x[1..], y[1..]);
    }
  }

  lemma {:induction false} TextLeAntisymmetric(x: string, y: string)
    requires TextLe(x, y) && TextLe(y, x)
    ensures x == y
  {
    if x != [] && y != [] {
      TextLeAntisymmetric(x[1..], y[1..]);
      assert x == [x[0]] + x[1..] && y == [y[0]] + y[1..];
    }
  }
}
