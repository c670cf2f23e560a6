/** The pieces of JavaScript's built-in behaviour that the receiver and server code
    lean on: `undefined` and `NaN` as "no value", `String.prototype.split` and
    `startsWith`, `parseInt` and `parseFloat` on plain sign/digit/fraction text,
    the truthiness test of `a && b && c`, and `&` on non-negative integers. */
module JsValues {

  /** `undefined`, `null` or `NaN` (None) versus an actual value (Some). */
  datatype Option<+T> = None | Some(value: T)

  /** `s[i]` on a JavaScript array: `undefined` past the end. */
  function At<T>(s: seq<T>, i: nat): (r: Option<T>)
    ensures r.Some? <==> i < |s|
    ensures r.Some? ==> r.value == s[i]
  {
    if i < |s| then Some(s[i]) else None
  }

  /** `s.startsWith(prefix)`: `s` is `prefix` followed by the rest of `s`. */
  predicate StartsWith(s: string, prefix: string)
    ensures StartsWith(s, prefix) <==> |prefix| <= |s| && s == prefix + s[|prefix|..]
  {
    |prefix| <= |s| && s[..|prefix|] == prefix
  }

  /** `s.substring(start)` and `s.substring(0, end)` for non-negative bounds, which
      JavaScript clamps to the string's length. */
  function SubstringFrom(s: string, start: nat): (r: string)
    ensures start <= |s| ==> s == s[..start] + r
    ensures start >= |s| ==> r == ""
  {
    if start <= |s| then s[start..] else ""
  }

  function SubstringTo(s: string, end: nat): (r: string)
    ensures |r| == if end <= |s| then end else |s|
    ensures r <= s
  {
    if end <= |s| then s[..end] else s
  }

  // ---------------------------------------------------------------------------
  // String.prototype.split with a one-character separator

  /** `s.split(sep)`: the maximal separator-free pieces, in order; never empty. */
  function Split(s: string, sep: char): (parts: seq<string>)
    ensures |parts| >= 1
    ensures forall i :: 0 <= i < |parts| ==> sep !in parts[i]
    decreases |s|
  {
    if s == [] then [""]
    else
      var rest := Split(s[1..], sep);
      if s[0] == sep then [""] + rest
      else [[s[0]] + rest[0]] + rest[1..]
  }

  /** `parts.join(sep)`, the inverse of Split. */
  function Join(parts: seq<string>, sep: char): string
    requires |parts| >= 1
  {
    if |parts| == 1 then parts[0] else parts[0] + [sep] + Join(parts[1..], sep)
  }

  /** Joining the pieces of a split gives back the original text. */
  lemma {:induction false} JoinSplit(s: string, sep: char)
    ensures Join(Split(s, sep), sep) == s
    decreases |s|
  {
    if s != [] {
      var rest := Split(s[1..], sep);
      JoinSplit(s[1..], sep);
      if s[0] == sep {
        assert Split(s, sep) == [""] + rest;
        assert ([""] + rest)[1..] == rest;
      } else {
        var parts := [[s[0]] + rest[0]] + rest[1..];
        assert Split(s, sep) == parts;
        if |rest| == 1 {
          assert Join(parts, sep) == [s[0]] + rest[0];
        } else {
          assert parts[1..] == rest[1..];
          assert Join(rest, sep) == rest[0] + [sep] + Join(rest[1..], sep);
        }
      }
    }
  }

  /** Text without the separator splits into itself alone. */
  lemma {:induction false} SplitSingle(s: string, sep: char)
    requires sep !in s
    ensures Split(s, sep) == [s]
    decreases |s|
  {
    if s != [] {
      SplitSingle(s[1..], sep);
      assert [s[0]] + s[1..] == s;
    }
  }

  /** A separator-free piece followed by the separator splits off as the first part. */
  lemma {:induction false} SplitFirst(a: string, sep: char, b: string)
    requires sep !in a
    ensures Split(a + [sep] + b, sep) == [a] + Split(b, sep)
    decreases |a|
  {
    if a == [] {
      assert [sep] + b == a + [sep] + b;
      assert ([sep] + b)[1..] == b;
    } else {
      SplitFirst(a[1..], sep, b);
      assert (a + [sep] + b)[1..] == a[1..] + [sep] + b;
      assert [a[0]] + a[1..] == a;
    }
  }

  /** Splitting a join of separator-free pieces gives the pieces back. */
  lemma {:induction false} SplitJoin(parts: seq<string>, sep: char)
    requires |parts| >= 1
    requires forall i :: 0 <= i < |parts| ==> sep !in parts[i]
    ensures Split(Join(parts, sep), sep) == parts
    decreases |parts|
  {
    if |parts| == 1 {
      SplitSingle(parts[0], sep);
    } else {
      SplitJoin(parts[1..], sep);
      SplitFirst(parts[0], sep, Join(parts[1..], sep));
      assert [parts[0]] + parts[1..] == parts;
    }
  }

  // ---------------------------------------------------------------------------
  // Digits, parseInt and parseFloat

  /** The value of a character as a digit in any radix up to 16, or 16 if it is none. */
  function CharValue(c: char): (v: nat)
    ensures v <= 16
  {
    if '0' <= c <= '9' then c as int - '0' as int
    else if 'a' <= c <= 'f' then c as int - 'a' as int + 10
    else if 'A' <= c <= 'F' then c as int - 'A' as int + 10
    else 16
  }

  predicate IsDigit(c: char, radix: nat)
  {
    CharValue(c) < radix
  }

  predicate AllDigits(s: string, radix: nat)
  {
    forall i :: 0 <= i < |s| ==> IsDigit(s[i], radix)
  }

  /** The length of the longest all-digit prefix of `s`. */
  function DigitRun(s: string, radix: nat): (n: nat)
    ensures n <= |s|
    ensures AllDigits(s[..n], radix)
    ensures n < |s| ==> !IsDigit(s[n], radix)
    decreases |s|
  {
    if s != [] && IsDigit(s[0], radix) then 1 + DigitRun(s[1..], radix) else 0
  }

  /** The value of an all-digit string, most significant digit first. */
  function DigitsValue(s: string, radix: nat): nat
    requires AllDigits(s, radix)
    decreases |s|
  {
    if s == [] then 0
    else DigitsValue(s[..|s| - 1], radix) * radix + CharValue(s[|s| - 1])
  }

  /** Appending a digit multiplies by the radix and adds the digit. */
  lemma DigitsValueAppend(s: string, c: char, radix: nat)
    requires AllDigits(s, radix) && IsDigit(c, radix)
    ensures AllDigits(s + [c], radix)
    ensures DigitsValue(s + [c], radix) == DigitsValue(s, radix) * radix + CharValue(c)
  {
    assert (s + [c])[..|s|] == s;
  }

  function Pow10(n: nat): (p: nat)
    ensures p >= 1
  {
    if n == 0 then 1 else 10 * Pow10(n - 1)
  }

  /** A leading '-' or '+' is taken off; the flag says whether it was '-'. */
  function SplitSign(s: string): (r: (bool, string))
    ensures r.1 == s || (s != [] && r.1 == s[1..])
    ensures r.0 ==> s != [] && s[0] == '-'
  {
    if s != [] && s[0] == '-' then (true, s[1..])
    else if s != [] && s[0] == '+' then (false, s[1..])
    else (false, s)
  }

  /** `parseInt(s)` without a radix argument: an optional sign, then a "0x"/"0X"
      prefix selects hexadecimal, otherwise decimal; the longest digit prefix is
      read, and no digit at all gives NaN (None). */
  function ParseInt(s: string): (r: Option<int>)
    ensures s == [] ==> r.None?
    ensures r.Some? && SplitSign(s).0 ==> r.value <= 0
    ensures r.Some? && !SplitSign(s).0 ==> r.value >= 0
  {
    var (negative, body) := SplitSign(s);
    var hex := |body| >= 2 && body[0] == '0' && (body[1] == 'x' || body[1] == 'X');
    var radix := if hex then 16 else 10;
    var digits := if hex then body[2..] else body;
    var n := DigitRun(digits, radix);
    if n == 0 then None
    else
      var magnitude: int := DigitsValue(digits[..n], radix);
      Some(if negative then -magnitude else magnitude)
  }

  /** `parseFloat(s)` on sign, digits, '.' and digits: the longest such prefix is
      read; no digit on either side of the point gives NaN (None). */
  function ParseFloat(s: string): (r: Option<real>)
    ensures s == [] ==> r.None?
    ensures r.Some? && SplitSign(s).0 ==> r.value <= 0.0
    ensures r.Some? && !SplitSign(s).0 ==> r.value >= 0.0
  {
    var (negative, body) := SplitSign(s);
    var n := DigitRun(body, 10);
    var hasPoint := n < |body| && body[n] == '.';
    var fraction := if hasPoint then body[n + 1..] else "";
    var m := DigitRun(fraction, 10);
    if n == 0 && m == 0 then None
    else
      var magnitude := DecimalValue(body[..n], fraction[..m]);
      Some(if negative then -magnitude else magnitude)
  }

  /** The value of the decimal numeral `whole.frac`. */
  function DecimalValue(whole: string, frac: string): (v: real)
    requires AllDigits(whole, 10) && AllDigits(frac, 10)
    ensures v >= 0.0
  {
    DigitsValue(whole, 10) as real + DigitsValue(frac, 10) as real / Pow10(|frac|) as real
  }

  /** The digit run of a digit string followed by a non-digit is exactly that string. */
  lemma {:induction false} DigitRunOf(digits: string, rest: string, radix: nat)
    requires AllDigits(digits, radix)
    requires rest == [] || !IsDigit(rest[0], radix)
    ensures DigitRun(digits + rest, radix) == |digits|
    decreases |digits|
  {
    if digits != [] {
      assert (digits + rest)[1..] == digits[1..] + rest;
      DigitRunOf(digits[1..], rest, radix);
    }
  }

  /** parseInt reads a decimal digit string (which has no sign and no "0x") as its value. */
  lemma ParseIntDecimal(digits: string)
    requires digits != [] && AllDigits(digits, 10)
    ensures ParseInt(digits) == Some(DigitsValue(digits, 10))
  {
    assert SplitSign(digits) == (false, digits);
    assert !(|digits| >= 2 && digits[0] == '0' && (digits[1] == 'x' || digits[1] == 'X'));
    DigitRunOf(digits, [], 10);
    assert digits + [] == digits;
    assert digits[..|digits|] == digits;
  }

  /** parseFloat reads an unsigned numeral `whole.frac` exactly. */
  lemma ParseFloatDecimal(whole: string, frac: string)
    requires whole != [] && AllDigits(whole, 10) && AllDigits(frac, 10)
    ensures ParseFloat(whole + "." + frac) == Some(DecimalValue(whole, frac))
  {
    var s := whole + "." + frac;
    assert s[0] == whole[0];
    assert SplitSign(s) == (false, s);
    DigitRunOf(whole, "." + frac, 10);
    assert s == whole + ("." + frac);
    assert s[..|whole|] == whole;
    assert s[|whole| + 1..] == frac;
    DigitRunOf(frac, [], 10);
    assert frac + [] == frac;
    assert frac[..|frac|] == frac;
  }

  // ---------------------------------------------------------------------------
  // Truthiness

  /** A number is truthy when it is neither NaN nor zero. */
  predicate TruthyNumber(v: Option<real>)
    ensures !TruthyNumber(v) <==> v in {None, Some(0.0)}
  {
    v.Some? && v.value != 0.0
  }

  /** A string is truthy when it is defined and not empty. */
  predicate TruthyString(s: Option<string>)
    ensures !TruthyString(s) <==> s in {None, Some("")}
  {
    s.Some? && s.value != ""
  }

  // ---------------------------------------------------------------------------
  // Bitwise AND

  /** `x & y` for operands in [0, 2^31), where JavaScript's 32-bit conversion
      changes nothing: bit by bit from the least significant end. */
  function BitAnd(x: nat, y: nat): (r: nat)
    ensures r <= x && r <= y
  {
    if x == 0 || y == 0 then 0
    else 2 * BitAnd(x / 2, y / 2) + (if x % 2 == 1 && y % 2 == 1 then 1 else 0)
  }

  function Pow2(k: nat): (p: nat)
    ensures p >= 1
  {
    if k == 0 then 1 else 2 * Pow2(k - 1)
  }

  /** Masking with k one bits keeps the remainder modulo 2^k. */
  lemma {:induction false} AndLowOnes(x: nat, k: nat)
    ensures BitAnd(x, Pow2(k) - 1) == x % Pow2(k)
    decreases k
  {
    if k > 0 {
      var m := Pow2(k - 1);
      assert Pow2(k) == 2 * m;
      OddBelow(m);
      AndOdd(x, 2 * m - 1);
      AndLowOnes(x / 2, k - 1);
      HalveMod(x, m);
    }
  }

  lemma OddBelow(m: nat)
    requires m >= 1
    ensures (2 * m - 1) % 2 == 1 && (2 * m - 1) / 2 == m - 1
  {
  }

  lemma AndOdd(x: nat, y: nat)
    requires y % 2 == 1
    ensures BitAnd(x, y) == 2 * BitAnd(x / 2, y / 2) + x % 2
  {
  }

  lemma HalveMod(x: nat, m: nat)
    requires m > 0
    ensures x % (2 * m) == 2 * (x / 2 % m) + x % 2
  {
    var q, c := x / 2 / m, x / 2 % m;
    assert x / 2 == m * q + c;
    assert x == (2 * m) * q + (2 * c + x % 2);
    DivModUnique(x, 2 * m, q, 2 * c + x % 2);
  }

  lemma DivModUnique(x: nat, d: nat, q: nat, r: nat)
    requires d > 0 && r < d && x == d * q + r
    ensures x % d == r
  {
    var t := q - x / d;
    assert d * q - d * (x / d) == d * t;
    MulSign(d, t);
  }

  lemma MulSign(d: int, t: int)
    requires d > 0
    ensures t >= 1 ==> d * t >= d
    ensures t <= -1 ==> d * t <= -d
  {
  }
}
