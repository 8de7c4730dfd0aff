/** Python values, exceptions and the built-in conversions the book-lookup core relies on. */
module Py {

  /** One octet of a `bytes` object. */
  type byte = b: int | 0 <= b < 256

  /** The Python values that flow between the layers: what a handler is asked to send,
      what a database row holds and what a template interpolates. */
  datatype Value =
    | Str(s: string)
    | Bytes(bs: seq<byte>)
    | Int(i: int)
    | Bool(b: bool)
    | NoneValue
    | Tuple(items: seq<Value>)

  /** The values a text column (or a caller of the views) hands over: `str`, `int`, `bool`
      or `None`. */
  type Scalar = v: Value | v.Str? || v.Int? || v.Bool? || v.NoneValue? witness NoneValue

  /** `isinstance(v, int)`: in Python `bool` is a subclass of `int`. */
  predicate IsInt(v: Value) {
    v.Int? || v.Bool?
  }

  /** Python truthiness (`if v:`). */
  predicate Truthy(v: Value) {
    match v
    case Str(s) => s != []
    case Bytes(bs) => bs != []
    case Int(i) => i != 0
    case Bool(b) => b
    case NoneValue => false
    case Tuple(items) => items != []
  }

  /** `v == 0` in Python: only the numbers equal to zero compare equal to `0`. */
  predicate EqualsZero(v: Value) {
    v == Int(0) || v == Bool(false)
  }

  /** The decimal digits of a natural number, most significant first. */
  function Digits(n: nat): (r: string)
    ensures |r| > 0
    ensures AllDigits(r)
    decreases n
  {
    var d := ['0' + (n % 10) as char];
    if n < 10 then d else Digits(n / 10) + d
  }

  predicate AllDigits(s: string) {
    forall k :: 0 <= k < |s| ==> '0' <= s[k] <= '9'
  }

  /** The value of a string of decimal digits. */
  function DigitsValue(s: string): int
    requires AllDigits(s)
  {
    if s == [] then 0 else 10 * DigitsValue(s[..|s| - 1]) + (s[|s| - 1] - '0') as int
  }

  /** `Digits` spells the number it is given: reading the digits back gives `n`, and there is
      no leading zero except in "0" itself. */
  lemma {:induction false} DigitsRoundTrip(n: nat)
    ensures DigitsValue(Digits(n)) == n
    ensures Digits(n)[0] == '0' <==> n == 0
    decreases n
  {
    var d := ['0' + (n % 10) as char];
    if n >= 10 {
      DigitsRoundTrip(n / 10);
      var p := Digits(n / 10);
      assert Digits(n) == p + d;
      assert (p + d)[..|p + d| - 1] == p;
    }
  }

  /** `str(v)` for the values a template receives. */
  function ToStr(v: Scalar): (r: string)
    ensures v.Str? ==> r == v.s
    ensures v.Int? && v.i >= 0 ==> AllDigits(r) && DigitsValue(r) == v.i
    ensures v.Int? && v.i < 0 ==> |r| > 1 && r[0] == '-' && AllDigits(r[1..]) && DigitsValue(r[1..]) == -v.i
  {
    match v
    case Str(s) => s
    case Int(i) =>
      DigitsRoundTrip(if i < 0 then -i else i);
      if i < 0 then "-" + Digits(-i) else Digits(i)
    case Bool(b) => if b then "True" else "False"
    case NoneValue => "None"
  }

  /** The Python exception classes that can leave the core. `DatabaseError` stands for
      `psycopg2.Error` and every subclass of it. */
  datatype ErrorClass =
    | DatabaseError
    | IndexError
    | ValueError
    | TypeError
    | UnboundLocalError
    | AttributeError
    | UnicodeDecodeError

  datatype Exception = Exception(cls: ErrorClass, message: string)

  /** A call that returns a value or raises. */
  datatype Result<T> = Ok(value: T) | Raised(exc: Exception)

  /** A call that returns nothing or raises. */
  datatype Outcome = Done | Failed(exc: Exception)

  datatype Option<T> = None | Some(value: T)

  // ---------------------------------------------------------------------------------------
  // str methods

  /** `s.split(sep)` for a one-character separator. */
  function Split(s: string, sep: char): (r: seq<string>)
    ensures |r| >= 1
    ensures forall k :: 0 <= k < |r| ==> sep !in r[k]
  {
    if s == [] then [""]
    else if s[0] == sep then [""] + Split(s[1..], sep)
    else
      var t := Split(s[1..], sep);
      [[s[0]] + t[0]] + t[1..]
  }

  /** `s.find(c)`, with `|s|` standing for -1: the first position holding `c`. */
  function Find(s: string, c: char, from: nat := 0): (k: nat)
    requires from <= |s|
    ensures from <= k <= |s|
    ensures forall j :: from <= j < k ==> s[j] != c
    ensures k < |s| ==> s[k] == c
    decreases |s| - from
  {
    if from == |s| || s[from] == c then from else Find(s, c, from + 1)
  }

  lemma {:induction false} SplitNoSep(a: string, sep: char)
    requires sep !in a
    ensures Split(a, sep) == [a]
  {
    if a != [] {
      assert a[0] in a && sep !in a[1..];
      SplitNoSep(a[1..], sep);
      assert [a[0]] + a[1..] == a;
    }
  }

  /** `(a + sep + b).split(sep) == a.split(sep) + b.split(sep)`. */
  lemma {:induction false} SplitAppend(a: string, sep: char, b: string)
    ensures Split(a + [sep] + b, sep) == Split(a, sep) + Split(b, sep)
  {
    if a == [] {
      assert a + [sep] + b == [sep] + b;
      assert ([sep] + b)[1..] == b;
    } else {
      assert (a + [sep] + b)[0] == a[0];
      assert (a + [sep] + b)[1..] == a[1..] + [sep] + b;
      SplitAppend(a[1..], sep, b);
      if a[0] != sep {
        var t := Split(a[1..], sep);
        assert Split(a + [sep] + b, sep) == [[a[0]] + (t + Split(b, sep))[0]] + (t + Split(b, sep))[1..];
      }
    }
  }

  // ---------------------------------------------------------------------------------------
  // Substrings

  /** `s.startswith(prefix)`. */
  predicate StartsWith(s: string, prefix: string) {
    |prefix| <= |s| && s[..|prefix|] == prefix
  }

  /** `sub` occurs in `s` at position `k`. */
  predicate OccursAt(s: string, sub: string, k: nat) {
    k + |sub| <= |s| && s[k..k + |sub|] == sub
  }

  /** `sub in s`. */
  ghost predicate Contains(s: string, sub: string) {
    exists k: nat :: OccursAt(s, sub, k)
  }

  /** Some occurrence of `x` in `s` ends before some occurrence of `y` starts. */
  ghost predicate Precedes(s: string, x: string, y: string) {
    exists i: nat, j: nat :: OccursAt(s, x, i) && OccursAt(s, y, j) && i + |x| <= j
  }

  /** An occurrence is a witness for `sub in s`. */
  lemma Found(s: string, sub: string, k: nat)
    requires OccursAt(s, sub, k)
    ensures Contains(s, sub)
  {
  }

  lemma FoundInMiddle(a: string, sub: string, b: string)
    ensures Contains(a + sub + b, sub)
  {
    assert (a + sub + b)[|a|..|a| + |sub|] == sub;
    Found(a + sub + b, sub, |a|);
  }
}
