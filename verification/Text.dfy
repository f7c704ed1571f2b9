/** Text shared by the models: decimal numbers as the SDKs print them, and splitting and joining at a separator.
    A byte is modelled as the character of the same code, so a byte string is a `string`. */
module Text {

  datatype Option<+T> = None | Some(value: T)

  // ---------------------------------------------------------------- decimal numbers

  predicate IsDigit(c: char) {
    '0' <= c <= '9'
  }

  predicate AllDigits(s: string) {
    forall i :: 0 <= i < |s| ==> IsDigit(s[i])
  }

  function Digit(d: nat): (c: char)
    requires d < 10
    ensures IsDigit(c) && c as int - '0' as int == d
  {
    ('0' as int + d) as char
  }

  /** The shortest decimal text of a number. */
  function Decimal(n: nat): (s: string)
    ensures |s| > 0 && AllDigits(s)
  {
    if n < 10 then [Digit(n)] else Decimal(n / 10) + [Digit(n % 10)]
  }

  function DigitsValue(s: string): nat
    requires AllDigits(s)
  {
    if s == "" then 0
    else 10 * DigitsValue(s[..|s| - 1]) + (s[|s| - 1] as int - '0' as int)
  }

  lemma {:induction false} DecimalValue(n: nat)
    ensures DigitsValue(Decimal(n)) == n
  {
    if n < 10 {
      assert Decimal(n)[..0] == "";
    } else {
      DecimalValue(n / 10);
      var s := Decimal(n);
      assert s[..|s| - 1] == Decimal(n / 10);
    }
  }

  /** A signed number, as Go's %d, Rust's Display and Java's String.valueOf print it. */
  function SignedDecimal(n: int): (s: string)
    ensures |s| > 0
    ensures forall i :: 0 <= i < |s| ==> IsDigit(s[i]) || s[i] == '-'
  {
    if n < 0 then "-" + Decimal(-n) else Decimal(n)
  }

  function ParseSigned(s: string): Option<int> {
    if s != "" && AllDigits(s) then Some(DigitsValue(s))
    else if |s| > 1 && s[0] == '-' && AllDigits(s[1..]) then
      var v: int := DigitsValue(s[1..]);
      Some(-v)
    else None
  }

  lemma SignedDecimalParses(n: int)
    ensures ParseSigned(SignedDecimal(n)) == Some(n)
  {
    if n < 0 {
      DecimalValue(-n);
      assert SignedDecimal(n)[1..] == Decimal(-n);
      assert !IsDigit(SignedDecimal(n)[0]);
    } else {
      DecimalValue(n);
    }
  }

  // ---------------------------------------------------------------- split and join

  /** The position of the first `c`, or the length when there is none. */
  function IndexOf(s: string, c: char): (i: nat)
    ensures i <= |s|
    ensures forall j :: 0 <= j < i ==> s[j] != c
    ensures i < |s| ==> s[i] == c
  {
    if s == "" || s[0] == c then 0 else 1 + IndexOf(s[1..], c)
  }

  /** The first `c` of `t + [c] + rest` stands right after `t` when `t` holds none. */
  lemma IndexOfAfter(t: string, c: char, rest: string)
    requires c !in t
    ensures IndexOf(t + [c] + rest, c) == |t|
  {
    var s := t + [c] + rest;
    assert s[|t|] == c;
    assert forall j :: 0 <= j < |t| ==> s[j] == t[j];
  }

  function Split(s: string, c: char): (ts: seq<string>)
    ensures |ts| > 0
    decreases |s|
  {
    var i := IndexOf(s, c);
    if i == |s| then [s] else [s[..i]] + Split(s[i + 1..], c)
  }

  function Join(ts: seq<string>, c: char): string
    requires |ts| > 0
  {
    if |ts| == 1 then ts[0] else ts[0] + [c] + Join(ts[1..], c)
  }

  predicate Free(ts: seq<string>, c: char) {
    forall i :: 0 <= i < |ts| ==> c !in ts[i]
  }

  lemma {:induction false} JoinSplit(s: string, c: char)
    ensures Join(Split(s, c), c) == s
    ensures Free(Split(s, c), c)
    decreases |s|
  {
    var i := IndexOf(s, c);
    if i < |s| {
      JoinSplit(s[i + 1..], c);
      assert Split(s, c)[1..] == Split(s[i + 1..], c);
      assert s == s[..i] + [c] + s[i + 1..];
    }
  }

  lemma {:induction false} SplitJoinFree(ts: seq<string>, c: char)
    requires |ts| > 0 && Free(ts, c)
    ensures Split(Join(ts, c), c) == ts
    decreases |ts|
  {
    if |ts| == 1 {
      assert IndexOf(ts[0], c) == |ts[0]|;
    } else {
      var rest := Join(ts[1..], c);
      IndexOfAfter(ts[0], c, rest);
      var s := ts[0] + [c] + rest;
      assert s[..|ts[0]|] == ts[0] && s[|ts[0]| + 1..] == rest;
      SplitJoinFree(ts[1..], c);
    }
  }

  /** Splitting undoes joining exactly when no part holds the separator. */
  lemma SplitJoin(ts: seq<string>, c: char)
    requires |ts| > 0
    ensures Split(Join(ts, c), c) == ts <==> Free(ts, c)
  {
    if Free(ts, c) {
      SplitJoinFree(ts, c);
    } else {
      JoinSplit(Join(ts, c), c);
    }
  }

  /** Split into at most `n` parts, the last of which keeps every remaining separator. */
  function SplitN(s: string, n: nat, c: char): (ts: seq<string>)
    requires n > 0
    ensures 1 <= |ts| <= n
    ensures forall i :: 0 <= i < |ts| - 1 ==> c !in ts[i]
    ensures |ts| < n ==> c !in ts[|ts| - 1]
    decreases n
  {
    var i := IndexOf(s, c);
    if i == |s| || n == 1 then [s] else [s[..i]] + SplitN(s[i + 1..], n - 1, c)
  }

  lemma SplitNCons(t: string, c: char, rest: string, n: nat)
    requires n > 1 && c !in t
    ensures SplitN(t + [c] + rest, n, c) == [t] + SplitN(rest, n - 1, c)
  {
    var s := t + [c] + rest;
    IndexOfAfter(t, c, rest);
    assert s[..|t|] == t && s[|t| + 1..] == rest;
  }

  lemma SplitNLast(t: string, c: char, n: nat)
    requires n > 0 && c !in t
    ensures SplitN(t, n, c) == [t]
  {
  }

  lemma {:induction false} SplitNJoin(ts: seq<string>, n: nat, c: char)
    requires 1 <= |ts| <= n && Free(ts, c)
    ensures SplitN(Join(ts, c), n, c) == ts
    decreases |ts|
  {
    hide SplitN;
    if |ts| == 1 {
      SplitNLast(ts[0], c, n);
    } else {
      SplitNCons(ts[0], c, Join(ts[1..], c), n);
      SplitNJoin(ts[1..], n - 1, c);
      assert ts == [ts[0]] + ts[1..];
    }
  }
}
