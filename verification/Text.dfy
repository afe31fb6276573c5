/** The pieces of Go's `strings`, `bytes` and `strconv` that the byte formats rest on.
    A Go string is a Dafny `string`; what a character stands for (a byte, or a code point of
    decoded text) is fixed by the module that uses it. */
module Text {
  import opened Wrappers

  const INT64_MIN: int := -0x8000_0000_0000_0000
  const INT64_MAX: int := 0x7fff_ffff_ffff_ffff

  type int64 = n: int | INT64_MIN <= n <= INT64_MAX

  // ---------------------------------------------------------------- lines

  predicate NoNewline(s: string) {
    '\n' !in s
  }

  /** strings.Split(s, "\n") */
  function Lines(s: string): (ls: seq<string>)
    ensures |ls| > 0
  {
    if s == "" then [""]
    else
      var rest := Lines(s[1..]);
      if s[0] == '\n' then [""] + rest
      else [[s[0]] + rest[0]] + rest[1..]
  }

  lemma {:induction false} LinesOfPlain(a: string)
    requires NoNewline(a)
    ensures Lines(a) == [a]
  {
    if a != "" {
      LinesOfPlain(a[1..]);
      assert a == [a[0]] + a[1..];
    }
  }

  lemma {:induction false} LinesCons(a: string, b: string)
    requires NoNewline(a)
    ensures Lines(a + "\n" + b) == [a] + Lines(b)
  {
    var s := a + "\n" + b;
    if a == "" {
      assert s[1..] == b;
    } else {
      assert s[1..] == a[1..] + "\n" + b;
      LinesCons(a[1..], b);
      assert a == [a[0]] + a[1..];
    }
  }

  /** No line produced by the split holds a newline. */
  lemma {:induction false} LinesArePlain(s: string)
    ensures forall l :: l in Lines(s) ==> NoNewline(l)
  {
    if s != "" {
      LinesArePlain(s[1..]);
      var rest := Lines(s[1..]);
      assert NoNewline(rest[0]);
    }
  }

  // ---------------------------------------------------------------- blank-line search

  /** bytes.Index(s, "\n\n"): the first position, or None. */
  function BlankLine(s: string): (r: Option<nat>)
    ensures r.Some? ==> r.value + 2 <= |s| && s[r.value] == '\n' && s[r.value + 1] == '\n'
    ensures r.Some? ==> forall i :: 0 <= i < r.value ==> !(s[i] == '\n' && s[i + 1] == '\n')
    ensures r.None? ==> forall i :: 0 <= i < |s| - 1 ==> !(s[i] == '\n' && s[i + 1] == '\n')
  {
    if |s| < 2 then None
    else if s[0] == '\n' && s[1] == '\n' then Some(0)
    else
      match BlankLine(s[1..])
      case None => None
      case Some(i) => Some(i + 1)
  }

  /** A separator that starts where an unbroken prefix ends is the first one. */
  lemma BlankLineAt(s: string, n: nat)
    requires n + 2 <= |s| && s[n] == '\n' && s[n + 1] == '\n'
    requires forall i :: 0 <= i < n ==> !(s[i] == '\n' && s[i + 1] == '\n')
    ensures BlankLine(s) == Some(n)
  {
    var r := BlankLine(s);
    assert r.Some?;
  }

  lemma Assoc(a: string, b: string, c: string)
    ensures (a + b) + c == a + (b + c)
    ensures a + "" == a
  {
  }

  // ---------------------------------------------------------------- prefixes and trimming

  predicate HasPrefix(s: string, p: string) {
    p <= s
  }

  function TrimPrefix(s: string, p: string): string {
    if p <= s then s[|p|..] else s
  }

  predicate HasSuffix(s: string, p: string) {
    |p| <= |s| && s[|s| - |p|..] == p
  }

  function TrimSuffix(s: string, p: string): string {
    if HasSuffix(s, p) then s[..|s| - |p|] else s
  }

  /** unicode.IsSpace */
  predicate IsSpace(c: char) {
    var n := c as int;
    || 0x09 <= n <= 0x0d || n == 0x20 || n == 0x85 || n == 0xa0
    || n == 0x1680 || 0x2000 <= n <= 0x200a || 0x2028 <= n <= 0x2029
    || n == 0x202f || n == 0x205f || n == 0x3000
  }

  function TrimLeft(s: string): string {
    if s != "" && IsSpace(s[0]) then TrimLeft(s[1..]) else s
  }

  function TrimRight(s: string): string {
    if s != "" && IsSpace(s[|s| - 1]) then TrimRight(s[..|s| - 1]) else s
  }

  /** strings.TrimSpace */
  function TrimSpace(s: string): string {
    TrimRight(TrimLeft(s))
  }

  /** Neither end is white space: exactly the strings TrimSpace leaves alone. */
  predicate Trimmed(s: string) {
    s != "" ==> !IsSpace(s[0]) && !IsSpace(s[|s| - 1])
  }

  lemma {:induction false} TrimLeftShape(s: string)
    ensures var t := TrimLeft(s); |t| <= |s| && t == s[|s| - |t|..] && (t != "" ==> !IsSpace(t[0]))
  {
    if s != "" && IsSpace(s[0]) {
      TrimLeftShape(s[1..]);
    }
  }

  lemma {:induction false} TrimRightShape(s: string)
    ensures var t := TrimRight(s); |t| <= |s| && t == s[..|t|] && (t != "" ==> !IsSpace(t[|t| - 1]))
  {
    if s != "" && IsSpace(s[|s| - 1]) {
      TrimRightShape(s[..|s| - 1]);
    }
  }

  lemma TrimSpaceShape(s: string)
    ensures Trimmed(TrimSpace(s)) && |TrimSpace(s)| <= |s|
  {
    var t := TrimLeft(s);
    TrimLeftShape(s);
    TrimRightShape(t);
    var u := TrimRight(t);
    if u != "" { assert u[0] == t[0]; }
  }

  lemma TrimSpaceFixes(s: string)
    ensures TrimSpace(s) == s <==> Trimmed(s)
  {
    TrimSpaceShape(s);
  }

  lemma TrimSpaceSubset(s: string, c: char)
    requires c in TrimSpace(s)
    ensures c in s
  {
    TrimLeftShape(s);
    TrimRightShape(TrimLeft(s));
    var t := TrimLeft(s);
    assert c in t;
  }

  // ---------------------------------------------------------------- decimal integers

  predicate IsDigit(c: char) {
    '0' <= c <= '9'
  }

  function Digit(d: nat): char
    requires d < 10
  {
    (d + '0' as int) as char
  }

  /** fmt's %d for a natural number. */
  function Dec(n: nat): (s: string)
    ensures |s| > 0
    ensures forall i :: 0 <= i < |s| ==> IsDigit(s[i])
  {
    if n < 10 then [Digit(n)] else Dec(n / 10) + [Digit(n % 10)]
  }

  /** The value of a run of digits, or None when another character occurs. */
  function Digits(s: string): Option<nat> {
    if s == "" then Some(0)
    else
      var d := s[|s| - 1];
      match Digits(s[..|s| - 1])
      case None => None
      case Some(hi) => if IsDigit(d) then Some(10 * hi + (d as int - '0' as int)) else None
  }

  /** strconv.ParseInt(s, 10, 64), and strconv.Atoi on a 64-bit platform. */
  function ParseInt(s: string): (r: Option<int>)
    ensures r.Some? ==> INT64_MIN <= r.value <= INT64_MAX
  {
    var negative := s != "" && s[0] == '-';
    var digits := if s != "" && s[0] in "+-" then s[1..] else s;
    if digits == "" then None
    else
      match Digits(digits)
      case None => None
      case Some(n) =>
        var m: int := n;
        var v := if negative then -m else m;
        if INT64_MIN <= v <= INT64_MAX then Some(v) else None
  }

  lemma {:induction false} DigitsOfDec(n: nat)
    ensures Digits(Dec(n)) == Some(n)
  {
    var s := Dec(n);
    if n < 10 {
      assert s[..|s| - 1] == "";
    } else {
      DigitsOfDec(n / 10);
      assert s[..|s| - 1] == Dec(n / 10);
    }
  }

  lemma ParseIntOfDigits(s: string, n: nat)
    requires s != "" && IsDigit(s[0]) && Digits(s) == Some(n) && n <= INT64_MAX
    ensures ParseInt(s) == Some(n)
  {
  }

  /** What %d prints, ParseInt reads back, through the TrimSpace in between. */
  lemma ParseIntOfDec(n: nat)
    requires n <= INT64_MAX
    ensures ParseInt(TrimSpace(Dec(n))) == Some(n)
  {
    DigitsOfDec(n);
    var s := Dec(n);
    TrimSpaceFixes(s);
    ParseIntOfDigits(s, n);
  }
}
