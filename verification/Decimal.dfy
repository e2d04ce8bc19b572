// Decimal text: fmt's %d, and strconv.ParseInt in base 10 with 64 bits.
module Decimal {
  import opened Words

  const ZERO: Byte := 48
  const NINE: Byte := 57
  const PLUS: Byte := 43
  const DASH: Byte := 45
  const MAX_U64 := 0xffff_ffff_ffff_ffff
  const MAX_I64 := 0x7fff_ffff_ffff_ffff

  predicate IsDigit(c: Byte) {
    ZERO <= c <= NINE
  }

  predicate AllDigits(s: Bytes) {
    forall i :: 0 <= i < |s| ==> IsDigit(s[i])
  }

  /** The number that digits denote when they follow a number already read. */
  function Value(s: Bytes, before: nat): nat
    requires AllDigits(s)
    decreases |s|
  {
    if s == [] then before else Value(s[1..], before * 10 + (s[0] - ZERO))
  }

  function Print(n: nat): (s: Bytes)
    ensures s != [] && AllDigits(s)
  {
    if n < 10 then [ZERO + n] else Print(n / 10) + [ZERO + n % 10]
  }

  function PrintInt(n: int): Bytes {
    if n < 0 then [DASH] + Print(-n) else Print(n)
  }

  datatype Number = Number(value: int, err: NumberError)
  datatype NumberError = NoError | Syntax | Range

  /** The loop of strconv.ParseUint: it stops at the first character that is no digit or that makes
      the number too large, whichever comes first. */
  function Scan(s: Bytes, n: nat): Number
    decreases |s|
  {
    if s == [] then Number(n, NoError)
    else if !IsDigit(s[0]) then Number(0, Syntax)
    else
      var v := n * 10 + (s[0] - ZERO);
      if v > MAX_U64 then Number(MAX_U64, Range) else Scan(s[1..], v)
  }

  function ParseInt(s: Bytes): Number {
    if s == [] then Number(0, Syntax)
    else
      var neg := s[0] == DASH;
      var t := if neg || s[0] == PLUS then s[1..] else s;
      var u := if t == [] then Number(0, Syntax) else Scan(t, 0);
      if u.err == Syntax then u
      else if !neg && u.value > MAX_I64 then Number(MAX_I64, Range)
      else if neg && u.value > MAX_I64 + 1 then Number(-MAX_I64 - 1, Range)
      else Number(if neg then -u.value else u.value, NoError)
  }

  /** Some run of digits at the front already exceeds 64 bits. */
  ghost predicate Overflows(s: Bytes, before: nat) {
    exists k :: 0 <= k <= |s| && AllDigits(s[..k]) && Value(s[..k], before) > MAX_U64
  }

  lemma {:induction false} ValueGrows(s: Bytes, before: nat)
    requires AllDigits(s)
    ensures Value(s, before) >= before
    decreases |s|
  {
    if s != [] {
      ValueGrows(s[1..], before * 10 + (s[0] - ZERO));
    }
  }

  /** The scan, told apart by what the text is. */
  lemma {:induction false} ScanExact(s: Bytes, n: nat)
    requires n <= MAX_U64
    ensures Overflows(s, n) <==> Scan(s, n) == Number(MAX_U64, Range)
    ensures AllDigits(s) && !Overflows(s, n) ==> Scan(s, n) == Number(Value(s, n), NoError) && Value(s, n) <= MAX_U64
    ensures !AllDigits(s) && !Overflows(s, n) ==> Scan(s, n) == Number(0, Syntax)
    decreases |s|
  {
    if s == [] {
    } else if !IsDigit(s[0]) {
      forall k | 0 < k <= |s|
        ensures !AllDigits(s[..k])
      {
        assert !IsDigit(s[..k][0]);
      }
    } else {
      var v := n * 10 + (s[0] - ZERO);
      if v > MAX_U64 {
        assert AllDigits(s[..1]) && Value(s[..1], n) == Value([], v);
      } else {
        ScanExact(s[1..], v);
        OverflowsStep(s, n);
        assert AllDigits(s) <==> AllDigits(s[1..]);
        if AllDigits(s) && !Overflows(s, n) {
          assert s[..|s|] == s;
        }
      }
    }
  }

  lemma OverflowsStep(s: Bytes, n: nat)
    requires s != [] && IsDigit(s[0]) && n <= MAX_U64
    ensures Overflows(s, n) <==> n * 10 + (s[0] - ZERO) > MAX_U64 || Overflows(s[1..], n * 10 + (s[0] - ZERO))
  {
    var v := n * 10 + (s[0] - ZERO);
    forall k | 0 < k <= |s|
      ensures AllDigits(s[..k]) <==> AllDigits(s[1..][..k - 1])
      ensures AllDigits(s[..k]) ==> Value(s[..k], n) == Value(s[1..][..k - 1], v)
    {
      var a, b := s[..k], s[1..][..k - 1];
      assert a[1..] == b;
      assert a == [s[0]] + b;
    }
    if Overflows(s, n) {
      var k :| 0 <= k <= |s| && AllDigits(s[..k]) && Value(s[..k], n) > MAX_U64;
      assert k > 0;
      assert AllDigits(s[1..][..k - 1]) && Value(s[1..][..k - 1], v) > MAX_U64;
    }
    if v > MAX_U64 {
      assert AllDigits(s[..1]) && Value(s[..1], n) == Value(s[1..][..0], v) == v;
    } else if Overflows(s[1..], v) {
      var k :| 0 <= k <= |s| - 1 && AllDigits(s[1..][..k]) && Value(s[1..][..k], v) > MAX_U64;
      assert AllDigits(s[..k + 1]) && Value(s[..k + 1], n) > MAX_U64;
    }
  }

  lemma {:induction false} ValueAppend(s: Bytes, c: Byte, before: nat)
    requires AllDigits(s) && IsDigit(c)
    ensures AllDigits(s + [c]) && Value(s + [c], before) == Value(s, before) * 10 + (c - ZERO)
    decreases |s|
  {
    if s == [] {
      assert (s + [c])[1..] == [];
    } else {
      ValueAppend(s[1..], c, before * 10 + (s[0] - ZERO));
      assert (s + [c])[1..] == s[1..] + [c];
    }
  }

  lemma {:induction false} PrintValue(n: nat)
    ensures Value(Print(n), 0) == n
  {
    if n >= 10 {
      PrintValue(n / 10);
      ValueAppend(Print(n / 10), ZERO + n % 10, 0);
    } else {
      assert Print(n)[1..] == [];
    }
  }

  /** A number is printed without a leading zero. */
  lemma {:induction false} PrintCanonical(n: nat)
    ensures Print(n)[0] == ZERO <==> n == 0
    ensures |Print(n)| > 1 ==> Print(n)[0] != ZERO
  {
    if n >= 10 {
      PrintCanonical(n / 10);
    }
  }

  /** Digits that fit are no overflow at any point. */
  lemma NoOverflow(s: Bytes)
    requires AllDigits(s) && Value(s, 0) <= MAX_U64
    ensures !Overflows(s, 0)
  {
    forall k | 0 <= k <= |s|
      ensures Value(s[..k], 0) <= Value(s, 0)
    {
      PrefixValue(s, k, 0);
    }
  }

  lemma {:induction false} PrefixValue(s: Bytes, k: nat, before: nat)
    requires AllDigits(s) && k <= |s|
    ensures Value(s[..k], before) <= Value(s, before)
    decreases |s|
  {
    if k == 0 {
      ValueGrows(s, before);
    } else {
      PrefixValue(s[1..], k - 1, before * 10 + (s[0] - ZERO));
      assert s[..k][1..] == s[1..][..k - 1];
    }
  }

  function Signed(neg: bool, n: nat): int {
    var i: int := n;
    if neg then -i else i
  }

  /** Every text, read as a number: the digits after a sign, if there is one, give the value when it fits
      64 bits; a range error gives the nearest number that does; anything else is a syntax error and 0. */
  lemma ParseExact(s: Bytes)
    ensures var neg := s != [] && s[0] == DASH;
            var t := if s != [] && (s[0] == DASH || s[0] == PLUS) then s[1..] else s;
            var top := if neg then MAX_I64 + 1 else MAX_I64;
            && (t == [] || !(AllDigits(t) || Overflows(t, 0)) ==> ParseInt(s) == Number(0, Syntax))
            && (Overflows(t, 0) || (AllDigits(t) && Value(t, 0) > top) ==>
                  ParseInt(s) == Number(if neg then -top else top, Range))
            && (t != [] && AllDigits(t) && Value(t, 0) <= top ==>
                  ParseInt(s) == Number(Signed(neg, Value(t, 0)), NoError))
  {
    var t := if s != [] && (s[0] == DASH || s[0] == PLUS) then s[1..] else s;
    ScanExact(t, 0);
    if AllDigits(t) && Value(t, 0) <= MAX_U64 {
      NoOverflow(t);
    }
    assert forall k :: 0 <= k <= |t| && t == [] ==> t[..k] == [];
    hide Overflows, Value, Scan;
  }

  /** A text that starts with a digit. */
  lemma ParseDigits(s: Bytes)
    requires s != [] && IsDigit(s[0])
    ensures Overflows(s, 0) ==> ParseInt(s) == Number(MAX_I64, Range)
    ensures !Overflows(s, 0) && !AllDigits(s) ==> ParseInt(s) == Number(0, Syntax)
    ensures AllDigits(s) && Value(s, 0) > MAX_I64 ==> ParseInt(s) == Number(MAX_I64, Range)
    ensures AllDigits(s) && Value(s, 0) <= MAX_I64 ==> ParseInt(s) == Number(Value(s, 0), NoError)
  {
    hide ParseInt, Overflows, Value;
    ParseExact(s);
  }

  /** Printing and parsing an int64. */
  lemma ParsePrint(n: int)
    requires -MAX_I64 - 1 <= n <= MAX_I64
    ensures ParseInt(PrintInt(n)) == Number(n, NoError)
  {
    var digits := Print(if n < 0 then -n else n);
    PrintValue(if n < 0 then -n else n);
    ParseExact(PrintInt(n));
    assert n < 0 ==> ([DASH] + digits)[1..] == digits;
    hide ParseInt, Value;
  }
}
