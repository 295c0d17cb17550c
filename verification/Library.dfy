/** The integer printer and parser of src/x-lib.c, without the C library. */
module Library {
  import opened Radix

  /** x_int_t, a 64-bit long: any result outside it is an error here. */
  newtype Int = x: int | -0x8000_0000_0000_0000 <= x < 0x8000_0000_0000_0000

  /** unsigned short. */
  newtype Short = x: int | 0 <= x < 0x1_0000

  const MOST: int := 0x7fff_ffff_ffff_ffff

  // ---- Printing ----

  /** The canonical numeral of "num": a minus sign only if it is negative, then its digits. */
  function Numeral(num: int, b: nat): seq<Byte>
    requires Radixable(b)
  {
    if num < 0 then [MINUS] + Digits(-num, b) else Digits(num, b)
  }

  /** Exclusive or, bit by bit. */
  function Xor(x: nat, y: nat): nat
    decreases x + y
  {
    if x == 0 && y == 0 then 0
    else 2 * Xor(x / 2, y / 2) + (if x % 2 == y % 2 then 0 else 1)
  }

  lemma {:induction false} XorFacts(x: nat, y: nat, k: nat)
    ensures Xor(Xor(x, y), x) == y && Xor(y, Xor(x, y)) == x
    ensures x < Pow(2, k) && y < Pow(2, k) ==> Xor(x, y) < Pow(2, k)
    decreases x + y
  {
    if x > 0 || y > 0 {
      XorFacts(x / 2, y / 2, if k > 0 then k - 1 else 0);
    }
  }

  lemma ByteXor(x: Byte, y: Byte)
    ensures Xor(x, y) < 256 && Xor(Xor(x, y), x) == y && Xor(y, Xor(x, y)) == x
  {
    assert Pow(2, 8) == 256;
    XorFacts(x, y, 8);
  }

  /** Three exclusive ors exchange two different bytes of a buffer. */
  method Swap(buf: array<Byte>, i: nat, j: nat)
    requires i < buf.Length && j < buf.Length && i != j
    modifies buf
    ensures buf[..] == old(buf[..])[i := old(buf[j])][j := old(buf[i])]
  {
    ByteXor(buf[i], buf[j]);
    buf[i] := Xor(buf[i], buf[j]);
    buf[j] := Xor(buf[j], buf[i]);
    buf[i] := Xor(buf[i], buf[j]);
  }

  /** What one turn of the digit loop takes off a number. */
  lemma LastDigit(n: nat, b: nat)
    requires Radixable(b)
    ensures var ds := Digits(n, b);
            && ds[|ds| - 1] == DigitByte(n % b)
            && (if n / b == 0 then |ds| == 1 else 0 < n / b < n && Digits(n / b, b) == ds[..|ds| - 1])
  {
    var q := Quotient(n, b);
    if n < b {
      assert q == 0;
      assert Digits(n, b) == [DigitByte(n)];
    } else {
      assert Digits(n, b) == Digits(q, b) + [DigitByte(n % b)];
    }
  }

  /** Write the digits of "num" from position "start" on, the least significant first (lines 63-67). */
  method WriteDigits(num: Int, buf: array<Byte>, start: nat, base: Short) returns (end: nat)
    requires num >= 0 && Radixable(base as int)
    requires start + |Digits(num as int, base as int)| < buf.Length
    modifies buf
    ensures var ds := Digits(num as int, base as int);
            && end == start + |ds|
            && (forall k | start <= k < end :: buf[k] == ds[end - 1 - k])
            && (forall k | 0 <= k < buf.Length && !(start <= k < end) :: buf[k] == old(buf[k]))
  {
    ghost var b := base as int;
    ghost var ds := Digits(num as int, b);
    var n, more := num, true;
    end := start;
    while more
      invariant n >= 0 && start <= end <= start + |ds|
      invariant if more then |Digits(n as int, b)| == |ds| - (end - start) && Digits(n as int, b) <= ds
                else end == start + |ds|
      invariant forall k | start <= k < end :: buf[k] == ds[start + |ds| - 1 - k]
      invariant forall k | 0 <= k < buf.Length && !(start <= k < end) :: buf[k] == old(buf[k])
      decreases n, more
    {
      LastDigit(n as int, b);
      var offset := n % (base as Int);
      buf[end] := (offset + (if offset >= 10 then 'a' as int as Int - 10 else '0' as int as Int)) as int;
      end := end + 1;
      n := n / (base as Int);
      more := n != 0;
    }
  }

  /** Turn around the bytes from "start" up to "end" (lines 70-76). */
  method Reverse(buf: array<Byte>, start: nat, end: nat)
    requires start < end < buf.Length
    modifies buf
    ensures forall k | start <= k < end :: buf[k] == old(buf[start + end - 1 - k])
    ensures forall k | 0 <= k < buf.Length && !(start <= k < end) :: buf[k] == old(buf[k])
  {
    var p1, p2 := start, end - 1;
    while p2 > p1
      invariant start <= p1 && p1 + p2 == start + end - 1 && -1 <= p2 - p1
      invariant forall k | p1 <= k <= p2 :: buf[k] == old(buf[k])
      invariant forall k | start <= k < p1 || p2 < k < end :: buf[k] == old(buf[start + end - 1 - k])
      invariant forall k | 0 <= k < buf.Length && !(start <= k < end) :: buf[k] == old(buf[k])
      decreases p2 - p1
    {
      Swap(buf, p1, p2);
      p1, p2 := p1 + 1, p2 - 1;
    }
  }

  /**
    x_lib_inttostr, for every number whose negation is a number: the numeral, a terminating
    zero, and nothing else of the buffer touched.
   */
  method IntToStr(num: Int, str: array?<Byte>, base: Short) returns (ret: array?<Byte>)
    requires num as int >= -MOST
    requires str != null && 2 <= base <= 36 ==> |Numeral(num as int, base as int)| < str.Length
    modifies if str == null then {} else {str}
    ensures ret == if str != null && 2 <= base <= 36 then str else null
    ensures ret == null && str != null ==> str[..] == old(str[..])
    ensures ret != null ==> ret[..] == Overwrite(old(str[..]), Numeral(num as int, base as int) + [0])
  {
    if str == null || base < 2 || base > 36 {
      return null;
    }
    var p1, n := 0, num;
    if n < 0 {
      str[p1] := MINUS;
      p1, n := p1 + 1, -n;
    }
    WriteNumber(n, str, p1, base);
    ret := str;
  }

  /** Digits from position "start" on, most significant first, and a terminating zero. */
  method WriteNumber(n: Int, str: array<Byte>, start: nat, base: Short)
    requires n >= 0 && Radixable(base as int)
    requires start + |Digits(n as int, base as int)| < str.Length
    modifies str
    ensures str[..] == Overwrite(old(str[..]), old(str[..start]) + Digits(n as int, base as int) + [0])
  {
    ghost var was, ds := str[..], Digits(n as int, base as int);
    var p2 := WriteDigits(n, str, start, base);
    str[p2] := 0;
    Reverse(str, start, p2);
    Overwritten(was, str[..], start, ds);
  }

  /** The digits and the zero stand where they belong. */
  lemma Overwritten(s: seq<Byte>, t: seq<Byte>, start: nat, ds: seq<Byte>)
    requires |s| == |t| && start + |ds| < |s|
    requires forall k | start <= k < start + |ds| :: t[k] == ds[k - start]
    requires t[start + |ds|] == 0
    requires forall k | 0 <= k < |t| && !(start <= k <= start + |ds|) :: t[k] == s[k]
    ensures t == Overwrite(s, s[..start] + ds + [0])
  {
  }

  /** "s" with its beginning replaced by "t". */
  function Overwrite(s: seq<Byte>, t: seq<Byte>): seq<Byte>
    requires |t| <= |s|
  {
    t + s[|t|..]
  }

  /** The numeral and its terminator take at most 8 * sizeof(x_int_t) + 1 bytes; one number in base 2 takes them all. */
  lemma BufferBound(num: Int, b: nat)
    requires num as int >= -MOST && 2 <= b <= 36
    ensures |Numeral(num as int, b)| + 1 <= 65
    ensures |Numeral(-MOST, 2)| + 1 == 65
  {
    var n := if num < 0 then -(num as int) else num as int;
    FewDigits(n, b);
    FewDigits(MOST, 2);
    DigitsLength(MOST, 2);
    var k := |Digits(MOST, 2)|;
    if k < 63 {
      PowGrows(2, 2, k, 62);
      Pow62();
    }
  }

  lemma FewDigits(n: nat, b: nat)
    requires n <= MOST && Radixable(b)
    ensures |Digits(n, b)| <= 63
  {
    var k := |Digits(n, b)|;
    DigitsLength(n, b);
    if k > 63 {
      PowGrows(2, b, 63, k - 1);
      Pow62();
    }
  }

  lemma Pow62()
    ensures Pow(2, 62) == 0x4000_0000_0000_0000 && Pow(2, 63) == MOST + 1
  {
    assert Pow(2, 10) == 1024;
    PowAdd(10, 10);
    PowAdd(20, 10);
    PowAdd(30, 30);
    assert Pow(2, 61) == 2 * Pow(2, 60) && Pow(2, 62) == 2 * Pow(2, 61) && Pow(2, 63) == 2 * Pow(2, 62);
  }

  lemma {:induction false} PowAdd(j: nat, k: nat)
    ensures Pow(2, j + k) == Pow(2, j) * Pow(2, k)
  {
    if k > 0 {
      PowAdd(j, k - 1);
      assert Pow(2, j + k) == 2 * Pow(2, j + k - 1) == Pow(2, j) * (2 * Pow(2, k - 1));
    }
  }

  // ---- Parsing ----

  /** The first position from "p" on that holds no white space. */
  function SpaceEnd(s: seq<Byte>, p: nat): (e: nat)
    requires p <= |s|
    ensures p <= e <= |s|
    decreases |s| - p
  {
    if p < |s| && IsSpace(s[p]) then SpaceEnd(s, p + 1) else p
  }

  /** The first position from "p" on that holds no digit of base "b". */
  function RunEnd(s: seq<Byte>, p: nat, b: nat): (e: nat)
    requires p <= |s|
    ensures p <= e <= |s|
    decreases |s| - p
  {
    if p < |s| && IsDigit(s[p], b) then RunEnd(s, p + 1, b) else p
  }

  predicate Holds(s: seq<Byte>, p: nat, c: Byte) {
    p < |s| && s[p] == c
  }

  /** Where the digits start and which base they are in. */
  datatype Lead = Lead(start: nat, base: nat)

  /** Only base 0 looks at a prefix, and steps over it. */
  function Detect(s: seq<Byte>, p: nat, base: nat): (l: Lead)
    requires p <= |s|
    ensures p <= l.start <= |s|
  {
    if base != 0 then Lead(p, base)
    else if !Holds(s, p, ZERO) then Lead(p, 10)
    else if p + 1 < |s| && Upper(s[p + 1]) == UPPER_X then Lead(p + 2, 16)
    else Lead(p + 1, 8)
  }

  function AfterSign(s: seq<Byte>, w: nat): (p: nat)
    requires w <= |s|
    ensures w <= p <= |s|
  {
    if Holds(s, w, PLUS) || Holds(s, w, MINUS) then w + 1 else w
  }

  function Signed(n: int, negative: bool): int {
    if negative then -n else n
  }

  datatype Parsed = Parsed(value: int, end: nat)

  function LeadOf(s: seq<Byte>, base: nat): (l: Lead)
    ensures l.start <= |s|
  {
    Detect(s, AfterSign(s, SpaceEnd(s, 0)), base)
  }

  function Magnitude(s: seq<Byte>, base: nat): nat {
    var l := LeadOf(s, base);
    Value(s[l.start..RunEnd(s, l.start, l.base)], l.base)
  }

  function Parse(s: seq<Byte>, base: nat): Parsed {
    var l := LeadOf(s, base);
    Parsed(Signed(Magnitude(s, base), Holds(s, SpaceEnd(s, 0), MINUS)), RunEnd(s, l.start, l.base))
  }

  /**
    x_lib_strtoint on a terminated string whose digits stand for a number that fits: no
    intermediate result overflows, and no byte past the terminator is read.
   */
  method StrToInt(s: seq<Byte>, base: Short) returns (value: Int, end: nat)
    requires 0 in s && Magnitude(s, base as int) <= MOST
    ensures Parsed(value as int, end) == Parse(s, base as int)
    ensures end < |s| && 0 !in s[..end]
  {
    ghost var z := FirstZero(s);
    var p := SkipSpace(s, z);
    var sign: Int;
    p, sign := ReadSign(s, p, z);
    var b;
    p, b := ReadBase(s, p, base, z);
    var i: Int;
    i, end := ReadDigits(s, p, b, z);
    value := i * sign;
    assert s[..end] == s[..z][..end];
  }

  method SkipSpace(s: seq<Byte>, ghost z: nat) returns (p: nat)
    requires z < |s| && s[z] == 0
    ensures p == SpaceEnd(s, 0) && p <= z
  {
    p := 0;
    while IsSpace(s[p])
      invariant p <= z && SpaceEnd(s, p) == SpaceEnd(s, 0)
      decreases z - p
    {
      p := p + 1;
    }
  }

  method ReadSign(s: seq<Byte>, start: nat, ghost z: nat) returns (p: nat, sign: Int)
    requires start <= z < |s| && s[z] == 0
    ensures p == AfterSign(s, start) && p <= z
    ensures sign == if Holds(s, start, MINUS) then -1 else 1
  {
    p, sign := start, 1;
    if s[p] == PLUS {
      p := p + 1;
    } else if s[p] == MINUS {
      p := p + 1;
      sign := -1;
    }
  }

  /** Where a terminated string ends. */
  lemma {:induction false} FirstZero(s: seq<Byte>) returns (z: nat)
    requires 0 in s
    ensures z < |s| && s[z] == 0 && 0 !in s[..z]
  {
    if s[0] == 0 {
      z := 0;
    } else {
      assert s == [s[0]] + s[1..];
      var y := FirstZero(s[1..]);
      z := y + 1;
      assert s[..z] == [s[0]] + s[1..][..y];
    }
  }

  /** Look for a prefix if there is no base. */
  method ReadBase(s: seq<Byte>, start: nat, base: Short, ghost z: nat) returns (p: nat, b: Short)
    requires start <= z < |s| && s[z] == 0
    ensures Lead(p, b as int) == Detect(s, start, base as int) && p <= z
  {
    p, b := start, base;
    if b == 0 {
      if s[p] == ZERO {
        p := p + 1;
        if Upper(s[p]) == UPPER_X {
          b := 16;
          p := p + 1;
        } else {
          b := 8;
        }
      } else {
        b := 10;
      }
    }
  }

  /** The digit loop. */
  method ReadDigits(s: seq<Byte>, start: nat, base: Short, ghost z: nat) returns (i: Int, end: nat)
    requires start <= z < |s| && s[z] == 0 && base > 0
    requires Value(s[start..RunEnd(s, start, base as int)], base as int) <= MOST
    ensures end == RunEnd(s, start, base as int) && end <= z
    ensures i as int == Value(s[start..end], base as int) == Sum(s[start..end], base as int)
    ensures forall k | start <= k < end :: 0 <= Figure(s[k]) < base as int
    ensures !(0 <= Figure(s[end]) < base as int)
  {
    ghost var b := base as int;
    ghost var run := RunEnd(s, start, b);
    RunByFigures(s, start, b);
    i, end := 0, start;
    while s[end] != 0
      invariant start <= end <= z && RunEnd(s, end, b) == run
      invariant i as int == Value(s[start..end], b)
      decreases z - end
    {
      var n: Int;
      if IsNumber(s[end]) {
        n := s[end] as Int - '0' as int as Int;
        if n >= base as Int {
          break;
        }
      } else if IsLetter(s[end]) {
        n := Upper(s[end]) as Int - 'A' as int as Int + 10;
        if n >= base as Int {
          break;
        }
      } else {
        break;
      }
      NextDigit(s, start, end, run, b);
      i := i * base as Int;
      i := i + n;
      end := end + 1;
    }
  }

  /** A run of digits, byte by byte. */
  lemma RunByFigures(s: seq<Byte>, start: nat, b: nat)
    requires start <= |s|
    ensures var e := RunEnd(s, start, b);
            && (forall k | start <= k < e :: 0 <= Figure(s[k]) < b) && (e < |s| ==> !(0 <= Figure(s[e]) < b))
            && Value(s[start..e], b) == Sum(s[start..e], b)
  {
    var e := RunEnd(s, start, b);
    RunEndStops(s, start, b);
    forall k | start <= k < |s|
      ensures IsDigit(s[k], b) <==> 0 <= Figure(s[k]) < b
    {
      FigureDigit(s[k], b);
    }
    ValueIsSum(s[start..e], b);
  }

  /** One more digit of a run: no value on the way exceeds the whole. */
  lemma NextDigit(s: seq<Byte>, start: nat, p: nat, run: nat, b: nat)
    requires start <= p < run <= |s| && b > 0
    ensures Value(s[start..p + 1], b) == Value(s[start..p], b) * b + Worth(s[p])
    ensures Value(s[start..p + 1], b) <= Value(s[start..run], b)
  {
    assert s[start..p + 1][..p - start] == s[start..p];
    assert s[start..run][..p + 1 - start] == s[start..p + 1];
    PrefixValue(s[start..run], p + 1 - start, b);
  }

  lemma {:induction false} PrefixValue(ds: seq<Byte>, k: nat, b: nat)
    requires k <= |ds| && b > 0
    ensures Value(ds[..k], b) <= Value(ds, b)
  {
    if k < |ds| {
      var front := ds[..|ds| - 1];
      assert front[..k] == ds[..k];
      PrefixValue(front, k, b);
      Grows(Value(front, b), b);
    } else {
      assert ds[..k] == ds;
    }
  }

  lemma Grows(x: nat, b: nat)
    requires b > 0
    ensures x <= x * b
  {
  }

  // ---- What parsing means ----

  predicate AllSpace(ws: seq<Byte>) {
    forall c | c in ws :: IsSpace(c)
  }

  predicate IsSign(sign: seq<Byte>) {
    sign == [] || sign == [PLUS] || sign == [MINUS]
  }

  /** White space, an optional sign, a run of digits as long as it can be, and the rest. */
  predicate Shaped(ws: seq<Byte>, sign: seq<Byte>, ds: seq<Byte>, rest: seq<Byte>, b: nat) {
    && AllSpace(ws) && IsSign(sign) && AllDigits(ds, b)
    && (rest != [] ==> !IsDigit(rest[0], b))
    && (sign == [] && ds == [] ==> StartsPlain(rest))
  }

  /** The same byte by byte: 9 to 13 and 32 are white space, 43 is plus, 45 is minus. */
  predicate Splits(ws: seq<Byte>, sign: seq<Byte>, ds: seq<Byte>, rest: seq<Byte>, b: nat) {
    && (forall c | c in ws :: c == 32 || 9 <= c <= 13)
    && (sign == [] || sign == [43] || sign == [45])
    && (forall c | c in ds :: 0 <= Figure(c) < b)
    && (rest != [] ==> !(0 <= Figure(rest[0]) < b))
    && (sign == [] && ds == [] && rest != [] ==> rest[0] !in {32, 9, 10, 11, 12, 13, 43, 45})
  }

  lemma SplitsShaped(ws: seq<Byte>, sign: seq<Byte>, ds: seq<Byte>, rest: seq<Byte>, b: nat)
    ensures Splits(ws, sign, ds, rest, b) <==> Shaped(ws, sign, ds, rest, b)
  {
    forall c | c in ds || c in rest
      ensures IsDigit(c, b) <==> 0 <= Figure(c) < b
    {
      FigureDigit(c, b);
    }
    assert rest != [] ==> rest[0] in rest;
  }

  lemma {:induction false} SpaceEndIs(s: seq<Byte>, p: nat, e: nat)
    requires p <= e <= |s| && (forall k | p <= k < e :: IsSpace(s[k])) && (e < |s| ==> !IsSpace(s[e]))
    ensures SpaceEnd(s, p) == e
    decreases e - p
  {
    if p < e {
      SpaceEndIs(s, p + 1, e);
    }
  }

  lemma {:induction false} RunEndIs(s: seq<Byte>, p: nat, e: nat, b: nat)
    requires p <= e <= |s| && (forall k | p <= k < e :: IsDigit(s[k], b)) && (e < |s| ==> !IsDigit(s[e], b))
    ensures RunEnd(s, p, b) == e
    decreases e - p
  {
    if p < e {
      RunEndIs(s, p + 1, e, b);
    }
  }

  lemma SpacePart(ws: seq<Byte>, tail: seq<Byte>)
    requires AllSpace(ws) && (tail != [] ==> !IsSpace(tail[0]))
    ensures SpaceEnd(ws + tail, 0) == |ws|
  {
    var s := ws + tail;
    forall k | 0 <= k < |ws|
      ensures IsSpace(s[k])
    {
      assert s[k] == ws[k] && ws[k] in ws;
    }
    assert |ws| < |s| ==> s[|ws|] == tail[0];
    SpaceEndIs(s, 0, |ws|);
  }

  /** A text that does not start like white space or a sign. */
  predicate StartsPlain(tail: seq<Byte>) {
    tail != [] ==> !IsSpace(tail[0]) && tail[0] != PLUS && tail[0] != MINUS
  }

  lemma SignPart(ws: seq<Byte>, sign: seq<Byte>, tail: seq<Byte>)
    requires AllSpace(ws) && IsSign(sign) && (sign == [] ==> StartsPlain(tail))
    ensures var s := ws + sign + tail;
            && SpaceEnd(s, 0) == |ws| && AfterSign(s, |ws|) == |ws + sign|
            && (Holds(s, |ws|, MINUS) <==> sign == [MINUS])
            && s[|ws + sign|..] == tail
  {
    assert ws + sign + tail == ws + (sign + tail);
    SpacePart(ws, sign + tail);
  }

  /**
    In a given base the parser returns the signed sum of the digits, each times its power of
    the base, after white space and an optional sign, and the position just past them, even
    when there are none.
   */
  lemma ParseText(ws: seq<Byte>, sign: seq<Byte>, ds: seq<Byte>, rest: seq<Byte>, b: nat)
    requires b > 0 && Splits(ws, sign, ds, rest, b)
    ensures Parse(ws + sign + ds + rest, b) ==
              Parsed(if sign == [45] then -Sum(ds, b) else Sum(ds, b), |ws| + |sign| + |ds|)
  {
    SplitsShaped(ws, sign, ds, rest, b);
    ValueIsSum(ds, b);
    ParseShaped(ws, sign, ds, rest, b);
  }

  lemma ParseShaped(ws: seq<Byte>, sign: seq<Byte>, ds: seq<Byte>, rest: seq<Byte>, b: nat)
    requires b > 0 && Shaped(ws, sign, ds, rest, b)
    ensures Parse(ws + sign + ds + rest, b) == Parsed(Signed(Value(ds, b), sign == [MINUS]), |ws + sign + ds|)
  {
    assert ws + sign + ds + rest == ws + sign + (ds + rest);
    assert sign == [] ==> StartsPlain(ds + rest) by {
      if ds != [] {
        assert ds[0] in ds;
      }
    }
    SignPart(ws, sign, ds + rest);
    ParseAt(ws + sign + (ds + rest), b, |ws + sign|, ds, rest, b);
  }

  /** Every string splits so, and only in one way as far as the result is concerned (ParseText). */
  lemma EveryTextSplits(s: seq<Byte>, b: nat) returns (ws: seq<Byte>, sign: seq<Byte>, ds: seq<Byte>, rest: seq<Byte>)
    requires b > 0
    ensures s == ws + sign + ds + rest && Splits(ws, sign, ds, rest, b)
  {
    var tail;
    ws, tail := SpaceSplits(s);
    sign := if Holds(tail, 0, PLUS) || Holds(tail, 0, MINUS) then tail[..1] else [];
    var body := tail[|sign|..];
    ds, rest := RunSplits(body, b);
    assert tail == sign + body;
    Joined(ws, sign, ds, rest);
    SplitsShaped(ws, sign, ds, rest, b);
  }

  lemma Joined(ws: seq<Byte>, sign: seq<Byte>, ds: seq<Byte>, rest: seq<Byte>)
    ensures ws + (sign + (ds + rest)) == ws + sign + ds + rest
  {
  }

  /** The white space a text starts with. */
  lemma SpaceSplits(s: seq<Byte>) returns (ws: seq<Byte>, tail: seq<Byte>)
    ensures s == ws + tail && AllSpace(ws) && (tail != [] ==> !IsSpace(tail[0]))
  {
    var w := SpaceEnd(s, 0);
    SpaceEndStops(s, 0);
    ws, tail := s[..w], s[w..];
  }

  lemma {:induction false} SpaceEndStops(s: seq<Byte>, p: nat)
    requires p <= |s|
    ensures var e := SpaceEnd(s, p); (forall k | p <= k < e :: IsSpace(s[k])) && (e < |s| ==> !IsSpace(s[e]))
    decreases |s| - p
  {
    if p < |s| && IsSpace(s[p]) {
      SpaceEndStops(s, p + 1);
    }
  }

  lemma {:induction false} RunEndStops(s: seq<Byte>, p: nat, b: nat)
    requires p <= |s|
    ensures var e := RunEnd(s, p, b); (forall k | p <= k < e :: IsDigit(s[k], b)) && (e < |s| ==> !IsDigit(s[e], b))
    decreases |s| - p
  {
    if p < |s| && IsDigit(s[p], b) {
      RunEndStops(s, p + 1, b);
    }
  }

  /** With base 0 the prefix chooses the base: a text parses as it would in base 10, after a zero in 8, and after a zero and an x of either case, the x taken out, in 16. */
  lemma AutoBase(ws: seq<Byte>, sign: seq<Byte>, tail: seq<Byte>)
    requires (forall c | c in ws :: c == 32 || 9 <= c <= 13) && (sign == [] || sign == [43] || sign == [45])
    requires sign == [] && tail != [] ==> tail[0] !in {32, 9, 10, 11, 12, 13, 43, 45}
    ensures var s := ws + sign + tail;
            if tail == [] || tail[0] != 48 then Parse(s, 0) == Parse(s, 10)
            else if |tail| > 1 && (tail[1] == 88 || tail[1] == 120) then
              var p := Parse(ws + sign + ([48] + tail[2..]), 16);
              Parse(s, 0) == p.(end := p.end + 1)
            else Parse(s, 0) == Parse(s, 8)
  {
    SignPart(ws, sign, tail);
    if Holds(tail, 0, ZERO) {
      var hex := |tail| > 1 && Upper(tail[1]) == UPPER_X;
      Prefixed(ws, sign, tail, if hex then 2 else 1, if hex then 16 else 8);
      assert hex || [ZERO] + tail[1..] == tail;
    }
  }

  /** The longest run of digits a text starts with. */
  lemma RunSplits(run: seq<Byte>, b: nat) returns (ds: seq<Byte>, rest: seq<Byte>)
    ensures run == ds + rest && AllDigits(ds, b) && (rest != [] ==> !IsDigit(rest[0], b))
  {
    var e := RunEnd(run, 0, b);
    RunEndStops(run, 0, b);
    ds, rest := run[..e], run[e..];
  }

  /** Parsing from where the digits start. */
  lemma ParseAt(s: seq<Byte>, base: nat, start: nat, ds: seq<Byte>, rest: seq<Byte>, b: nat)
    requires LeadOf(s, base) == Lead(start, b) && s[start..] == ds + rest
    requires AllDigits(ds, b) && (rest != [] ==> !IsDigit(rest[0], b))
    ensures Parse(s, base) == Parsed(Signed(Value(ds, b), Holds(s, SpaceEnd(s, 0), MINUS)), start + |ds|)
  {
    DigitsAt(s, start, ds, rest, b);
  }

  lemma DigitsAt(s: seq<Byte>, start: nat, ds: seq<Byte>, rest: seq<Byte>, b: nat)
    requires start <= |s| && s[start..] == ds + rest
    requires AllDigits(ds, b) && (rest != [] ==> !IsDigit(rest[0], b))
    ensures RunEnd(s, start, b) == start + |ds| && s[start..start + |ds|] == ds
  {
    var t, e := s[start..], start + |ds|;
    forall k | start <= k < e
      ensures IsDigit(s[k], b)
    {
      assert s[k] == t[k - start] == ds[k - start] && ds[k - start] in ds;
    }
    assert e < |s| ==> s[e] == t[|ds|] == rest[0];
    RunEndIs(s, start, e, b);
    assert s[start..e] == t[..|ds|] == ds;
  }

  /** Digits after a prefix of "k" bytes are worth what they are worth after a single zero. */
  lemma Prefixed(ws: seq<Byte>, sign: seq<Byte>, tail: seq<Byte>, k: nat, b: nat)
    requires AllSpace(ws) && IsSign(sign) && b in {8, 16} && 0 < k <= |tail| && tail[0] == ZERO
    requires LeadOf(ws + sign + tail, 0) == Lead(|ws + sign| + k, b)
    ensures var p := Parse(ws + sign + ([ZERO] + tail[k..]), b);
            Parse(ws + sign + tail, 0) == p.(end := p.end + k - 1)
  {
    var ds, rest := RunSplits(tail[k..], b);
    SignPart(ws, sign, tail);
    TailAfter(ws + sign, tail, k);
    ParseAt(ws + sign + tail, 0, |ws + sign| + k, ds, rest, b);
    AfterZero(ws, sign, tail[k..], ds, rest, b);
  }

  lemma AfterZero(ws: seq<Byte>, sign: seq<Byte>, run: seq<Byte>, ds: seq<Byte>, rest: seq<Byte>, b: nat)
    requires AllSpace(ws) && IsSign(sign) && b > 0 && run == ds + rest
    requires AllDigits(ds, b) && (rest != [] ==> !IsDigit(rest[0], b))
    ensures Parse(ws + sign + ([ZERO] + run), b) == Parsed(Signed(Value(ds, b), sign == [MINUS]), |ws + sign| + 1 + |ds|)
  {
    LeadingZero(ds, b);
    ParseShaped(ws, sign, [ZERO] + ds, rest, b);
    Regroup(ws + sign, [ZERO], ds, rest);
  }

  lemma Regroup(front: seq<Byte>, zero: seq<Byte>, ds: seq<Byte>, rest: seq<Byte>)
    ensures front + (zero + ds) + rest == front + (zero + (ds + rest))
  {
  }

  lemma TailAfter(front: seq<Byte>, tail: seq<Byte>, k: nat)
    requires k <= |tail|
    ensures (front + tail)[|front| + k..] == tail[k..]
  {
  }

  // ---- Printing and parsing are inverse ----

  function SignOf(num: int): seq<Byte> {
    if num < 0 then [MINUS] else []
  }

  function Abs(num: int): nat {
    if num < 0 then -num else num
  }

  lemma MagnitudeOf(s: seq<Byte>, base: nat)
    ensures Magnitude(s, base) == Abs(Parse(s, base).value)
  {
  }

  lemma NumeralParts(num: int, b: nat, rest: seq<Byte>)
    requires Radixable(b)
    ensures Numeral(num, b) == SignOf(num) + Digits(Abs(num), b)
    ensures Numeral(num, b) + [0] + rest == [] + SignOf(num) + Digits(Abs(num), b) + ([0] + rest)
  {
  }

  /** What the printer wrote the parser reads back, up to and not past the terminator. */
  lemma RoundTrip(num: int, b: nat, rest: seq<Byte>)
    requires 2 <= b <= 36
    ensures Parse(Numeral(num, b) + [0] + rest, b) == Parsed(num, |Numeral(num, b)|)
    ensures Magnitude(Numeral(num, b) + [0] + rest, b) == Abs(num)
  {
    MagnitudeOf(Numeral(num, b) + [0] + rest, b);
    DigitsMean(Abs(num), b);
    NumeralParts(num, b, rest);
    ParseShaped([], SignOf(num), Digits(Abs(num), b), [0] + rest, b);
    assert [] + SignOf(num) + Digits(Abs(num), b) == Numeral(num, b);
  }

  /** "s" is "t" with any of its lower-case letters in upper case. */
  predicate Recased(s: seq<Byte>, t: seq<Byte>) {
    |s| == |t| && forall i | 0 <= i < |t| :: s[i] == t[i] || (97 <= t[i] <= 122 && s[i] == t[i] - 32)
  }

  lemma {:induction false} RecasedValue(ds: seq<Byte>, ts: seq<Byte>, b: nat)
    requires AllDigits(ts, b) && Recased(ds, ts)
    ensures AllDigits(ds, b) && Value(ds, b) == Value(ts, b)
  {
    if ts != [] {
      var k := |ts| - 1;
      RecasedValue(ds[..k], ts[..k], b);
      assert ts[k] in ts && IsDigit(ds[k], b) && Worth(ds[k]) == Worth(ts[k]);
      assert ds == ds[..k] + [ds[k]];
    }
  }

  /** Letters may be of either case: a numeral with any of its letters in upper case reads back as the same number. */
  lemma AnyCase(num: int, s: seq<Byte>, b: nat, rest: seq<Byte>)
    requires 2 <= b <= 36 && Recased(s, Numeral(num, b))
    ensures Parse(s + [0] + rest, b) == Parsed(num, |s|)
  {
    var ds := RecasedDigits(num, s, b);
    DigitsMean(Abs(num), b);
    RecasedValue(ds, Digits(Abs(num), b), b);
    ParseShaped([], SignOf(num), ds, [0] + rest, b);
    Ends(SignOf(num), ds, rest);
  }

  /** The sign of a numeral is no letter. */
  lemma RecasedDigits(num: int, s: seq<Byte>, b: nat) returns (ds: seq<Byte>)
    requires Radixable(b) && Recased(s, Numeral(num, b))
    ensures s == SignOf(num) + ds && Recased(ds, Digits(Abs(num), b))
  {
    var n := Numeral(num, b);
    ds := if num < 0 then s[1..] else s;
    assert num < 0 ==> s[0] == n[0] && s == [s[0]] + ds;
    forall i | 0 <= i < |ds|
      ensures ds[i] == Digits(Abs(num), b)[i] || (97 <= Digits(Abs(num), b)[i] <= 122 && ds[i] == Digits(Abs(num), b)[i] - 32)
    {
      var j := if num < 0 then i + 1 else i;
      assert ds[i] == s[j] && Digits(Abs(num), b)[i] == n[j];
    }
  }

  lemma Ends(sign: seq<Byte>, ds: seq<Byte>, rest: seq<Byte>)
    ensures [] + sign + ds + ([0] + rest) == sign + ds + [0] + rest
    ensures |[] + sign + ds| == |sign + ds|
  {
  }

  /** A decimal numeral also reads back when the base is left to be detected. */
  lemma DecimalRoundTrip(num: int, rest: seq<Byte>)
    ensures Parse(Numeral(num, 10) + [0] + rest, 0) == Parsed(num, |Numeral(num, 10)|)
    ensures Magnitude(Numeral(num, 10) + [0] + rest, 0) == Abs(num)
  {
    MagnitudeOf(Numeral(num, 10) + [0] + rest, 0);
    AutoIsDecimal(num, rest);
    if num == 0 {
      RoundTrip(0, 8, rest);
      assert Numeral(0, 8) == Numeral(0, 10);
    } else {
      RoundTrip(num, 10, rest);
    }
  }

  lemma AutoIsDecimal(num: int, rest: seq<Byte>)
    ensures var s := Numeral(num, 10) + [0] + rest;
            Parse(s, 0) == Parse(s, if num == 0 then 8 else 10)
  {
    var ds := Digits(Abs(num), 10);
    DigitsMean(Abs(num), 10);
    ZeroDigits(Abs(num), 10);
    assert ds[0] in ds;
    NumeralParts(num, 10, rest);
    AutoTail(SignOf(num), ds, rest);
  }

  lemma AutoTail(sign: seq<Byte>, ds: seq<Byte>, rest: seq<Byte>)
    requires IsSign(sign) && ds != [] && IsDigit(ds[0], 10) && (ds[0] == ZERO ==> ds == [ZERO])
    ensures var s := [] + sign + ds + ([0] + rest);
            Parse(s, 0) == Parse(s, if ds == [ZERO] then 8 else 10)
  {
    var tail := ds + ([0] + rest);
    assert tail[0] == ds[0] && (ds == [ZERO] ==> tail[1] == 0);
    AutoBase([], sign, tail);
    assert [] + sign + tail == [] + sign + ds + ([0] + rest);
  }

  // ---- When the parser overflows ----

  /** Reading digit "k" of a run takes the accumulator past what an x_int_t holds. */
  ghost predicate OverflowsAt(ds: seq<Byte>, b: nat, k: nat)
    requires k < |ds|
  {
    Value(ds[..k], b) * b > MOST || Value(ds[..k], b) * b + Worth(ds[k]) > MOST
  }

  /** Some intermediate value leaves the range exactly when the digits alone, whatever the sign, do not fit. */
  lemma OverflowExactly(s: seq<Byte>, base: nat)
    ensures var l := LeadOf(s, base);
            var ds := s[l.start..RunEnd(s, l.start, l.base)];
            (exists k | 0 <= k < |ds| :: OverflowsAt(ds, l.base, k)) <==> Magnitude(s, base) > MOST
  {
    var l := LeadOf(s, base);
    RunOverflows(s[l.start..RunEnd(s, l.start, l.base)], l.base);
  }

  lemma RunOverflows(ds: seq<Byte>, b: nat)
    requires b > 0
    ensures (exists k | 0 <= k < |ds| :: OverflowsAt(ds, b, k)) <==> Value(ds, b) > MOST
  {
    forall k | 0 <= k < |ds|
      ensures OverflowsAt(ds, b, k) ==> Value(ds, b) > MOST
    {
      ValueNext(ds, b, k);
      PrefixValue(ds, k + 1, b);
    }
    if ds != [] {
      var k := |ds| - 1;
      ValueNext(ds, b, k);
      assert ds[..k + 1] == ds;
      assert Value(ds, b) > MOST ==> OverflowsAt(ds, b, k);
    } else {
      assert Value(ds, b) == 0;
    }
  }

  lemma ValueNext(ds: seq<Byte>, b: nat, k: nat)
    requires k < |ds|
    ensures Value(ds[..k + 1], b) == Value(ds[..k], b) * b + Worth(ds[k])
  {
    assert ds[..k + 1][..k] == ds[..k];
  }

  /** The least number of all is a number whose numeral makes the parser overflow: "-9223372036854775808" in base 10. */
  lemma LeastOverflows(b: nat, rest: seq<Byte>)
    requires 2 <= b <= 36
    ensures var s := Numeral(-MOST - 1, b) + [0] + rest;
            Parse(s, b).value == -0x8000_0000_0000_0000 && Magnitude(s, b) > MOST
  {
    RoundTrip(-MOST - 1, b, rest);
  }

  /** However a number is spelled, printing what was parsed gives its one canonical numeral. */
  lemma Respelled(ws: seq<Byte>, sign: seq<Byte>, ds: seq<Byte>, rest: seq<Byte>, b: nat)
    requires 2 <= b <= 36 && Splits(ws, sign, ds, rest, b)
    ensures var num := Parse(ws + sign + ds + rest, b).value;
            Numeral(num, b) == (if sign == [45] && Tidy(ds) != [48] then [45] else []) + Tidy(ds)
  {
    SplitsShaped(ws, sign, ds, rest, b);
    ParseShaped(ws, sign, ds, rest, b);
    TidyDigits(ds, b);
    SignedNumeral(Value(ds, b), sign == [MINUS], b);
  }

  lemma SignedNumeral(n: nat, negative: bool, b: nat)
    requires Radixable(b)
    ensures Numeral(Signed(n, negative), b) ==
              (if negative && Digits(n, b) != [ZERO] then [MINUS] else []) + Digits(n, b)
  {
    ZeroDigits(n, b);
    assert [] + Digits(n, b) == Digits(n, b);
  }

  lemma ZeroDigits(n: nat, b: nat)
    requires Radixable(b)
    ensures Digits(n, b) == [ZERO] <==> n == 0
  {
    DigitsMean(n, b);
  }

  /** Unlike strtol, an explicit base 16 stops at the x of a prefix. */
  lemma PrefixNotSkipped(ws: seq<Byte>, sign: seq<Byte>, tail: seq<Byte>)
    requires (forall c | c in ws :: c == 32 || 9 <= c <= 13) && (sign == [] || sign == [43] || sign == [45])
    requires tail != [] && (tail[0] == 88 || tail[0] == 120)
    ensures Parse(ws + sign + [48] + tail, 16) == Parsed(0, |ws + sign| + 1)
  {
    ParseShaped(ws, sign, [ZERO], tail, 16);
    assert [ZERO][..0] == [];
  }
}
