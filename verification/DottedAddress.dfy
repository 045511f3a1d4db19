/** inet_ntoa and inet_aton of the kernel module: dotted addresses on a little-endian host. */
module DottedAddress {
  import opened Base
  import opened Bytes

  const NUL: char := '\0'

  predicate IsDigit(c: char) {
    '0' <= c <= '9'
  }

  predicate IsHexLetter(c: char) {
    'a' <= c <= 'f' || 'A' <= c <= 'F'
  }

  predicate IsSpace(c: char) {
    c == ' ' || '\t' <= c <= '\r'
  }

  /** Does the digit loop take c in this base? 8 and 9 pass as octal digits. */
  predicate Takes(c: char, radix: nat) {
    IsDigit(c) || (radix == 16 && IsHexLetter(c))
  }

  function DigitValue(c: char): nat
    requires IsDigit(c) || IsHexLetter(c)
  {
    if IsDigit(c) then c as int - '0' as int
    else c as int + 10 - (if 'a' <= c then 'a' else 'A') as int
  }

  function Advance(val: u32, radix: nat, c: char): u32
    requires Takes(c, radix)
  {
    U32(val * radix + DigitValue(c))
  }

  /** The digit loop: the value, and the text it stops at. */
  function Scan(s: string, radix: nat, val: u32): (u32, string)
    ensures |Scan(s, radix, val).1| <= |s|
  {
    if s == [] || !Takes(s[0], radix) then (val, s) else Scan(s[1..], radix, Advance(val, radix, s[0]))
  }

  /** One number as in C: 0x is hexadecimal, 0 octal, anything else decimal. */
  function Number(s: string): (u32, string)
    ensures |Number(s).1| <= |s|
  {
    if s != [] && s[0] == '0' then
      if |s| > 1 && (s[1] == 'x' || s[1] == 'X') then Scan(s[2..], 16, 0) else Scan(s[1..], 8, 0)
    else Scan(s, 10, 0)
  }

  /** The loop over the parts: those before the last dot, the last one, and the text behind it. */
  function Address(s: string, parts: seq<u32>): (r: Option<(seq<u32>, u32, string)>)
    requires |parts| <= 3
    ensures r.Some? ==> |r.value.0| <= 3
    decreases |s|
  {
    var (val, rest) := Number(s);
    if rest != [] && rest[0] == '.' then
      if |parts| >= 3 || val > 0xff then None else Address(rest[1..], parts + [val])
    else Some((parts, val, rest))
  }

  /** a, a.b, a.b.c and a.b.c.d, the last part filling the remaining bytes. */
  function Concoct(parts: seq<u32>, val: u32): Option<int>
    requires |parts| <= 3
  {
    match |parts|
    case 0 => Some(val)
    case 1 => if val > 0xff_ffff then None else Some(parts[0] * 0x100_0000 + val)
    case 2 => if val > 0xffff then None else Some(parts[0] * 0x100_0000 + parts[1] * 0x1_0000 + val)
    case _ => if val > 0xff then None
              else Some(parts[0] * 0x100_0000 + parts[1] * 0x1_0000 + parts[2] * 0x100 + val)
  }

  /** htonl: the most significant byte goes first. */
  function Htonl(x: u32): u32 {
    FromLE([x / 0x100_0000, x / 0x1_0000 % 0x100, x / 0x100 % 0x100, x % 0x100])
  }

  /** inet_aton, None for a return of 0. */
  function Aton(s: string): Option<u32> {
    match Address(s, [])
    case None => None
    case Some((parts, val, rest)) =>
      if rest != [] && rest[0] != NUL && !IsSpace(rest[0]) then None
      else match Concoct(parts, val)
        case None => None
        case Some(x) => Some(Htonl(U32(x)))
  }

  /** "%d" of a byte. */
  function Decimal(b: u8): (t: string)
    ensures 1 <= |t| <= 3
  {
    if b < 10 then [Digit(b)]
    else if b < 100 then [Digit(b / 10), Digit(b % 10)]
    else [Digit(b / 100), Digit(b / 10 % 10), Digit(b % 10)]
  }

  function Digit(d: nat): (c: char)
    requires d < 10
    ensures IsDigit(c) && DigitValue(c) == d
  {
    '0' + d as char
  }

  /** inet_ntoa: the bytes in memory order. */
  function Ntoa(x: u32): (t: string)
    ensures |t| < 16
  {
    var b := LE(x);
    Decimal(b[0]) + "." + Decimal(b[1]) + "." + Decimal(b[2]) + "." + Decimal(b[3])
  }

  // ---- numbers as texts ----

  predicate AllTaken(t: string, radix: nat) {
    forall i :: 0 <= i < |t| ==> Takes(t[i], radix)
  }

  /** The value of a digit string behind acc, unbounded. */
  function Horner(t: string, radix: nat, acc: nat): nat
    requires AllTaken(t, radix)
  {
    if t == [] then acc else Horner(t[1..], radix, acc * radix + DigitValue(t[0]))
  }

  function Radix(t: string): nat {
    if t == [] || t[0] != '0' then 10 else if |t| > 1 && (t[1] == 'x' || t[1] == 'X') then 16 else 8
  }

  function Body(t: string): string {
    if Radix(t) == 16 then t[2..] else if Radix(t) == 8 then t[1..] else t
  }

  /** A number text; the empty text counts as 0. */
  predicate IsNumber(t: string) {
    AllTaken(Body(t), Radix(t))
  }

  /** Its value, kept in an unsigned int. */
  function Value(t: string): u32
    requires IsNumber(t)
  {
    U32(Horner(Body(t), Radix(t), 0))
  }

  /** Text at which any number ends. */
  predicate Ends(rest: string) {
    rest == [] || !(IsDigit(rest[0]) || IsHexLetter(rest[0]) || rest[0] == 'x' || rest[0] == 'X')
  }

  lemma AdvanceWraps(acc: nat, radix: nat, c: char)
    requires Takes(c, radix) && (radix == 8 || radix == 10 || radix == 16)
    ensures Advance(U32(acc), radix, c) == U32(acc * radix + DigitValue(c))
  {
    var q, r, m := acc / 0x1_0000_0000, U32(acc), 0x1_0000_0000;
    assert acc * radix + DigitValue(c) == (r * radix + DigitValue(c)) + (q * radix) * m;
    WrapMultiple(r * radix + DigitValue(c), q * radix);
  }

  lemma {:induction false} WrapMultiple(a: nat, k: nat)
    ensures U32(a + k * 0x1_0000_0000) == U32(a)
  {
  }

  lemma {:induction false} ScanOf(t: string, rest: string, radix: nat, acc: nat)
    requires AllTaken(t, radix) && (rest == [] || !Takes(rest[0], radix))
    requires radix == 8 || radix == 10 || radix == 16
    ensures Scan(t + rest, radix, U32(acc)) == (U32(Horner(t, radix, acc)), rest)
  {
    hide U32, Advance, DigitValue;
    if t == [] {
      assert t + rest == rest;
    } else {
      assert (t + rest)[1..] == t[1..] + rest;
      AdvanceWraps(acc, radix, t[0]);
      ScanOf(t[1..], rest, radix, acc * radix + DigitValue(t[0]));
    }
  }

  lemma NumberOf(t: string, rest: string)
    requires IsNumber(t) && Ends(rest)
    ensures Number(t + rest) == (Value(t), rest)
  {
    var s := t + rest;
    ScanOf(Body(t), rest, Radix(t), 0);
    if Radix(t) == 16 {
      assert s[2..] == Body(t) + rest;
    } else if Radix(t) == 8 {
      assert s[1..] == Body(t) + rest;
    }
  }

  /** What the digit loop consumed is a digit string. */
  lemma {:induction false} ScanTakes(s: string, radix: nat, val: u32) returns (t: string)
    ensures s == t + Scan(s, radix, val).1 && AllTaken(t, radix)
  {
    if s == [] || !Takes(s[0], radix) {
      t := [];
    } else {
      var u := ScanTakes(s[1..], radix, Advance(val, radix, s[0]));
      t := [s[0]] + u;
    }
  }

  lemma NumberTakes(s: string) returns (t: string)
    ensures s == t + Number(s).1
    ensures Ends(Number(s).1) ==> IsNumber(t)
  {
    if s != [] && s[0] == '0' {
      if |s| > 1 && (s[1] == 'x' || s[1] == 'X') {
        var u := ScanTakes(s[2..], 16, 0);
        t := s[..2] + u;
        assert Body(t) == u;
      } else {
        var u := ScanTakes(s[1..], 8, 0);
        t := s[..1] + u;
        assert Body(t) == u;
      }
    } else {
      t := ScanTakes(s, 10, 0);
    }
  }

  // ---- texts of one to four numbers ----

  function Join(ts: seq<string>): string
    requires ts != []
  {
    if |ts| == 1 then ts[0] else ts[0] + "." + Join(ts[1..])
  }

  predicate AllNumbers(ts: seq<string>) {
    forall i :: 0 <= i < |ts| ==> IsNumber(ts[i])
  }

  function Values(ts: seq<string>): (vs: seq<u32>)
    requires AllNumbers(ts)
    ensures |vs| == |ts|
  {
    if ts == [] then [] else [Value(ts[0])] + Values(ts[1..])
  }

  /** All numbers but the last are bytes. */
  predicate LeadingBytes(vs: seq<u32>) {
    forall i :: 0 <= i < |vs| - 1 ==> vs[i] <= 0xff
  }

  predicate IsTail(tail: string) {
    tail == [] || tail[0] == NUL || IsSpace(tail[0])
  }

  /** What the loop over the parts makes of the remaining numbers vs. */
  function Collected(parts: seq<u32>, vs: seq<u32>, tail: string): Option<(seq<u32>, u32, string)>
    requires vs != []
  {
    if LeadingBytes(vs) && |parts| + |vs| <= 4 then Some((parts + vs[..|vs| - 1], vs[|vs| - 1], tail)) else None
  }

  lemma CollectedStep(parts: seq<u32>, vs: seq<u32>, tail: string)
    requires |vs| > 1
    ensures Collected(parts, vs, tail)
         == if |parts| >= 3 || vs[0] > 0xff then None else Collected(parts + [vs[0]], vs[1..], tail)
  {
    if vs[0] <= 0xff {
      assert LeadingBytes(vs) <==> LeadingBytes(vs[1..]) by {
        assert forall i :: 1 <= i < |vs| ==> vs[i] == vs[1..][i - 1];
      }
      assert parts + [vs[0]] + vs[1..][..|vs| - 2] == parts + vs[..|vs| - 1];
    }
  }

  /** One turn of the loop over the parts. */
  lemma AddressStep(t: string, more: string, parts: seq<u32>)
    requires IsNumber(t) && |parts| <= 3
    ensures Address(t + "." + more, parts)
         == if |parts| == 3 || Value(t) > 0xff then None else Address(more, parts + [Value(t)])
  {
    hide IsNumber, Value;
    var rest := "." + more;
    NumberOf(t, rest);
    assert t + "." + more == t + rest && rest[1..] == more;
  }

  lemma {:induction false} AddressOf(ts: seq<string>, tail: string, parts: seq<u32>)
    requires ts != [] && AllNumbers(ts) && IsTail(tail) && |parts| <= 3
    ensures Address(Join(ts) + tail, parts) == Collected(parts, Values(ts), tail)
  {
    hide Number, Value, Values, Join, IsNumber, Address, Collected, IsTail;
    var vs := Values(ts);
    TextsStep(ts);
    if |ts| == 1 {
      LastPart(ts[0], tail, parts);
    } else {
      var more := Join(ts[1..]) + tail;
      assert ts[0] + "." + Join(ts[1..]) + tail == ts[0] + "." + more;
      AddressStep(ts[0], more, parts);
      CollectedStep(parts, vs, tail);
      if vs[0] <= 0xff && |parts| < 3 {
        AddressOf(ts[1..], tail, parts + [vs[0]]);
      }
    }
  }

  lemma TextsStep(ts: seq<string>)
    requires ts != [] && AllNumbers(ts)
    ensures Values(ts)[0] == Value(ts[0])
    ensures if |ts| == 1 then Join(ts) == ts[0] && Values(ts) == [Value(ts[0])]
            else Join(ts) == ts[0] + "." + Join(ts[1..]) && Values(ts)[1..] == Values(ts[1..])
  {
    hide Value;
  }

  lemma LastPart(t: string, tail: string, parts: seq<u32>)
    requires IsNumber(t) && IsTail(tail) && |parts| <= 3
    ensures Address(t + tail, parts) == Collected(parts, [Value(t)], tail)
  {
    NumberOf(t, tail);
    hide IsNumber, Value;
    assert parts + [Value(t)][..0] == parts;
  }

  lemma {:induction false} AddressTakes(s: string, parts: seq<u32>) returns (ts: seq<string>)
    requires |parts| <= 3 && Address(s, parts).Some? && IsTail(Address(s, parts).value.2)
    ensures ts != [] && AllNumbers(ts) && s == Join(ts) + Address(s, parts).value.2
    decreases |s|
  {
    var t := NumberTakes(s);
    var rest := Number(s).1;
    hide Number, IsNumber;
    if rest != [] && rest[0] == '.' {
      var us := AddressTakes(rest[1..], parts + [Number(s).0]);
      ts := [t] + us;
      assert ts[1..] == us && rest == "." + rest[1..];
    } else {
      ts := [t];
    }
  }

  /** The meaning of one to four numbers: the last one fills the bytes the others leave. */
  function Meaning(vs: seq<u32>): Option<u32>
    requires vs != []
  {
    if |vs| > 4 || !LeadingBytes(vs) then None
    else match Concoct(vs[..|vs| - 1], vs[|vs| - 1])
      case None => None
      case Some(x) => Some(Htonl(U32(x)))
  }

  /** inet_aton on every well-formed text. */
  lemma AtonOf(ts: seq<string>, tail: string)
    requires ts != [] && AllNumbers(ts) && IsTail(tail)
    ensures Aton(Join(ts) + tail) == Meaning(Values(ts))
  {
    AddressOf(ts, tail, []);
    hide Address, Values, Concoct;
    var vs := Values(ts);
    assert [] + vs[..|vs| - 1] == vs[..|vs| - 1];
  }

  /** inet_aton accepts well-formed texts only. */
  lemma AcceptedIsWellFormed(s: string) returns (ts: seq<string>, tail: string)
    requires Aton(s).Some?
    ensures ts != [] && AllNumbers(ts) && IsTail(tail) && s == Join(ts) + tail
    ensures Aton(s) == Meaning(Values(ts))
  {
    ts := AddressTakes(s, []);
    tail := Address(s, []).value.2;
    AtonOf(ts, tail);
  }

  // ---- the round trip ----

  lemma DecimalIsNumber(b: u8)
    ensures IsNumber(Decimal(b)) && Value(Decimal(b)) == b
  {
    hide Horner;
    var t := Decimal(b);
    if b < 10 {
      HornerOne(t[0]);
    } else if b < 100 {
      HornerTwo(t[0], t[1]);
    } else {
      HornerThree(t[0], t[1], t[2]);
      ThreeDigits(b);
    }
  }

  lemma HornerOne(a: char)
    requires IsDigit(a)
    ensures Horner([], 8, 0) == 0 && Horner([a], 10, 0) == DigitValue(a)
  {
  }

  lemma HornerCons(a: char, t: string, acc: nat)
    requires IsDigit(a) && AllTaken(t, 10)
    ensures AllTaken([a] + t, 10) && Horner([a] + t, 10, acc) == Horner(t, 10, acc * 10 + DigitValue(a))
  {
  }

  lemma HornerTwo(a: char, b: char)
    requires IsDigit(a) && IsDigit(b)
    ensures Horner([a, b], 10, 0) == 10 * DigitValue(a) + DigitValue(b)
  {
    HornerCons(a, [b], 0);
    HornerCons(b, [], DigitValue(a));
    assert [a, b] == [a] + [b] && [b] == [b] + [];
  }

  lemma HornerThree(a: char, b: char, c: char)
    requires IsDigit(a) && IsDigit(b) && IsDigit(c)
    ensures Horner([a, b, c], 10, 0) == 100 * DigitValue(a) + 10 * DigitValue(b) + DigitValue(c)
  {
    HornerCons(a, [b, c], 0);
    HornerCons(b, [c], DigitValue(a));
    HornerCons(c, [], DigitValue(a) * 10 + DigitValue(b));
    assert [a, b, c] == [a] + [b, c] && [b, c] == [b] + [c] && [c] == [c] + [];
  }

  lemma ThreeDigits(b: nat)
    ensures b == 100 * (b / 100) + 10 * (b / 10 % 10) + b % 10
  {
  }

  lemma HtonlBytes(a: u8, b: u8, c: u8, d: u8)
    ensures var x := a * 0x100_0000 + b * 0x1_0000 + c * 0x100 + d;
            0 <= x < 0x1_0000_0000 && Htonl(x) == FromLE([a, b, c, d])
  {
    hide FromLE;
    var z: int := a as int * 0x100 + b as int;
    var y: int := z * 0x100 + c as int;
    var x: int := y * 0x100 + d as int;
    assert x / 0x100 == y && x % 0x100 == d;
    assert y / 0x100 == z && y % 0x100 == c;
    assert z / 0x100 == a && z % 0x100 == b;
    assert x / 0x1_0000 == x / 0x100 / 0x100;
    assert x / 0x100_0000 == x / 0x100 / 0x100 / 0x100;
  }

  lemma Cons(a: string, ts: seq<string>)
    requires ts != [] && IsNumber(a) && AllNumbers(ts)
    ensures Join([a] + ts) == a + "." + Join(ts)
    ensures AllNumbers([a] + ts) && Values([a] + ts) == [Value(a)] + Values(ts)
  {
  }

  lemma FourNumbers(a: string, b: string, c: string, d: string)
    requires IsNumber(a) && IsNumber(b) && IsNumber(c) && IsNumber(d)
    ensures Join([a, b, c, d]) == a + "." + b + "." + c + "." + d
    ensures AllNumbers([a, b, c, d]) && Values([a, b, c, d]) == [Value(a), Value(b), Value(c), Value(d)]
  {
    hide IsNumber, Value;
    assert Values([d]) == [Value(d)] + Values([]);
    Cons(c, [d]);
    assert [c] + [d] == [c, d];
    Cons(b, [c, d]);
    assert [b] + [c, d] == [b, c, d];
    Cons(a, [b, c, d]);
    assert [a] + [b, c, d] == [a, b, c, d];
  }

  /** Parsing what was printed gives back every 32-bit address. */
  lemma RoundTrip(x: u32)
    ensures Aton(Ntoa(x)) == Some(x)
  {
    var b := LE(x);
    var ts := [Decimal(b[0]), Decimal(b[1]), Decimal(b[2]), Decimal(b[3])];
    LERoundTrip(x);
    DecimalIsNumber(b[0]);
    DecimalIsNumber(b[1]);
    DecimalIsNumber(b[2]);
    DecimalIsNumber(b[3]);
    hide IsNumber, Value, Decimal, LE, FromLE, Htonl, Address, Aton, Join, LeadingBytes, Values;
    FourNumbers(ts[0], ts[1], ts[2], ts[3]);
    assert Join(ts) + [] == Ntoa(x);
    AtonOf(ts, []);
    assert Values(ts) == b;
    MeaningOfFour(b);
  }

  /** The bytes of an address are printed from the lowest one up, which is how they lie in memory. */
  lemma {:induction false} NtoaBytes(a: u8, b: u8, c: u8, d: u8)
    ensures Ntoa(a as int + 256 * b as int + 65536 * c as int + 16777216 * d as int)
         == Decimal(a) + "." + Decimal(b) + "." + Decimal(c) + "." + Decimal(d)
  {
    hide Decimal;
    var x: u32 := a as int + 256 * b as int + 65536 * c as int + 16777216 * d as int;
    assert x / 256 == b as int + 256 * c as int + 65536 * d as int;
    assert x / 65536 == c as int + 256 * d as int;
    assert x / 16777216 == d;
  }

  /** A byte is printed without leading zeros, so it is read in base ten. */
  lemma DecimalCanonical(b: u8)
    ensures var t := Decimal(b);
            && Radix(t) == (if b == 0 then 8 else 10) && AllTaken(t, 10) && (t[0] == '0' <==> b == 0)
            && |t| == if b < 10 then 1 else if b < 100 then 2 else 3
  {
  }

  /** The digits and letters of a hexadecimal number. */
  lemma DigitsAre(k: nat)
    requires k < 16
    ensures k < 10 ==> DigitValue('0' + k as char) == k
    ensures k >= 10 ==> DigitValue('a' + (k - 10) as char) == k && DigitValue('A' + (k - 10) as char) == k
    ensures forall c :: Takes(c, 16) <==> '0' <= c <= '9' || 'a' <= c <= 'f' || 'A' <= c <= 'F'
    ensures forall c :: Takes(c, 10) <==> '0' <= c <= '9'
  {
  }

  /** How a digit string is weighed: the last digit counts once, those before it the base times as much. */
  lemma {:induction false} HornerLast(t: string, c: char, radix: nat, acc: nat)
    requires AllTaken(t, radix) && Takes(c, radix)
    ensures AllTaken(t + [c], radix) && Horner(t + [c], radix, acc) == Horner(t, radix, acc) * radix + DigitValue(c)
  {
    hide DigitValue;
    if t == [] {
      assert [c][1..] == [];
    } else {
      assert (t + [c])[1..] == t[1..] + [c];
      HornerLast(t[1..], c, radix, acc * radix + DigitValue(t[0]));
    }
  }

  /** The prefix decides the base. */
  lemma RadixIs(t: string)
    ensures Radix("0x" + t) == 16 && Body("0x" + t) == t && Radix("0X" + t) == 16 && Body("0X" + t) == t
    ensures (t == [] || (t[0] != 'x' && t[0] != 'X')) ==> Radix("0" + t) == 8 && Body("0" + t) == t
    ensures t != [] && t[0] != '0' ==> Radix(t) == 10 && Body(t) == t
  {
  }

  /**
   What one to four numbers mean, byte by byte in memory order: all but the last are bytes, and the last
   one fills the bytes that are left, its most significant byte first.
   */
  lemma {:induction false} MeaningIs(vs: seq<u32>)
    requires 1 <= |vs| <= 4
    ensures var n, v := |vs|, vs[|vs| - 1];
            if (forall i :: 0 <= i < n - 1 ==> vs[i] <= 255)
               && v < (if n == 1 then 0x1_0000_0000 else if n == 2 then 0x100_0000
                       else if n == 3 then 0x1_0000 else 0x100)
            then Meaning(vs) == Some(FromLE([
                   if n > 1 then vs[0] else v / 0x100_0000,
                   if n > 2 then vs[1] else v / 0x1_0000 % 0x100,
                   if n > 3 then vs[2] else v / 0x100 % 0x100,
                   v % 0x100]))
            else Meaning(vs) == None
  {
    hide FromLE, Htonl;
    var v := vs[|vs| - 1];
    var b1, b2, b3, b4 := v / 0x100_0000, v / 0x1_0000 % 0x100, v / 0x100 % 0x100, v % 0x100;
    Split(v);
    match |vs|
    case 1 => HtonlBytes(b1, b2, b3, b4);
    case 2 =>
      if vs[0] <= 255 {
        HtonlBytes(vs[0], b2, b3, b4);
      }
    case 3 =>
      if vs[0] <= 255 && vs[1] <= 255 {
        HtonlBytes(vs[0], vs[1], b3, b4);
      }
    case _ =>
      if vs[0] <= 255 && vs[1] <= 255 && vs[2] <= 255 {
        HtonlBytes(vs[0], vs[1], vs[2], b4);
      }
  }

  lemma Split(v: u32)
    ensures v == v / 0x100_0000 * 0x100_0000 + v / 0x1_0000 % 0x100 * 0x1_0000 + v / 0x100 % 0x100 * 0x100 + v % 0x100
    ensures v < 0x100_0000 ==> v / 0x100_0000 == 0
    ensures v < 0x1_0000 ==> v / 0x1_0000 == 0
    ensures v < 0x100 ==> v / 0x100 == 0
  {
    assert v / 0x1_0000 == v / 0x100 / 0x100;
    assert v / 0x100_0000 == v / 0x100 / 0x100 / 0x100;
  }

  lemma MeaningOfFour(b: seq<u8>)
    requires |b| == 4
    ensures Meaning(b) == Some(FromLE(b))
  {
    hide FromLE, Htonl;
    HtonlBytes(b[0], b[1], b[2], b[3]);
    assert b == [b[0], b[1], b[2], b[3]];
  }

  // ---- the routines ----

  /** The character at cp, or the terminating NUL. */
  function At(s: string, cp: nat): char
    requires cp <= |s|
  {
    if cp < |s| then s[cp] else NUL
  }

  lemma ScanStep(s: string, cp: nat, radix: nat, val: u32)
    requires cp <= |s|
    ensures Scan(s[cp..], radix, val)
         == if cp < |s| && Takes(s[cp], radix) then Scan(s[cp + 1..], radix, Advance(val, radix, s[cp]))
             else (val, s[cp..])
  {
  }

  /** Shifting first and adding then wraps like doing both at once. */
  lemma ShiftThenAdd(val: u32, d: nat)
    ensures U32(U32(val * 16) + d) == U32(val * 16 + d)
  {
  }

  /** The digit loop from cp on. */
  method ReadDigits(s: string, start: nat, radix: nat) returns (val: u32, cp: nat)
    requires start <= |s|
    ensures start <= cp <= |s| && (val, s[cp..]) == Scan(s[start..], radix, 0)
  {
    hide Scan, U32;
    val, cp := 0, start;
    while At(s, cp) != NUL
      invariant start <= cp <= |s|
      invariant Scan(s[cp..], radix, val) == Scan(s[start..], radix, 0)
      decreases |s| - cp
    {
      var c := s[cp];
      ScanStep(s, cp, radix, val);
      if IsDigit(c) {
        val := U32(val * radix + (c as int - '0' as int));
        cp := cp + 1;
      } else if radix == 16 && IsHexLetter(c) {
        var digit := c as int + 10 - (if 'a' <= c then 'a' else 'A') as int;
        ShiftThenAdd(val, digit);
        val := U32(U32(val * 16) + digit);
        cp := cp + 1;
      } else {
        break;
      }
    }
    ScanStep(s, cp, radix, val);
  }

  /** inet_aton with its array of parts, of which the last element is never written. */
  method InetAton(s: string, parts: array<u32>) returns (addr: Option<u32>)
    requires parts.Length == 4
    modifies parts
    ensures addr == Aton(s)
    ensures parts[3] == old(parts[3])
  {
    hide Scan, Concoct, Htonl, U32;
    var cp, pp, val := 0, 0, 0;
    while true
      invariant 0 <= cp <= |s| && 0 <= pp <= 3
      invariant Address(s[cp..], parts[..pp]) == Address(s, [])
      invariant parts[3] == old(parts[3])
      decreases |s| - cp
    {
      ghost var here := s[cp..];
      var radix := 10;
      if At(s, cp) == '0' {
        cp := cp + 1;
        if At(s, cp) == 'x' || At(s, cp) == 'X' {
          radix := 16;
          cp := cp + 1;
        } else {
          radix := 8;
        }
      }
      val, cp := ReadDigits(s, cp, radix);
      assert (val, s[cp..]) == Number(here);
      if At(s, cp) == '.' {
        if pp >= 3 || val > 0xff {
          return None;
        }
        parts[pp] := val;
        assert s[cp..][1..] == s[cp + 1..] && parts[..pp + 1] == parts[..pp] + [val];
        pp, cp := pp + 1, cp + 1;
      } else {
        break;
      }
    }
    assert Address(s, []) == Some((parts[..pp], val, s[cp..]));
    if At(s, cp) != NUL && !IsSpace(At(s, cp)) {
      return None;
    }
    var x := Fill(parts, pp, val);
    addr := if x.Some? then Some(Htonl(U32(x.value))) else None;
  }

  /** The final switch of inet_aton; the parts before the last are bytes, so the ors are sums. */
  method Fill(parts: array<u32>, pp: nat, val: u32) returns (x: Option<int>)
    requires parts.Length == 4 && pp <= 3
    ensures x == Concoct(parts[..pp], val)
  {
    match pp {
      case 0 =>
        x := Some(val);
      case 1 =>
        if val > 0xff_ffff {
          return None;
        }
        x := Some(parts[0] as int * 0x100_0000 + val);
      case 2 =>
        if val > 0xffff {
          return None;
        }
        x := Some(parts[0] as int * 0x100_0000 + parts[1] as int * 0x1_0000 + val);
      case _ =>
        if val > 0xff {
          return None;
        }
        x := Some(parts[0] as int * 0x100_0000 + parts[1] as int * 0x1_0000 + parts[2] as int * 0x100 + val);
    }
  }

  /** inet_ntoa fills its static buffer, terminator included. */
  method InetNtoa(ina: u32, buf: array<char>)
    requires buf.Length == 16
    modifies buf
    ensures buf[..|Ntoa(ina)| + 1] == Ntoa(ina) + [NUL]
  {
    var text := Ntoa(ina);
    var i := 0;
    while i != |text|
      invariant 0 <= i <= |text|
      invariant buf[..i] == text[..i]
    {
      buf[i] := text[i];
      i := i + 1;
    }
    buf[i] := NUL;
  }
}
