/**
 * Writing a value of one type into an input, output or attribute of another: model_write and
 * model_string_to_bytes of src/igs_model.c.
 *
 * The conversions of the C library are parameters. A source value is the memory that its
 * pointer leads to, or None for NULL, and a size.
 */
module ModelWrite {
  import opened Options
  import opened CStrings
  import opened Wire
  import opened Constraints
  import opened Definitions

  const BOOL_SIZE: nat := 1
  const NUMBER_TO_STRING_MAX_LENGTH: nat := 255

  datatype Libc = Libc(
    atoi: string -> Int32,
    atof: string -> Double,
    printDouble: Double -> Text,
    fromInt: Int32 -> Double,
    toInt: Double -> Int32,
    isZero: Double -> bool,
    less: (Double, Double) -> bool,
    zero: Double)

  /** The value of an io. A string is the memory it owns, its NUL included, or [] for NULL. */
  datatype Value =
    | IntV(i: Int32)
    | DoubleV(d: Double)
    | StringV(mem: Bytes)
    | BoolV(b: bool)
    | ImpulsionV
    | DataV(data: Bytes)
    | UnknownV

  datatype IoConstraint =
    | OnInt(bounds: Constraint)
    | OnDouble(low: Option<Double>, high: Option<Double>)
    | OnText(matches: string -> bool)

  function TypeOf(v: Value): ValueType {
    match v
    case IntV(_) => IntegerT
    case DoubleV(_) => DoubleT
    case StringV(_) => StringT
    case BoolV(_) => BoolT
    case ImpulsionV => ImpulsionT
    case DataV(_) => DataT
    case UnknownV => UnknownT
  }

  function SizeOf(v: Value): nat {
    match v
    case IntV(_) => INT_SIZE
    case DoubleV(_) => DOUBLE_SIZE
    case StringV(mem) => |mem|
    case BoolV(_) => BOOL_SIZE
    case ImpulsionV => 0
    case DataV(data) => |data|
    case UnknownV => 0
  }

  /** A string that is not NULL ends with NUL. */
  predicate Terminated(v: Value) {
    v.StringV? && v.mem != [] ==> v.mem[|v.mem| - 1] == NUL
  }

  /** Memory of a C string. */
  function Owned(s: string): Bytes {
    s + [NUL]
  }

  /** snprintf into the buffer for numbers */
  function Printed(s: Text): Text {
    Truncate(s, NUMBER_TO_STRING_MAX_LENGTH)
  }

  function PrintedInt(i: int): Text {
    IntIsText(i);
    Printed(PrintInt(i))
  }

  lemma IntIsText(i: int)
    ensures NUL !in PrintInt(i)
  {
    PrintNatDigits(if i < 0 then -i else i);
  }

  // ------------------------------------------------------------ hexadecimal text

  predicate IsHex(c: char) {
    '0' <= c <= '9' || 'A' <= c <= 'F' || 'a' <= c <= 'f'
  }

  function HexValue(c: char): (v: nat)
    ensures v < 16
  {
    if '0' <= c <= '9' then (c - '0') as nat
    else if 'A' <= c <= 'F' then 10 + (c - 'A') as nat
    else if 'a' <= c <= 'f' then 10 + (c - 'a') as nat
    else 0
  }

  function HexDigit(v: nat): char
    requires v < 16
  {
    if v < 10 then '0' + v as char else 'A' + (v - 10) as char
  }

  function Hex(data: Bytes): string {
    if data == [] then []
    else [HexDigit(data[0] as nat / 16 % 16), HexDigit(data[0] as nat % 16)] + Hex(data[1..])
  }

  predicate IsHexText(s: string) {
    |s| >= 2 && |s| % 2 == 0 && forall k :: 0 <= k < |s| ==> IsHex(s[k])
  }

  function Pairs(s: string): Bytes
    requires |s| % 2 == 0
    ensures |Pairs(s)| == |s| / 2
  {
    if s == [] then [] else [(16 * HexValue(s[0]) + HexValue(s[1])) as char] + Pairs(s[2..])
  }

  lemma {:induction false} PairsAt(s: string, k: nat)
    requires |s| % 2 == 0 && k < |s| / 2
    ensures Pairs(s)[k] as int == 16 * HexValue(s[2 * k]) + HexValue(s[2 * k + 1])
  {
    if k > 0 {
      PairsAt(s[2..], k - 1);
    }
  }

  lemma HexOne(v: nat)
    requires v < 16
    ensures IsHex(HexDigit(v)) && HexValue(HexDigit(v)) == v
  {
  }

  lemma HexPair(n: nat)
    requires n < 256
    ensures IsHex(HexDigit(n / 16 % 16)) && IsHex(HexDigit(n % 16))
    ensures 16 * HexValue(HexDigit(n / 16 % 16)) + HexValue(HexDigit(n % 16)) == n
  {
    HexOne(n / 16 % 16);
    HexOne(n % 16);
  }

  /** Data printed in hexadecimal is read back. */
  lemma {:induction false} HexRoundTrip(data: Bytes)
    requires forall k :: 0 <= k < |data| ==> data[k] as int < 256
    ensures |Hex(data)| == 2 * |data| && forall k :: 0 <= k < |Hex(data)| ==> IsHex(Hex(data)[k])
    ensures Pairs(Hex(data)) == data
  {
    if data != [] {
      HexRoundTrip(data[1..]);
      HexPair(data[0] as nat);
      assert Hex(data)[2..] == Hex(data[1..]);
    }
  }

  /** What the first characters add to a byte. */
  function Partial(s: string, index: nat, k: nat): nat
    requires 2 * k + 1 < |s|
  {
    (if 2 * k < index then 16 * HexValue(s[2 * k]) else 0) + (if 2 * k + 1 < index then HexValue(s[2 * k + 1]) else 0)
  }

  ghost predicate PartOf(bytes: seq<int>, s: string, index: nat) {
    2 * |bytes| == |s| && forall k :: 0 <= k < |bytes| ==> bytes[k] == Partial(s, index, k)
  }

  lemma PartStep(bytes: seq<int>, s: string, index: nat)
    requires PartOf(bytes, s, index) && index < |s|
    ensures var weight := if (index + 1) % 2 == 1 then 16 else 1;
            PartOf(bytes[index / 2 := bytes[index / 2] + HexValue(s[index]) * weight], s, index + 1)
  {
    var half := index / 2;
    assert index == 2 * half || index == 2 * half + 1;
  }

  lemma AllPairs(s: string, bytes: seq<int>, all: Bytes)
    requires PartOf(bytes, s, |s|) && |all| == |bytes|
    requires forall k :: 0 <= k < |all| ==> all[k] == (bytes[k] % 256) as char
    ensures all == Pairs(s)
  {
    forall k | 0 <= k < |all|
      ensures all[k] == Pairs(s)[k]
    {
      PairsAt(s, k);
      assert bytes[k] == Partial(s, |s|, k);
    }
  }

  method StringToBytes(s: string) returns (data: Option<Bytes>)
    ensures data.Some? <==> IsHexText(s)
    ensures data.Some? ==> data.value == Pairs(s)
  {
    if |s| < 2 || |s| % 2 != 0 {
      return None;
    }
    var bytes := new int[|s| / 2](_ => 0);
    var index := 0;
    while index < |s|
      invariant 0 <= index <= |s|
      invariant forall k :: 0 <= k < index ==> IsHex(s[k])
      invariant PartOf(bytes[..], s, index)
    {
      var c := s[index];
      if !IsHex(c) {
        return None;
      }
      PartStep(bytes[..], s, index);
      var weight := if (index + 1) % 2 == 1 then 16 else 1;
      bytes[index / 2] := bytes[index / 2] + HexValue(c) * weight;
      index := index + 1;
    }
    var all := seq(bytes.Length, k requires 0 <= k < bytes.Length reads bytes => (bytes[k] % 256) as char);
    AllPairs(s, bytes[..], all);
    return Some(all);
  }

  // ------------------------------------------------------------ what is stored

  /** What `value` and `size` of a caller must lead to, given what the source reads there. */
  ghost predicate Readable(t: ValueType, mem: Bytes, size: nat) {
    && (t.IntegerT? ==> INT_SIZE <= |mem|)
    && (t.DoubleT? ==> DOUBLE_SIZE <= |mem|)
    && (t.BoolT? ==> BOOL_SIZE <= |mem|)
    && (t.StringT? ==> NUL in mem)
    && (t.DataT? ==> size <= |mem|)
  }

  /** What the check of a constraint reads besides: four bytes of a bool, and a number where there is none. */
  ghost predicate CheckReadable(c: IoConstraint, t: ValueType, mem: Bytes, size: nat) {
    match c
    case OnInt(_) => t.BoolT? || t.ImpulsionT? || t.UnknownT? ==> INT_SIZE <= |mem|
    case OnDouble(_, _) =>
      && (t.BoolT? ==> INT_SIZE <= |mem|)
      && (t.ImpulsionT? || t.UnknownT? ==> DOUBLE_SIZE <= |mem|)
    case OnText(_) => t.BoolT? || (t.DataT? && 0 < size <= |mem| && mem[size - 1] == NUL) ==> INT_SIZE <= |mem|
  }

  function Empty(target: ValueType, libc: Libc): Value {
    match target
    case IntegerT => IntV(0)
    case DoubleT => DoubleV(libc.zero)
    case BoolT => BoolV(false)
    case StringT => StringV([])
    case ImpulsionT => ImpulsionV
    case DataT => DataV([])
    case UnknownT => UnknownV
  }

  function FromInt(target: ValueType, n: Int32, mem: Bytes, libc: Libc): Value {
    match target
    case IntegerT => IntV(n)
    case DoubleT => DoubleV(libc.fromInt(n))
    case BoolT => BoolV(n != 0)
    case StringT => StringV(Owned(PrintedInt(n)))
    case ImpulsionT => ImpulsionV
    case DataT => DataV(mem)
    case UnknownT => UnknownV
  }

  function FromDouble(target: ValueType, d: Double, libc: Libc): Value {
    match target
    case IntegerT => IntV(libc.toInt(d))
    case DoubleT => DoubleV(d)
    case BoolT => BoolV(!libc.isZero(d))
    case StringT => StringV(Owned(Printed(libc.printDouble(d))))
    case ImpulsionT => ImpulsionV
    case DataT => DataV(d)
    case UnknownT => UnknownV
  }

  function BoolOfText(s: string, libc: Libc): bool {
    s !in ["false", "False", "FALSE"] && (s in ["true", "True", "TRUE"] || libc.atoi(s) != 0)
  }

  function FromString(target: ValueType, s: string, libc: Libc): Value {
    match target
    case IntegerT => IntV(libc.atoi(s))
    case DoubleT => DoubleV(libc.atof(s))
    case BoolT => BoolV(BoolOfText(s, libc))
    case StringT => StringV(Owned(s))
    case ImpulsionT => ImpulsionV
    case DataT => DataV(if IsHexText(s) then Pairs(s) else Owned(s))
    case UnknownT => UnknownV
  }

  function FromData(target: ValueType, data: Bytes): Option<Value>
    requires data != []
  {
    match target
    case IntegerT => if |data| == INT_SIZE then Some(IntV(IntAt(data))) else None
    case DoubleT => if |data| == DOUBLE_SIZE then Some(DoubleV(DoubleAt(data))) else None
    case BoolT => if |data| == BOOL_SIZE then Some(BoolV(data[0] != NUL)) else None
    case StringT => if data[|data| - 1] == NUL then Some(StringV(data)) else None
    case ImpulsionT => Some(ImpulsionV)
    case DataT => Some(DataV(data))
    case UnknownT => None
  }

  /** The value after a write that no constraint stops; None when the write fails. */
  function Converted(was: Value, t: ValueType, mem: Option<Bytes>, size: nat, libc: Libc): Option<Value>
    requires mem.Some? && size > 0 ==> Readable(t, mem.value, size)
  {
    var target := TypeOf(was);
    if mem.None? || size == 0 then
      if target.UnknownT? then None else Some(Empty(target, libc))
    else if t.UnknownT? then Some(was)
    else if t.DataT? then FromData(target, mem.value[..size])
    else if target.UnknownT? then None
    else if t.IntegerT? then Some(FromInt(target, IntAt(mem.value), mem.value[..INT_SIZE], libc))
    else if t.DoubleT? then Some(FromDouble(target, DoubleAt(mem.value), libc))
    else if t.BoolT? then Some(FromBool(target, mem.value[0], libc))
    else if t.StringT? then Some(FromString(target, CString(mem.value), libc))
    else Some(Empty(target, libc))
  }

  function FromBool(target: ValueType, c: char, libc: Libc): Value {
    var n := if c != NUL then 1 else 0;
    match target
    case BoolT => BoolV(c != NUL)
    case DataT => DataV([c])
    case _ => FromInt(target, n, [], libc)
  }

  // ------------------------------------------------------------ what the constraint checks

  predicate WithinInt(c: Constraint, n: int) {
    match c
    case Min(min) => n >= min
    case Max(max) => n <= max
    case Range(low, high) => low <= n <= high
  }

  predicate WithinDouble(low: Option<Double>, high: Option<Double>, d: Double, libc: Libc) {
    !(low.Some? && libc.less(d, low.value)) && !(high.Some? && libc.less(high.value, d))
  }

  /** A stored value meets a constraint. NULL is no text. */
  predicate Meets(c: IoConstraint, v: Value, libc: Libc) {
    match c
    case OnInt(bounds) => v.IntV? && WithinInt(bounds, v.i)
    case OnDouble(low, high) => v.DoubleV? && WithinDouble(low, high, v.d, libc)
    case OnText(matches) => v.StringV? && v.mem != [] && matches(CString(v.mem))
  }

  predicate Fits(c: IoConstraint, target: ValueType) {
    match c
    case OnInt(_) => target.IntegerT?
    case OnDouble(_, _) => target.DoubleT?
    case OnText(_) => target.StringT?
  }

  /** The number that the check of an integer constraint looks at. */
  function CheckedInt(t: ValueType, mem: Option<Bytes>, size: nat, libc: Libc): Option<int>
    requires mem.Some? && size > 0 ==> Readable(t, mem.value, size)
    requires mem.Some? && size > 0 && (t.BoolT? || t.ImpulsionT? || t.UnknownT?) ==> INT_SIZE <= |mem.value|
  {
    if mem.None? || size == 0 then Some(0)
    else
      match t
      case StringT => Some(libc.atoi(CString(mem.value)))
      case DataT => if size == INT_SIZE then Some(IntAt(mem.value)) else None
      case DoubleT => Some(libc.toInt(DoubleAt(mem.value)))
      case _ => Some(IntAt(mem.value))
  }

  function CheckedDouble(t: ValueType, mem: Option<Bytes>, size: nat, libc: Libc): Option<Double>
    requires mem.Some? && size > 0 ==> Readable(t, mem.value, size)
    requires mem.Some? && size > 0 && t.BoolT? ==> INT_SIZE <= |mem.value|
    requires mem.Some? && size > 0 && (t.ImpulsionT? || t.UnknownT?) ==> DOUBLE_SIZE <= |mem.value|
  {
    if mem.None? || size == 0 then Some(libc.zero)
    else
      match t
      case StringT => Some(libc.atof(CString(mem.value)))
      case DataT => if size == DOUBLE_SIZE then Some(DoubleAt(mem.value)) else None
      case IntegerT => Some(libc.fromInt(IntAt(mem.value)))
      case BoolT => Some(libc.fromInt(IntAt(mem.value)))
      case _ => Some(DoubleAt(mem.value))
  }

  /** Data goes on to the case of integers: the text is that of its first four bytes. */
  function CheckedText(t: ValueType, mem: Option<Bytes>, size: nat, libc: Libc): Option<string>
    requires mem.Some? && size > 0 ==> Readable(t, mem.value, size)
    requires mem.Some? && size > 0 ==>
      t.BoolT? || (t.DataT? && mem.value[size - 1] == NUL) ==> INT_SIZE <= |mem.value|
  {
    if mem.None? || size == 0 then None
    else
      match t
      case StringT => Some(CString(mem.value))
      case DataT => if mem.value[size - 1] == NUL then Some(PrintedInt(IntAt(mem.value))) else None
      case IntegerT => Some(PrintedInt(IntAt(mem.value)))
      case BoolT => Some(PrintedInt(IntAt(mem.value)))
      case DoubleT => Some(Printed(libc.printDouble(DoubleAt(mem.value))))
      case _ => Some("")
  }

  predicate Allowed(c: IoConstraint, t: ValueType, mem: Option<Bytes>, size: nat, libc: Libc)
    requires mem.Some? && size > 0 ==> Readable(t, mem.value, size) && CheckReadable(c, t, mem.value, size)
  {
    match c
    case OnInt(bounds) =>
      var n := CheckedInt(t, mem, size, libc);
      n.Some? && WithinInt(bounds, n.value)
    case OnDouble(low, high) =>
      var d := CheckedDouble(t, mem, size, libc);
      d.Some? && WithinDouble(low, high, d.value, libc)
    case OnText(matches) =>
      var s := CheckedText(t, mem, size, libc);
      s.Some? && matches(s.value)
  }

  // ------------------------------------------------------------ what is stored, by source and target type

  /** NULL, or a value of no size. */
  lemma NothingWritten(was: Value, t: ValueType, mem: Option<Bytes>, size: nat, libc: Libc)
    requires mem.None? || size == 0
    ensures var now := Converted(was, t, mem, size, libc);
            match TypeOf(was)
            case IntegerT => now == Some(IntV(0))
            case DoubleT => now == Some(DoubleV(libc.zero))
            case BoolT => now == Some(BoolV(false))
            case StringT => now == Some(StringV([]))
            case ImpulsionT => now == Some(ImpulsionV)
            case DataT => now == Some(DataV([]))
            case UnknownT => now == None
  {
  }

  /** The decimal text of a number is short enough for the buffer, and can be read back. */
  lemma PrintedIntRead(n: int)
    requires IsInt32(n)
    ensures PrintedInt(n) == PrintInt(n) && Atoi(PrintedInt(n)) == n
  {
    AtoiPrintInt(n);
    FewDigits(if n < 0 then -n else n);
  }

  function PowerOfTen(k: nat): nat {
    if k == 0 then 1 else 10 * PowerOfTen(k - 1)
  }

  /** A number below a power of ten has no more digits than that power has zeros. */
  lemma {:induction false} ShortNat(n: nat, digits: nat)
    requires digits > 0 && n < PowerOfTen(digits)
    ensures |PrintNat(n)| <= digits
  {
    if n >= 10 {
      assert PowerOfTen(0) == 1;
      ShortNat(n / 10, digits - 1);
    }
  }

  lemma FewDigits(n: nat)
    requires n <= 0x8000_0000
    ensures |PrintNat(n)| <= 10
  {
    assert PowerOfTen(3) == 1000 && PowerOfTen(6) == 1000_000;
    assert PowerOfTen(9) == 1000_000_000 && PowerOfTen(10) == 10_000_000_000;
    ShortNat(n, 10);
  }

  lemma IntegerWritten(was: Value, mem: Bytes, size: nat, libc: Libc)
    requires INT_SIZE <= |mem| && size > 0
    ensures var now, n := Converted(was, IntegerT, Some(mem), size, libc), IntAt(mem);
            match TypeOf(was)
            case IntegerT => now == Some(IntV(n))
            case DoubleT => now == Some(DoubleV(libc.fromInt(n)))
            case BoolT => now.Some? && now.value.BoolV? && (now.value.b <==> n != 0)
            case StringT => now.Some? && now.value == StringV(PrintInt(n) + [0 as char])
            case ImpulsionT => now == Some(ImpulsionV)
            case DataT => now == Some(DataV(mem[..4])) && ReadInt(mem[..4]) == n
            case UnknownT => now == None
  {
    PrintedIntRead(IntAt(mem));
  }

  lemma DoubleWritten(was: Value, mem: Bytes, size: nat, libc: Libc)
    requires DOUBLE_SIZE <= |mem| && size > 0
    ensures var now, d := Converted(was, DoubleT, Some(mem), size, libc), DoubleAt(mem);
            match TypeOf(was)
            case IntegerT => now == Some(IntV(libc.toInt(d)))
            case DoubleT => now == Some(DoubleV(d))
            case BoolT => now.Some? && now.value.BoolV? && (now.value.b <==> !libc.isZero(d))
            case StringT =>
              var text := libc.printDouble(d);
              now.Some? && now.value == StringV((if |text| <= 255 then text else text[..255]) + [0 as char])
            case ImpulsionT => now == Some(ImpulsionV)
            case DataT => now == Some(DataV(mem[..8])) && d == mem[..8]
            case UnknownT => now == None
  {
  }

  lemma BoolWritten(was: Value, mem: Bytes, size: nat, libc: Libc)
    requires BOOL_SIZE <= |mem| && size > 0
    ensures var now, b := Converted(was, BoolT, Some(mem), size, libc), mem[0] != 0 as char;
            match TypeOf(was)
            case IntegerT => now == Some(IntV(if b then 1 else 0))
            case DoubleT => now == Some(DoubleV(libc.fromInt(if b then 1 else 0)))
            case BoolT => now == Some(BoolV(b))
            case StringT => now == Some(StringV([if b then '1' else '0', 0 as char]))
            case ImpulsionT => now == Some(ImpulsionV)
            case DataT => now == Some(DataV(mem[..1]))
            case UnknownT => now == None
  {
    PrintedIntRead(0);
    PrintedIntRead(1);
    assert Owned(PrintInt(0)) == ['0', 0 as char] && Owned(PrintInt(1)) == ['1', 0 as char];
    assert mem[..1] == [mem[0]];
  }

  /** Of the texts for bools all but those with zero as their number are true, and three are false by name. */
  lemma TextAsBool(s: string, libc: Libc)
    ensures s == "true" || s == "True" || s == "TRUE" ==> BoolOfText(s, libc)
    ensures s == "false" || s == "False" || s == "FALSE" ==> !BoolOfText(s, libc)
    ensures s !in ["true", "True", "TRUE", "false", "False", "FALSE"] ==> (BoolOfText(s, libc) <==> libc.atoi(s) != 0)
  {
    assert |"true"| == |"True"| == |"TRUE"| == 4 && |"false"| == |"False"| == |"FALSE"| == 5;
  }

  lemma StringWritten(was: Value, mem: Bytes, size: nat, libc: Libc)
    requires NUL in mem && size > 0
    ensures var now, s := Converted(was, StringT, Some(mem), size, libc), CString(mem);
            match TypeOf(was)
            case IntegerT => now == Some(IntV(libc.atoi(s)))
            case DoubleT => now == Some(DoubleV(libc.atof(s)))
            case BoolT =>
              && now.Some? && now.value.BoolV?
              && (s == "true" || s == "True" || s == "TRUE" ==> now.value.b)
              && (s == "false" || s == "False" || s == "FALSE" ==> !now.value.b)
              && (s !in ["true", "True", "TRUE", "false", "False", "FALSE"] ==> (now.value.b <==> libc.atoi(s) != 0))
            case StringT => now == Some(StringV(s + [0 as char]))
            case ImpulsionT => now == Some(ImpulsionV)
            case DataT => now.Some? && now.value.DataV? && DataOfText(s, now.value.data)
            case UnknownT => now == None
  {
    TextAsBool(CString(mem), libc);
    TextAsData(CString(mem));
  }

  /** The value of one hexadecimal digit. */
  ghost predicate IsNibble(c: char, v: int) {
    || ('0' <= c <= '9' && v == c as int - '0' as int)
    || ('a' <= c <= 'f' && v == c as int - 'a' as int + 10)
    || ('A' <= c <= 'F' && v == c as int - 'A' as int + 10)
  }

  ghost predicate HasNibble(c: char) {
    exists v :: IsNibble(c, v)
  }

  /** The byte of two hexadecimal digits. */
  ghost predicate IsByte(high: char, low: char, b: char) {
    IsNibble(high, b as int / 16) && IsNibble(low, b as int % 16)
  }

  /** Bytes are written as pairs of hexadecimal digits; any other text is taken with its NUL. */
  ghost predicate DataOfText(s: string, data: Bytes) {
    if |s| >= 2 && |s| % 2 == 0 && forall k :: 0 <= k < |s| ==> HasNibble(s[k])
    then 2 * |data| == |s| && forall k :: 0 <= k < |data| ==> IsByte(s[2 * k], s[2 * k + 1], data[k])
    else data == s + [0 as char]
  }

  lemma Nibbles(c: char)
    ensures IsHex(c) <==> HasNibble(c)
    ensures IsHex(c) ==> IsNibble(c, HexValue(c))
  {
    if IsHex(c) {
      assert IsNibble(c, HexValue(c));
    }
  }

  lemma PairIsByte(s: string, k: nat)
    requires IsHexText(s) && k < |s| / 2
    ensures IsByte(s[2 * k], s[2 * k + 1], Pairs(s)[k])
  {
    PairsAt(s, k);
    Nibbles(s[2 * k]);
    Nibbles(s[2 * k + 1]);
    var b := Pairs(s)[k] as int;
    assert b / 16 == HexValue(s[2 * k]) && b % 16 == HexValue(s[2 * k + 1]);
  }

  lemma TextAsData(s: string)
    ensures DataOfText(s, if IsHexText(s) then Pairs(s) else Owned(s))
  {
    forall k | 0 <= k < |s|
      ensures IsHex(s[k]) <==> HasNibble(s[k])
    {
      Nibbles(s[k]);
    }
    if IsHexText(s) {
      forall k | 0 <= k < |s| / 2
        ensures IsByte(s[2 * k], s[2 * k + 1], Pairs(s)[k])
      {
        PairIsByte(s, k);
      }
    }
  }

  /** Data is taken as it is where its size fits, and is refused otherwise. */
  lemma DataWritten(was: Value, mem: Bytes, size: nat, libc: Libc)
    requires 0 < size <= |mem|
    ensures var now, data := Converted(was, DataT, Some(mem), size, libc), mem[..size];
            match TypeOf(was)
            case IntegerT => now == if size == 4 then Some(IntV(IntAt(data))) else None
            case DoubleT => now == if size == 8 then Some(DoubleV(data)) else None
            case BoolT => now == if size == 1 then Some(BoolV(mem[0] != 0 as char)) else None
            case StringT => now == if mem[size - 1] == 0 as char then Some(StringV(data)) else None
            case ImpulsionT => now == Some(ImpulsionV)
            case DataT => now == Some(DataV(data))
            case UnknownT => now == None
  {
    if size == INT_SIZE {
      assert mem[..size][..INT_SIZE] == mem[..size];
    }
    if size == DOUBLE_SIZE {
      assert mem[..size][..DOUBLE_SIZE] == mem[..size];
    }
  }

  /** An impulsion resets the value; a value of unknown type changes nothing. */
  lemma OthersWritten(was: Value, mem: Bytes, size: nat, libc: Libc)
    requires size > 0
    ensures Converted(was, UnknownT, Some(mem), size, libc) == Some(was)
    ensures Converted(was, ImpulsionT, Some(mem), size, libc) ==
            if was.UnknownV? then None else Converted(was, ImpulsionT, None, 0, libc)
  {
  }

  // ------------------------------------------------------------ what the checks allow, by source type

  /** The bounds are part of what an integer constraint allows. */
  ghost predicate InBounds(c: Constraint, n: int) {
    match c
    case Min(min) => min <= n
    case Max(max) => n <= max
    case Range(low, high) => low <= n && n <= high
  }

  lemma IntegerAllowedIff(c: Constraint, t: ValueType, mem: Bytes, size: nat, libc: Libc)
    requires size > 0 && Readable(t, mem, size) && CheckReadable(OnInt(c), t, mem, size)
    ensures
      Allowed(OnInt(c), t, Some(mem), size, libc) <==>
      match t
      case IntegerT => InBounds(c, IntAt(mem))
      case DoubleT => InBounds(c, libc.toInt(DoubleAt(mem)))
      case StringT => InBounds(c, libc.atoi(CString(mem)))
      case DataT => size == 4 && InBounds(c, IntAt(mem))
      case BoolT => InBounds(c, IntAt(mem))
      case ImpulsionT => InBounds(c, IntAt(mem))
      case UnknownT => InBounds(c, IntAt(mem))
    ensures Allowed(OnInt(c), t, None, size, libc) <==> InBounds(c, 0)
    ensures forall n: Int32 :: Meets(OnInt(c), IntV(n), libc) <==> InBounds(c, n)
  {
  }

  /** An integer that is written is stored exactly when it is within the bounds. */
  lemma IntegerStoredIff(c: Constraint, was: Int32, n: Int32, libc: Libc)
    ensures IntAt(Int32Bytes(n)) == n
    ensures Outcome(IntV(was), Some(OnInt(c)), true, IntegerT, Some(Int32Bytes(n)), INT_SIZE, libc) ==
            match c
            case Min(min) => if min <= n then IntV(n) else IntV(was)
            case Max(max) => if n <= max then IntV(n) else IntV(was)
            case Range(low, high) => if low <= n <= high then IntV(n) else IntV(was)
  {
    Int32RoundTrip(n);
    assert Int32Bytes(n)[..INT_SIZE] == Int32Bytes(n);
  }

  /** Neither below the lower bound nor above the upper one, if there are such bounds. */
  ghost predicate NotOutside(low: Option<Double>, high: Option<Double>, d: Double, libc: Libc) {
    (low.Some? ==> !libc.less(d, low.value)) && (high.Some? ==> !libc.less(high.value, d))
  }

  lemma DoubleAllowedIff(low: Option<Double>, high: Option<Double>, t: ValueType, mem: Bytes, size: nat, libc: Libc)
    requires size > 0 && Readable(t, mem, size) && CheckReadable(OnDouble(low, high), t, mem, size)
    ensures
      Allowed(OnDouble(low, high), t, Some(mem), size, libc) <==>
      match t
      case DoubleT => NotOutside(low, high, DoubleAt(mem), libc)
      case IntegerT => NotOutside(low, high, libc.fromInt(IntAt(mem)), libc)
      case StringT => NotOutside(low, high, libc.atof(CString(mem)), libc)
      case DataT => size == 8 && NotOutside(low, high, DoubleAt(mem), libc)
      case BoolT => NotOutside(low, high, libc.fromInt(IntAt(mem)), libc)
      case ImpulsionT => NotOutside(low, high, DoubleAt(mem), libc)
      case UnknownT => NotOutside(low, high, DoubleAt(mem), libc)
    ensures Allowed(OnDouble(low, high), t, None, size, libc) <==> NotOutside(low, high, libc.zero, libc)
    ensures forall d: Double :: Meets(OnDouble(low, high), DoubleV(d), libc) <==> NotOutside(low, high, d, libc)
  {
  }

  lemma TextAllowedIff(matches: string -> bool, t: ValueType, mem: Bytes, size: nat, libc: Libc)
    requires size > 0 && Readable(t, mem, size) && CheckReadable(OnText(matches), t, mem, size)
    ensures
      Allowed(OnText(matches), t, Some(mem), size, libc) <==>
      match t
      case StringT => matches(CString(mem))
      case IntegerT => matches(PrintInt(IntAt(mem)))
      case BoolT => matches(PrintInt(IntAt(mem)))
      case DataT => mem[size - 1] == 0 as char && matches(PrintInt(IntAt(mem)))
      case DoubleT =>
        var text := libc.printDouble(DoubleAt(mem));
        matches(if |text| <= 255 then text else text[..255])
      case ImpulsionT => matches("")
      case UnknownT => matches("")
    ensures !Allowed(OnText(matches), t, None, size, libc)
  {
    if INT_SIZE <= |mem| {
      PrintedIntRead(IntAt(mem));
    }
  }

  lemma TextMeetsIff(matches: string -> bool, s: string, libc: Libc)
    requires NUL !in s
    ensures Meets(OnText(matches), StringV(s + [0 as char]), libc) <==> matches(s)
    ensures !Meets(OnText(matches), StringV([]), libc)
  {
    CStringOf(s, [NUL]);
  }

  // ------------------------------------------------------------ what every write keeps

  /** A string's size is its length and the NUL. */
  predicate WellSized(v: Value) {
    v.StringV? && v.mem != [] ==> |v.mem| == |CString(v.mem)| + 1
  }

  lemma OwnedText(s: string)
    requires NUL !in s
    ensures CString(Owned(s)) == s && WellSized(StringV(Owned(s))) && Terminated(StringV(Owned(s)))
  {
    CStringOf(s, [NUL]);
  }

  /** A write keeps the type of the io, and a string that is not NULL stays terminated. */
  lemma ConvertedKeeps(was: Value, t: ValueType, mem: Option<Bytes>, size: nat, libc: Libc)
    requires mem.Some? && size > 0 ==> Readable(t, mem.value, size)
    requires Converted(was, t, mem, size, libc).Some?
    ensures TypeOf(Converted(was, t, mem, size, libc).value) == TypeOf(was)
    ensures Terminated(was) ==> Terminated(Converted(was, t, mem, size, libc).value)
  {
  }

  /** Data with a NUL before its end makes a string whose size is not that of its text; nothing else does. */
  lemma SizeIsThatOfTheTextIff(was: Value, t: ValueType, mem: Option<Bytes>, size: nat, libc: Libc)
    requires mem.Some? && size > 0 ==> Readable(t, mem.value, size)
    requires Converted(was, t, mem, size, libc).Some? && WellSized(was)
    ensures WellSized(Converted(was, t, mem, size, libc).value) <==>
            !(TypeOf(was).StringT? && t.DataT? && mem.Some? && size > 0 && NUL in mem.value[..size - 1])
  {
    if mem.Some? && size > 0 && TypeOf(was).StringT? {
      match t
      case IntegerT => OwnedText(PrintedInt(IntAt(mem.value)));
      case DoubleT => OwnedText(Printed(libc.printDouble(DoubleAt(mem.value))));
      case BoolT => OwnedText(PrintedInt(if mem.value[0] != NUL then 1 else 0));
      case StringT => OwnedText(CString(mem.value));
      case DataT => InteriorNul(mem.value[..size]);
      case _ =>
    }
  }

  lemma InteriorNul(data: Bytes)
    requires data != [] && data[|data| - 1] == NUL
    ensures |data| == |CString(data)| + 1 <==> NUL !in data[..|data| - 1]
  {
    var n := |CString(data)|;
    if n < |data| - 1 {
      assert data[..|data| - 1][n] == NUL;
    } else {
      assert CString(data) == data[..n];
    }
  }

  /** Whether the value that is stored meets the constraint, told from the source value and the old one. */
  predicate StaysWithin(c: IoConstraint, was: Value, t: ValueType, mem: Option<Bytes>, size: nat, libc: Libc)
    requires mem.Some? && size > 0 ==> Readable(t, mem.value, size)
  {
    if mem.None? || size == 0 then true
    else
      match t
      case BoolT =>
        var n: Int32 := if mem.value[0] != NUL then 1 else 0;
        (match c
        case OnInt(bounds) => WithinInt(bounds, n)
        case OnDouble(low, high) => WithinDouble(low, high, libc.fromInt(n), libc)
        case OnText(matches) => matches(PrintedInt(n)))
      case ImpulsionT =>
        (match c
        case OnInt(bounds) => WithinInt(bounds, 0)
        case OnDouble(low, high) => WithinDouble(low, high, libc.zero, libc)
        case OnText(_) => false)
      case DataT => c.OnText? ==> c.matches(CString(mem.value[..size]))
      case UnknownT => Meets(c, was, libc)
      case _ => true
  }

  lemma PrefixNumbers(mem: Bytes, size: nat)
    requires size <= |mem|
    ensures INT_SIZE <= size ==> IntAt(mem[..size]) == IntAt(mem)
    ensures DOUBLE_SIZE <= size ==> DoubleAt(mem[..size]) == DoubleAt(mem)
  {
    assert INT_SIZE <= size ==> mem[..size][..INT_SIZE] == mem[..INT_SIZE];
    assert DOUBLE_SIZE <= size ==> mem[..size][..DOUBLE_SIZE] == mem[..DOUBLE_SIZE];
  }

  /**
   * A write that the constraint allows stores a value that meets it, from integers, doubles,
   * strings, NULL and, for numbers, data; from the other sources exactly when that happens to be so.
   */
  lemma EnforcedIff(c: IoConstraint, was: Value, t: ValueType, mem: Option<Bytes>, size: nat, libc: Libc)
    requires Fits(c, TypeOf(was))
    requires mem.Some? && size > 0 ==> Readable(t, mem.value, size) && CheckReadable(c, t, mem.value, size)
    requires Allowed(c, t, mem, size, libc) && Converted(was, t, mem, size, libc).Some?
    ensures Meets(c, Converted(was, t, mem, size, libc).value, libc) <==> StaysWithin(c, was, t, mem, size, libc)
  {
    if mem.Some? && size > 0 && t.DataT? {
      PrefixNumbers(mem.value, size);
    } else if mem.Some? && size > 0 && c.OnText? {
      match t
      case IntegerT => OwnedText(PrintedInt(IntAt(mem.value)));
      case DoubleT => OwnedText(Printed(libc.printDouble(DoubleAt(mem.value))));
      case BoolT => OwnedText(PrintedInt(if mem.value[0] != NUL then 1 else 0));
      case StringT => OwnedText(CString(mem.value));
      case _ =>
    }
  }

  /** An impulsion with a value: the check sees 7 and the io gets 0. */
  lemma ImpulsionBreaksConstraint(libc: Libc)
    ensures var mem, c := Some(Int32Bytes(7)), OnInt(Min(5));
            && Allowed(c, ImpulsionT, mem, INT_SIZE, libc)
            && Converted(IntV(6), ImpulsionT, mem, INT_SIZE, libc) == Some(IntV(0))
            && !Meets(c, IntV(0), libc)
  {
    Int32RoundTrip(7);
    assert Int32Bytes(7)[..INT_SIZE] == Int32Bytes(7);
  }

  /**
   * A text given as data is checked as the number of its first four bytes and stored as a text:
   * unless the text is that number, some constraint allows it and is broken by it.
   */
  lemma DataBreaksTextConstraint(s: string, libc: Libc)
    requires NUL !in s && |s| >= 3
    ensures var mem, c := Some(Owned(s)), OnText((x: string) => x == PrintedInt(IntAt(Owned(s))));
            && Allowed(c, DataT, mem, |s| + 1, libc)
            && Converted(StringV([]), DataT, mem, |s| + 1, libc) == Some(StringV(Owned(s)))
            && (Meets(c, StringV(Owned(s)), libc) <==> s == PrintedInt(IntAt(Owned(s))))
  {
    var mem := Owned(s);
    assert mem[..|s| + 1] == mem;
    OwnedText(s);
  }

  /** Such a text: "abc". */
  lemma AbcBreaksTextConstraint(libc: Libc)
    ensures var mem, c := Some(Owned("abc")), OnText((x: string) => x == PrintedInt(IntAt(Owned("abc"))));
            && Allowed(c, DataT, mem, 4, libc)
            && Converted(StringV([]), DataT, mem, 4, libc) == Some(StringV(Owned("abc")))
            && !Meets(c, StringV(Owned("abc")), libc)
  {
    DataBreaksTextConstraint("abc", libc);
    AbcIsNoNumber(IntAt(Owned("abc")));
  }

  lemma AbcIsNoNumber(i: int)
    ensures PrintedInt(i) != "abc"
  {
    PrintNatDigits(if i < 0 then -i else i);
    var s := PrintInt(i);
    assert s[0] == '-' || IsDigit(s[0]);
    assert PrintedInt(i)[0] == s[0];
  }

  /**
   * A bool is one byte, but the check of a constraint reads four from where it lies: the same
   * bool is allowed or not by what happens to be behind it.
   */
  lemma BoolCheckReadsOn(libc: Libc)
    ensures var c, zeros, ones := OnInt(Max(1)), Some(Int32Bytes(1)), Some(Int32Bytes(257));
            && zeros.value[0] == ones.value[0]
            && Allowed(c, BoolT, zeros, BOOL_SIZE, libc) && !Allowed(c, BoolT, ones, BOOL_SIZE, libc)
            && Converted(IntV(0), BoolT, zeros, BOOL_SIZE, libc) == Converted(IntV(0), BoolT, ones, BOOL_SIZE, libc)
  {
    Spans();
    Int32RoundTrip(1);
    Int32RoundTrip(257);
    assert Int32Bytes(1)[..INT_SIZE] == Int32Bytes(1) && Int32Bytes(257)[..INT_SIZE] == Int32Bytes(257);
  }

  // ------------------------------------------------------------ a value written with its own type

  /** The bytes of a value, as they are sent. */
  function MemoryOf(v: Value): (mem: Bytes)
    ensures |mem| == SizeOf(v)
  {
    match v
    case IntV(i) => Int32Bytes(i)
    case DoubleV(d) => d
    case StringV(mem) => mem
    case BoolV(b) => [if b then 1 as char else NUL]
    case ImpulsionV => []
    case DataV(data) => data
    case UnknownV => []
  }

  lemma MemoryReadable(v: Value)
    requires Terminated(v) && SizeOf(v) > 0
    ensures Readable(TypeOf(v), MemoryOf(v), SizeOf(v))
  {
  }

  /** What strdup makes of a string: a NUL inside ends it. Other values are copied as they are. */
  function Duplicate(v: Value): Value {
    if v.StringV? && v.mem != [] then StringV(Owned(CString(v.mem))) else v
  }

  lemma DuplicateSameIff(v: Value)
    requires Terminated(v)
    ensures Duplicate(v) == v <==> WellSized(v)
  {
    if v.StringV? && v.mem != [] && WellSized(v) {
      assert v.mem == Owned(CString(v.mem));
    }
  }

  /** An io that is given the bytes of a value of its type ends equal to it, up to a NUL inside. */
  lemma SameTypeCopies(was: Value, v: Value, libc: Libc)
    requires TypeOf(was) == TypeOf(v) && !v.UnknownV? && Terminated(v)
    ensures SizeOf(v) > 0 ==> Readable(TypeOf(v), MemoryOf(v), SizeOf(v))
    ensures Converted(was, TypeOf(v), Some(MemoryOf(v)), SizeOf(v), libc) == Some(Duplicate(v))
  {
    if SizeOf(v) > 0 {
      MemoryReadable(v);
    }
    var mem := MemoryOf(v);
    assert mem[..|mem|] == mem;
    match v
    case IntV(i) => Int32RoundTrip(i);
    case _ =>
  }

  /** The value after a call of model_write. */
  function Outcome(was: Value, c: Option<IoConstraint>, enforce: bool, t: ValueType, mem: Option<Bytes>, size: nat,
                   libc: Libc): Value
    requires mem.Some? && size > 0 ==> Readable(t, mem.value, size)
    requires mem.Some? && size > 0 && enforce && c.Some? ==> CheckReadable(c.value, t, mem.value, size)
  {
    if enforce && c.Some? && !Allowed(c.value, t, mem, size, libc) then was
    else
      match Converted(was, t, mem, size, libc)
      case None => was
      case Some(v) => v
  }

  /** For a value written with its own type, the constraint is checked of that very value. */
  lemma OwnBytesAllowedIff(c: IoConstraint, v: Value, libc: Libc)
    requires Fits(c, TypeOf(v)) && Terminated(v)
    ensures SizeOf(v) > 0 ==> Readable(TypeOf(v), MemoryOf(v), SizeOf(v)) &&
                              CheckReadable(c, TypeOf(v), MemoryOf(v), SizeOf(v))
    ensures Allowed(c, TypeOf(v), Some(MemoryOf(v)), SizeOf(v), libc) <==> Meets(c, v, libc)
  {
    var mem := MemoryOf(v);
    assert mem[..|mem|] == mem;
    match v
    case IntV(i) => Int32RoundTrip(i);
    case _ =>
  }

  predicate Refused(c: Option<IoConstraint>, enforce: bool, v: Value, libc: Libc) {
    enforce && c.Some? && !Meets(c.value, v, libc)
  }

  /** An io ends equal to a value of its type unless that breaks an enforced constraint; then it is as it was. */
  lemma SameTypeOutcome(was: Value, c: Option<IoConstraint>, enforce: bool, v: Value, libc: Libc)
    requires TypeOf(was) == TypeOf(v) && !v.UnknownV? && Terminated(v)
    requires c.Some? ==> Fits(c.value, TypeOf(v))
    ensures SizeOf(v) > 0 ==> Readable(TypeOf(v), MemoryOf(v), SizeOf(v)) &&
                              (c.Some? ==> CheckReadable(c.value, TypeOf(v), MemoryOf(v), SizeOf(v)))
    ensures Outcome(was, c, enforce, TypeOf(v), Some(MemoryOf(v)), SizeOf(v), libc) ==
            if Refused(c, enforce, v, libc) then was else Duplicate(v)
  {
    SameTypeCopies(was, v, libc);
    if c.Some? {
      OwnBytesAllowedIff(c.value, v, libc);
    }
  }

  // ------------------------------------------------------------ the io that is written

  class WrittenIo {
    var value: Value
    var valueSize: nat
    const constraint: Option<IoConstraint>
    const libc: Libc

    ghost predicate Valid()
      reads this
    {
      && valueSize == SizeOf(value) && Terminated(value)
      && (constraint.Some? ==> Fits(constraint.value, TypeOf(value)))
    }

    constructor (valueType: ValueType, constraint: Option<IoConstraint>, libc: Libc)
      requires constraint.Some? ==> Fits(constraint.value, valueType)
      ensures Valid() && TypeOf(value) == valueType
      ensures this.constraint == constraint && this.libc == libc
    {
      value := Empty(valueType, libc);
      valueSize := SizeOf(Empty(valueType, libc));
      this.constraint, this.libc := constraint, libc;
    }

    /** The value is NULL or has no size. */
    method StoreNothing() returns (ok: bool)
      modifies this
      ensures ok <==> !TypeOf(old(value)).UnknownT?
      ensures value == if ok then Empty(TypeOf(old(value)), libc) else old(value)
      ensures valueSize == if ok then SizeOf(value) else old(valueSize)
    {
      ok := true;
      match TypeOf(value)
      case IntegerT => value, valueSize := IntV(0), INT_SIZE;
      case DoubleT => value, valueSize := DoubleV(libc.zero), DOUBLE_SIZE;
      case BoolT => value, valueSize := BoolV(false), BOOL_SIZE;
      case StringT => value, valueSize := StringV([]), 0;
      case ImpulsionT => valueSize := 0;
      case DataT => value, valueSize := DataV([]), 0;
      case UnknownT => ok := false;
    }

    method StoreInt(n: Int32, mem: Bytes) returns (ok: bool)
      requires |mem| == INT_SIZE
      modifies this
      ensures ok <==> !TypeOf(old(value)).UnknownT?
      ensures value == if ok then FromInt(TypeOf(old(value)), n, mem, libc) else old(value)
      ensures valueSize == if ok then SizeOf(value) else old(valueSize)
    {
      ok := true;
      match TypeOf(value)
      case IntegerT => value, valueSize := IntV(n), INT_SIZE;
      case DoubleT => value, valueSize := DoubleV(libc.fromInt(n)), DOUBLE_SIZE;
      case BoolT => value, valueSize := BoolV(n != 0), BOOL_SIZE;
      case StringT => StoreText(PrintedInt(n));
      case ImpulsionT => valueSize := 0;
      case DataT => value, valueSize := DataV(mem), INT_SIZE;
      case UnknownT => ok := false;
    }

    method StoreDouble(d: Double) returns (ok: bool)
      modifies this
      ensures ok <==> !TypeOf(old(value)).UnknownT?
      ensures value == if ok then FromDouble(TypeOf(old(value)), d, libc) else old(value)
      ensures valueSize == if ok then SizeOf(value) else old(valueSize)
    {
      ok := true;
      match TypeOf(value)
      case IntegerT => value, valueSize := IntV(libc.toInt(d)), INT_SIZE;
      case DoubleT => value, valueSize := DoubleV(d), DOUBLE_SIZE;
      case BoolT => value, valueSize := BoolV(!libc.isZero(d)), BOOL_SIZE;
      case StringT => StoreText(Printed(libc.printDouble(d)));
      case ImpulsionT => valueSize := 0;
      case DataT => value, valueSize := DataV(d), DOUBLE_SIZE;
      case UnknownT => ok := false;
    }

    method StoreBool(c: char) returns (ok: bool)
      modifies this
      ensures ok <==> !TypeOf(old(value)).UnknownT?
      ensures value == if ok then FromBool(TypeOf(old(value)), c, libc) else old(value)
      ensures valueSize == if ok then SizeOf(value) else old(valueSize)
    {
      ok := true;
      var n: Int32 := if c != NUL then 1 else 0;
      match TypeOf(value)
      case IntegerT => value, valueSize := IntV(n), INT_SIZE;
      case DoubleT => value, valueSize := DoubleV(libc.fromInt(n)), DOUBLE_SIZE;
      case BoolT => value, valueSize := BoolV(c != NUL), BOOL_SIZE;
      case StringT => StoreText(PrintedInt(n));
      case ImpulsionT => valueSize := 0;
      case DataT => value, valueSize := DataV([c]), BOOL_SIZE;
      case UnknownT => ok := false;
    }

    method StoreString(s: string) returns (ok: bool)
      requires NUL !in s
      modifies this
      ensures ok <==> !TypeOf(old(value)).UnknownT?
      ensures value == if ok then FromString(TypeOf(old(value)), s, libc) else old(value)
      ensures valueSize == if ok then SizeOf(value) else old(valueSize)
    {
      ok := true;
      match TypeOf(value)
      case IntegerT => value, valueSize := IntV(libc.atoi(s)), INT_SIZE;
      case DoubleT => value, valueSize := DoubleV(libc.atof(s)), DOUBLE_SIZE;
      case BoolT =>
        var b := false;
        if s != "false" && s != "False" && s != "FALSE" {
          b := s == "true" || s == "True" || s == "TRUE" || libc.atoi(s) != 0;
        }
        value, valueSize := BoolV(b), BOOL_SIZE;
      case StringT => StoreText(s);
      case ImpulsionT => valueSize := 0;
      case DataT =>
        var converted := StringToBytes(s);
        if converted.Some? {
          value, valueSize := DataV(converted.value), |s| / 2;
        } else {
          value, valueSize := DataV(Owned(s)), |s| + 1;
        }
      case UnknownT => ok := false;
    }

    method StoreData(data: Bytes) returns (ok: bool)
      requires data != []
      modifies this
      ensures ok <==> FromData(TypeOf(old(value)), data).Some?
      ensures value == if ok then FromData(TypeOf(old(value)), data).value else old(value)
      ensures valueSize == if ok then SizeOf(value) else old(valueSize)
    {
      ok := true;
      match TypeOf(value)
      case IntegerT =>
        ok := |data| == INT_SIZE;
        if ok { value, valueSize := IntV(IntAt(data)), INT_SIZE; }
      case DoubleT =>
        ok := |data| == DOUBLE_SIZE;
        if ok { value, valueSize := DoubleV(DoubleAt(data)), DOUBLE_SIZE; }
      case BoolT =>
        ok := |data| == BOOL_SIZE;
        if ok { value, valueSize := BoolV(data[0] != NUL), BOOL_SIZE; }
      case StringT =>
        ok := data[|data| - 1] == NUL;
        if ok { value, valueSize := StringV(data), |data|; }
      case ImpulsionT => valueSize := 0;
      case DataT => value, valueSize := DataV(data), |data|;
      case UnknownT => ok := false;
    }

    /** strdup, and the size of the copy. */
    method StoreText(s: string)
      requires NUL !in s
      modifies this
      ensures value == StringV(Owned(s)) && valueSize == SizeOf(value)
    {
      value := StringV(Owned(s));
      valueSize := |s| + 1;
    }

    /** model_write: a write that fails changes nothing. */
    method ModelWrite(t: ValueType, mem: Option<Bytes>, size: nat, enforce: bool) returns (ok: bool)
      requires Valid()
      requires mem.Some? && size > 0 ==> Readable(t, mem.value, size)
      requires mem.Some? && size > 0 && enforce && constraint.Some? ==>
                 CheckReadable(constraint.value, t, mem.value, size)
      modifies this
      ensures Valid() && TypeOf(value) == TypeOf(old(value))
      ensures ok <==> (enforce && constraint.Some? ==> Allowed(constraint.value, t, mem, size, libc)) &&
                      Converted(old(value), t, mem, size, libc).Some?
      ensures value == if ok then Converted(old(value), t, mem, size, libc).value else old(value)
      ensures value == Outcome(old(value), constraint, enforce, t, mem, size, libc)
    {
      ghost var was := value;
      ok := !enforce || constraint.None? || Allowed(constraint.value, t, mem, size, libc);
      if ok {
        if mem.None? || size == 0 {
          ok := StoreNothing();
        } else {
          match t
          case IntegerT => ok := StoreInt(IntAt(mem.value), mem.value[..INT_SIZE]);
          case DoubleT => ok := StoreDouble(DoubleAt(mem.value));
          case BoolT => ok := StoreBool(mem.value[0]);
          case StringT => ok := StoreString(CString(mem.value));
          case ImpulsionT => ok := StoreNothing();
          case DataT => ok := StoreData(mem.value[..size]);
          case UnknownT =>
        }
        if ok {
          ConvertedKeeps(was, t, mem, size, libc);
        }
      }
    }
  }
}
