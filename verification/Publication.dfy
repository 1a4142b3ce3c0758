/**
 * Publications on the wire: network_publish_output, the answer to GET_CURRENT_OUTPUTS,
 * s_manage_received_publication and the reading part of s_handle_publication (src/igs_network.c).
 *
 * How CZMQ packs a message into a frame is a parameter. A timestamp of INT64_MIN is none.
 */
module Publication {
  import opened Options
  import opened CStrings
  import opened Wire
  import opened Constraints
  import opened Definitions
  import opened ModelWrite

  const UUID_LENGTH: nat := 32
  const DATA_CODE: int := 6
  const LAST_CODE: int := 12

  datatype Packing = Packing(pack: seq<Bytes> -> Bytes, unpack: Bytes -> Option<seq<Bytes>>)

  ghost predicate Lossless(p: Packing) {
    forall frames :: p.unpack(p.pack(frames)) == Some(frames)
  }

  /** An output of the sender. */
  datatype Output = Output(name: string, value: Value)

  ghost predicate OutputOk(o: Output) {
    NUL !in o.name && Terminated(o.value)
  }

  /** What the receiver reads of one triple, before it looks for the inputs to write. */
  datatype Received = Received(name: string, valueType: ValueType, data: Bytes, timestamp: int)

  datatype Ending =
    | Complete
    | Rejected
    /** The remote agent has left while triples were handled. */
    | Gone
    /** A timestamp is copied from a frame that is too short. */
    | OverRead

  datatype Reading = Reading(all: seq<Received>, ending: Ending)

  // ------------------------------------------------------------ value types as numbers

  function Code(t: ValueType): int {
    match t
    case UnknownT => 0
    case IntegerT => 1
    case DoubleT => 2
    case StringT => 3
    case BoolT => 4
    case ImpulsionT => 5
    case DataT => 6
  }

  function TypeOfCode(n: int): ValueType {
    match n
    case 1 => IntegerT
    case 2 => DoubleT
    case 3 => StringT
    case 4 => BoolT
    case 5 => ImpulsionT
    case 6 => DataT
    case _ => UnknownT
  }

  // ------------------------------------------------------------ sending

  /** network_publish_output: the type of an unknown output has no timestamped form. */
  function Published(uuid: string, o: Output, timestamp: int, p: Packing): seq<Bytes>
    requires IsInt64(timestamp)
  {
    var id := uuid + "-" + o.name;
    if timestamp == INT64_MIN then
      [id, PrintInt(Code(TypeOf(o.value)))] + (if o.value.UnknownV? then [] else [MemoryOf(o.value)])
    else if o.value.UnknownV? then [id]
    else [id, PrintInt(Code(TypeOf(o.value)) + DATA_CODE), p.pack([MemoryOf(o.value), Int64Bytes(timestamp)])]
  }

  /** The value frame in CURRENT_OUTPUTS: strings go without NUL, and NULL goes as "". */
  function CurrentBytes(v: Value): Bytes {
    if v.StringV? then CString(v.mem) else MemoryOf(v)
  }

  predicate Skipped(v: Value) {
    v.ImpulsionV? || v.UnknownV?
  }

  function CurrentTriple(o: Output): seq<Bytes> {
    if Skipped(o.value) then [] else [o.name, PrintInt(Code(TypeOf(o.value))), CurrentBytes(o.value)]
  }

  function CurrentOutputs(outputs: seq<Output>): seq<Bytes> {
    if outputs == [] then [] else CurrentOutputs(outputs[..|outputs| - 1]) + CurrentTriple(outputs[|outputs| - 1])
  }

  // ------------------------------------------------------------ receiving

  function SkipBlanks(s: string): string {
    if s != [] && (s[0] == ' ' || IsControl(s[0])) then SkipBlanks(s[1..]) else s
  }

  function CodeOf(typeFrame: Bytes): int {
    Atoi(SkipBlanks(CString(typeFrame)))
  }

  /** Senders with the older format do not send the NUL of a string. */
  function WithNul(t: ValueType, data: Bytes): Bytes {
    if t.StringT? && data != [] && data[|data| - 1] != NUL then Owned(CString(data)) else data
  }

  /** One triple, given the timestamp left by the triples before it. */
  function ReadTriple(name: Bytes, typeFrame: Bytes, value: Bytes, timestamp: int, p: Packing): Reading {
    var n := CodeOf(typeFrame);
    if n < 1 || n > LAST_CODE then Reading([], Rejected)
    else if n <= DATA_CODE then
      Reading([Received(CString(name), TypeOfCode(n), WithNul(TypeOfCode(n), value), timestamp)], Complete)
    else
      match p.unpack(value)
      case None => Reading([], Rejected)
      case Some(bundle) =>
        if |bundle| != 2 then Reading([], Rejected)
        else if |bundle[1]| < STAMP_SIZE then Reading([], OverRead)
        else
          var t := TypeOfCode(n - DATA_CODE);
          Reading([Received(CString(name), t, WithNul(t, bundle[0]), ReadInt(bundle[1][..STAMP_SIZE]))], Complete)
  }

  function ReadFrom(frames: seq<Bytes>, timestamp: int, p: Packing): Reading
    decreases |frames|
  {
    if frames == [] then Reading([], Complete)
    else if |frames| < 3 then Reading([], Rejected)
    else
      var first := ReadTriple(frames[0], frames[1], frames[2], timestamp, p);
      if !first.ending.Complete? then first
      else
        var rest := ReadFrom(frames[3..], first.all[0].timestamp, p);
        Reading(first.all + rest.all, rest.ending)
  }

  datatype Arrival =
    | TooShort
    /** The name would start behind the end of the publication id. */
    | OutOfBounds
    | From(uuid: string, reading: Reading)

  function Arrived(msg: seq<Bytes>, p: Packing): Arrival {
    if msg == [] then TooShort
    else
      var id := CString(msg[0]);
      if |id| < UUID_LENGTH then TooShort
      else if |id| == UUID_LENGTH then OutOfBounds
      else From(id[..UUID_LENGTH], ReadFrom([id[UUID_LENGTH + 1..]] + msg[1..], INT64_MIN, p))
  }

  // ------------------------------------------------------------ round trips

  lemma CodesRead(n: int)
    requires 0 <= n <= LAST_CODE
    ensures CodeOf(PrintInt(n)) == n
  {
    PrintNatDigits(n);
    AtoiPrintInt(n);
    CStringAll(PrintInt(n));
    assert IsDigit(PrintInt(n)[0]);
  }

  lemma TypesCoded(t: ValueType)
    ensures TypeOfCode(Code(t)) == t && 0 <= Code(t) <= DATA_CODE
    ensures Code(t) == 0 <==> t.UnknownT?
  {
  }

  lemma MemoryHasNul(v: Value)
    requires Terminated(v)
    ensures WithNul(TypeOf(v), MemoryOf(v)) == MemoryOf(v)
  {
  }

  lemma OneTriple(triple: seq<Bytes>, timestamp: int, p: Packing)
    requires |triple| == 3
    ensures ReadFrom(triple, timestamp, p) == ReadTriple(triple[0], triple[1], triple[2], timestamp, p)
  {
    assert ReadFrom(triple[3..], timestamp, p) == Reading([], Complete);
    var first := ReadTriple(triple[0], triple[1], triple[2], timestamp, p);
    assert first.all + [] == first.all;
  }

  lemma PublicationId(uuid: string, name: string)
    requires |uuid| == UUID_LENGTH && NUL !in uuid && NUL !in name
    ensures var id := uuid + "-" + name;
            CString(id) == id && id[..UUID_LENGTH] == uuid && id[UUID_LENGTH + 1..] == name
  {
    CStringAll(uuid + "-" + name);
  }

  /** The timestamp that the triples read so far leave. */
  function LastStamp(all: seq<Received>, timestamp: int): int {
    if all == [] then timestamp else all[|all| - 1].timestamp
  }

  function Then(first: Reading, rest: Reading): Reading {
    Reading(first.all + rest.all, rest.ending)
  }

  lemma ThenAssoc(a: Reading, b: Reading, c: Reading)
    ensures Then(Then(a, b), c) == Then(a, Then(b, c))
  {
    assert (a.all + b.all) + c.all == a.all + (b.all + c.all);
  }

  lemma OneRead(name: Bytes, typeFrame: Bytes, value: Bytes, timestamp: int, p: Packing)
    requires ReadTriple(name, typeFrame, value, timestamp, p).ending.Complete?
    ensures |ReadTriple(name, typeFrame, value, timestamp, p).all| == 1
  {
  }

  /** Reading goes on where it stopped; a triple without timestamp keeps the one before it. */
  lemma {:induction false} ReadAppend(front: seq<Bytes>, back: seq<Bytes>, timestamp: int, p: Packing)
    requires ReadFrom(front, timestamp, p).ending.Complete?
    ensures var first := ReadFrom(front, timestamp, p);
            ReadFrom(front + back, timestamp, p) == Then(first, ReadFrom(back, LastStamp(first.all, timestamp), p))
    decreases |front|
  {
    if front == [] {
      assert front + back == back;
      assert Then(Reading([], Complete), ReadFrom(back, timestamp, p)) == ReadFrom(back, timestamp, p);
    } else {
      var one := FirstRead(front, timestamp, p);
      ReadOn(front, timestamp, p);
      ReadAppend(front[3..], back, one.all[0].timestamp, p);
      FirstOfBoth(front, back, timestamp, p);
      var rest := ReadFrom(front[3..], one.all[0].timestamp, p);
      StampAppend(one.all, rest.all, timestamp);
      ThenAssoc(one, rest, ReadFrom(back, LastStamp(rest.all, one.all[0].timestamp), p));
    }
  }

  lemma FirstOfBoth(front: seq<Bytes>, back: seq<Bytes>, timestamp: int, p: Packing)
    requires |front| >= 3 && FirstRead(front, timestamp, p).ending.Complete?
    ensures var one := FirstRead(front, timestamp, p);
            |one.all| == 1 &&
            ReadFrom(front + back, timestamp, p) == Then(one, ReadFrom(front[3..] + back, one.all[0].timestamp, p))
  {
    assert (front + back)[3..] == front[3..] + back;
    assert FirstRead(front + back, timestamp, p) == FirstRead(front, timestamp, p);
    ReadOn(front + back, timestamp, p);
  }

  function FirstRead(frames: seq<Bytes>, timestamp: int, p: Packing): Reading
    requires |frames| >= 3
  {
    ReadTriple(frames[0], frames[1], frames[2], timestamp, p)
  }

  lemma ReadOn(frames: seq<Bytes>, timestamp: int, p: Packing)
    requires |frames| >= 3 && FirstRead(frames, timestamp, p).ending.Complete?
    ensures var one := FirstRead(frames, timestamp, p);
            |one.all| == 1 &&
            ReadFrom(frames, timestamp, p) == Then(one, ReadFrom(frames[3..], one.all[0].timestamp, p))
  {
    OneRead(frames[0], frames[1], frames[2], timestamp, p);
  }

  lemma StampAppend(one: seq<Received>, rest: seq<Received>, timestamp: int)
    requires |one| == 1
    ensures LastStamp(one + rest, timestamp) == LastStamp(rest, one[0].timestamp)
  {
  }

  /** The timestamp in the last triple that has one, by the type codes and the frames alone. */
  function StampIn(frames: seq<Bytes>, p: Packing): Option<int> {
    if |frames| < 3 then None
    else
      match StampIn(frames[3..], p)
      case Some(stamp) => Some(stamp)
      case None => if CodeOf(frames[1]) > DATA_CODE then Some(StampOf(frames[2], p)) else None
  }

  function StampOf(value: Bytes, p: Packing): int {
    match p.unpack(value)
    case Some(bundle) => if |bundle| == 2 && |bundle[1]| >= STAMP_SIZE then ReadInt(bundle[1][..STAMP_SIZE]) else INT64_MIN
    case None => INT64_MIN
  }

  lemma {:induction false} LastStampIsThatOfTheFrames(frames: seq<Bytes>, timestamp: int, p: Packing)
    requires ReadFrom(frames, timestamp, p).ending.Complete?
    ensures LastStamp(ReadFrom(frames, timestamp, p).all, timestamp) ==
            if StampIn(frames, p).Some? then StampIn(frames, p).value else timestamp
    decreases |frames|
  {
    if frames != [] {
      var one := FirstRead(frames, timestamp, p);
      ReadOn(frames, timestamp, p);
      LastStampIsThatOfTheFrames(frames[3..], one.all[0].timestamp, p);
      StampAppend(one.all, ReadFrom(frames[3..], one.all[0].timestamp, p).all, timestamp);
    }
  }

  /**
   * A triple without timestamp is read with the timestamp of the last triple before it that has
   * one, and without timestamp exactly when there is none or that one is INT64_MIN itself.
   */
  lemma StampIsLeftOver(front: seq<Bytes>, o: Output, p: Packing)
    requires ReadFrom(front, INT64_MIN, p).ending.Complete? && OutputOk(o) && !Skipped(o.value)
    ensures
      var stamp := if StampIn(front, p).Some? then StampIn(front, p).value else INT64_MIN;
      ReadFrom(front + CurrentTriple(o), INT64_MIN, p) ==
        Reading(ReadFrom(front, INT64_MIN, p).all + [Received(o.name, TypeOf(o.value), Seen(o.value), stamp)], Complete)
  {
    ReadAppend(front, CurrentTriple(o), INT64_MIN, p);
    LastStampIsThatOfTheFrames(front, INT64_MIN, p);
    CurrentTripleRead(o, LastStamp(ReadFrom(front, INT64_MIN, p).all, INT64_MIN), p);
  }

  /** What network_publish_output sends, as the reading loop gets it: with the name alone. */
  function Triple(o: Output, timestamp: int, p: Packing): seq<Bytes>
    requires IsInt64(timestamp) && !o.value.UnknownV?
  {
    [o.name] + Published([], o, timestamp, p)[1..]
  }

  lemma TripleCode(o: Output, timestamp: int, p: Packing)
    requires !o.value.UnknownV? && IsInt64(timestamp)
    ensures var code := Code(TypeOf(o.value));
            |Triple(o, timestamp, p)| == 3 &&
            CodeOf(Triple(o, timestamp, p)[1]) == if timestamp == INT64_MIN then code else code + DATA_CODE
  {
    var code := Code(TypeOf(o.value));
    TypesCoded(TypeOf(o.value));
    CodesRead(if timestamp == INT64_MIN then code else code + DATA_CODE);
  }

  lemma TripleRead(o: Output, timestamp: int, p: Packing)
    requires OutputOk(o) && !o.value.UnknownV? && IsInt64(timestamp) && Lossless(p)
    ensures ReadFrom(Triple(o, timestamp, p), INT64_MIN, p) ==
            Reading([Received(o.name, TypeOf(o.value), MemoryOf(o.value), timestamp)], Complete)
  {
    CStringAll(o.name);
    TypesCoded(TypeOf(o.value));
    MemoryHasNul(o.value);
    TripleCode(o, timestamp, p);
    Int64RoundTrip(timestamp);
    assert Int64Bytes(timestamp)[..STAMP_SIZE] == Int64Bytes(timestamp);
    OneTriple(Triple(o, timestamp, p), INT64_MIN, p);
  }

  lemma TripleStamp(o: Output, timestamp: int, p: Packing)
    requires !o.value.UnknownV? && IsInt64(timestamp) && Lossless(p)
    ensures StampIn(Triple(o, timestamp, p), p) == if timestamp == INT64_MIN then None else Some(timestamp)
  {
    var triple := Triple(o, timestamp, p);
    TypesCoded(TypeOf(o.value));
    TripleCode(o, timestamp, p);
    Int64RoundTrip(timestamp);
    assert Int64Bytes(timestamp)[..STAMP_SIZE] == Int64Bytes(timestamp);
    assert StampIn(triple[3..], p) == None;
  }

  /** In a message of an output with timestamp 7 and one without, both are read with timestamp 7. */
  lemma MixedMessageExample(first: Output, second: Output, p: Packing)
    requires OutputOk(first) && !first.value.UnknownV? && OutputOk(second) && !Skipped(second.value) && Lossless(p)
    ensures ReadFrom(Triple(first, 7, p) + CurrentTriple(second), INT64_MIN, p).all ==
            [Received(first.name, TypeOf(first.value), MemoryOf(first.value), 7),
             Received(second.name, TypeOf(second.value), Seen(second.value), 7)]
  {
    TripleRead(first, 7, p);
    TripleStamp(first, 7, p);
    StampIsLeftOver(Triple(first, 7, p), second, p);
  }

  /** The messages of ingescape never mix: the reply with many outputs has no timestamp at all. */
  lemma {:induction false} CurrentOutputsHaveNoStamp(outputs: seq<Output>, p: Packing)
    requires forall o :: o in outputs ==> OutputOk(o)
    ensures StampIn(CurrentOutputs(outputs), p) == None
  {
    if outputs != [] {
      var init, o := outputs[..|outputs| - 1], outputs[|outputs| - 1];
      CurrentOutputsHaveNoStamp(init, p);
      ThreeFramesEach(init);
      if !Skipped(o.value) {
        CodesRead(Code(TypeOf(o.value)));
        TypesCoded(TypeOf(o.value));
        assert CurrentTriple(o)[3..] == [];
        StampAppended(CurrentOutputs(init), CurrentTriple(o), p);
      } else {
        assert CurrentOutputs(init) + [] == CurrentOutputs(init);
      }
    }
  }

  lemma {:induction false} ThreeFramesEach(outputs: seq<Output>)
    ensures |CurrentOutputs(outputs)| % 3 == 0
  {
    if outputs != [] {
      ThreeFramesEach(outputs[..|outputs| - 1]);
    }
  }

  lemma {:induction false} StampAppended(front: seq<Bytes>, back: seq<Bytes>, p: Packing)
    requires |front| % 3 == 0
    ensures StampIn(front + back, p) == if StampIn(back, p).Some? then StampIn(back, p) else StampIn(front, p)
    decreases |front|
  {
    if front == [] {
      assert front + back == back;
    } else {
      assert (front + back)[3..] == front[3..] + back;
      StampAppended(front[3..], back, p);
    }
  }

  /** The bytes that arrive with CURRENT_OUTPUTS: a NUL inside ends a string, and "" arrives as NULL. */
  function Seen(v: Value): Bytes {
    if v.StringV? && CString(v.mem) == [] then [] else MemoryOf(Duplicate(v))
  }

  lemma CurrentBytesRead(v: Value)
    requires Terminated(v)
    ensures WithNul(TypeOf(v), CurrentBytes(v)) == Seen(v)
  {
    if v.StringV? {
      CStringAll(CString(v.mem));
    }
  }

  lemma CurrentTripleRead(o: Output, timestamp: int, p: Packing)
    requires OutputOk(o) && !Skipped(o.value)
    ensures ReadFrom(CurrentTriple(o), timestamp, p) ==
            Reading([Received(o.name, TypeOf(o.value), Seen(o.value), timestamp)], Complete)
  {
    CStringAll(o.name);
    TypesCoded(TypeOf(o.value));
    CodesRead(Code(TypeOf(o.value)));
    CurrentBytesRead(o.value);
    OneTriple(CurrentTriple(o), timestamp, p);
  }

  function CurrentReceived(outputs: seq<Output>): seq<Received> {
    if outputs == [] then []
    else
      var o := outputs[|outputs| - 1];
      CurrentReceived(outputs[..|outputs| - 1]) +
      if Skipped(o.value) then [] else [Received(o.name, TypeOf(o.value), Seen(o.value), INT64_MIN)]
  }

  lemma {:induction false} NoStamps(outputs: seq<Output>)
    ensures LastStamp(CurrentReceived(outputs), INT64_MIN) == INT64_MIN
  {
    if outputs != [] {
      NoStamps(outputs[..|outputs| - 1]);
    }
  }

  /** The many triples of CURRENT_OUTPUTS arrive as all outputs but impulsions, in order and without timestamp. */
  lemma {:induction false} CurrentOutputsRoundTrip(outputs: seq<Output>, p: Packing)
    requires forall o :: o in outputs ==> OutputOk(o)
    ensures ReadFrom(CurrentOutputs(outputs), INT64_MIN, p) == Reading(CurrentReceived(outputs), Complete)
  {
    if outputs != [] {
      var init, o := outputs[..|outputs| - 1], outputs[|outputs| - 1];
      CurrentOutputsRoundTrip(init, p);
      NoStamps(init);
      ReadAppend(CurrentOutputs(init), CurrentTriple(o), INT64_MIN, p);
      assert OutputOk(o);
      if Skipped(o.value) {
        assert CurrentReceived(init) + [] == CurrentReceived(init);
      } else {
        CurrentTripleRead(o, INT64_MIN, p);
      }
    }
  }

  // ------------------------------------------------------------ type by type

  /** The numbers of the value types on the wire, and as text. */
  lemma TypeNumbers()
    ensures Code(IntegerT) == 1 && Code(DoubleT) == 2 && Code(StringT) == 3 && Code(BoolT) == 4
    ensures Code(ImpulsionT) == 5 && Code(DataT) == 6 && Code(UnknownT) == 0
    ensures PrintInt(0) == "0" && PrintInt(1) == "1" && PrintInt(2) == "2" && PrintInt(3) == "3"
    ensures PrintInt(4) == "4" && PrintInt(5) == "5" && PrintInt(6) == "6" && PrintInt(7) == "7"
    ensures PrintInt(8) == "8" && PrintInt(9) == "9"
  {
  }

  lemma TwoDigitNumbers()
    ensures PrintInt(10) == "10" && PrintInt(11) == "11" && PrintInt(12) == "12"
  {
    assert PrintNat(1) == "1";
  }

  /** The frames of a publication, type by type. */
  lemma PublishedFrames(uuid: string, name: string, v: Value, timestamp: int, p: Packing)
    requires IsInt64(timestamp)
    ensures
      var msg, id, stamp := Published(uuid, Output(name, v), timestamp, p), uuid + "-" + name, Int64Bytes(timestamp);
      if timestamp == INT64_MIN then
        match v
        case IntV(i) => msg == [id, "1", Int32Bytes(i)]
        case DoubleV(d) => msg == [id, "2", d]
        case StringV(mem) => msg == [id, "3", mem]
        case BoolV(b) => msg == [id, "4", [if b then 1 as char else 0 as char]]
        case ImpulsionV => msg == [id, "5", []]
        case DataV(data) => msg == [id, "6", data]
        case UnknownV => msg == [id, "0"]
      else
        match v
        case IntV(i) => msg == [id, "7", p.pack([Int32Bytes(i), stamp])]
        case DoubleV(d) => msg == [id, "8", p.pack([d, stamp])]
        case StringV(mem) => msg == [id, "9", p.pack([mem, stamp])]
        case BoolV(b) => msg == [id, "10", p.pack([[if b then 1 as char else 0 as char], stamp])]
        case ImpulsionV => msg == [id, "11", p.pack([[], stamp])]
        case DataV(data) => msg == [id, "12", p.pack([data, stamp])]
        case UnknownV => msg == [id]
  {
    TypeNumbers();
    TwoDigitNumbers();
  }

  /** When a triple is refused, when its timestamp is read beyond its end, and otherwise what its type is. */
  lemma TripleIff(name: Bytes, typeFrame: Bytes, value: Bytes, timestamp: int, p: Packing)
    ensures
      var n, bundle, r := CodeOf(typeFrame), p.unpack(value), ReadTriple(name, typeFrame, value, timestamp, p);
      && (r.ending.Rejected? <==> n < 1 || n > 12 || (n > 6 && (bundle.None? || |bundle.value| != 2)))
      && (r.ending.OverRead? <==> 6 < n <= 12 && bundle.Some? && |bundle.value| == 2 && |bundle.value[1]| < 8)
      && (r.ending.Complete? ==>
            && |r.all| == 1 && r.all[0].name == CString(name)
            && (r.all[0].valueType.IntegerT? <==> n == 1 || n == 7)
            && (r.all[0].valueType.DoubleT? <==> n == 2 || n == 8)
            && (r.all[0].valueType.StringT? <==> n == 3 || n == 9)
            && (r.all[0].valueType.BoolT? <==> n == 4 || n == 10)
            && (r.all[0].valueType.ImpulsionT? <==> n == 5 || n == 11)
            && (r.all[0].valueType.DataT? <==> n == 6 || n == 12)
            && r.all[0].timestamp == if n <= 6 then timestamp else ReadInt(bundle.value[1][..8]))
  {
  }

  /** Received bytes are kept, but a string that does not end with NUL is cut at its first NUL and ended. */
  lemma TripleBytes(name: Bytes, typeFrame: Bytes, value: Bytes, timestamp: int, p: Packing)
    requires ReadTriple(name, typeFrame, value, timestamp, p).ending.Complete?
    ensures
      var n, r := CodeOf(typeFrame), ReadTriple(name, typeFrame, value, timestamp, p).all[0];
      var sent := if n <= 6 then value else p.unpack(value).value[0];
      r.data == if (n == 3 || n == 9) && sent != [] && sent[|sent| - 1] != 0 as char
                then CString(sent) + [0 as char] else sent
  {
  }

  /** The frames of a value in CURRENT_OUTPUTS: its type as text, and its bytes, those of a string without NUL. */
  ghost predicate ValueFrames(v: Value, typeFrame: Bytes, data: Bytes) {
    match v
    case IntV(i) => typeFrame == "1" && data == Int32Bytes(i)
    case DoubleV(d) => typeFrame == "2" && data == d
    case StringV(mem) => typeFrame == "3" && data == CString(mem)
    case BoolV(b) => typeFrame == "4" && data == [if b then 1 as char else 0 as char]
    case DataV(bytes) => typeFrame == "6" && data == bytes
    case ImpulsionV => false
    case UnknownV => false
  }

  /** What is received for an output of a reply: a string has its NUL again, and "" is NULL. */
  ghost predicate ReceivedFor(r: Received, o: Output) {
    && r.name == o.name && r.timestamp == INT64_MIN
    && match o.value
       case IntV(i) => r.valueType == IntegerT && r.data == Int32Bytes(i)
       case DoubleV(d) => r.valueType == DoubleT && r.data == d
       case StringV(mem) =>
         r.valueType == StringT && r.data == if CString(mem) == [] then [] else CString(mem) + [0 as char]
       case BoolV(b) => r.valueType == BoolT && r.data == [if b then 1 as char else 0 as char]
       case DataV(bytes) => r.valueType == DataT && r.data == bytes
       case ImpulsionV => false
       case UnknownV => false
  }

  ghost predicate Increasing(at: seq<nat>) {
    forall j, k :: 0 <= j < k < |at| ==> at[j] < at[k]
  }

  /** The places, in order, are those of the integers, doubles, strings, bools and data. */
  ghost predicate PlacesOfReply(outputs: seq<Output>, at: seq<nat>) {
    && Increasing(at)
    && (forall k :: 0 <= k < |at| ==> at[k] < |outputs|)
    && forall i :: 0 <= i < |outputs| ==>
         (i in at <==> TypeOf(outputs[i].value) in {IntegerT, DoubleT, StringT, BoolT, DataT})
  }

  /** The three frames at a place are those of an output. */
  ghost predicate FramesAt(msg: seq<Bytes>, k: nat, o: Output) {
    3 * k + 2 < |msg| && msg[3 * k] == o.name && ValueFrames(o.value, msg[3 * k + 1], msg[3 * k + 2])
  }

  /** Three frames for each of the places. */
  ghost predicate FramesOfReply(outputs: seq<Output>, at: seq<nat>, msg: seq<Bytes>) {
    && PlacesOfReply(outputs, at) && |msg| == 3 * |at|
    && forall k :: 0 <= k < |at| ==> FramesAt(msg, k, outputs[at[k]])
  }

  /** One thing received for each of the places. */
  ghost predicate ReceivedOfReply(outputs: seq<Output>, at: seq<nat>, all: seq<Received>) {
    && PlacesOfReply(outputs, at) && |all| == |at|
    && forall k :: 0 <= k < |at| ==> ReceivedFor(all[k], outputs[at[k]])
  }

  function ReplyPlaces(outputs: seq<Output>): seq<nat> {
    if outputs == [] then []
    else
      var before := ReplyPlaces(outputs[..|outputs| - 1]);
      if Skipped(outputs[|outputs| - 1].value) then before else before + [|outputs| - 1]
  }

  lemma MorePlaces(init: seq<Output>, at: seq<nat>, o: Output)
    requires PlacesOfReply(init, at)
    ensures PlacesOfReply(init + [o], if Skipped(o.value) then at else at + [|init|])
  {
    var more := init + [o];
    assert forall i :: 0 <= i < |init| ==> more[i] == init[i];
    assert more[|init|] == o && |init| !in at;
    if !Skipped(o.value) {
      var all := at + [|init|];
      assert all[|at|] == |init|;
      assert forall i :: 0 <= i < |init| ==> (i in all <==> i in at);
    }
  }

  lemma OneOutput(o: Output)
    requires !Skipped(o.value)
    ensures |CurrentTriple(o)| == 3 && CurrentTriple(o)[0] == o.name
    ensures ValueFrames(o.value, CurrentTriple(o)[1], CurrentTriple(o)[2])
    ensures ReceivedFor(Received(o.name, TypeOf(o.value), Seen(o.value), INT64_MIN), o)
  {
    TypeNumbers();
  }

  lemma FramesStay(msg: seq<Bytes>, k: nat, o: Output, more: seq<Bytes>)
    requires FramesAt(msg, k, o)
    ensures FramesAt(msg + more, k, o)
  {
    var all := msg + more;
    assert all[3 * k] == msg[3 * k] && all[3 * k + 1] == msg[3 * k + 1] && all[3 * k + 2] == msg[3 * k + 2];
  }

  lemma FramesLast(msg: seq<Bytes>, k: nat, o: Output)
    requires |msg| == 3 * k && !Skipped(o.value)
    ensures FramesAt(msg + CurrentTriple(o), k, o)
  {
    OneOutput(o);
    var all := msg + CurrentTriple(o);
    assert all[3 * k] == o.name && all[3 * k + 1] == CurrentTriple(o)[1] && all[3 * k + 2] == CurrentTriple(o)[2];
  }

  lemma MoreFrames(init: seq<Output>, at: seq<nat>, msg: seq<Bytes>, o: Output)
    requires FramesOfReply(init, at, msg) && !Skipped(o.value)
    ensures FramesOfReply(init + [o], at + [|init|], msg + CurrentTriple(o))
  {
    MorePlaces(init, at, o);
    var outputs, all, more := init + [o], at + [|init|], msg + CurrentTriple(o);
    FramesLast(msg, |at|, o);
    forall k | 0 <= k < |all|
      ensures FramesAt(more, k, outputs[all[k]])
    {
      if k < |at| {
        FramesStay(msg, k, init[at[k]], CurrentTriple(o));
      }
    }
  }

  lemma {:induction false} ReplyFrames(outputs: seq<Output>)
    ensures FramesOfReply(outputs, ReplyPlaces(outputs), CurrentOutputs(outputs))
  {
    if outputs != [] {
      var init, o := outputs[..|outputs| - 1], outputs[|outputs| - 1];
      ReplyFrames(init);
      assert init + [o] == outputs;
      if Skipped(o.value) {
        MorePlaces(init, ReplyPlaces(init), o);
        assert forall k :: 0 <= k < |ReplyPlaces(init)| ==> outputs[ReplyPlaces(init)[k]] == init[ReplyPlaces(init)[k]];
      } else {
        MoreFrames(init, ReplyPlaces(init), CurrentOutputs(init), o);
      }
    }
  }

  /**
   * Reading the answer gives one thing for each output that is an integer, a double, a string, a
   * bool or data, in order, with its name, type and bytes, and nothing for the others.
   */
  lemma ReplyReceived(outputs: seq<Output>, p: Packing)
    requires forall o :: o in outputs ==> OutputOk(o)
    ensures ReadFrom(CurrentOutputs(outputs), INT64_MIN, p).ending == Complete
    ensures exists at :: ReceivedOfReply(outputs, at, ReadFrom(CurrentOutputs(outputs), INT64_MIN, p).all)
  {
    CurrentOutputsRoundTrip(outputs, p);
    CurrentReceivedPlaces(outputs);
  }

  function ReceivedLast(all: seq<Received>, o: Output): seq<Received> {
    all + [Received(o.name, TypeOf(o.value), Seen(o.value), INT64_MIN)]
  }

  lemma MoreReceived(init: seq<Output>, at: seq<nat>, all: seq<Received>, o: Output)
    requires ReceivedOfReply(init, at, all) && !Skipped(o.value)
    ensures ReceivedOfReply(init + [o], at + [|init|], ReceivedLast(all, o))
  {
    MorePlaces(init, at, o);
    OneOutput(o);
    var outputs, places, more := init + [o], at + [|init|], ReceivedLast(all, o);
    forall k | 0 <= k < |places|
      ensures ReceivedFor(more[k], outputs[places[k]])
    {
      if k < |at| {
        assert ReceivedFor(all[k], init[at[k]]);
      }
    }
  }

  lemma NoMoreReceived(init: seq<Output>, at: seq<nat>, all: seq<Received>, o: Output)
    requires ReceivedOfReply(init, at, all) && Skipped(o.value)
    ensures ReceivedOfReply(init + [o], at, all)
  {
    MorePlaces(init, at, o);
    assert forall k :: 0 <= k < |at| ==> (init + [o])[at[k]] == init[at[k]];
  }

  lemma {:induction false} CurrentReceivedPlaces(outputs: seq<Output>)
    ensures ReceivedOfReply(outputs, ReplyPlaces(outputs), CurrentReceived(outputs))
  {
    if outputs != [] {
      var init, o := outputs[..|outputs| - 1], outputs[|outputs| - 1];
      CurrentReceivedPlaces(init);
      assert init + [o] == outputs;
      if Skipped(o.value) {
        NoMoreReceived(init, ReplyPlaces(init), CurrentReceived(init), o);
      } else {
        MoreReceived(init, ReplyPlaces(init), CurrentReceived(init), o);
      }
    }
  }

  /** What can be sent as it is. */
  ghost predicate SentOk(uuid: string, o: Output, timestamp: int, p: Packing) {
    && |uuid| == UUID_LENGTH && NUL !in uuid
    && OutputOk(o) && !o.value.UnknownV?
    && IsInt64(timestamp) && Lossless(p)
  }

  lemma PublishedIs(uuid: string, o: Output, timestamp: int, p: Packing)
    requires IsInt64(timestamp) && !o.value.UnknownV?
    ensures |Triple(o, timestamp, p)| > 0
    ensures Published(uuid, o, timestamp, p) == [uuid + "-" + o.name] + Triple(o, timestamp, p)[1..]
    ensures [o.name] + Triple(o, timestamp, p)[1..] == Triple(o, timestamp, p)
  {
  }

  lemma ArrivedIs(uuid: string, name: string, rest: seq<Bytes>, p: Packing)
    requires |uuid| == UUID_LENGTH && NUL !in uuid && NUL !in name
    ensures Arrived([uuid + "-" + name] + rest, p) == From(uuid, ReadFrom([name] + rest, INT64_MIN, p))
  {
    PublicationId(uuid, name);
    assert ([uuid + "-" + name] + rest)[1..] == rest;
  }

  /** A published output arrives with its exact name, type, bytes and timestamp. */
  lemma PublicationRoundTrip(uuid: string, o: Output, timestamp: int, p: Packing)
    requires SentOk(uuid, o, timestamp, p)
    ensures Arrived(Published(uuid, o, timestamp, p), p) ==
            From(uuid, Reading([Received(o.name, TypeOf(o.value), MemoryOf(o.value), timestamp)], Complete))
  {
    TripleRead(o, timestamp, p);
    PublishedIs(uuid, o, timestamp, p);
    ArrivedIs(uuid, o.name, Triple(o, timestamp, p)[1..], p);
  }

  // ------------------------------------------------------------ up to the inputs that are written

  /** Nothing behind the bytes that were received is read. */
  ghost predicate InBytes(r: Received, c: Option<IoConstraint>) {
    |r.data| > 0 ==>
      && Readable(r.valueType, r.data, |r.data|)
      && (c.Some? ==> CheckReadable(c.value, r.valueType, r.data, |r.data|))
  }

  /** What model_write makes of an input when something is received for it. */
  function WrittenInput(was: Value, c: Option<IoConstraint>, enforce: bool, r: Received, libc: Libc): Value
    requires InBytes(r, c)
  {
    Outcome(was, c, enforce, r.valueType, Some(r.data), |r.data|, libc)
  }

  /**
   * An input of the same type that is linked to a published output ends equal to it, up to a NUL
   * inside a string, unless that breaks an enforced constraint; then it stays as it was.
   */
  lemma InputEndsEqual(uuid: string, o: Output, timestamp: int, p: Packing,
                       was: Value, c: Option<IoConstraint>, enforce: bool, libc: Libc)
    requires SentOk(uuid, o, timestamp, p)
    requires TypeOf(was) == TypeOf(o.value) && (c.Some? ==> Fits(c.value, TypeOf(was)))
    ensures var arrival := Arrived(Published(uuid, o, timestamp, p), p);
            && arrival.From? && |arrival.reading.all| == 1
            && var r := arrival.reading.all[0];
               && InBytes(r, c)
               && WrittenInput(was, c, enforce, r, libc) ==
                  if Refused(c, enforce, o.value, libc) then was else Duplicate(o.value)
    ensures Duplicate(o.value) == o.value <==> WellSized(o.value)
  {
    PublicationRoundTrip(uuid, o, timestamp, p);
    SameTypeOutcome(was, c, enforce, o.value, libc);
    DuplicateSameIff(o.value);
  }

  /** What an output is in a reply: the text "" is NULL. */
  function InReply(v: Value): Value {
    if v.StringV? && CString(v.mem) == [] then StringV([]) else Duplicate(v)
  }

  /** With CURRENT_OUTPUTS too, but an input linked to an output with the text "" ends as NULL. */
  lemma CurrentInputEndsEqual(o: Output, p: Packing, was: Value, c: Option<IoConstraint>, enforce: bool, libc: Libc)
    requires OutputOk(o) && !Skipped(o.value)
    requires TypeOf(was) == TypeOf(o.value) && (c.Some? ==> Fits(c.value, TypeOf(was)))
    ensures var all := ReadFrom(CurrentOutputs([o]), INT64_MIN, p).all;
            && |all| == 1
            && var r := all[0];
               && InBytes(r, c)
               && WrittenInput(was, c, enforce, r, libc) ==
                  if Refused(c, enforce, InReply(o.value), libc) then was else InReply(o.value)
  {
    assert [o][..0] == [] && CurrentOutputs([]) == [] && CurrentReceived([]) == [];
    CurrentOutputsRoundTrip([o], p);
    assert CurrentReceived([o]) == [Received(o.name, TypeOf(o.value), Seen(o.value), INT64_MIN)];
    InReplyIsSeen(o.value);
    SameTypeOutcome(was, c, enforce, InReply(o.value), libc);
  }

  lemma InReplyIsSeen(v: Value)
    requires Terminated(v)
    ensures var r := InReply(v); TypeOf(r) == TypeOf(v) && Terminated(r) && MemoryOf(r) == Seen(v) && Duplicate(r) == r
  {
    if v.StringV? {
      OwnedText(CString(v.mem));
    }
  }

  // ------------------------------------------------------------ the handlers

  /** The message of network_publish_output, frame by frame; the receiver makes the output of it again. */
  method PublishOutput(uuid: string, o: Output, timestamp: int, p: Packing) returns (msg: seq<Bytes>)
    requires IsInt64(timestamp)
    ensures msg == Published(uuid, o, timestamp, p)
    ensures SentOk(uuid, o, timestamp, p) ==>
              Arrived(msg, p) ==
              From(uuid, Reading([Received(o.name, TypeOf(o.value), MemoryOf(o.value), timestamp)], Complete))
  {
    msg := [uuid + "-" + o.name];
    if timestamp == INT64_MIN {
      msg := msg + [PrintInt(Code(TypeOf(o.value)))];
    }
    if !o.value.UnknownV? {
      if timestamp != INT64_MIN {
        msg := msg + [PrintInt(Code(TypeOf(o.value)) + DATA_CODE)];
        msg := msg + [p.pack([MemoryOf(o.value), Int64Bytes(timestamp)])];
      } else {
        msg := msg + [MemoryOf(o.value)];
      }
    }
    assert msg == Published(uuid, o, timestamp, p);
    if SentOk(uuid, o, timestamp, p) {
      PublicationRoundTrip(uuid, o, timestamp, p);
    }
  }

  /** The answer to GET_CURRENT_OUTPUTS. */
  method AnswerCurrentOutputs(outputs: seq<Output>) returns (msg: seq<Bytes>)
    ensures msg == CurrentOutputs(outputs)
    ensures exists at :: FramesOfReply(outputs, at, msg)
  {
    msg := [];
    var i := 0;
    while i < |outputs|
      invariant 0 <= i <= |outputs|
      invariant msg == CurrentOutputs(outputs[..i])
    {
      assert outputs[..i + 1][..i] == outputs[..i];
      var o := outputs[i];
      if !Skipped(o.value) {
        msg := msg + [o.name, PrintInt(Code(TypeOf(o.value))), CurrentBytes(o.value)];
      }
      i := i + 1;
    }
    assert outputs[..i] == outputs;
    ReplyFrames(outputs);
  }

  /** The first triple from the k-th on after which the remote agent is not there any more, or n. */
  function LastHandled(there: nat -> bool, n: nat, k: nat): (g: nat)
    requires k <= n
    ensures k <= g <= n && (g < n ==> !there(g))
    ensures forall j :: k <= j < g ==> there(j)
    decreases n - k
  {
    if k == n || !there(k) then k else LastHandled(there, n, k + 1)
  }

  /** What is read when `there` says whether the remote agent still exists after each triple. */
  function WhileThere(r: Reading, there: nat -> bool): Reading {
    var k := LastHandled(there, |r.all|, 0);
    if k + 1 < |r.all| || (k < |r.all| && !r.ending.Complete?) then Reading(r.all[..k + 1], Gone) else r
  }

  /** Everything is read while the agent is there; nothing is read after the first triple without it. */
  lemma WhileThereIs(r: Reading, there: nat -> bool, k: nat)
    requires k <= |r.all| && forall j :: 0 <= j < k ==> there(j)
    ensures k == |r.all| ==> WhileThere(r, there) == r
    ensures k < |r.all| && !there(k) ==>
              WhileThere(r, there) ==
              if k + 1 < |r.all| || r.ending != Complete then Reading(r.all[..k + 1], Gone) else r
  {
    if k == |r.all| || !there(k) {
      LastHandledIs(there, |r.all|, 0, k);
    }
  }

  /** The loop of s_handle_publication that takes three frames at a time. */
  method HandlePublication(msg: seq<Bytes>, p: Packing, there: nat -> bool) returns (reading: Reading)
    ensures reading == WhileThere(ReadFrom(msg, INT64_MIN, p), there)
  {
    var all: seq<Received>, ending := [], Complete;
    var timestamp, rest, i, here := INT64_MIN, msg, 0, true;
    while i < |msg| && ending.Complete? && here
      invariant 0 <= i && |rest| == if i < |msg| then |msg| - i else 0
      invariant ending.Complete? ==> ReadFrom(msg, INT64_MIN, p) == Then(Reading(all, Complete), ReadFrom(rest, timestamp, p))
      invariant !ending.Complete? ==> here && ReadFrom(msg, INT64_MIN, p) == Reading(all, ending)
      invariant Watched(there, |all|, here)
      decreases |msg| - i, ending.Complete?
    {
      if |rest| < 3 {
        ending := Rejected;
        assert all + [] == all;
      } else {
        var one := ReadTriple(rest[0], rest[1], rest[2], timestamp, p);
        HandleStep(Reading(all, Complete), rest, timestamp, p);
        ending := one.ending;
        if ending.Complete? {
          WatchedOneMore(there, |all|);
          all := all + one.all;
          timestamp := one.all[0].timestamp;
          rest := rest[3..];
          i := i + 3;
          here := there(|all| - 1);
        }
      }
    }
    reading := Reading(all, if here || i >= |msg| then ending else Gone);
    if ending.Complete? {
      Stopped(all, rest, timestamp, p, there, here);
    } else {
      LastHandledIs(there, |all|, 0, |all|);
    }
  }

  /** The remote agent was there after every triple but perhaps the last one. */
  ghost predicate Watched(there: nat -> bool, n: nat, here: bool) {
    && (forall j :: 0 <= j < n && (here || j < n - 1) ==> there(j))
    && (!here ==> n > 0 && !there(n - 1))
  }

  lemma WatchedOneMore(there: nat -> bool, n: nat)
    requires Watched(there, n, true)
    ensures Watched(there, n + 1, there(n))
  {
  }

  lemma {:induction false} LastHandledIs(there: nat -> bool, n: nat, k: nat, g: nat)
    requires k <= g <= n && (g < n ==> !there(g)) && forall j :: k <= j < g ==> there(j)
    ensures LastHandled(there, n, k) == g
    decreases g - k
  {
    if k < g {
      LastHandledIs(there, n, k + 1, g);
    }
  }

  /** The loop has stopped at the end of the frames or where the agent is gone. */
  lemma Stopped(all: seq<Received>, rest: seq<Bytes>, timestamp: int, p: Packing, there: nat -> bool, here: bool)
    requires (here ==> rest == []) && Watched(there, |all|, here)
    ensures WhileThere(Then(Reading(all, Complete), ReadFrom(rest, timestamp, p)), there) ==
            Reading(all, if rest == [] then Complete else Gone)
  {
    var tail := ReadFrom(rest, timestamp, p);
    var r := Then(Reading(all, Complete), tail);
    if rest == [] {
      assert tail == Reading([], Complete) && all + [] == all;
      LastHandledIs(there, |all|, 0, if here then |all| else |all| - 1);
    } else {
      SomethingRead(rest, timestamp, p);
      LastHandledIs(there, |r.all|, 0, |all| - 1);
      assert r.all[..|all|] == all;
    }
  }

  lemma SomethingRead(frames: seq<Bytes>, timestamp: int, p: Packing)
    requires frames != []
    ensures ReadFrom(frames, timestamp, p).all != [] || !ReadFrom(frames, timestamp, p).ending.Complete?
  {
    if ReadFrom(frames, timestamp, p).ending.Complete? {
      ReadOn(frames, timestamp, p);
    }
  }

  lemma HandleStep(done: Reading, rest: seq<Bytes>, timestamp: int, p: Packing)
    requires |rest| >= 3
    ensures var one := ReadTriple(rest[0], rest[1], rest[2], timestamp, p);
            if one.ending.Complete? then
              |one.all| == 1 &&
              Then(done, ReadFrom(rest, timestamp, p)) == Then(Then(done, one), ReadFrom(rest[3..], one.all[0].timestamp, p))
            else Then(done, ReadFrom(rest, timestamp, p)) == Reading(done.all, one.ending)
  {
    var one := ReadTriple(rest[0], rest[1], rest[2], timestamp, p);
    if one.ending.Complete? {
      OneRead(rest[0], rest[1], rest[2], timestamp, p);
      ThenAssoc(done, one, ReadFrom(rest[3..], one.all[0].timestamp, p));
    } else {
      assert one.all == [] && done.all + [] == done.all;
    }
  }

  /** A message that network_publish_output sends. */
  ghost predicate IsPublication(msg: seq<Bytes>, uuid: string, o: Output, timestamp: int, p: Packing) {
    SentOk(uuid, o, timestamp, p) && msg == Published(uuid, o, timestamp, p)
  }

  /**
   * s_manage_received_publication: the publication id is cut into the uuid and the name of the
   * output. Whatever output was published is received as it was.
   */
  method ReceivePublication(msg: seq<Bytes>, p: Packing, there: nat -> bool) returns (arrival: Arrival)
    ensures arrival ==
            match Arrived(msg, p)
            case From(uuid, reading) => From(uuid, WhileThere(reading, there))
            case other => other
    ensures arrival.TooShort? <==> msg == [] || |CString(msg[0])| < 32
    ensures arrival.OutOfBounds? <==> msg != [] && |CString(msg[0])| == 32
    ensures arrival.From? ==> arrival.uuid == CString(msg[0])[..32]
    ensures forall uuid, o, timestamp :: IsPublication(msg, uuid, o, timestamp, p) ==>
              arrival ==
              From(uuid, Reading([Received(o.name, TypeOf(o.value), MemoryOf(o.value), timestamp)], Complete))
  {
    arrival := TooShort;
    if msg != [] && |CString(msg[0])| >= UUID_LENGTH {
      var id := CString(msg[0]);
      if |id| == UUID_LENGTH {
        arrival := OutOfBounds;
      } else {
        var reading := HandlePublication([id[UUID_LENGTH + 1..]] + msg[1..], p, there);
        arrival := From(id[..UUID_LENGTH], reading);
      }
    }
    forall uuid, o, timestamp | IsPublication(msg, uuid, o, timestamp, p)
      ensures arrival ==
              From(uuid, Reading([Received(o.name, TypeOf(o.value), MemoryOf(o.value), timestamp)], Complete))
    {
      PublicationRoundTrip(uuid, o, timestamp, p);
    }
  }
}
