/**
 * Service calls on the wire: the encoding of igsagent_service_call and the reading of
 * service_make_values_to_arguments_from_message (src/igs_service.c), with the handler of
 * the message in src/igs_network.c.
 *
 * Messages are the frames behind the title, the two uuids, the service name and the token.
 */
module ServiceCall {
  import opened Options
  import opened CStrings
  import opened Wire
  import opened Definitions
  import opened ModelWrite
  import opened ServiceArgs

  /** The frames before the arguments, which the first count of frames includes. */
  const HEAD_FRAMES: nat := 5

  // ------------------------------------------------------------ the caller

  predicate Sendable(a: CallArg) {
    && !a.value.ImpulsionV? && !a.value.UnknownV?
    && (a.value.DataV? ==> a.size == |a.value.data|)
    && (a.value.StringV? && a.size > 0 ==> NUL in a.value.mem || a.value.mem == [])
  }

  /** A bool takes as many bytes as an int; those behind it are zero since the argument was allocated. */
  function Frame(a: CallArg): Bytes {
    match a.value
    case BoolV(b) => Int32Bytes(if b then 1 else 0)
    case StringV(mem) => if mem != [] && a.size > 0 then Owned(CString(mem)) else []
    case _ => MemoryOf(a.value)
  }

  function Frames(args: seq<CallArg>): seq<Bytes> {
    seq(|args|, i requires 0 <= i < |args| => Frame(args[i]))
  }

  /** The message of a call; only a caller with timestamps enabled adds one. */
  function Call(args: seq<CallArg>, stamp: Option<int>): seq<Bytes>
    requires stamp.Some? ==> IsInt64(stamp.value)
  {
    Frames(args) + match stamp { case None => [] case Some(t) => [Int64Bytes(t)] }
  }

  // ------------------------------------------------------------ the callee

  /** How many bytes of a frame are copied into an argument. */
  function Copied(t: ValueType): nat {
    match t
    case IntegerT => INT_SIZE
    case DoubleT => DOUBLE_SIZE
    case BoolT => BOOL_SIZE
    case _ => 0
  }

  function ValueIn(t: ValueType, f: Bytes): Value
    requires Copied(t) <= |f|
  {
    match t
    case IntegerT => IntV(IntAt(f))
    case DoubleT => DoubleV(DoubleAt(f))
    case BoolT => BoolV(f[0] != NUL)
    case StringT => StringV(f)
    case DataT => DataV(f)
    case ImpulsionT => ImpulsionV
    case UnknownT => UnknownV
  }

  function ReadArg(defined: CallArg, f: Bytes): CallArg
    requires Copied(TypeOf(defined.value)) <= |f|
  {
    CallArg(defined.name, None, ValueIn(TypeOf(defined.value), f), |f|)
  }

  /** No argument is copied from a frame that is too short for it. */
  predicate LongEnough(defined: seq<CallArg>, frames: seq<Bytes>) {
    forall i :: 0 <= i < |defined| && i < |frames| ==> Copied(TypeOf(defined[i].value)) <= |frames[i]|
  }

  function ReadArgs(defined: seq<CallArg>, frames: seq<Bytes>): (args: seq<CallArg>)
    requires LongEnough(defined, frames) && |defined| <= |frames|
    ensures |args| == |defined|
    ensures forall i :: 0 <= i < |defined| ==> args[i] == ReadArg(defined[i], frames[i])
  {
    seq(|defined|, i requires 0 <= i < |defined| => ReadArg(defined[i], frames[i]))
  }

  datatype Outcome =
    /** A frame is read past its end. */
    | OverRead
    /** Frames are missing. */
    | Refused
    /** What follows the arguments is no timestamp. */
    | Corrupt
    /** The callback gets these. */
    | Called(args: seq<CallArg>, timestamp: int)

  function Handled(defined: seq<CallArg>, frames: seq<Bytes>): Outcome {
    var n := |defined|;
    if HEAD_FRAMES + |frames| < n then Refused
    else if !LongEnough(defined, frames) then OverRead
    else if |frames| < n then Refused
    else if |frames| == n then Called(ReadArgs(defined, frames), INT64_MIN)
    else if |frames[n]| == STAMP_SIZE then Called(ReadArgs(defined, frames), ReadInt(frames[n]))
    else Corrupt
  }

  // ------------------------------------------------------------ the round trip

  /** The arguments have the types of the first defined ones. */
  ghost predicate TypesMatch(args: seq<CallArg>, defined: seq<CallArg>) {
    forall i :: 0 <= i < |args| && i < |defined| ==> TypeOf(args[i].value) == TypeOf(defined[i].value)
  }

  /** As igs_service_args_add_* makes them. */
  ghost predicate Built(args: seq<CallArg>) {
    forall i :: 0 <= i < |args| ==>
      var v := args[i].value;
      Sendable(args[i]) && Terminated(v) && WellSized(v) && (v.StringV? ==> args[i].size == |v.mem|)
  }

  /** What the callback finds in place of an argument: a bool has the size of an int. */
  function Arrives(a: CallArg, defined: CallArg): CallArg {
    CallArg(defined.name, None, a.value, if a.value.BoolV? then INT_SIZE else SizeOf(a.value))
  }

  lemma FrameRead(a: CallArg, defined: CallArg)
    requires Built([a]) && TypeOf(a.value) == TypeOf(defined.value)
    ensures Copied(TypeOf(defined.value)) <= |Frame(a)|
    ensures ReadArg(defined, Frame(a)) == Arrives(a, defined)
  {
    assert [a][0] == a;
    match a.value
    case IntV(n) => Int32RoundTrip(n); assert Int32Bytes(n)[..INT_SIZE] == Int32Bytes(n);
    case BoolV(b) => FirstByte(b);
    case DoubleV(d) => assert d[..DOUBLE_SIZE] == d;
    case StringV(mem) => if mem != [] { assert mem == Owned(CString(mem)); }
    case _ =>
  }

  /** The frames by type: a bool goes as the four bytes of an int, a text with its NUL. */
  lemma FrameIs(a: CallArg)
    requires Built([a])
    ensures match a.value
            case IntV(n) => Frame(a) == Int32Bytes(n)
            case DoubleV(d) => Frame(a) == d
            case BoolV(b) => Frame(a) == [if b then 1 as char else 0 as char, 0 as char, 0 as char, 0 as char]
            case StringV(mem) => Frame(a) == mem
            case DataV(data) => Frame(a) == data
            case ImpulsionV => false
            case UnknownV => false
  {
    assert [a][0] == a;
    if a.value.StringV? && a.value.mem != [] {
      assert a.value.mem == Owned(CString(a.value.mem));
    }
    if a.value.BoolV? {
      Int32Memory(if a.value.b then 1 else 0);
      var bytes := Int32Bytes(if a.value.b then 1 else 0);
      assert bytes == [bytes[0], bytes[1], bytes[2], bytes[3]];
    }
  }

  lemma FirstByte(b: bool)
    ensures Int32Bytes(if b then 1 else 0)[0] == if b then 1 as char else NUL
  {
    Spans();
  }

  /** Whatever is sent with matching types can be copied, also where a timestamp is read as an argument. */
  lemma SentIsLongEnough(args: seq<CallArg>, defined: seq<CallArg>, stamp: Option<int>)
    requires Built(args) && TypesMatch(args, defined) && (stamp.Some? ==> IsInt64(stamp.value))
    ensures LongEnough(defined, Call(args, stamp))
  {
    var frames := Call(args, stamp);
    forall i | 0 <= i < |defined| && i < |frames|
      ensures Copied(TypeOf(defined[i].value)) <= |frames[i]|
    {
      if i < |args| {
        assert frames[i] == Frame(args[i]);
        assert [args[i]][0] == args[i];
        FrameRead(args[i], defined[i]);
      }
    }
  }

  /** All arguments arrive in order under the defined names, with the timestamp of the caller or none. */
  lemma CallRoundTrip(args: seq<CallArg>, defined: seq<CallArg>, stamp: Option<int>)
    requires Built(args) && |args| == |defined| && TypesMatch(args, defined)
    requires stamp.Some? ==> IsInt64(stamp.value)
    ensures LongEnough(defined, Call(args, stamp))
    ensures Handled(defined, Call(args, stamp)) ==
            Called(seq(|args|, i requires 0 <= i < |args| => Arrives(args[i], defined[i])),
                   if stamp.Some? then stamp.value else INT64_MIN)
  {
    SentIsLongEnough(args, defined, stamp);
    var frames := Call(args, stamp);
    var arrived := seq(|args|, i requires 0 <= i < |args| => Arrives(args[i], defined[i]));
    var read := ReadArgs(defined, frames);
    forall i | 0 <= i < |args|
      ensures read[i] == arrived[i]
    {
      assert frames[i] == Frame(args[i]);
      assert [args[i]][0] == args[i];
      FrameRead(args[i], defined[i]);
    }
    assert read == arrived;
    if stamp.Some? {
      assert frames[|args|] == Int64Bytes(stamp.value);
      Int64RoundTrip(stamp.value);
    }
  }

  /** Each argument has the name in the definition and the value that was sent. */
  lemma ArrivedAsSent(args: seq<CallArg>, defined: seq<CallArg>, stamp: Option<int>, i: nat)
    requires Built(args) && |args| == |defined| && TypesMatch(args, defined) && i < |args|
    requires stamp.Some? ==> IsInt64(stamp.value)
    ensures LongEnough(defined, Call(args, stamp))
    ensures var outcome := Handled(defined, Call(args, stamp));
            && outcome.Called? && |outcome.args| == |args|
            && outcome.args[i].name == defined[i].name && outcome.args[i].value == args[i].value
            && outcome.args[i].size == if args[i].value.BoolV? then 4 else SizeOf(args[i].value)
    ensures var outcome := Handled(defined, Call(args, stamp));
            outcome.timestamp == if stamp.Some? then stamp.value else INT64_MIN
  {
    CallRoundTrip(args, defined, stamp);
  }

  /** An integer takes four bytes of its frame, a double eight, a bool one; a text and data take all there are. */
  ghost predicate TooShort(defined: CallArg, f: Bytes) {
    match TypeOf(defined.value)
    case IntegerT => |f| < 4
    case DoubleT => |f| < 8
    case BoolT => |f| < 1
    case _ => false
  }

  ghost predicate SomeTooShort(defined: seq<CallArg>, frames: seq<Bytes>) {
    exists i :: 0 <= i < |defined| && i < |frames| && TooShort(defined[i], frames[i])
  }

  lemma LongEnoughIff(defined: seq<CallArg>, frames: seq<Bytes>)
    ensures LongEnough(defined, frames) <==> !SomeTooShort(defined, frames)
  {
  }

  /** What comes of any frames at all. */
  lemma OutcomeIff(defined: seq<CallArg>, frames: seq<Bytes>)
    ensures var outcome, n, short := Handled(defined, frames), |defined|, SomeTooShort(defined, frames);
            && (outcome.Refused? <==> |frames| + 5 < n || (!short && |frames| < n))
            && (outcome.OverRead? <==> |frames| + 5 >= n && short)
            && (outcome.Corrupt? <==> !short && |frames| > n && |frames[n]| != 8)
            && (outcome.Called? <==> !short && (|frames| == n || (|frames| > n && |frames[n]| == 8)))
            && (outcome.Called? ==>
                  |outcome.args| == n && outcome.timestamp == if |frames| == n then INT64_MIN else ReadInt(frames[n]))
  {
    LongEnoughIff(defined, frames);
  }

  /** The value that is read of a frame, by the type in the definition. */
  lemma ReadByType(defined: seq<CallArg>, frames: seq<Bytes>, i: nat)
    requires Handled(defined, frames).Called? && i < |defined|
    ensures |frames| >= |defined| && !TooShort(defined[i], frames[i])
    ensures var a, f := Handled(defined, frames).args[i], frames[i];
            && a.name == defined[i].name && a.description == None && a.size == |f|
            && match TypeOf(defined[i].value)
               case IntegerT => a.value == IntV(IntAt(f))
               case DoubleT => a.value == DoubleV(f[..8])
               case BoolT => a.value == BoolV(f[0] != 0 as char)
               case StringT => a.value == StringV(f)
               case DataT => a.value == DataV(f)
               case ImpulsionT => a.value == ImpulsionV
               case UnknownT => a.value == UnknownV
  {
    OutcomeIff(defined, frames);
    assert SomeTooShort(defined, frames) || !TooShort(defined[i], frames[i]);
  }

  // ------------------------------------------------------------ calls with a wrong number of arguments

  /**
   * A call is refused just when arguments are missing and no timestamp takes their place: one
   * missing argument goes unnoticed when timestamps are enabled.
   */
  lemma RefusedIff(args: seq<CallArg>, defined: seq<CallArg>, stamp: Option<int>)
    requires Built(args) && TypesMatch(args, defined) && (stamp.Some? ==> IsInt64(stamp.value))
    ensures LongEnough(defined, Call(args, stamp))
    ensures Handled(defined, Call(args, stamp)).Refused? <==>
            |args| + (if stamp.Some? then 1 else 0) < |defined|
  {
    SentIsLongEnough(args, defined, stamp);
  }

  /** The one missing argument is read from the timestamp, and the callback sees no timestamp. */
  lemma StampTakenForArgument(args: seq<CallArg>, defined: seq<CallArg>, stamp: int)
    requires Built(args) && TypesMatch(args, defined) && IsInt64(stamp) && |args| + 1 == |defined|
    ensures LongEnough(defined, Call(args, Some(stamp)))
    ensures var outcome, last := Handled(defined, Call(args, Some(stamp))), defined[|args|];
            && outcome.Called? && outcome.timestamp == INT64_MIN
            && |outcome.args| == |defined| && outcome.args[|args|] == ReadArg(last, Int64Bytes(stamp))
  {
    SentIsLongEnough(args, defined, Some(stamp));
    assert Call(args, Some(stamp))[|args|] == Int64Bytes(stamp);
  }

  /** Arguments too many are noticed unless the first of them takes 8 bytes. */
  lemma ExtraNoticedIff(args: seq<CallArg>, defined: seq<CallArg>, stamp: Option<int>)
    requires Built(args) && TypesMatch(args, defined) && (stamp.Some? ==> IsInt64(stamp.value))
    requires |args| > |defined|
    ensures LongEnough(defined, Call(args, stamp))
    ensures Handled(defined, Call(args, stamp)).Corrupt? <==> |Frame(args[|defined|])| != STAMP_SIZE
  {
    SentIsLongEnough(args, defined, stamp);
    assert Call(args, stamp)[|defined|] == Frame(args[|defined|]);
  }

  /** An agent of the same process is called just when the number of arguments is right. */
  predicate CalledLocally(args: seq<CallArg>, defined: seq<CallArg>) {
    |args| == |defined|
  }

  /** Calls over the network and inside the process agree just when no 8 bytes are taken for something else. */
  lemma RemoteAgreesWithLocalIff(args: seq<CallArg>, defined: seq<CallArg>, stamp: Option<int>)
    requires Built(args) && TypesMatch(args, defined) && (stamp.Some? ==> IsInt64(stamp.value))
    ensures LongEnough(defined, Call(args, stamp))
    ensures (Handled(defined, Call(args, stamp)).Called? <==> CalledLocally(args, defined)) <==>
            && !(stamp.Some? && |args| + 1 == |defined|)
            && !(|args| > |defined| && |Frame(args[|defined|])| == STAMP_SIZE)
  {
    SentIsLongEnough(args, defined, stamp);
    RefusedIff(args, defined, stamp);
    if |args| > |defined| {
      ExtraNoticedIff(args, defined, stamp);
    } else if |args| == |defined| {
      CallRoundTrip(args, defined, stamp);
    } else if |args| + 1 == |defined| && stamp.Some? {
      StampTakenForArgument(args, defined, stamp.value);
    }
  }

  /** A cloned list of arguments makes the same call. */
  lemma CloneCallsTheSame(args: seq<CallArg>, stamp: Option<int>)
    requires Built(args) && (stamp.Some? ==> IsInt64(stamp.value))
    ensures Call(Cloned(args), stamp) == Call(args, stamp)
  {
    forall i | 0 <= i < |args|
      ensures Frame(Cloned(args)[i]) == Frame(args[i])
    {
      var v := args[i].value;
      if v.StringV? && v.mem != [] {
        OwnedText(CString(v.mem));
      }
    }
    assert Frames(Cloned(args)) == Frames(args);
  }

  // ------------------------------------------------------------ the loops over the lists

  /** The message of a call; the list must hold no type that has no frame. */
  method MakeCall(list: ArgList, stamp: Option<int>) returns (msg: seq<Bytes>)
    requires list.Valid() && (stamp.Some? ==> IsInt64(stamp.value))
    requires forall a :: a in list.Contents() ==> Sendable(a)
    ensures msg == Call(list.Contents(), stamp)
  {
    msg := [];
    var arg := list.first;
    ghost var i, args := 0, list.Contents();
    while arg != null
      invariant 0 <= i <= |args| && arg == NodeAt(list.nodes, i)
      invariant msg == Frames(args[..i])
      decreases |args| - i
    {
      assert LeadsOn(list.nodes, i) && arg.arg == args[i];
      FramesStep(args, i);
      msg := msg + [Frame(arg.arg)];
      arg := arg.next;
      i := i + 1;
    }
    assert args[..i] == args;
    if stamp.Some? {
      msg := msg + [Int64Bytes(stamp.value)];
    }
  }

  lemma FramesStep(args: seq<CallArg>, i: nat)
    requires i < |args|
    ensures Frames(args[..i + 1]) == Frames(args[..i]) + [Frame(args[i])]
  {
  }

  datatype Made = Complete | Missing | Overran

  /**
   * service_make_values_to_arguments_from_message: it takes its frames, or fails and leaves no
   * argument; a frame that is too short for its argument is read past its end.
   */
  method MakeValues(defined: ArgList, frames: seq<Bytes>) returns (made: Made, args: ArgList, rest: seq<Bytes>)
    requires defined.Valid()
    ensures defined.Valid() && args.Valid() && fresh(args)
    ensures made.Overran? <==> !LongEnough(defined.Contents(), frames)
    ensures made.Missing? <==> LongEnough(defined.Contents(), frames) && |frames| < |defined.Contents()|
    ensures made.Complete? ==> args.Contents() == ReadArgs(defined.Contents(), frames)
    ensures made.Complete? ==> rest == frames[|defined.Contents()|..]
    ensures made.Missing? ==> args.first == null && args.Contents() == []
  {
    args := new ArgList();
    rest := frames;
    var current := defined.first;
    ghost var i, all := 0, defined.Contents();
    while current != null
      invariant 0 <= i <= |all| && current == NodeAt(defined.nodes, i)
      invariant i <= |frames| && rest == frames[i..] && LongEnough(all[..i], frames)
      invariant args.Valid() && fresh(args) && fresh(args.nodes)
      invariant args.Contents() == ReadFirst(all, frames, i)
      decreases |all| - i
    {
      if rest == [] {
        EnoughForAll(all, frames, i);
        args := new ArgList();
        return Missing, args, rest;
      }
      assert current == defined.nodes[i] && current.arg == all[i] && LeadsOn(defined.nodes, i);
      assert rest[0] == frames[i];
      if |rest[0]| < Copied(TypeOf(current.arg.value)) {
        return Overran, args, rest;
      }
      ReadFirstStep(all, frames, i);
      var arg := ReadArg(current.arg, rest[0]);
      current, rest, i := current.next, rest[1..], i + 1;
      ghost var added := args.Append(arg);
    }
    made := Complete;
    EnoughForAll(all, frames, i);
    ReadFirstAll(all, frames, i);
  }

  /** When the frames or the arguments end, no other frame can be too short. */
  lemma EnoughForAll(defined: seq<CallArg>, frames: seq<Bytes>, n: nat)
    requires n <= |defined| && (n == |frames| || n == |defined|) && LongEnough(defined[..n], frames)
    ensures LongEnough(defined, frames)
  {
    forall i | 0 <= i < |defined| && i < |frames|
      ensures Copied(TypeOf(defined[i].value)) <= |frames[i]|
    {
      assert defined[..n][i] == defined[i];
    }
  }

  lemma ReadFirstAll(defined: seq<CallArg>, frames: seq<Bytes>, n: nat)
    requires n == |defined| <= |frames| && LongEnough(defined, frames) && LongEnough(defined[..n], frames)
    ensures ReadFirst(defined, frames, n) == ReadArgs(defined, frames)
  {
    assert defined[..n] == defined;
  }

  /** The first n arguments. */
  ghost function ReadFirst(defined: seq<CallArg>, frames: seq<Bytes>, n: nat): (args: seq<CallArg>)
    requires n <= |defined| && n <= |frames| && LongEnough(defined[..n], frames)
  {
    ReadArgs(defined[..n], frames)
  }

  lemma ReadFirstStep(defined: seq<CallArg>, frames: seq<Bytes>, n: nat)
    requires n < |defined| && n < |frames| && LongEnough(defined[..n], frames)
    requires Copied(TypeOf(defined[n].value)) <= |frames[n]|
    ensures LongEnough(defined[..n + 1], frames)
    ensures ReadFirst(defined, frames, n + 1) == ReadFirst(defined, frames, n) + [ReadArg(defined[n], frames[n])]
  {
  }

  /** The handler of a call: it counts the arguments, reads them and looks for a timestamp behind them. */
  method HandleCall(defined: ArgList, frames: seq<Bytes>) returns (outcome: Outcome)
    requires defined.Valid()
    ensures outcome == Handled(defined.Contents(), frames)
  {
    var arg, count := defined.first, 0;
    ghost var i := 0;
    while arg != null
      invariant 0 <= i <= |defined.nodes| && arg == NodeAt(defined.nodes, i) && count == i
      decreases |defined.nodes| - i
    {
      assert LeadsOn(defined.nodes, i);
      count := count + 1;
      arg := arg.next;
      i := i + 1;
    }
    outcome := Refused;
    if HEAD_FRAMES + |frames| >= count {
      var made, args, rest := MakeValues(defined, frames);
      if made.Overran? {
        outcome := OverRead;
      } else if made.Complete? {
        var values := ToSeq(args);
        if rest == [] {
          outcome := Called(values, INT64_MIN);
        } else if |rest[0]| == STAMP_SIZE {
          outcome := Called(values, ReadInt(rest[0]));
        } else {
          outcome := Corrupt;
        }
      }
    }
  }

  /** What a callback sees of a list. */
  method ToSeq(list: ArgList) returns (args: seq<CallArg>)
    requires list.Valid()
    ensures args == list.Contents()
  {
    args := [];
    var arg := list.first;
    ghost var i := 0;
    while arg != null
      invariant 0 <= i <= |list.nodes| && arg == NodeAt(list.nodes, i)
      invariant args == list.Contents()[..i]
      decreases |list.nodes| - i
    {
      assert LeadsOn(list.nodes, i);
      args := args + [arg.arg];
      arg := arg.next;
      i := i + 1;
    }
  }
}
