/** The LS-Net TCP receive path: `drainTcpPacketBuffer`, `handleParsedIncomingPacket` and
`pollTcpIncomingPackets` in src/lightspacenet/LightSpaceNetController.cpp.

Bytes arrive in reads of any size. `Drain` is what one drain of the buffer does; the theorems say
that the packets handled depend only on the bytes received, never on how the reads cut them. */
module LsNetReceiver {
  import opened Bytes
  import opened LsNetPacket
  import opened Options

  const PACKET_TYPE_BASIC: Byte := 0x01
  const PACKET_TYPE_COMMAND: Byte := 0x02
  const CMD_HEARTBEAT_RESPONSE: Byte := 0x04
  const CMD_COMMAND_ACK: Byte := 0x01
  const MAX_READS_PER_POLL: nat := 8

  // ----- finding the header -----

  predicate HeaderAt(buffer: seq<Byte>, i: nat)
  {
    i + 10 <= |buffer| && buffer[i..i + 10] == HEADER
  }

  ghost predicate NoHeaderBefore(buffer: seq<Byte>, k: nat)
  {
    forall j: nat :: j < k ==> !HeaderAt(buffer, j)
  }

  ghost predicate NoHeader(buffer: seq<Byte>)
  {
    forall j: nat :: !HeaderAt(buffer, j)
  }

  function FirstHeaderFrom(buffer: seq<Byte>, i: nat): (r: Option<nat>)
    requires i <= |buffer|
    ensures r.Some? ==> i <= r.value <= |buffer| && HeaderAt(buffer, r.value)
    ensures r.Some? ==> forall j: nat :: i <= j < r.value ==> !HeaderAt(buffer, j)
    ensures r.None? ==> forall j: nat :: i <= j ==> !HeaderAt(buffer, j)
    decreases |buffer| - i
  {
    if HeaderAt(buffer, i) then Some(i)
    else if i == |buffer| then None
    else FirstHeaderFrom(buffer, i + 1)
  }

  function FirstHeader(buffer: seq<Byte>): (r: Option<nat>)
    ensures r.Some? ==> r.value <= |buffer|
    ensures r.Some? ==> HeaderAt(buffer, r.value) && NoHeaderBefore(buffer, r.value)
    ensures r.None? ==> NoHeader(buffer)
  {
    FirstHeaderFrom(buffer, 0)
  }

  lemma FirstHeaderIs(buffer: seq<Byte>, i: nat)
    requires HeaderAt(buffer, i) && NoHeaderBefore(buffer, i)
    ensures FirstHeader(buffer) == Some(i)
  {
  }

  // ----- one drain -----

  predicate AckPayloadMatches(packet: Packet, commandWord: Byte)
  {
    && packet.packetType == PACKET_TYPE_COMMAND
    && packet.commandWord == CMD_COMMAND_ACK
    && |packet.payload| >= 2
    && var acknowledged := ReadBe16(packet.payload[0], packet.payload[1]);
       acknowledged == commandWord || LowByte(acknowledged) == commandWord
  }

  predicate IsHeartbeatResponse(packet: Packet)
  {
    packet.packetType == PACKET_TYPE_BASIC && packet.commandWord == CMD_HEARTBEAT_RESPONSE
  }

  /** Whether handling the packet reports the awaited acknowledgement; 0 awaits none. */
  predicate Acknowledges(packet: Packet, expected: Byte)
  {
    !IsHeartbeatResponse(packet) && expected != 0 && AckPayloadMatches(packet, expected)
  }

  /** What a drain leaves in the buffer, the packets it handled in order, the protocol errors it
      recorded, and whether it stopped at the awaited acknowledgement. */
  datatype Drained = Drained(rest: seq<Byte>, packets: seq<Packet>, errors: nat, acked: bool)
  {
    function Then(next: Drained): Drained
    {
      Drained(next.rest, packets + next.packets, errors + next.errors, next.acked)
    }
  }

  function KeepPartialHeader(buffer: seq<Byte>): (rest: seq<Byte>)
  {
    if |buffer| > 10 then buffer[|buffer| - 9..] else buffer
  }

  /** One turn of the drain loop: wait for more bytes, reject one byte, or accept a packet. */
  datatype Event = Wait(rest: seq<Byte>) | Reject(rest: seq<Byte>) | Accept(packet: Packet, rest: seq<Byte>)

  /** The turn when the buffer starts with a header. */
  function ScanAtHeader(b: seq<Byte>): (e: Event)
    requires HeaderAt(b, 0)
    ensures !e.Wait? ==> |e.rest| < |b|
  {
    if |b| < 12 then Wait(b)
    else
      var packetSize := ReadBe16(b[10], b[11]);
      if packetSize < OVERHEAD then Reject(b[1..])
      else if |b| < packetSize then Wait(b)
      else
        match Parse(b[..packetSize])
        case None => Reject(b[1..])
        case Some(p) => Accept(p, b[packetSize..])
  }

  function Scan(buffer: seq<Byte>): (e: Event)
    ensures !e.Wait? ==> |e.rest| < |buffer|
  {
    match FirstHeader(buffer)
    case None => Wait(KeepPartialHeader(buffer))
    case Some(i) => ScanAtHeader(buffer[i..])
  }

  lemma ScanWaits(buffer: seq<Byte>, i: nat)
    requires FirstHeader(buffer) == Some(i)
    requires var b := buffer[i..];
             |b| < 12 || (OVERHEAD <= ReadBe16(b[10], b[11]) && |b| < ReadBe16(b[10], b[11]))
    ensures Scan(buffer) == Wait(buffer[i..])
  {
  }

  lemma ScanTooSmall(buffer: seq<Byte>, i: nat)
    requires FirstHeader(buffer) == Some(i)
    requires var b := buffer[i..];
             |b| >= 12 && ReadBe16(b[10], b[11]) < OVERHEAD
    ensures Scan(buffer) == Reject(buffer[i..][1..])
  {
  }

  lemma ScanWhole(buffer: seq<Byte>, i: nat)
    requires FirstHeader(buffer) == Some(i)
    requires var b := buffer[i..];
             |b| >= 12 && OVERHEAD <= ReadBe16(b[10], b[11]) <= |b|
    ensures var b := buffer[i..];
            var packetSize := ReadBe16(b[10], b[11]);
            Scan(buffer) == match Parse(b[..packetSize])
                            case None => Reject(b[1..])
                            case Some(p) => Accept(p, b[packetSize..])
  {
    hide Parse;
  }

  function Drain(buffer: seq<Byte>, expected: Byte): Drained
    decreases |buffer|
  {
    match Scan(buffer)
    case Wait(rest) => Drained(rest, [], 0, false)
    case Reject(rest) => Drained([], [], 1, false).Then(Drain(rest, expected))
    case Accept(p, rest) =>
      if Acknowledges(p, expected) then Drained(rest, [p], 0, true)
      else Drained([], [p], 0, false).Then(Drain(rest, expected))
  }

  lemma {:induction false} AckIsLast(buffer: seq<Byte>, expected: Byte)
    requires Drain(buffer, expected).acked
    ensures var p := Drain(buffer, expected).packets;
            p != [] && Acknowledges(p[|p| - 1], expected)
    decreases |buffer|
  {
    hide Scan, Acknowledges;
    match Scan(buffer) {
      case Wait(_) =>
      case Reject(rest) => AckIsLast(rest, expected);
      case Accept(p, rest) => if !Acknowledges(p, expected) { AckIsLast(rest, expected); }
    }
  }

  /** None of these packets is an acknowledgement of `expected`. */
  ghost predicate NoneAcknowledges(packets: seq<Packet>, expected: Byte)
  {
    forall i :: 0 <= i < |packets| ==> !Acknowledges(packets[i], expected)
  }

  /** A drain stops at the first acknowledgement: only its last packet can be one, and is exactly when
      the drain says so. */
  lemma {:induction false} OnlyTheLastAcknowledges(buffer: seq<Byte>, expected: Byte)
    ensures var d := Drain(buffer, expected);
            if d.acked then d.packets != [] && NoneAcknowledges(d.packets[..|d.packets| - 1], expected)
            else NoneAcknowledges(d.packets, expected)
    decreases |buffer|
  {
    hide Scan, Acknowledges;
    match Scan(buffer) {
      case Wait(_) =>
      case Reject(rest) =>
        OnlyTheLastAcknowledges(rest, expected);
        assert [] + Drain(rest, expected).packets == Drain(rest, expected).packets;
      case Accept(p, rest) =>
        if !Acknowledges(p, expected) {
          OnlyTheLastAcknowledges(rest, expected);
          NoneAcknowledgesOfSum([p], Drain(rest, expected).packets, expected);
        }
    }
  }

  lemma NoneAcknowledgesOfSum(a: seq<Packet>, b: seq<Packet>, expected: Byte)
    requires NoneAcknowledges(a, expected)
    ensures NoneAcknowledges(b, expected) ==> NoneAcknowledges(a + b, expected)
    ensures b != [] && NoneAcknowledges(b[..|b| - 1], expected) ==>
              NoneAcknowledges((a + b)[..|a + b| - 1], expected)
  {
    if b != [] {
      assert (a + b)[..|a + b| - 1] == a + b[..|b| - 1];
    }
  }

  /** What is left of a drain, added to what has been done, is the whole drain. */
  ghost predicate StillToDo(left: Drained, handled: seq<Packet>, errors: nat,
                            whole: Drained, handled0: seq<Packet>, errors0: nat)
  {
    && handled + left.packets == handled0 + whole.packets
    && errors + left.errors == errors0 + whole.errors
    && left.rest == whole.rest
    && left.acked == whole.acked
  }

  lemma StillToDoMeans(left: Drained, handled: seq<Packet>, errors: nat,
                       whole: Drained, handled0: seq<Packet>, errors0: nat)
    ensures StillToDo(left, handled, errors, whole, handled0, errors0) <==>
            && handled + left.packets == handled0 + whole.packets
            && errors + left.errors == errors0 + whole.errors
            && left.rest == whole.rest
            && left.acked == whole.acked
  {
  }

  lemma StillToDoAfterReject(left: Drained, handled: seq<Packet>, errors: nat,
                             whole: Drained, handled0: seq<Packet>, errors0: nat)
    requires StillToDo(Drained([], [], 1, false).Then(left), handled, errors, whole, handled0, errors0)
    ensures StillToDo(left, handled, errors + 1, whole, handled0, errors0)
  {
  }

  lemma StillToDoAfterAccept(p: Packet, left: Drained, handled: seq<Packet>, errors: nat,
                             whole: Drained, handled0: seq<Packet>, errors0: nat)
    requires StillToDo(Drained([], [p], 0, false).Then(left), handled, errors, whole, handled0, errors0)
    ensures StillToDo(left, handled + [p], errors, whole, handled0, errors0)
  {
    assert handled + ([p] + left.packets) == (handled + [p]) + left.packets;
  }

  // ----- the receiver -----

  class TcpReceiver {
    var buffer: seq<Byte>
    var handled: seq<Packet>
    var heartbeatReplies: nat
    var protocolErrors: nat

    constructor ()
      ensures buffer == [] && handled == [] && heartbeatReplies == 0 && protocolErrors == 0
    {
      buffer, handled, heartbeatReplies, protocolErrors := [], [], 0, 0;
    }

    method HandlePacket(packet: Packet, expected: Byte) returns (ackMatched: bool)
      modifies this`handled, this`heartbeatReplies
      ensures handled == old(handled) + [packet]
      ensures heartbeatReplies == old(heartbeatReplies) + if IsHeartbeatResponse(packet) then 1 else 0
      ensures ackMatched == Acknowledges(packet, expected)
    {
      handled := handled + [packet];
      ackMatched := false;
      if IsHeartbeatResponse(packet) {
        heartbeatReplies := heartbeatReplies + 1;
        return;
      }
      if expected != 0 && AckPayloadMatches(packet, expected) {
        ackMatched := true;
      }
    }

    method DrainBuffer(expected: Byte) returns (ackMatched: bool)
      modifies this
      ensures var d := Drain(old(buffer), expected);
              && buffer == d.rest
              && handled == old(handled) + d.packets
              && protocolErrors == old(protocolErrors) + d.errors
              && ackMatched == d.acked
    {
      hide Parse, ReadBe16, Acknowledges, HeaderAt, FirstHeader, ScanAtHeader, StillToDo;
      StillToDoMeans(Drain(buffer, expected), handled, protocolErrors,
                     Drain(buffer, expected), handled, protocolErrors);
      while true
        invariant StillToDo(Drain(buffer, expected), handled, protocolErrors,
                            Drain(old(buffer), expected), old(handled), old(protocolErrors))
        decreases |buffer|
      {
        ghost var start, h, e := buffer, handled, protocolErrors;
        StillToDoMeans(Drain(start, expected), h, e,
                       Drain(old(buffer), expected), old(handled), old(protocolErrors));
        var header := FirstHeader(buffer);
        if header.None? {
          buffer := KeepPartialHeader(buffer);
          return false;
        }
        var b := buffer[header.value..];
        buffer := b;
        if |b| < 12 {
          ScanWaits(start, header.value);
          return false;
        }
        var packetSize := ReadBe16(b[10], b[11]);
        if packetSize < OVERHEAD {
          protocolErrors := protocolErrors + 1;
          buffer := b[1..];
          ScanTooSmall(start, header.value);
          StillToDoAfterReject(Drain(buffer, expected), h, e,
                               Drain(old(buffer), expected), old(handled), old(protocolErrors));
          continue;
        }
        if |b| < packetSize {
          ScanWaits(start, header.value);
          return false;
        }
        var packet := Parse(b[..packetSize]);
        if packet.None? {
          protocolErrors := protocolErrors + 1;
          buffer := b[1..];
          ScanWhole(start, header.value);
          StillToDoAfterReject(Drain(buffer, expected), h, e,
                               Drain(old(buffer), expected), old(handled), old(protocolErrors));
          continue;
        }
        var packetAckMatched := HandlePacket(packet.value, expected);
        buffer := b[packetSize..];
        ScanWhole(start, header.value);
        if packetAckMatched {
          return true;
        }
        StillToDoAfterAccept(packet.value, Drain(buffer, expected), h, e,
                             Drain(old(buffer), expected), old(handled), old(protocolErrors));
      }
      ackMatched := false;
    }

    /** One poll: drain what is buffered, then read and drain until the reads run out, eight have
        been made, or the awaited acknowledgement arrives. An empty read ends the poll. The answer says
        exactly whether the last packet is that acknowledgement; no other packet is. */
    method Poll(chunks: seq<seq<Byte>>, expected: Byte) returns (ackMatched: bool, ghost used: nat)
      modifies this
      ensures used <= |chunks| && used <= 8
      ensures var f := FeedAll(old(buffer), [Step([], expected)] + Steps(chunks[..used], expected));
              && buffer == f.rest
              && handled == old(handled) + f.packets
              && protocolErrors == old(protocolErrors) + f.errors
              && (if ackMatched then
                    && f.packets != [] && Acknowledges(f.packets[|f.packets| - 1], expected)
                    && NoneAcknowledges(f.packets[..|f.packets| - 1], expected)
                  else NoneAcknowledges(f.packets, expected))
      ensures !ackMatched ==> used == |chunks| || used == 8 || chunks[used] == []
    {
      hide Drain, FeedAll, Acknowledges, NoneAcknowledges;
      used := 0;
      ghost var b0 := buffer;
      FeedOne(b0, Step([], expected));
      assert b0 + [] == b0;
      OnlyTheLastAcknowledges(b0, expected);
      if Drain(b0, expected).acked { AckIsLast(b0, expected); }
      ackMatched := DrainBuffer(expected);
      if ackMatched {
        assert [Step([], expected)] + Steps(chunks[..0], expected) == [Step([], expected)];
        return;
      }
      ghost var steps: seq<Step> := [Step([], expected)];
      assert steps + Steps(chunks[..0], expected) == steps;
      var i := 0;
      while i < MAX_READS_PER_POLL
        invariant used == i <= |chunks| && i <= MAX_READS_PER_POLL
        invariant var f := FeedAll(b0, steps + Steps(chunks[..i], expected));
                  && buffer == f.rest
                  && handled == old(handled) + f.packets
                  && protocolErrors == old(protocolErrors) + f.errors
                  && NoneAcknowledges(f.packets, expected)
      {
        if i == |chunks| || chunks[i] == [] {
          return false, used;
        }
        ghost var sofar := steps + Steps(chunks[..i], expected);
        buffer := buffer + chunks[i];
        ghost var d := Drain(buffer, expected);
        OnlyTheLastAcknowledges(buffer, expected);
        if d.acked { AckIsLast(buffer, expected); }
        NoneAcknowledgesOfSum(FeedAll(b0, sofar).packets, d.packets, expected);
        ackMatched := DrainBuffer(expected);
        FeedSnoc(b0, sofar, Step(chunks[i], expected));
        assert chunks[..i + 1] == chunks[..i] + [chunks[i]];
        assert steps + Steps(chunks[..i + 1], expected) == sofar + [Step(chunks[i], expected)];
        i := i + 1;
        used := i;
        if ackMatched {
          return;
        }
      }
      ackMatched := false;
    }
  }

  // ----- runs of reads -----

  /** Bytes appended to the buffer, followed by one drain awaiting `expected`. */
  datatype Step = Step(chunk: seq<Byte>, expected: Byte)

  ghost function Steps(chunks: seq<seq<Byte>>, expected: Byte): (s: seq<Step>)
    ensures |s| == |chunks|
    ensures forall i :: 0 <= i < |chunks| ==> s[i] == Step(chunks[i], expected)
  {
    seq(|chunks|, i requires 0 <= i < |chunks| => Step(chunks[i], expected))
  }

  ghost function Stream(steps: seq<Step>): seq<Byte>
  {
    if steps == [] then [] else steps[0].chunk + Stream(steps[1..])
  }

  ghost function FeedAll(buffer: seq<Byte>, steps: seq<Step>): Drained
    decreases |steps|
  {
    if steps == [] then Drained(buffer, [], 0, false)
    else
      var first := Drain(buffer + steps[0].chunk, steps[0].expected);
      first.Then(FeedAll(first.rest, steps[1..]))
  }

  lemma FeedOne(buffer: seq<Byte>, step: Step)
    ensures var f := FeedAll(buffer, [step]);
            var d := Drain(buffer + step.chunk, step.expected);
            f.rest == d.rest && f.packets == d.packets && f.errors == d.errors
  {
    hide Drain;
    assert [step][1..] == [];
  }

  lemma {:induction false} FeedSnoc(buffer: seq<Byte>, steps: seq<Step>, step: Step)
    ensures var f := FeedAll(buffer, steps);
            var d := Drain(f.rest + step.chunk, step.expected);
            var g := FeedAll(buffer, steps + [step]);
            && g.rest == d.rest
            && g.packets == f.packets + d.packets
            && g.errors == f.errors + d.errors
    decreases |steps|
  {
    hide Drain;
    if steps == [] {
      FeedOne(buffer, step);
      assert steps + [step] == [step];
    } else {
      var first := Drain(buffer + steps[0].chunk, steps[0].expected);
      FeedSnoc(first.rest, steps[1..], step);
      assert (steps + [step])[1..] == steps[1..] + [step];
      assert (steps + [step])[0] == steps[0];
      var d := Drain(FeedAll(buffer, steps).rest + step.chunk, step.expected);
      assert first.packets + (FeedAll(first.rest, steps[1..]).packets + d.packets)
          == (first.packets + FeedAll(first.rest, steps[1..]).packets) + d.packets;
    }
  }

  // ----- leftovers -----

  /** What of a leftover can still matter: bytes that cannot start a header are forgotten. */
  ghost function Essential(rest: seq<Byte>): seq<Byte>
  {
    if FirstHeader(rest).None? && |rest| > 9 then rest[|rest| - 9..] else rest
  }

  /** The same packets, the same errors, and leftovers that differ in dead bytes only. */
  ghost predicate SameOutcome(d: Drained, e: Drained)
  {
    d.packets == e.packets && d.errors == e.errors && Essential(d.rest) == Essential(e.rest)
  }

  // ----- dropping a prefix in which no header starts -----

  lemma SkipToHeader(x: seq<Byte>, k: nat, i: nat)
    requires k <= |x| && NoHeaderBefore(x, k) && FirstHeader(x) == Some(i)
    ensures i >= k && FirstHeader(x[k..]) == Some(i - k) && Scan(x[k..]) == Scan(x)
  {
    hide ScanAtHeader, HeaderAt;
    HeaderOfSuffix(x, k, i);
    forall j: nat | j < i - k
      ensures !HeaderAt(x[k..], j)
    {
      HeaderOfSuffix(x, k, j + k);
    }
    FirstHeaderIs(x[k..], i - k);
    assert x[k..][i - k..] == x[i..];
  }

  lemma HeaderOfSuffix(x: seq<Byte>, k: nat, i: nat)
    requires k <= |x|
    ensures i >= k ==> (HeaderAt(x, i) <==> HeaderAt(x[k..], i - k))
  {
    if i >= k && i + 10 <= |x| {
      assert x[k..][i - k..i - k + 10] == x[i..i + 10];
    }
  }

  lemma NoHeaderInSuffix(x: seq<Byte>, k: nat)
    requires k <= |x| && NoHeader(x)
    ensures NoHeader(x[k..]) && FirstHeader(x[k..]).None?
  {
    forall j: nat
      ensures !HeaderAt(x[k..], j)
    {
      HeaderOfSuffix(x, k, j + k);
    }
  }

  lemma KeptPartsAgree(x: seq<Byte>, k: nat)
    requires k <= |x| && NoHeader(x)
    requires k == 0 || |x| - k >= 9
    ensures Essential(KeepPartialHeader(x)) == Essential(KeepPartialHeader(x[k..]))
  {
    hide HeaderAt;
    if |x| > 9 {
      NoHeaderInSuffix(x, 0);
      NoHeaderInSuffix(x, |x| - 9);
      NoHeaderInSuffix(x, k);
      NoHeaderInSuffix(x[k..], |x| - k - 9);
      assert x[0..] == x;
      assert x[k..][|x| - k - 9..] == x[|x| - 9..];
    } else if k == 0 {
      assert x[0..] == x;
    }
  }

  // ----- a drain may be interrupted anywhere -----

  lemma HeaderInExtension(a: seq<Byte>, c: seq<Byte>, i: nat)
    ensures HeaderAt(a, i) ==> HeaderAt(a + c, i)
    ensures i + 10 <= |a| && HeaderAt(a + c, i) ==> HeaderAt(a, i)
  {
    if i + 10 <= |a| {
      assert (a + c)[i..i + 10] == a[i..i + 10];
    }
  }

  function Extended(e: Event, c: seq<Byte>): Event
  {
    match e
    case Wait(rest) => Wait(rest + c)
    case Reject(rest) => Reject(rest + c)
    case Accept(p, rest) => Accept(p, rest + c)
  }

  lemma ScanAtHeaderExtends(b: seq<Byte>, c: seq<Byte>)
    requires HeaderAt(b, 0) && HeaderAt(b + c, 0) && !ScanAtHeader(b).Wait?
    ensures ScanAtHeader(b + c) == Extended(ScanAtHeader(b), c)
  {
    hide Parse, ReadBe16, HeaderAt;
    var n := ReadBe16(b[10], b[11]);
    assert (b + c)[10] == b[10] && (b + c)[11] == b[11];
    if OVERHEAD <= n {
      assert (b + c)[..n] == b[..n] && (b + c)[n..] == b[n..] + c;
    }
    assert (b + c)[1..] == b[1..] + c;
  }

  /** Once a turn has enough bytes to act, later bytes do not change what it does. */
  lemma ScanExtends(a: seq<Byte>, c: seq<Byte>)
    requires !Scan(a).Wait?
    ensures Scan(a + c) == Extended(Scan(a), c)
  {
    hide ScanAtHeader;
    var i := FirstHeader(a).value;
    FirstHeaderOfExtension(a, c, i);
    assert (a + c)[i..] == a[i..] + c;
    HeaderOfSuffix(a, i, i);
    HeaderOfSuffix(a + c, i, i);
    ScanAtHeaderExtends(a[i..], c);
  }

  lemma FirstHeaderOfExtension(a: seq<Byte>, c: seq<Byte>, i: nat)
    requires HeaderAt(a, i) && NoHeaderBefore(a, i)
    ensures FirstHeader(a + c) == Some(i) && HeaderAt(a + c, i)
  {
    forall j: nat | j < i
      ensures !HeaderAt(a + c, j)
    {
      HeaderInExtension(a, c, j);
    }
    HeaderInExtension(a, c, i);
    FirstHeaderIs(a + c, i);
  }

  /** Draining early, whatever acknowledgement is awaited, and draining again when more bytes have
      come gives what one drain of all the bytes gives. */
  lemma {:induction false} DrainComposes(a: seq<Byte>, c: seq<Byte>, expected: Byte)
    ensures var first := Drain(a, expected);
            SameOutcome(first.Then(Drain(first.rest + c, 0)), Drain(a + c, 0))
    decreases |a|
  {
    hide Scan, HeaderAt, Acknowledges, Essential;
    match Scan(a) {
      case Wait(rest) =>
        WaitLosesNothing(a, c);
      case Reject(rest) =>
        ScanExtends(a, c);
        DrainComposes(rest, c, expected);
      case Accept(p, rest) =>
        ScanExtends(a, c);
        ZeroAwaitsNothing(p);
        if !Acknowledges(p, expected) {
          DrainComposes(rest, c, expected);
        }
    }
  }

  lemma ZeroAwaitsNothing(p: Packet)
    ensures !Acknowledges(p, 0)
  {
  }

  lemma WaitLosesNothing(a: seq<Byte>, c: seq<Byte>)
    requires Scan(a).Wait?
    ensures SameOutcome(Drain(Scan(a).rest + c, 0), Drain(a + c, 0))
  {
    hide Parse, ReadBe16, Essential;
    match FirstHeader(a) {
      case Some(i) =>
        FirstHeaderOfExtension(a, c, i);
        assert (a + c)[i..] == a[i..] + c;
        HeaderOfSuffix(a + c, i, i);
        FirstHeaderIs(a[i..] + c, 0);
        assert (a[i..] + c)[0..] == a[i..] + c;
      case None =>
        var k := |a| - |KeepPartialHeader(a)|;
        assert (a + c)[k..] == a[k..] + c && KeepPartialHeader(a) == a[k..];
        KeptPartBeginsLate(a, c, k);
        match FirstHeader(a + c) {
          case Some(i) =>
            SkipToHeader(a + c, k, i);
          case None =>
            NoHeaderInSuffix(a + c, k);
            KeptPartsAgree(a + c, k);
        }
    }
  }

  lemma KeptPartBeginsLate(a: seq<Byte>, c: seq<Byte>, k: nat)
    requires NoHeader(a) && k == |a| - |KeepPartialHeader(a)|
    ensures NoHeaderBefore(a + c, k)
  {
    forall j: nat | j < k
      ensures !HeaderAt(a + c, j)
    {
      HeaderInExtension(a, c, j);
    }
  }

  // ----- chunk independence -----

  /** However the bytes were cut into reads, and whatever acknowledgements were awaited on the way:
      what has been handled, plus what one more drain handles, is what a single drain of the whole
      stream handles. An early stop at an acknowledgement loses nothing. */
  lemma {:induction false} AnySplitIsOneDrain(buffer: seq<Byte>, steps: seq<Step>)
    ensures var total := FeedAll(buffer, steps);
            SameOutcome(total.Then(Drain(total.rest, 0)), Drain(buffer + Stream(steps), 0))
    decreases |steps|
  {
    hide Drain, Essential;
    if steps == [] {
      assert buffer + Stream(steps) == buffer;
    } else {
      var a, c := buffer + steps[0].chunk, Stream(steps[1..]);
      var first := Drain(a, steps[0].expected);
      var later := FeedAll(first.rest, steps[1..]);
      var last := Drain(later.rest, 0);
      AnySplitIsOneDrain(first.rest, steps[1..]);
      DrainComposes(a, c, steps[0].expected);
      assert buffer + Stream(steps) == a + c;
      assert (first.packets + later.packets) + last.packets
          == first.packets + (later.packets + last.packets);
    }
  }

  ghost predicate AwaitsNothing(steps: seq<Step>)
  {
    forall i :: 0 <= i < |steps| ==> steps[i].expected == 0
  }

  /** A leftover from which nothing more can be drained. */
  ghost predicate Quiet(rest: seq<Byte>)
  {
    Drain(rest, 0) == Drained(rest, [], 0, false)
  }

  lemma {:induction false} DrainLeavesQuiet(x: seq<Byte>)
    ensures Quiet(Drain(x, 0).rest)
    decreases |x|
  {
    hide Parse, ReadBe16, HeaderAt;
    match Scan(x) {
      case Wait(rest) =>
        match FirstHeader(x) {
          case Some(i) =>
            assert HeaderAt(x[i..], 0) by { HeaderOfSuffix(x, i, i); }
            FirstHeaderIs(x[i..], 0);
            assert x[i..][0..] == x[i..];
          case None =>
            NoHeaderInSuffix(x, |x| - |rest|);
            assert rest == x[|x| - |rest|..];
        }
      case Reject(rest) =>
        DrainLeavesQuiet(rest);
      case Accept(p, rest) =>
        ZeroAwaitsNothing(p);
        DrainLeavesQuiet(rest);
    }
  }

  lemma {:induction false} FeedLeavesQuiet(buffer: seq<Byte>, steps: seq<Step>)
    requires AwaitsNothing(steps) && Quiet(buffer)
    ensures Quiet(FeedAll(buffer, steps).rest)
    decreases |steps|
  {
    hide Drain;
    if steps != [] {
      DrainLeavesQuiet(buffer + steps[0].chunk);
      FeedLeavesQuiet(Drain(buffer + steps[0].chunk, 0).rest, steps[1..]);
    }
  }

  lemma NothingIsQuiet()
    ensures Quiet([])
  {
    assert FirstHeader([]).None?;
  }

  /** With no acknowledgement awaited, the reads may be cut anywhere: same packets in the same
      order, same number of protocol errors, same leftover up to bytes that cannot start a header. */
  lemma ChunkIndependence(steps: seq<Step>)
    requires AwaitsNothing(steps)
    ensures SameOutcome(FeedAll([], steps), Drain(Stream(steps), 0))
  {
    hide Drain, FeedAll, Essential;
    NothingIsQuiet();
    FeedLeavesQuiet([], steps);
    AnySplitIsOneDrain([], steps);
    assert [] + Stream(steps) == Stream(steps);
    var total := FeedAll([], steps);
    assert total.Then(Drain(total.rest, 0)).packets == total.packets;
  }

  // ----- resynchronisation -----

  ghost predicate Sendable(packets: seq<Packet>)
  {
    forall i :: 0 <= i < |packets| ==>
      Buildable(packets[i].payload) && packets[i].version == PROTOCOL_VERSION
  }

  /** The built packets back to back. */
  ghost function Wire(packets: seq<Packet>): seq<Byte>
  {
    if packets == [] then []
    else Build(packets[0].packetType, packets[0].commandWord, packets[0].payload) + Wire(packets[1..])
  }

  lemma BuiltPacketStarts(p: Packet, tail: seq<Byte>)
    requires Buildable(p.payload)
    ensures var data := Build(p.packetType, p.commandWord, p.payload);
            && |data| >= OVERHEAD
            && HeaderAt(data + tail, 0)
            && ReadBe16((data + tail)[10], (data + tail)[11]) == |data|
  {
    hide LsNetCrc.Crc, Fields, ReadBe16;
    FieldsAt(p.packetType, p.commandWord, p.payload);
    var fields := Fields(p.packetType, p.commandWord, p.payload);
    var data := Build(p.packetType, p.commandWord, p.payload);
    assert data[..18] == fields[..18];
    assert (data + tail)[..18] == fields[..18];
    assert (data + tail)[0..10] == fields[..10];
  }

  lemma {:induction false} PacketsBackToBack(packets: seq<Packet>)
    requires Sendable(packets)
    ensures Drain(Wire(packets), 0) == Drained([], packets, 0, false)
    decreases |packets|
  {
    hide LsNetCrc.Crc, Fields, ReadBe16, HeaderAt, Build, Parse;
    if packets == [] {
      NothingIsQuiet();
    } else {
      var p := packets[0];
      var data, tail := Build(p.packetType, p.commandWord, p.payload), Wire(packets[1..]);
      BuiltPacketStarts(p, tail);
      FirstHeaderIs(data + tail, 0);
      assert (data + tail)[0..] == data + tail;
      ParseOfBuild(p.packetType, p.commandWord, p.payload);
      assert (data + tail)[..|data|] == data && (data + tail)[|data|..] == tail;
      ZeroAwaitsNothing(p);
      PacketsBackToBack(packets[1..]);
      assert [p] + packets[1..] == packets;
    }
  }

  /** No proper suffix of the header begins another one: 'L' occurs once. */
  lemma GarbageHidesNothing(garbage: seq<Byte>, wire: seq<Byte>)
    requires NoHeader(garbage) && HeaderAt(wire, 0)
    ensures FirstHeader(garbage + wire) == Some(|garbage|)
  {
    var x := garbage + wire;
    forall j: nat | j < |garbage|
      ensures !HeaderAt(x, j)
    {
      if j + 10 <= |garbage| {
        HeaderInExtension(garbage, wire, j);
      } else if j + 10 <= |x| {
        var m := |garbage| - j;
        assert x[j..j + 10][m] == x[|garbage|] == wire[0..10][0];
        assert HEADER[m] != HEADER[0];
      }
    }
    assert x[|garbage|..|garbage| + 10] == wire[0..10];
    FirstHeaderIs(x, |garbage|);
  }

  /** Garbage without a header is skipped; every packet after it is recovered, in order, and the
      buffer ends empty. */
  lemma Resynchronises(garbage: seq<Byte>, packets: seq<Packet>)
    requires NoHeader(garbage) && Sendable(packets) && packets != []
    ensures Drain(garbage + Wire(packets), 0) == Drained([], packets, 0, false)
  {
    hide Parse, ReadBe16, Build, HeaderAt;
    var p := packets[0];
    var wire := Wire(packets);
    BuiltPacketStarts(p, Wire(packets[1..]));
    GarbageHidesNothing(garbage, wire);
    FirstHeaderIs(wire, 0);
    assert (garbage + wire)[|garbage|..] == wire && wire[0..] == wire;
    assert Scan(garbage + wire) == Scan(wire);
    PacketsBackToBack(packets);
  }

  /** The same, however garbage and packets were cut into reads. */
  lemma ResynchronisesInAnySplit(garbage: seq<Byte>, packets: seq<Packet>, steps: seq<Step>)
    requires NoHeader(garbage) && Sendable(packets) && packets != []
    requires AwaitsNothing(steps) && Stream(steps) == garbage + Wire(packets)
    ensures FeedAll([], steps).packets == packets
    ensures FeedAll([], steps).errors == 0
    ensures FeedAll([], steps).rest == []
  {
    hide Drain, FeedAll;
    Resynchronises(garbage, packets);
    ChunkIndependence(steps);
  }
}
