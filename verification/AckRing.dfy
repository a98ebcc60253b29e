/** Acknowledgement accounting of the LaserCube network controller: the ring of send times and the
count of pending acknowledgements in src/lasercubenet/LaserCubeNetController.cpp.

Clock values are nanoseconds; 0 marks a free slot, as the default time point does. */
module AckRing {
  import opened Arithmetic

  const RING_SIZE: nat := 256
  const MAX_ACK_POLLS: nat := 64
  const EXPIRY: int := 1_000_000_000
  const DISCONNECT_THRESHOLD: int := 500_000_000

  /** A datagram on the data socket: whether the device sent it, its size, whether it carries the
      ring-buffer opcode, and the message number it acknowledges. */
  datatype Datagram = Datagram(fromDevice: bool, size: nat, isAck: bool, number: nat)

  predicate Acknowledges(d: Datagram) { d.fromDevice && d.size == 4 && d.isAck && d.number < RING_SIZE }

  function Occupied(ring: seq<Time>): nat
  {
    if ring == [] then 0 else (if ring[0] != 0 then 1 else 0) + Occupied(ring[1..])
  }

  lemma {:induction false} OccupiedAfterUpdate(ring: seq<Time>, i: nat, t: Time)
    requires i < |ring|
    ensures Occupied(ring[i := t])
         == Occupied(ring) - (if ring[i] != 0 then 1 else 0) + (if t != 0 then 1 else 0)
    decreases i
  {
    if i > 0 {
      OccupiedAfterUpdate(ring[1..], i - 1, t);
      assert ring[i := t][1..] == ring[1..][i - 1 := t];
    } else {
      assert ring[0 := t][1..] == ring[1..];
    }
  }

  /** The count is exact at both ends: zero when every slot is free, full when none is. */
  lemma {:induction false} OccupiedExtremes(ring: seq<Time>)
    ensures Occupied(ring) <= |ring|
    ensures Occupied(ring) == 0 <==> forall i :: 0 <= i < |ring| ==> ring[i] == 0
    ensures Occupied(ring) == |ring| <==> forall i :: 0 <= i < |ring| ==> ring[i] != 0
    decreases |ring|
  {
    if ring != [] {
      OccupiedExtremes(ring[1..]);
      assert forall i :: 0 < i < |ring| ==> ring[i] == ring[1..][i - 1];
    }
  }

  /** The ring after the acknowledgements among these datagrams. */
  function Acked(ring: seq<Time>, datagrams: seq<Datagram>): (r: seq<Time>)
    requires |ring| == RING_SIZE
    ensures |r| == RING_SIZE
    decreases |datagrams|
  {
    if datagrams == [] then ring
    else
      var last := datagrams[|datagrams| - 1];
      var before := Acked(ring, datagrams[..|datagrams| - 1]);
      if Acknowledges(last) then before[last.number := 0] else before
  }

  /** How many of the acknowledgements find their slot already free. */
  function Unmatched(ring: seq<Time>, datagrams: seq<Datagram>): nat
    requires |ring| == RING_SIZE
    decreases |datagrams|
  {
    if datagrams == [] then 0
    else
      var last := datagrams[|datagrams| - 1];
      var before := datagrams[..|datagrams| - 1];
      Unmatched(ring, before)
      + if Acknowledges(last) && Acked(ring, before)[last.number] == 0 then 1 else 0
  }

  /** The datagrams one round reads: at most 64. */
  function Polled(datagrams: seq<Datagram>): (r: seq<Datagram>)
    ensures r <= datagrams && |r| == Min(|datagrams|, 64)
  {
    if |datagrams| <= MAX_ACK_POLLS then datagrams else datagrams[..MAX_ACK_POLLS]
  }

  /** A datagram of four bytes from the device that carries the opcode and a slot number. */
  ghost predicate AcksSlot(d: Datagram, i: nat) { d.fromDevice && d.size == 4 && d.isAck && d.number == i }

  ghost function AckCount(datagrams: seq<Datagram>): nat
    decreases |datagrams|
  {
    if datagrams == [] then 0
    else
      var last := datagrams[|datagrams| - 1];
      AckCount(datagrams[..|datagrams| - 1]) + if last.number < 256 && AcksSlot(last, last.number) then 1 else 0
  }

  /** A slot is free afterwards if it was before or was acknowledged, and is otherwise as it was. */
  lemma {:induction false} AckedSlotsAreFree(ring: seq<Time>, datagrams: seq<Datagram>, i: nat)
    requires |ring| == RING_SIZE && i < 256
    ensures Acked(ring, datagrams)[i]
         == if exists k :: 0 <= k < |datagrams| && AcksSlot(datagrams[k], i) then 0 else ring[i]
    decreases |datagrams|
  {
    if datagrams != [] {
      var n := |datagrams| - 1;
      AckedSlotsAreFree(ring, datagrams[..n], i);
      if k :| 0 <= k < n && AcksSlot(datagrams[k], i) {
        assert AcksSlot(datagrams[..n][k], i);
      }
    }
  }

  /** Every acknowledgement either frees a slot or is counted as lost. */
  lemma {:induction false} AcksFreeOrAreLost(ring: seq<Time>, datagrams: seq<Datagram>)
    requires |ring| == RING_SIZE
    ensures Occupied(ring) - Occupied(Acked(ring, datagrams)) + Unmatched(ring, datagrams) == AckCount(datagrams)
    decreases |datagrams|
  {
    hide Occupied;
    if datagrams != [] {
      var n := |datagrams| - 1;
      var before := Acked(ring, datagrams[..n]);
      AcksFreeOrAreLost(ring, datagrams[..n]);
      if Acknowledges(datagrams[n]) {
        OccupiedAfterUpdate(before, datagrams[n].number, 0);
      }
    }
  }

  function Expired(t: Time, now: Time): bool { t != 0 && now - t > EXPIRY }

  /** The ring with every slot older than a second freed. */
  function Swept(ring: seq<Time>, now: Time): (r: seq<Time>)
    ensures |r| == |ring|
  {
    seq(|ring|, i requires 0 <= i < |ring| => if Expired(ring[i], now) then 0 else ring[i])
  }

  class Ring {
    const messageTimes: array<Time>
    var pendingAckCount: int
    var messageNumber: nat
    var packetLosses: nat
    var connected: bool

    ghost predicate Valid()
      reads this, messageTimes
    {
      && messageTimes.Length == RING_SIZE
      && messageNumber < RING_SIZE
      && pendingAckCount == Occupied(messageTimes[..])
    }

    constructor ()
      ensures Valid() && fresh(messageTimes) && pendingAckCount == 0 && !connected
    {
      messageTimes := new Time[RING_SIZE](_ => 0);
      pendingAckCount, messageNumber, packetLosses, connected := 0, 0, 0, false;
      new;
      OccupiedExtremes(messageTimes[..]);
    }

    /** Forgets all sends, on connecting and on closing. */
    method Restart(connect: bool)
      requires Valid()
      modifies this, messageTimes
      ensures Valid() && pendingAckCount == 0 && connected == connect
      ensures messageNumber == old(messageNumber)
      ensures forall i :: 0 <= i < RING_SIZE ==> messageTimes[i] == 0
    {
      for i := 0 to messageTimes.Length
        invariant messageTimes.Length == RING_SIZE && messageNumber == old(messageNumber)
        invariant forall j :: 0 <= j < i ==> messageTimes[j] == 0
      {
        messageTimes[i] := 0;
      }
      pendingAckCount, connected := 0, connect;
      OccupiedExtremes(messageTimes[..]);
    }

    /** One packet sent, or refused by the socket; the message number advances either way. */
    method Send(success: bool, now: Time)
      requires Valid() && now != 0
      modifies this, messageTimes
      ensures Valid() && messageNumber == (old(messageNumber) + 1) % RING_SIZE
      ensures messageTimes[..] ==
                if success then old(messageTimes[..])[old(messageNumber) := now] else old(messageTimes[..])
      ensures connected == (old(connected) && success)
    {
      if success {
        OccupiedAfterUpdate(messageTimes[..], messageNumber, now);
        if messageTimes[messageNumber] == 0 {
          pendingAckCount := pendingAckCount + 1;
        }
        messageTimes[messageNumber] := now;
        assert messageTimes[..] == old(messageTimes[..])[old(messageNumber) := now];
      } else {
        connected := false;
      }
      messageNumber := (messageNumber + 1) % RING_SIZE;
    }

    /** Reads at most 64 datagrams, frees the slots they acknowledge, and counts as lost what was not
        pending. */
    method ReceiveAcks(datagrams: seq<Datagram>)
      requires Valid()
      modifies this`pendingAckCount, this`packetLosses, messageTimes
      ensures Valid()
      ensures messageTimes[..] == Acked(old(messageTimes[..]), Polled(datagrams))
      ensures packetLosses == old(packetLosses) + Unmatched(old(messageTimes[..]), Polled(datagrams))
    {
      var polls := 0;
      while polls < |datagrams| && polls < MAX_ACK_POLLS
        invariant 0 <= polls <= |datagrams| && polls <= MAX_ACK_POLLS
        invariant Valid()
        invariant messageTimes[..] == Acked(old(messageTimes[..]), datagrams[..polls])
        invariant packetLosses == old(packetLosses) + Unmatched(old(messageTimes[..]), datagrams[..polls])
      {
        var d := datagrams[polls];
        assert datagrams[..polls + 1][..polls] == datagrams[..polls];
        polls := polls + 1;
        if !Acknowledges(d) {
          continue;
        }
        ghost var before := messageTimes[..];
        OccupiedAfterUpdate(before, d.number, 0);
        if messageTimes[d.number] == 0 {
          packetLosses := packetLosses + 1;
          assert before[d.number := 0] == before;
          continue;
        }
        OccupiedExtremes(before);
        messageTimes[d.number] := 0;
        assert messageTimes[..] == before[d.number := 0];
        if pendingAckCount > 0 {
          pendingAckCount := pendingAckCount - 1;
        }
      }
      assert Polled(datagrams) == datagrams[..polls];
    }

    method Sweep(now: Time)
      requires Valid()
      modifies this`pendingAckCount, messageTimes
      ensures Valid() && messageTimes[..] == Swept(old(messageTimes[..]), now)
    {
      ghost var before := messageTimes[..];
      for i := 0 to messageTimes.Length
        invariant Valid()
        invariant forall j :: 0 <= j < i ==> messageTimes[j] == Swept(before, now)[j]
        invariant forall j :: i <= j < RING_SIZE ==> messageTimes[j] == before[j]
      {
        if messageTimes[i] == 0 {
          continue;
        }
        if now - messageTimes[i] > EXPIRY {
          ghost var ring := messageTimes[..];
          OccupiedAfterUpdate(ring, i, 0);
          OccupiedExtremes(ring);
          messageTimes[i] := 0;
          assert messageTimes[..] == ring[i := 0];
          if pendingAckCount > 0 {
            pendingAckCount := pendingAckCount - 1;
          }
        }
      }
      assert messageTimes[..] == Swept(before, now);
    }

    /** One round of checkAcks. Afterwards nothing pending is older than a second; the connection is
        given up exactly when every one of the 256 slots is pending and the oldest has been for half a
        second. */
    method CheckAcks(datagrams: seq<Datagram>, now: Time)
      requires Valid()
      modifies this, messageTimes
      ensures Valid() && messageNumber == old(messageNumber)
      ensures forall i :: 0 <= i < 256 && messageTimes[i] != 0 ==> now - messageTimes[i] <= 1_000_000_000
      ensures var acked := Acked(old(messageTimes[..]), Polled(datagrams));
              forall i :: 0 <= i < 256 && now - acked[i] <= 1_000_000_000 ==> messageTimes[i] == acked[i]
      ensures messageTimes[..] == Swept(Acked(old(messageTimes[..]), Polled(datagrams)), now)
      ensures packetLosses == old(packetLosses) + Unmatched(old(messageTimes[..]), Polled(datagrams))
      ensures old(connected) ==>
                (!connected <==>
                  && (forall i :: 0 <= i < 256 ==> messageTimes[i] != 0)
                  && exists i :: 0 <= i < 256 && now - messageTimes[i] >= 500_000_000)
    {
      ReceiveAcks(datagrams);
      ghost var acked := messageTimes[..];
      OccupiedExtremes(acked);
      if pendingAckCount > 0 {
        Sweep(now);
        OccupiedExtremes(messageTimes[..]);
        if pendingAckCount > 0 {
          var oldestTime := now;
          for i := 0 to messageTimes.Length
            invariant oldestTime <= now
            invariant forall j :: 0 <= j < i && messageTimes[j] != 0 ==> oldestTime <= messageTimes[j]
            invariant oldestTime == now || exists j :: 0 <= j < i && messageTimes[j] != 0 && oldestTime == messageTimes[j]
          {
            if messageTimes[i] != 0 && messageTimes[i] < oldestTime {
              oldestTime := messageTimes[i];
            }
          }
          var saturated := pendingAckCount >= messageTimes.Length;
          if saturated && now - oldestTime >= DISCONNECT_THRESHOLD {
            connected := false;
          }
        }
      } else {
        assert messageTimes[..] == Swept(acked, now);
        assert messageTimes[0] == acked[0] == 0;
      }
    }
  }
}
