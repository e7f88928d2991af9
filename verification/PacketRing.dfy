/** The packet ring buffer, bounded in time and in bytes. */
module PacketRing {
  datatype Packet = Packet(ts: real, data: seq<bv8>, keyframe: bool)

  function Bytes(ps: seq<Packet>): nat {
    if ps == [] then 0 else |ps[0].data| + Bytes(ps[1..])
  }

  lemma {:induction false} BytesAppend(ps: seq<Packet>, p: Packet)
    ensures Bytes(ps + [p]) == Bytes(ps) + |p.data|
  {
    if ps == [] {
      assert ps + [p] == [p];
    } else {
      assert (ps + [p])[1..] == ps[1..] + [p];
      BytesAppend(ps[1..], p);
    }
  }

  /** Within both bounds at a given time; nothing at all always is. */
  ghost predicate Fits(ps: seq<Packet>, maxSeconds: real, maxBytes: int, now: real) {
    ps == [] || (Bytes(ps) <= maxBytes && forall k :: 0 <= k < |ps| ==> now - ps[k].ts <= maxSeconds)
  }

  ghost predicate InOrder(ps: seq<Packet>) {
    forall a, b :: 0 <= a < b < |ps| ==> ps[a].ts <= ps[b].ts
  }

  ghost predicate Until(ps: seq<Packet>, now: real) {
    forall k :: 0 <= k < |ps| ==> ps[k].ts <= now
  }

  ghost predicate NoneBefore(pushed: seq<Packet>, start: nat, maxSeconds: real, maxBytes: int, now: real) {
    start <= |pushed| && forall s :: 0 <= s < start ==> !Fits(pushed[s..], maxSeconds, maxBytes, now)
  }

  /** From `start` on is the longest tail of everything pushed that fits. */
  ghost predicate LongestTail(pushed: seq<Packet>, start: nat, maxSeconds: real, maxBytes: int, now: real) {
    NoneBefore(pushed, start, maxSeconds, maxBytes, now) && Fits(pushed[start..], maxSeconds, maxBytes, now)
  }

  /** What did not fit earlier does not fit later with one more packet. */
  lemma StillUnfit(ps: seq<Packet>, p: Packet, maxSeconds: real, maxBytes: int, before: real, now: real)
    requires !Fits(ps, maxSeconds, maxBytes, before) && before <= now
    ensures !Fits(ps + [p], maxSeconds, maxBytes, now)
  {
    BytesAppend(ps, p);
    if Bytes(ps) <= maxBytes {
      var k :| 0 <= k < |ps| && before - ps[k].ts > maxSeconds;
      assert (ps + [p])[k] == ps[k];
    }
  }

  /** In time order the front packet decides. */
  lemma FrontDecides(ps: seq<Packet>, maxSeconds: real, maxBytes: int, now: real)
    requires InOrder(ps) && ps != []
    ensures Fits(ps, maxSeconds, maxBytes, now) <==> now - ps[0].ts <= maxSeconds && Bytes(ps) <= maxBytes
  {
  }

  /** A front packet that is too old, or one too many, cannot stay. */
  lemma FrontGoes(pushed: seq<Packet>, start: nat, maxSeconds: real, maxBytes: int, now: real)
    requires start < |pushed| && InOrder(pushed) && NoneBefore(pushed, start, maxSeconds, maxBytes, now)
    requires now - pushed[start].ts > maxSeconds || Bytes(pushed[start..]) > maxBytes
    ensures NoneBefore(pushed, start + 1, maxSeconds, maxBytes, now)
    ensures pushed[start..][1..] == pushed[start + 1..]
    ensures Bytes(pushed[start + 1..]) == Bytes(pushed[start..]) - |pushed[start].data|
  {
    var ps := pushed[start..];
    assert InOrder(ps) && ps[0] == pushed[start] && ps[1..] == pushed[start + 1..];
    FrontDecides(ps, maxSeconds, maxBytes, now);
  }

  lemma FrontStays(pushed: seq<Packet>, start: nat, maxSeconds: real, maxBytes: int, now: real)
    requires start <= |pushed| && InOrder(pushed) && NoneBefore(pushed, start, maxSeconds, maxBytes, now)
    requires start < |pushed| ==> now - pushed[start].ts <= maxSeconds && Bytes(pushed[start..]) <= maxBytes
    ensures LongestTail(pushed, start, maxSeconds, maxBytes, now)
  {
    var ps := pushed[start..];
    if ps != [] {
      assert InOrder(ps) && ps[0] == pushed[start];
      FrontDecides(ps, maxSeconds, maxBytes, now);
    }
  }

  lemma NoneBeforeAfterPush(pushed: seq<Packet>, start: nat, p: Packet, maxSeconds: real, maxBytes: int,
                            before: real, now: real)
    requires NoneBefore(pushed, start, maxSeconds, maxBytes, before) && (pushed != [] ==> before <= now)
    ensures NoneBefore(pushed + [p], start, maxSeconds, maxBytes, now)
  {
    forall s | 0 <= s < start ensures !Fits((pushed + [p])[s..], maxSeconds, maxBytes, now) {
      assert (pushed + [p])[s..] == pushed[s..] + [p];
      StillUnfit(pushed[s..], p, maxSeconds, maxBytes, before, now);
    }
  }

  lemma TailAfterPush(pushed: seq<Packet>, start: nat, p: Packet)
    requires start <= |pushed| && InOrder(pushed) && Until(pushed, p.ts)
    ensures (pushed + [p])[start..] == pushed[start..] + [p]
    ensures InOrder(pushed + [p]) && Until(pushed + [p], p.ts)
  {
  }

  class PacketRingBuffer {
    const maxSeconds: real
    const maxBytes: int
    var packets: seq<Packet>
    var bytes: int
    ghost var pushed: seq<Packet>
    ghost var start: nat
    ghost var last: real

    /** The buffer is the longest tail of the pushed packets that fitted at the last
        push, and the byte counter is its size. */
    ghost predicate Valid()
      reads this
    {
      && LongestTail(pushed, start, maxSeconds, maxBytes, last)
      && packets == pushed[start..] && bytes == Bytes(packets)
      && InOrder(pushed) && Until(pushed, last)
    }

    constructor (maxSeconds: real, maxBytes: int)
      ensures Valid() && packets == [] && pushed == []
      ensures this.maxSeconds == maxSeconds && this.maxBytes == maxBytes
    {
      this.maxSeconds, this.maxBytes := maxSeconds, maxBytes;
      packets, bytes, pushed, start, last := [], 0, [], 0, 0.0;
    }

    /** The eviction loop. */
    method EvictOld(now: real)
      requires InOrder(pushed) && NoneBefore(pushed, start, maxSeconds, maxBytes, now)
      requires packets == pushed[start..] && bytes == Bytes(packets)
      modifies `packets, `bytes, `start
      ensures LongestTail(pushed, start, maxSeconds, maxBytes, now)
      ensures packets == pushed[start..] && bytes == Bytes(packets)
    {
      while packets != [] && (now - packets[0].ts > maxSeconds || bytes > maxBytes)
        invariant NoneBefore(pushed, start, maxSeconds, maxBytes, now)
        invariant packets == pushed[start..] && bytes == Bytes(packets)
        decreases |packets|
      {
        FrontGoes(pushed, start, maxSeconds, maxBytes, now);
        bytes := bytes - |packets[0].data|;
        packets := packets[1..];
        start := start + 1;
      }
      FrontStays(pushed, start, maxSeconds, maxBytes, now);
    }

    /** Evicting from the front one packet at a time keeps exactly what a search over
        the whole history would keep. */
    method Push(data: seq<bv8>, keyframe: bool, now: real)
      requires Valid() && (pushed != [] ==> last <= now)
      modifies this
      ensures Valid() && last == now && pushed == old(pushed) + [Packet(now, data, keyframe)]
      ensures Fits(packets, maxSeconds, maxBytes, now)
    {
      var p := Packet(now, data, keyframe);
      TailAfterPush(pushed, start, p);
      NoneBeforeAfterPush(pushed, start, p, maxSeconds, maxBytes, last, now);
      BytesAppend(packets, p);
      packets := packets + [p];
      bytes := bytes + |data|;
      pushed, last := pushed + [p], now;
      EvictOld(now);
    }
  }
}
