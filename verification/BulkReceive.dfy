/** Reassembly of inbound bulk transfers. */
module BulkReceive {
  import opened Bytes
  import opened BulkFormat
  import opened BulkSend
  import opened Counting

  const MAX_CHUNKS := 64   // BULK_RX_MAX_CHUNKS

  /** One reassembly in flight: which chunks of which transfer have been seen, and
      what each of the 64 chunk slots holds (possibly left over from before). */
  datatype Session = Session(active: bool, tid: u32, total: u32, seen: set<nat>, slots: seq<seq<byte>>)

  ghost predicate Sound(s: Session) {
    |s.slots| == MAX_CHUNKS && (s.active ==> s.total <= MAX_CHUNKS)
    && (forall i :: i in s.seen ==> i < MAX_CHUNKS) && forall i :: 0 <= i < |s.slots| ==> |s.slots[i]| <= CHUNK_MAX
  }

  /** A completed transfer: its id goes back in an ACK, its bytes to the application. */
  datatype Complete = Complete(tid: u32, data: seq<byte>)

  /** The session a chunk belongs to: the current one, or a new one in its place. */
  function Join(s: Session, tid: u32, total: u32): Session {
    if s.active && s.tid == tid then s else Session(true, tid, total, {}, s.slots)
  }

  function Keep(s: Session, chunk: nat, data: seq<byte>): Session
    requires chunk < |s.slots|
  {
    if chunk in s.seen then s else s.(seen := s.seen + {chunk}, slots := s.slots[chunk := data])
  }

  /** handle_bulk_chunk() on a decoded packet. */
  function Feed(s: Session, p: Packet): (r: (Session, Option<Complete>))
    requires Sound(s)
    ensures Sound(r.0) && (r.0.active ==> |r.0.seen| < r.0.total)
  {
    var s1 := Join(s, p.tid, p.total);
    if p.chunk >= MAX_CHUNKS || p.total > MAX_CHUNKS || |p.data| > CHUNK_MAX then (s1.(active := false), None)
    else Settle(Keep(s1, p.chunk, p.data))
  }

  /** Enough chunks seen: the slots are put together and the session is over. */
  function Settle(s: Session): (r: (Session, Option<Complete>))
    requires s.total <= |s.slots|
  {
    if |s.seen| < s.total then (s, None)
    else (s.(active := false), Some(Complete(s.tid, Flatten(s.slots[..s.total]))))
  }

  /** handle_bulk_chunk() on raw memory; see Unwrap for the fields. */
  function FeedBytes(s: Session, mem: seq<byte>, len: nat): (Session, Option<Complete>)
    requires Sound(s) && len <= |mem| && PACKET_MAX <= |mem|
  {
    if len < WRAPPER_HEADER then (s, None)
    else if FromBe16(mem[12..14]) > CHUNK_MAX then
      (Join(s, FromBe32(mem[..4]), FromBe32(mem[8..12])).(active := false), None)
    else Feed(s, Unwrap(mem))
  }

  /** A packet from a sender is taken for itself, whatever lies behind it in memory. */
  lemma FeedWrapper(s: Session, p: Packable, tail: seq<byte>)
    requires Sound(s) && |p.data| <= CHUNK_MAX && PACKET_MAX <= |Wrapper(p) + tail|
    ensures FeedBytes(s, Wrapper(p) + tail, |Wrapper(p)|) == Feed(s, p)
  {
    WrapperRoundTrip(p, tail);
  }

  // ---- any order, any repetition --------------------------------------

  /** Counting distinct chunks tells that all have arrived exactly when none of
      them lies outside the transfer: the condition the code does not check. */
  lemma CountMeansAll(seen: set<nat>, total: nat)
    requires |seen| == total
    ensures seen == Numbers(total) <==> forall i <- seen :: i < total
  {
    if forall i <- seen :: i < total {
      SubsetCount(seen, Numbers(total));
    }
  }

  /** What a receiver should say to the chunk numbers `arrivals`: the transfer is
      complete, once, the moment every number has been seen; then all over again. */
  function Expected(total: nat, seen: set<nat>, arrivals: seq<nat>, done: Complete): seq<Option<Complete>>
    decreases |arrivals|
  {
    if arrivals == [] then []
    else
      var seen' := seen + {arrivals[0]};
      if seen' == Numbers(total) then [Some(done)] + Expected(total, {}, arrivals[1..], done)
      else [None] + Expected(total, seen', arrivals[1..], done)
  }

  /** What the receiver does say to the packets numbered `arrivals`. */
  function Replies(s: Session, ps: seq<Packet>, arrivals: seq<nat>): seq<Option<Complete>>
    requires Sound(s) && forall k :: 0 <= k < |arrivals| ==> arrivals[k] < |ps|
    decreases |arrivals|
  {
    if arrivals == [] then []
    else
      var r := Feed(s, ps[arrivals[0]]);
      [r.1] + Replies(r.0, ps, arrivals[1..])
  }

  /** The session is on this transfer and has taken in exactly the chunks `seen`. */
  ghost predicate Holds(s: Session, tid: u32, cs: seq<seq<byte>>, seen: set<nat>) {
    Sound(s) && s.active && s.tid == tid && s.total == |cs| && s.seen == seen && seen <= Numbers(|cs|)
    && forall i :: 0 <= i < |cs| && i in seen ==> s.slots[i] == cs[i]
  }

  /** The same between arrivals: nothing taken in yet means not on this transfer, and
      not everything has been taken in. */
  ghost predicate Holding(s: Session, tid: u32, cs: seq<seq<byte>>, seen: set<nat>) {
    Sound(s)
    && if seen == {} then !s.active || s.tid != tid else Holds(s, tid, cs, seen) && seen != Numbers(|cs|)
  }

  /** A transfer small enough for the receiver. */
  ghost predicate Receivable(cs: seq<seq<byte>>) {
    0 < |cs| <= MAX_CHUNKS && forall k :: 0 <= k < |cs| ==> |cs[k]| <= CHUNK_MAX
  }

  lemma KeepHolds(s: Session, tid: u32, cs: seq<seq<byte>>, seen: set<nat>, k: nat)
    requires Receivable(cs) && k < |cs| && Holds(s, tid, cs, seen)
    ensures Holds(Keep(s, k, cs[k]), tid, cs, seen + {k})
  {
    var s2 := Keep(s, k, cs[k]);
    assert s2.seen == seen + {k};
  }

  /** The right answer once the chunks `seen` have arrived. */
  ghost predicate Answered(r: (Session, Option<Complete>), tid: u32, cs: seq<seq<byte>>, seen: set<nat>) {
    if seen == Numbers(|cs|) then r.1 == Some(Complete(tid, Flatten(cs))) && Holding(r.0, tid, cs, {})
    else r.1 == None && Holding(r.0, tid, cs, seen)
  }

  lemma JoinHolds(s: Session, tid: u32, cs: seq<seq<byte>>, seen: set<nat>)
    requires Receivable(cs) && Holding(s, tid, cs, seen)
    ensures Holds(Join(s, tid, |cs|), tid, cs, seen)
  {
  }

  lemma SettleHolds(s: Session, tid: u32, cs: seq<seq<byte>>, seen: set<nat>)
    requires Receivable(cs) && Holds(s, tid, cs, seen) && seen != {}
    ensures Answered(Settle(s), tid, cs, seen)
  {
    SubsetCount(seen, Numbers(|cs|));
    if seen == Numbers(|cs|) {
      AllThere(s, tid, cs, seen);
    }
  }

  lemma AllThere(s: Session, tid: u32, cs: seq<seq<byte>>, seen: set<nat>)
    requires Receivable(cs) && Holds(s, tid, cs, seen) && seen == Numbers(|cs|)
    ensures s.slots[..|cs|] == cs
  {
  }

  /** One arrival. */
  lemma FeedOne(s: Session, tid: u32, cs: seq<seq<byte>>, seen: set<nat>, k: nat)
    requires Receivable(cs) && k < |cs| && Holding(s, tid, cs, seen)
    ensures Answered(Feed(s, Packet(tid, k, |cs|, cs[k])), tid, cs, seen + {k})
  {
    var s1 := Join(s, tid, |cs|);
    JoinHolds(s, tid, cs, seen);
    KeepHolds(s1, tid, cs, seen, k);
    SettleHolds(Keep(s1, k, cs[k]), tid, cs, seen + {k});
    assert Feed(s, Packet(tid, k, |cs|, cs[k])) == Settle(Keep(s1, k, cs[k]));
  }

  /** Any chunks of a transfer, in any order and with any repetitions: the receiver
      says what it should, neither earlier nor later nor with other bytes. */
  lemma {:induction false} AnyOrder(s: Session, tid: u32, cs: seq<seq<byte>>, seen: set<nat>, arrivals: seq<nat>)
    requires Receivable(cs) && Holding(s, tid, cs, seen)
    requires forall k :: 0 <= k < |arrivals| ==> arrivals[k] < |cs|
    ensures Replies(s, Packets(tid, cs), arrivals) == Expected(|cs|, seen, arrivals, Complete(tid, Flatten(cs)))
    decreases |arrivals|
  {
    if arrivals != [] {
      var k := arrivals[0];
      FeedOne(s, tid, cs, seen, k);
      var r, seen' := Feed(s, Packets(tid, cs)[k]), seen + {k};
      AnyOrder(r.0, tid, cs, if seen' == Numbers(|cs|) then {} else seen', arrivals[1..]);
    }
  }

  /** Whatever send_bulk() cut up arrives whole, on every receiver that was idle or on
      some other transfer, if it fits in 64 chunks. */
  lemma TransferArrives(s: Session, tid: u32, data: seq<byte>, max: nat, arrivals: seq<nat>)
    requires 0 < max <= 498 && |data| <= 64 * max
    requires Sound(s) && (!s.active || s.tid != tid)
    requires forall k :: 0 <= k < |arrivals| ==> arrivals[k] < |Sent(tid, data, max)|
    ensures Replies(s, Sent(tid, data, max), arrivals)
            == Expected(|Sent(tid, data, max)|, {}, arrivals, Complete(tid, data))
  {
    var cs := Chunks(data, max);
    ChunksMakeUp(data, max);
    ChunksWithin(data, max, MAX_CHUNKS);
    AnyOrder(s, tid, cs, {}, arrivals);
  }

  lemma {:induction false} ChunksWithin(data: seq<byte>, max: nat, n: nat)
    requires 0 < max && 0 < n && |data| <= n * max
    ensures |Chunks(data, max)| <= n
    decreases |data|
  {
    if max < |data| {
      assert (n - 1) * max == n * max - max;
      assert 0 < n - 1;
      ChunksWithin(data[max..], max, n - 1);
    }
  }

  function Distinct(arrivals: seq<nat>): (r: set<nat>) {
    set x | x in arrivals
  }

  /** Completion is announced at the first moment every chunk has been seen and not
      before: the replies up to then. */
  lemma {:induction false} AnnouncedOnce(total: nat, seen: set<nat>, arrivals: seq<nat>, done: Complete)
    requires 0 < |arrivals| && seen + Distinct(arrivals[..|arrivals| - 1]) < Numbers(total)
    requires arrivals[|arrivals| - 1] < total
    ensures var es := Expected(total, seen, arrivals, done);
            |es| == |arrivals| && (forall k :: 0 <= k < |es| - 1 ==> es[k] == None)
            && es[|es| - 1] == if seen + Distinct(arrivals) == Numbers(total) then Some(done) else None
    decreases |arrivals|
  {
    var seen' := seen + {arrivals[0]};
    if |arrivals| == 1 {
      assert Distinct(arrivals) == {arrivals[0]};
    } else {
      DistinctSplits(seen, arrivals);
      AnnouncedOnce(total, seen', arrivals[1..], done);
    }
  }

  lemma DistinctSplits(seen: set<nat>, arrivals: seq<nat>)
    requires 2 <= |arrivals|
    ensures var seen', rest, n := seen + {arrivals[0]}, arrivals[1..], |arrivals|;
            seen' + Distinct(rest) == seen + Distinct(arrivals)
            && seen' + Distinct(rest[..n - 2]) == seen + Distinct(arrivals[..n - 1])
            && seen' <= seen + Distinct(arrivals[..n - 1])
  {
    var rest, n := arrivals[1..], |arrivals|;
    assert arrivals == [arrivals[0]] + rest;
    assert arrivals[..n - 1] == [arrivals[0]] + rest[..n - 2];
  }

  // ---- chunks of the session at hand ----------------------------------

  /** A chunk of the transfer at hand, whatever total it announces: the session goes on as
      announced first; and what a chunk number brought first stays. */
  lemma SessionGoesOn(s: Session, p: Packet)
    requires Sound(s) && s.active && s.tid == p.tid && p.chunk < 64 && p.total <= 64 && |p.data| <= 498
    ensures var r := Feed(s, p).0;
            r.tid == s.tid && r.total == s.total && r.seen == s.seen + {p.chunk}
            && r.slots == (if p.chunk in s.seen then s.slots else s.slots[p.chunk := p.data])
            && (r.active <==> |s.seen + {p.chunk}| < s.total)
  {
    assert p.chunk in s.seen ==> s.seen + {p.chunk} == s.seen;
  }

  // ---- chunks that are turned away ------------------------------------

  /** A chunk number or count beyond 64, or more than 498 bytes of data: the session it
      belongs to is over, without a reply, and its next chunk begins a new one. */
  lemma RejectDrops(s: Session, p: Packet, q: Packet)
    requires Sound(s) && (p.chunk >= 64 || p.total > 64 || |p.data| > 498)
    requires q.tid == p.tid && q.chunk < 64 && 1 < q.total <= 64 && |q.data| <= 498
    ensures var r := Feed(s, p);
            r.1 == None && !r.0.active && r.0.slots == s.slots
            && var n := Feed(r.0, q); n.1 == None && n.0.active && n.0.seen == {q.chunk} && n.0.total == q.total
  {
    var r := Feed(s, p).0;
    assert Keep(Join(r, q.tid, q.total), q.chunk, q.data).seen == {q.chunk};
  }

  /** Fewer than 14 bytes are no packet; a data length beyond 498 ends the session. */
  lemma RuntIgnored(s: Session, mem: seq<byte>, len: nat)
    requires Sound(s) && len <= |mem| && PACKET_MAX <= |mem|
    ensures len < 14 ==> FeedBytes(s, mem, len) == (s, None)
    ensures 14 <= len && 256 * (mem[12] as int) + mem[13] as int > 498 ==>
              FeedBytes(s, mem, len).1 == None && !FeedBytes(s, mem, len).0.active
  {
  }

  // ---- chunks from outside the transfer -------------------------------

  /** A session completes with all chunks of its transfer exactly when none of those it
      counted lies outside it, or when the transfer was announced with no chunks at all. */
  lemma CompletionExact(s: Session, p: Packet)
    requires Sound(s) && (s.active ==> |s.seen| < s.total)
    requires Feed(s, p).1.Some?
    ensures var r, j := Feed(s, p).0, Join(s, p.tid, p.total);
            Numbers(r.total) <= r.seen <==>
              j.total == 0 || (p.chunk < j.total && forall i <- j.seen :: i < j.total)
  {
    var r := Feed(s, p).0;
    if r.total == 0 {
      return;
    }
    assert |r.seen| == r.total;
    CountMeansAll(r.seen, r.total);
    if Numbers(r.total) <= r.seen {
      SubsetCount(Numbers(r.total), r.seen);
    }
  }

  /** It does happen: one stray chunk completes a one-chunk transfer, with whatever
      slot 0 held before. */
  lemma StrayCompletes(s: Session, data: seq<byte>)
    requires Sound(s) && !s.active && |data| <= CHUNK_MAX
    ensures Feed(s, Packet(7, 5, 1, data)).1 == Some(Complete(7, s.slots[0]))
  {
    var s2 := Keep(Join(s, 7, 1), 5, data);
    assert s2.seen == {5};
    assert s2.slots[..1] == [s.slots[0]];
    assert Flatten([s.slots[0]]) == s.slots[0];
  }
}
