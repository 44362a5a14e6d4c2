/** Live camera frames in Redis: one key per session with a time to live, and a sorted-set index
    of the sessions by time, with its own time to live, used to evict the oldest. */
module LiveFrames {
  import opened Ordering

  type Byte = b: int | 0 <= b < 256
  type Bytes = seq<Byte>     // Redis compares members byte by byte

  // -------------------------------------------------------------------------
  // Sorted sets: ascending by score, ties by member
  // -------------------------------------------------------------------------

  datatype Entry = Entry(member: Bytes, score: real)

  predicate Before(a: Entry, b: Entry)
  {
    a.score < b.score || (a.score == b.score && Less(a.member, b.member))
  }

  lemma BeforeTotal(a: Entry, b: Entry)
    ensures a.member != b.member ==> Before(a, b) || Before(b, a)
  {
    LessTotal(a.member, b.member);
  }

  lemma BeforeTransitive(a: Entry, b: Entry, c: Entry)
    requires Before(a, b) && Before(b, c)
    ensures Before(a, c)
  {
    if a.score == b.score == c.score {
      LessTransitive(a.member, b.member, c.member);
    }
  }

  type Index = seq<Entry>

  ghost predicate Sorted(z: Index)
  {
    forall i, j :: 0 <= i < j < |z| ==> Before(z[i], z[j])
  }

  ghost predicate DistinctMembers(z: Index)
  {
    forall i, j :: 0 <= i < j < |z| ==> z[i].member != z[j].member
  }

  predicate HasMember(z: Index, member: Bytes)
  {
    exists i :: 0 <= i < |z| && z[i].member == member
  }

  function Without(z: Index, member: Bytes): Index
  {
    if z == [] then []
    else if z[0].member == member then Without(z[1..], member)
    else [z[0]] + Without(z[1..], member)
  }

  function Insert(z: Index, e: Entry): Index
  {
    if z == [] || Before(e, z[0]) then [e] + z else [z[0]] + Insert(z[1..], e)
  }

  /** ZADD */
  function ZAdd(z: Index, e: Entry): Index
  {
    Insert(Without(z, e.member), e)
  }

  lemma {:induction false} WithoutFacts(z: Index, member: Bytes)
    requires Sorted(z) && DistinctMembers(z)
    ensures Sorted(Without(z, member)) && DistinctMembers(Without(z, member))
    ensures forall e :: e in Without(z, member) <==> e in z && e.member != member
    ensures |Without(z, member)| <= |z|
  {
    hide Before;
    if z != [] {
      var rest := z[1..];
      assert z == [z[0]] + rest;
      WithoutFacts(rest, member);
      forall e | e in Without(rest, member) ensures Before(z[0], e) && e.member != z[0].member {
        var i :| 0 <= i < |rest| && rest[i] == e;
        assert z[i + 1] == e;
      }
    }
  }

  lemma {:induction false} InsertFacts(z: Index, e: Entry)
    requires Sorted(z) && DistinctMembers(z)
    requires forall x :: x in z ==> x.member != e.member
    ensures Sorted(Insert(z, e)) && DistinctMembers(Insert(z, e))
    ensures forall x :: x in Insert(z, e) <==> x == e || x in z
    ensures |Insert(z, e)| == |z| + 1
  {
    if z != [] {
      var rest := z[1..];
      assert z == [z[0]] + rest;
      if Before(e, z[0]) {
        forall j | 0 <= j < |z| ensures Before(e, z[j]) {
          if j > 0 {
            BeforeTransitive(e, z[0], z[j]);
          }
        }
      } else {
        BeforeTotal(e, z[0]);
        InsertFacts(rest, e);
        forall x | x in Insert(rest, e) ensures Before(z[0], x) && x.member != z[0].member {
          if x != e {
            var i :| 0 <= i < |rest| && rest[i] == x;
            assert z[i + 1] == x;
          }
        }
      }
    }
  }

  /** Adding a member replaces its old entry and keeps the index sorted. */
  lemma ZAddFacts(z: Index, e: Entry)
    requires Sorted(z) && DistinctMembers(z)
    ensures Sorted(ZAdd(z, e)) && DistinctMembers(ZAdd(z, e))
    ensures forall x :: x in ZAdd(z, e) <==> x == e || (x in z && x.member != e.member)
    ensures |ZAdd(z, e)| <= |z| + 1
  {
    WithoutFacts(z, e.member);
    InsertFacts(Without(z, e.member), e);
  }

  // -------------------------------------------------------------------------
  // set_live_frame
  // -------------------------------------------------------------------------

  /** The two keyspaces: when each frame key expires, and the index with its own expiry. */
  datatype Store = Store(frames: map<Bytes, real>, index: Index, indexExpiry: real)

  datatype Limits = Limits(cap: nat, maxBytes: nat)

  datatype Call = Call(session: Bytes, bytes: nat, ttl: real, now: real)

  predicate Accepted(limits: Limits, c: Call)
  {
    c.ttl > 0.0 && 0 < c.bytes <= limits.maxBytes
  }

  // The index that ZADD sees: an expired key is an empty sorted set
  function LiveIndex(s: Store, now: real): Index
  {
    if now < s.indexExpiry then s.index else []
  }

  function Members(z: Index): set<Bytes>
  {
    set e | e in z :: e.member
  }

  function SetFrame(limits: Limits, s: Store, c: Call): Store
  {
    if !Accepted(limits, c) then s else
    var frames := s.frames[c.session := c.now + c.ttl];
    var z := ZAdd(LiveIndex(s, c.now), Entry(c.session, c.now));
    var over := if |z| > limits.cap then |z| - limits.cap else 0;
    Store(frames - Members(z[..over]), z[over..], c.now + c.ttl + 5.0)
  }

  lemma NothingEvicted(frames: map<Bytes, real>, z: Index)
    ensures frames - Members(z[..0]) == frames && z[0..] == z
  {
  }

  class Redis {
    var frames: map<Bytes, real>
    var index: Index
    var indexExpiry: real
    const limits: Limits

    ghost function View(): Store
      reads this
    {
      Store(frames, index, indexExpiry)
    }

    constructor (limits: Limits)
      ensures View() == Store(map[], [], 0.0) && this.limits == limits
    {
      this.limits := limits;
      frames, index, indexExpiry := map[], [], 0.0;
    }

    /** `set_live_frame`, with both clients reachable. */
    method SetLiveFrame(session: Bytes, bytes: nat, ttl: real, now: real)
      modifies this
      ensures View() == SetFrame(limits, old(View()), Call(session, bytes, ttl, now))
      ensures ttl <= 0.0 || bytes == 0 || bytes > limits.maxBytes ==> View() == old(View())
      ensures ttl > 0.0 && 0 < bytes <= limits.maxBytes ==> indexExpiry == now + ttl + 5.0
    {
      hide ZAdd, Members;
      if ttl <= 0.0 {
        return;
      }
      if bytes == 0 {
        return;
      }
      if bytes > limits.maxBytes {
        return;
      }
      frames := frames[session := now + ttl];
      if now >= indexExpiry {
        index := [];
      }
      index := ZAdd(index, Entry(session, now));
      indexExpiry := now + ttl + 5.0;
      var total := |index|;
      if total > limits.cap {
        var toRemove := total - limits.cap;
        var oldest := index[..toRemove];
        frames := frames - Members(oldest);
        index := index[toRemove..];
      } else {
        NothingEvicted(frames, index);
      }
    }
  }

  // -------------------------------------------------------------------------
  // Every run of calls
  // -------------------------------------------------------------------------

  // A frame key that has not expired
  predicate Live(s: Store, session: Bytes, now: real)
  {
    session in s.frames && now < s.frames[session]
  }

  ghost predicate IndexOk(limits: Limits, z: Index, last: real)
  {
    Sorted(z) && DistinctMembers(z) && |z| <= limits.cap && forall e :: e in z ==> e.score <= last
  }

  ghost predicate TimesOk(s: Store, ttl: real, last: real)
  {
    && ((s.index == [] && s.frames == map[]) || s.indexExpiry == last + ttl + 5.0)
    && (forall k :: k in s.frames ==> s.frames[k] <= last + ttl)
  }

  // Every live frame is indexed under the time at which it was stored
  ghost predicate LiveIndexed(s: Store, ttl: real, last: real)
  {
    forall k :: Live(s, k, last) ==> Entry(k, s.frames[k] - ttl) in s.index
  }

  ghost predicate Inv(limits: Limits, s: Store, ttl: real, last: real)
  {
    IndexOk(limits, s.index, last) && TimesOk(s, ttl, last) && LiveIndexed(s, ttl, last)
  }

  // The store after an accepted call
  lemma SetFrameIs(limits: Limits, s: Store, c: Call, z: Index, over: nat)
    requires Accepted(limits, c) && z == ZAdd(LiveIndex(s, c.now), Entry(c.session, c.now))
    requires over == if |z| > limits.cap then |z| - limits.cap else 0
    ensures
      var t := SetFrame(limits, s, c);
      && t.index == z[over..] && t.indexExpiry == c.now + c.ttl + 5.0
      && (forall k :: k in t.frames <==> (k in s.frames || k == c.session) && k !in Members(z[..over]))
      && (forall k :: k in t.frames ==>
          (k == c.session && t.frames[k] == c.now + c.ttl) || (k != c.session && k in s.frames && t.frames[k] == s.frames[k]))
  {
    hide ZAdd, Members;
  }

  lemma SuffixFacts(z: Index, over: nat)
    requires Sorted(z) && DistinctMembers(z) && over <= |z|
    ensures Sorted(z[over..]) && DistinctMembers(z[over..])
    ensures forall x :: x in z[over..] ==> x in z
  {
  }

  lemma IndexKept(limits: Limits, s: Store, last: real, c: Call, z: Index, over: nat)
    requires IndexOk(limits, s.index, last) && last <= c.now
    requires z == ZAdd(LiveIndex(s, c.now), Entry(c.session, c.now))
    requires over == if |z| > limits.cap then |z| - limits.cap else 0
    ensures Sorted(z) && DistinctMembers(z) && IndexOk(limits, z[over..], c.now)
    ensures Entry(c.session, c.now) in z
    ensures forall x :: x in LiveIndex(s, c.now) && x.member != c.session ==> x in z
  {
    ZAddFacts(LiveIndex(s, c.now), Entry(c.session, c.now));
    hide ZAdd, Before;
    SuffixFacts(z, over);
    hide Sorted, DistinctMembers;
    forall x | x in z[over..] ensures x.score <= c.now {
      assert x in z;
    }
  }

  lemma TimesKept(s: Store, ttl: real, last: real, t: Store, c: Call)
    requires TimesOk(s, ttl, last) && c.ttl == ttl && last <= c.now
    requires t.indexExpiry == c.now + c.ttl + 5.0
    requires forall k :: k in t.frames ==> (k == c.session && t.frames[k] == c.now + c.ttl) || (k != c.session && k in s.frames && t.frames[k] == s.frames[k])
    ensures TimesOk(t, ttl, c.now)
  {
  }

  // An entry whose frame was not deleted is still in the index
  lemma KeptEntry(z: Index, over: nat, e: Entry)
    requires over <= |z| && e in z && e.member !in Members(z[..over])
    ensures e in z[over..]
  {
    assert z == z[..over] + z[over..];
  }

  lemma LiveKept(limits: Limits, s: Store, ttl: real, last: real, t: Store, c: Call, z: Index, over: nat)
    requires TimesOk(s, ttl, last) && LiveIndexed(s, ttl, last) && c.ttl == ttl && last <= c.now && over <= |z|
    requires t.index == z[over..]
    requires forall k :: k in t.frames ==> k !in Members(z[..over])
    requires forall k :: k in t.frames ==> (k == c.session && t.frames[k] == c.now + c.ttl) || (k != c.session && k in s.frames && t.frames[k] == s.frames[k])
    requires Entry(c.session, c.now) in z
    requires forall x :: x in LiveIndex(s, c.now) && x.member != c.session ==> x in z
    ensures LiveIndexed(t, ttl, c.now)
  {
    hide Members;
    forall k | Live(t, k, c.now) ensures Entry(k, t.frames[k] - ttl) in t.index {
      if k == c.session {
        KeptEntry(z, over, Entry(c.session, c.now));
      } else {
        assert Live(s, k, last) && c.now < s.indexExpiry;
        KeptEntry(z, over, Entry(k, s.frames[k] - ttl));
      }
    }
  }

  lemma CallKeepsInv(limits: Limits, s: Store, ttl: real, last: real, c: Call)
    requires Inv(limits, s, ttl, last) && c.ttl == ttl && last <= c.now && Accepted(limits, c)
    ensures Inv(limits, SetFrame(limits, s, c), ttl, c.now)
  {
    var z := ZAdd(LiveIndex(s, c.now), Entry(c.session, c.now));
    var over := if |z| > limits.cap then |z| - limits.cap else 0;
    hide ZAdd, IndexOk, TimesOk, LiveIndexed, SetFrame, Members, LiveIndex;
    SetFrameIs(limits, s, c, z, over);
    IndexKept(limits, s, last, c, z, over);
    TimesKept(s, ttl, last, SetFrame(limits, s, c), c);
    LiveKept(limits, s, ttl, last, SetFrame(limits, s, c), c, z, over);
  }

  // Accepted calls with one ttl and a clock that never goes back
  ghost predicate Orderly(limits: Limits, ttl: real, calls: seq<Call>)
  {
    && (forall i :: 0 <= i < |calls| ==> Accepted(limits, calls[i]) && calls[i].ttl == ttl)
    && (forall i, j :: 0 <= i < j < |calls| ==> calls[i].now <= calls[j].now)
  }

  function Run(limits: Limits, calls: seq<Call>): Store
  {
    if calls == [] then Store(map[], [], 0.0)
    else SetFrame(limits, Run(limits, calls[..|calls| - 1]), calls[|calls| - 1])
  }

  function LastNow(calls: seq<Call>, default: real): real
  {
    if calls == [] then default else calls[|calls| - 1].now
  }

  lemma {:induction false} InvAlways(limits: Limits, ttl: real, calls: seq<Call>, from: real)
    requires Orderly(limits, ttl, calls)
    ensures Inv(limits, Run(limits, calls), ttl, LastNow(calls, from))
  {
    if calls != [] {
      var front, c := calls[..|calls| - 1], calls[|calls| - 1];
      InvAlways(limits, ttl, front, c.now);
      hide Inv, SetFrame;
      CallKeepsInv(limits, Run(limits, front), ttl, LastNow(front, c.now), c);
    }
  }

  lemma InvParts(limits: Limits, s: Store, ttl: real, last: real)
    requires Inv(limits, s, ttl, last)
    ensures Sorted(s.index) && DistinctMembers(s.index) && |s.index| <= limits.cap
    ensures TimesOk(s, ttl, last) && LiveIndexed(s, ttl, last)
  {
  }

  lemma LastIs(calls: seq<Call>, default: real)
    requires calls != []
    ensures LastNow(calls, default) == calls[|calls| - 1].now
  {
  }

  lemma LiveHasEntry(s: Store, ttl: real, last: real, now: real, k: Bytes)
    requires TimesOk(s, ttl, last) && LiveIndexed(s, ttl, last) && last <= now && Live(s, k, now)
    ensures k in s.frames && HasMember(LiveIndex(s, now), k) && Entry(k, s.frames[k] - ttl) in s.index
  {
    assert Live(s, k, last);
    var i :| 0 <= i < |s.index| && s.index[i] == Entry(k, s.frames[k] - ttl);
    assert LiveIndex(s, now)[i].member == k;
  }

  /** After any orderly run the index holds at most `cap` sessions, in order of time, and every
      frame key that is still alive, now or later, is in the index, however often the whole index
      has expired on the way. */
  lemma IndexCoversFrames(limits: Limits, ttl: real, calls: seq<Call>, now: real, session: Bytes)
    requires Orderly(limits, ttl, calls) && calls != [] && calls[|calls| - 1].now <= now
    ensures
      var s := Run(limits, calls);
      && |s.index| <= limits.cap && Sorted(s.index) && DistinctMembers(s.index)
      && (Live(s, session, now) ==>
           HasMember(LiveIndex(s, now), session) && Entry(session, s.frames[session] - ttl) in s.index)
  {
    hide *;
    var s, last := Run(limits, calls), LastNow(calls, now);
    InvAlways(limits, ttl, calls, now);
    InvParts(limits, s, ttl, last);
    assert last == calls[|calls| - 1].now by { LastIs(calls, now); }
    if Live(s, session, now) {
      LiveHasEntry(s, ttl, last, now, session);
    }
  }

  lemma MembersOf(z: Index)
    ensures forall k :: k in Members(z) <==> exists e :: e in z && e.member == k
  {
  }

  lemma PrefixEvicted(z: Index, over: nat)
    requires Sorted(z) && DistinctMembers(z) && over <= |z|
    ensures forall e :: e in z[..over] <==> e in z && e !in z[over..]
    ensures forall a, b :: a in z && b in z && a !in z[over..] && b in z[over..] ==> a.score <= b.score
  {
    assert z == z[..over] + z[over..];
    forall e | e in z[..over] ensures e !in z[over..] {
      var i :| 0 <= i < over && z[i] == e;
      assert forall j :: over <= j < |z| ==> z[j].member != e.member;
    }
    forall a, b | a in z[..over] && b in z[over..] ensures a.score <= b.score {
      var i :| 0 <= i < over && z[i] == a;
      var j :| over <= j < |z| && z[j] == b;
      assert Before(z[i], z[j]);
    }
  }

  /** The evicted sessions are the lowest of the index: every one of them was last seen no later
      than any session that stays. Exactly as many go as are over the cap, and nothing else changes. */
  lemma {:induction false} EvictsOldest(limits: Limits, ttl: real, calls: seq<Call>, c: Call)
    requires Orderly(limits, ttl, calls) && Accepted(limits, c)
    ensures
      var s := Run(limits, calls);
      var z := ZAdd(LiveIndex(s, c.now), Entry(c.session, c.now));
      var t := SetFrame(limits, s, c);
      && (forall a, b :: a in z && b in z && a !in t.index && b in t.index ==> a.score <= b.score)
      && |t.index| == (if |z| > limits.cap then limits.cap else |z|)
      && (forall k :: k in t.frames <==>
           (k in s.frames || k == c.session) && !(exists e :: e in z && e !in t.index && e.member == k))
  {
    InvAlways(limits, ttl, calls, c.now);
    var s := Run(limits, calls);
    var z := ZAdd(LiveIndex(s, c.now), Entry(c.session, c.now));
    ZAddFacts(LiveIndex(s, c.now), Entry(c.session, c.now));
    var over := if |z| > limits.cap then |z| - limits.cap else 0;
    SetFrameIs(limits, s, c, z, over);
    hide Run, ZAdd, Inv, SetFrame, LiveIndex;
    PrefixEvicted(z, over);
    MembersOf(z[..over]);
    hide Members;
  }
}
