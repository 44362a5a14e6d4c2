/** The daily invite cap: an atomic check-and-bump of one counter row, and the read-then-write
    path that it replaces. */
module InviteCap {
  import opened Wrappers

  /** A teacher and a day. */
  datatype Key = Key(teacher: string, day: int)

  type Counters = map<Key, int>

  datatype Outcome = Outcome(allowed: bool, remaining: int)

  // What is stored for a key; a missing row counts as zero
  function Stored(c: Counters, k: Key): int
  {
    if k in c then c[k] else 0
  }

  function AtLeastZero(n: int): int { if n > 0 then n else 0 }

  /** The transaction of the atomic path: make sure the row exists, then bump it if it fits. */
  function Claim(c: Counters, k: Key, batch: int, cap: int): (Counters, Outcome)
  {
    var c1 := if k in c then c else c[k := 0];
    if c1[k] + batch <= cap
    then (c1[k := c1[k] + batch], Outcome(true, AtLeastZero(cap - (c1[k] + batch))))
    else (c1, Outcome(false, AtLeastZero(cap - c1[k])))
  }

  /** The legacy path, when nothing comes between its read and its write. */
  function ClaimLegacy(c: Counters, k: Key, batch: int, cap: int): (Counters, Outcome)
  {
    var remaining := cap - Stored(c, k);
    if batch > remaining then (c, Outcome(false, AtLeastZero(remaining)))
    else (c[k := Stored(c, k) + batch], Outcome(true, AtLeastZero(remaining - batch)))
  }

  /** How the atomic claim ends: with an answer, or with an exception before or after its commit. */
  datatype Attempt = Answers | Raises(committed: bool)

  class CounterTable {
    var rows: Counters

    /** INSERT ... ON CONFLICT DO NOTHING */
    method EnsureRow(k: Key)
      modifies this
      ensures rows == if k in old(rows) then old(rows) else old(rows)[k := 0]
    {
      if k !in rows {
        rows := rows[k := 0];
      }
    }

    /** UPDATE ... SET count = count + batch WHERE ... AND count + batch <= cap RETURNING count */
    method BumpIfFits(k: Key, batch: int, cap: int) returns (newCount: Option<int>)
      modifies this
      ensures
        if k in old(rows) && old(rows)[k] + batch <= cap
        then newCount == Some(old(rows)[k] + batch) && rows == old(rows)[k := old(rows)[k] + batch]
        else newCount == None && rows == old(rows)
    {
      if k in rows && rows[k] + batch <= cap {
        rows := rows[k := rows[k] + batch];
        return Some(rows[k]);
      }
      newCount := None;
    }

    method ClaimAndBump(k: Key, batch: int, cap: int) returns (o: Outcome)
      modifies this
      ensures (rows, o) == Claim(old(rows), k, batch, cap)
    {
      EnsureRow(k);
      var newCount := BumpIfFits(k, batch, cap);
      if newCount.None? {
        return Outcome(false, AtLeastZero(cap - rows[k]));
      }
      o := Outcome(true, AtLeastZero(cap - newCount.value));
    }

    method ClaimAndBumpLegacy(k: Key, batch: int, cap: int) returns (o: Outcome)
      modifies this
      ensures (rows, o) == ClaimLegacy(old(rows), k, batch, cap)
    {
      var used := if k in rows then rows[k] else 0;
      var remaining := cap - used;
      if batch > remaining {
        return Outcome(false, AtLeastZero(remaining));
      }
      rows := rows[k := used + batch];
      o := Outcome(true, AtLeastZero(remaining - batch));
    }

    /** The wrapper: an empty batch and a dry run are always allowed and never counted; the legacy
        path runs only when the atomic one raises, and lets the send through when it raises too.
        The atomic path counts on the database's day, the legacy one on the UTC day; an atomic
        claim that raises after its commit has been counted all the same. */
    method ClaimCap(teacher: string, dbDay: int, utcDay: int, batch: int, cap: int, dryRun: bool, atomic: Attempt,
        legacyRaises: bool)
      returns (o: Outcome)
      modifies this
      ensures batch <= 0 || dryRun ==> rows == old(rows) && o == Outcome(true, cap)
      ensures batch > 0 && !dryRun ==>
        var counted := if atomic == Raises(false) then old(rows) else Claim(old(rows), Key(teacher, dbDay), batch, cap).0;
        (rows, o) ==
          if atomic == Answers then Claim(old(rows), Key(teacher, dbDay), batch, cap)
          else if legacyRaises then (counted, Outcome(true, cap))
          else ClaimLegacy(counted, Key(teacher, utcDay), batch, cap)
    {
      if batch <= 0 {
        return Outcome(true, cap);
      }
      if dryRun {
        return Outcome(true, cap);
      }
      if atomic != Raises(false) {
        o := ClaimAndBump(Key(teacher, dbDay), batch, cap);
        if atomic == Answers {
          return;
        }
      }
      if legacyRaises {
        return Outcome(true, cap);
      }
      o := ClaimAndBumpLegacy(Key(teacher, utcDay), batch, cap);
    }
  }

  // -------------------------------------------------------------------------
  // Atomic claims in any order
  // -------------------------------------------------------------------------

  /** One claim; `legacy` marks the fallback path. */
  datatype Request = Request(key: Key, batch: nat, legacy: bool)

  function Step(c: Counters, r: Request, cap: int): (Counters, Outcome)
  {
    if r.legacy then ClaimLegacy(c, r.key, r.batch, cap) else Claim(c, r.key, r.batch, cap)
  }

  function Run(c: Counters, rs: seq<Request>, cap: int): Counters
  {
    if rs == [] then c else Step(Run(c, rs[..|rs| - 1], cap), rs[|rs| - 1], cap).0
  }

  // What was granted for one key
  function Granted(c: Counters, rs: seq<Request>, cap: int, k: Key): nat
  {
    if rs == [] then 0 else
    var r := rs[|rs| - 1];
    Granted(c, rs[..|rs| - 1], cap, k)
      + if r.key == k && Step(Run(c, rs[..|rs| - 1], cap), r, cap).1.allowed then r.batch else 0
  }

  lemma Growth(c: Counters, r: Request, cap: int)
    ensures
      var (d, o) := Step(c, r, cap);
      Stored(d, r.key) == Stored(c, r.key) + if o.allowed then r.batch else 0
  {
  }

  /** A denial happens exactly when the batch does not fit, and changes no stored count; the
      remainder that is returned is exact, and other keys are never touched. */
  lemma OutcomeExact(c: Counters, r: Request, cap: int, other: Key)
    ensures
      var (d, o) := Step(c, r, cap);
      && (o.allowed <==> Stored(c, r.key) + r.batch <= cap)
      && (o.allowed ==> d == c[r.key := Stored(c, r.key) + r.batch])
      && (!o.allowed ==> d == if r.legacy || r.key in c then c else c[r.key := 0])
      && o.remaining == (if Stored(d, r.key) < cap then cap - Stored(d, r.key) else 0)
      && (other != r.key ==> Stored(d, other) == Stored(c, other))
      && (!o.allowed ==> Stored(d, r.key) == Stored(c, r.key))
  {
  }

  /** For any order of uninterrupted claims, on either path, the batches granted for a teacher and
      day add up to the growth of the stored count, which never passes the cap. */
  lemma {:induction false} CapNeverPassed(c: Counters, rs: seq<Request>, cap: int, k: Key)
    ensures Stored(Run(c, rs, cap), k) == Stored(c, k) + Granted(c, rs, cap, k)
    ensures Stored(c, k) <= cap ==> Stored(Run(c, rs, cap), k) <= cap
  {
    if rs != [] {
      hide Step;
      CapNeverPassed(c, rs[..|rs| - 1], cap, k);
      OutcomeExact(Run(c, rs[..|rs| - 1], cap), rs[|rs| - 1], cap, k);
      Growth(Run(c, rs[..|rs| - 1], cap), rs[|rs| - 1], cap);
    }
  }

  lemma OneAgrees(c: Counters, c': Counters, r: Request, r': Request, cap: int, k: Key)
    requires r.key == r'.key && r.batch == r'.batch
    requires Stored(c, k) == Stored(c', k) && Stored(c, r.key) == Stored(c', r.key)
    ensures Step(c, r, cap).1 == Step(c', r', cap).1
    ensures Stored(Step(c, r, cap).0, k) == Stored(Step(c', r', cap).0, k)
  {
  }

  /** Run one at a time and on the same days, the legacy path gives the same answers and the same
      counts as the atomic one, for every history of claims. */
  lemma {:induction false} LegacyAgreesSequentially(c: Counters, rs: seq<Request>, rs': seq<Request>, cap: int, k: Key)
    requires |rs| == |rs'|
    requires forall i :: 0 <= i < |rs| ==> rs[i].key == rs'[i].key && rs[i].batch == rs'[i].batch
    ensures Stored(Run(c, rs, cap), k) == Stored(Run(c, rs', cap), k)
    ensures rs != [] ==>
      var n := |rs| - 1;
      Step(Run(c, rs[..n], cap), rs[n], cap).1 == Step(Run(c, rs'[..n], cap), rs'[n], cap).1
  {
    if rs != [] {
      var n := |rs| - 1;
      var c1, c2 := Run(c, rs[..n], cap), Run(c, rs'[..n], cap);
      assert forall i :: 0 <= i < n ==> rs[..n][i] == rs[i] && rs'[..n][i] == rs'[i];
      LegacyAgreesSequentially(c, rs[..n], rs'[..n], cap, k);
      LegacyAgreesSequentially(c, rs[..n], rs'[..n], cap, rs[n].key);
      hide Step;
      OneAgrees(c1, c2, rs[n], rs'[n], cap, k);
    }
  }

  /** A claim that was committed without an answer is claimed again on the legacy path. On the same
      day it is counted twice if and only if two such batches fit; otherwise it is denied although
      it was counted once. */
  lemma LostCommitCountsTwice(c: Counters, k: Key, batch: nat, cap: int)
    requires batch > 0 && Stored(c, k) + batch <= cap
    ensures
      var (d, o) := ClaimLegacy(Claim(c, k, batch, cap).0, k, batch, cap);
      && (o.allowed <==> Stored(c, k) + 2 * batch <= cap)
      && Stored(d, k) == Stored(c, k) + if o.allowed then 2 * batch else batch
  {
  }

  // -------------------------------------------------------------------------
  // The legacy path interrupted between its read and its write
  // -------------------------------------------------------------------------

  // The write that a caller makes who has read `used`
  function LateWrite(c: Counters, k: Key, used: int, batch: int, cap: int): (Counters, bool)
  {
    if batch > cap - used then (c, false) else (c[k := used + batch], true)
  }

  /** Two callers that both read before either writes are both granted exactly when each fits
      alone. Then the first grant is missing from the count, and together they pass the cap exactly
      when running one after the other would have denied the second. */
  lemma SplitLegacyOvershoots(c: Counters, k: Key, first: nat, second: nat, cap: int)
    requires k in c && first > 0 && second > 0
    ensures
      var used := Stored(c, k);
      var (c1, ok1) := LateWrite(c, k, used, first, cap);
      var (c2, ok2) := LateWrite(c1, k, used, second, cap);
      && (ok1 && ok2 <==> used + first <= cap && used + second <= cap)
      && (ok1 && ok2 ==>
        && Stored(c2, k) == used + second
        && (used + first + second > cap <==>
            !ClaimLegacy(ClaimLegacy(c, k, first, cap).0, k, second, cap).1.allowed))
  {
  }

  /** With a cap of 5 and two batches of 3, six invites are granted and three are counted. */
  lemma OvershootWitness(k: Key)
    ensures
      var c: Counters := map[k := 0];
      var (c1, ok1) := LateWrite(c, k, Stored(c, k), 3, 5);
      var (c2, ok2) := LateWrite(c1, k, Stored(c, k), 3, 5);
      ok1 && ok2 && Stored(c2, k) == 3
  {
  }
}
