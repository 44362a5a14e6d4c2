/** The byte ring between the audio thread and its worker: a bounded queue that overwrites its
    oldest bytes. */
module AudioRing {
  import opened Ordering

  type Byte = b: int | 0 <= b < 256

  // The last n elements
  function Last<T>(s: seq<T>, n: nat): seq<T>
    requires n <= |s|
  {
    s[|s| - n..]
  }

  /** A bounded queue after a write: the newest bytes, as many as fit. */
  function Written<T>(held: seq<T>, data: seq<T>, cap: nat): (r: seq<T>)
    ensures |r| == Min(|held| + |data|, cap)
  {
    Last(held + data, Min(|held| + |data|, cap))
  }

  // The cell i places after cell r on a ring of c cells
  function Cell(r: nat, i: nat, c: nat): (j: nat)
    requires r < c && i <= c
    ensures j < c
  {
    if r + i < c then r + i else r + i - c
  }

  // The index arithmetic of the code, `(r + i) % c`
  function Index(i: nat, c: nat): (j: nat)
    requires 0 < c
    ensures j < c
  {
    i % c
  }

  lemma SmallMod(x: nat, c: nat)
    requires x < c
    ensures x % c == x
  {
  }

  lemma Multiple(c: nat, q: nat)
    requires q >= 2
    ensures c * q >= 2 * c
  {
  }

  lemma ModDrops(x: nat, c: nat)
    requires 0 < c <= x < 2 * c
    ensures x % c == x - c && (x - c) % c == x - c
  {
    var q, r := x / c, x % c;
    assert x == c * q + r;
    if q >= 2 {
      Multiple(c, q);
    }
    SmallMod(x - c, c);
  }

  lemma ModIsCell(r: nat, i: nat, c: nat)
    requires r < c && i <= c
    ensures Index(r + i, c) == Cell(r, i, c)
  {
    var x := r + i;
    if x >= c {
      assert x % c == (x - c) % c by { ModDrops(x, c); }
    }
    SmallMod(Cell(r, i, c), c);
    if x < c {
      SmallMod(x, c);
    }
  }

  // The n bytes from cell r on
  function BytesFrom(cells: seq<Byte>, r: nat, n: nat): (s: seq<Byte>)
    requires r < |cells| && n <= |cells|
    ensures |s| == n
  {
    seq(n, i requires 0 <= i < n => cells[Cell(r, i, |cells|)])
  }

  // Storing after s held bytes leaves the newest bytes in a row, starting where the oldest
  // surviving byte is
  lemma StoredBytes(before: seq<Byte>, after: seq<Byte>, r: nat, s: nat, data: seq<Byte>)
    requires |before| == |after| && r < |before| && s <= |before| && |data| <= |before|
    requires
      var w := Cell(r, s, |before|);
      && (forall i :: 0 <= i < |data| ==> after[Cell(w, i, |before|)] == data[i])
      && (forall j :: |data| <= j < |before| ==> after[Cell(w, j, |before|)] == before[Cell(w, j, |before|)])
    ensures
      var c := |before|;
      var first := if s + |data| > c then s + |data| - c else 0;
      BytesFrom(after, Cell(r, first, c), Min(s + |data|, c)) == Written(BytesFrom(before, r, s), data, c)
  {
    var c, w := |before|, Cell(r, s, |before|);
    var first := if s + |data| > c then s + |data| - c else 0;
    var start := Cell(r, first, c);
    forall i | 0 <= i < Min(s + |data|, c)
      ensures after[Cell(start, i, c)] == (BytesFrom(before, r, s) + data)[first + i]
    {
      if first + i < s {
        assert Cell(w, c + first + i - s, c) == Cell(start, i, c) == Cell(r, first + i, c);
      } else {
        assert Cell(w, first + i - s, c) == Cell(start, i, c);
      }
    }
  }

  lemma OnlyTheEndCounts(held: seq<Byte>, input: seq<Byte>, cap: nat)
    requires |held| <= cap <= |input|
    ensures Written(held, input[|input| - cap..], cap) == Written(held, input, cap)
  {
  }

  // Taking n bytes moves the read position and leaves the others
  lemma TakenBytes(cells: seq<Byte>, r: nat, s: nat, n: nat)
    requires r < |cells| && n <= s <= |cells|
    ensures BytesFrom(cells, r, s) == BytesFrom(cells, r, n) + BytesFrom(cells, Cell(r, n, |cells|), s - n)
    ensures Cell(r, s, |cells|) == Cell(Cell(r, n, |cells|), s - n, |cells|)
  {
    var c := |cells|;
    assert forall i :: 0 <= i < s - n ==> Cell(Cell(r, n, c), i, c) == Cell(r, n + i, c);
  }

  class AudioRingBuffer {
    const cap: nat
    const buf: array<Byte>
    var w: nat
    var r: nat
    var size: nat

    ghost predicate Valid()
      reads this
    {
      && buf.Length == cap
      && w < cap && r < cap && size <= cap
      && w == Cell(r, size, cap)
    }

    /** The unread bytes, oldest first. */
    ghost function Held(): (s: seq<Byte>)
      requires Valid()
      reads this, buf
      ensures |s| == size
    {
      BytesFrom(buf[..], r, size)
    }

    constructor (cap: nat)
      requires 0 < cap
      ensures Valid() && this.cap == cap && Held() == [] && fresh(buf)
    {
      this.cap := cap;
      buf := new Byte[cap](_ => 0);
      w, r, size := 0, 0, 0;
    }

    // Copies bytes into consecutive cells
    method Store(data: seq<Byte>)
      requires buf.Length == cap && w < cap && |data| <= cap
      modifies this`w, buf
      ensures w == Cell(old(w), |data|, cap)
      ensures forall i :: 0 <= i < |data| ==> buf[Cell(old(w), i, cap)] == data[i]
      ensures forall j :: |data| <= j < cap ==> buf[Cell(old(w), j, cap)] == old(buf[Cell(w, j, cap)])
    {
      hide Index;
      ghost var w0 := w;
      for i := 0 to |data|
        invariant w == Cell(w0, i, cap)
        invariant forall k :: 0 <= k < i ==> buf[Cell(w0, k, cap)] == data[k]
        invariant forall j :: i <= j < cap ==> buf[Cell(w0, j, cap)] == old(buf[Cell(w, j, cap)])
      {
        ModIsCell(w, 1, cap);
        buf[w] := data[i];
        w := Index(w + 1, cap);
      }
    }

    /** `write`: keeps the newest bytes that fit. */
    method Write(input: seq<Byte>)
      requires Valid()
      modifies this`w, this`r, this`size, buf
      ensures Valid()
      ensures Held() == Written(old(Held()), input, cap)
    {
      hide Index, BytesFrom, Written, Last;
      var data := input;
      ghost var was, before, r0, s0 := Held(), buf[..], r, size;
      if |data| >= cap {
        OnlyTheEndCounts(was, input, cap);
        data := data[|data| - cap..];
      }
      var n := |data|;
      Store(data);
      StoredBytes(before, buf[..], r0, s0, data);
      if size + n > cap {
        var drop := size + n - cap;
        ModIsCell(r, drop, cap);
        r := Index(r + drop, cap);
        size := cap;
      } else {
        size := size + n;
      }
    }

    /** `read`, once bytes are available or the wait has timed out. */
    method Read(n: nat) returns (out: seq<Byte>)
      requires Valid()
      modifies this`r, this`size
      ensures Valid()
      ensures |out| == Min(n, |old(Held())|)
      ensures old(Held()) == out + Held()
    {
      hide Index;
      if size == 0 {
        return [];
      }
      var take := Min(n, size);
      ghost var r0 := r;
      out := [];
      for i := 0 to take
        invariant size == old(size) && r == Cell(r0, i, cap)
        invariant out == BytesFrom(buf[..], r0, i)
      {
        ModIsCell(r, 1, cap);
        out := out + [buf[r]];
        r := Index(r + 1, cap);
      }
      TakenBytes(buf[..], r0, size, take);
      size := size - take;
    }
  }

  // -------------------------------------------------------------------------
  // Any run of writes and reads
  // -------------------------------------------------------------------------

  datatype Op = Write(data: seq<Byte>) | Read(n: nat)

  /** `from[i]` is the position in the written stream of the i-th byte read. */
  datatype Trace = Trace(held: seq<Byte>, written: seq<Byte>, read: seq<Byte>, from: seq<nat>, dropped: nat)

  function Positions(from: nat, n: nat): (s: seq<nat>)
    ensures |s| == n && forall i :: 0 <= i < n ==> s[i] == from + i
  {
    seq(n, i requires 0 <= i < n => from + i)
  }

  // Position in the written stream of the oldest held byte
  function Oldest(t: Trace): nat
  {
    if |t.held| <= |t.written| then |t.written| - |t.held| else 0
  }

  // One operation as the contracts of Write and Read describe it
  function Apply(t: Trace, op: Op, cap: nat): Trace
  {
    match op
    case Write(data) =>
      var held := Written(t.held, data, cap);
      Trace(held, t.written + data, t.read, t.from, t.dropped + (|t.held| + |data| - |held|))
    case Read(n) =>
      var take := Min(n, |t.held|);
      Trace(t.held[take..], t.written, t.read + t.held[..take],
            t.from + Positions(Oldest(t), take), t.dropped)
  }

  function Run(ops: seq<Op>, cap: nat): Trace
  {
    if ops == [] then Trace([], [], [], [], 0)
    else Apply(Run(ops[..|ops| - 1], cap), ops[|ops| - 1], cap)
  }

  ghost predicate InOrder(t: Trace)
  {
    && |t.held| <= |t.written| && t.held == Last(t.written, |t.held|)
    && |t.from| == |t.read|
    && (forall i :: 0 <= i < |t.from| ==> t.from[i] < Oldest(t) && t.read[i] == t.written[t.from[i]])
    && (forall i, j :: 0 <= i < j < |t.from| ==> t.from[i] < t.from[j])
    && |t.written| == |t.read| + t.dropped + |t.held|
  }

  lemma WriteInOrder(t: Trace, data: seq<Byte>, cap: nat)
    requires InOrder(t)
    ensures InOrder(Apply(t, Write(data), cap))
  {
    var u := Apply(t, Write(data), cap);
    assert t.held + data == Last(t.written + data, |t.held| + |data|);
    assert u.held == Last(u.written, |u.held|);
  }

  lemma ReadInOrder(t: Trace, n: nat, cap: nat)
    requires InOrder(t)
    ensures InOrder(Apply(t, Read(n), cap))
  {
    var u := Apply(t, Read(n), cap);
    var take := Min(n, |t.held|);
    assert forall i :: 0 <= i < take ==> t.held[i] == t.written[Oldest(t) + i];
    assert u.held == Last(u.written, |u.held|);
  }

  lemma OpInOrder(t: Trace, op: Op, cap: nat)
    requires InOrder(t)
    ensures InOrder(Apply(t, op, cap))
  {
    match op
    case Write(data) => WriteInOrder(t, data, cap);
    case Read(n) => ReadInOrder(t, n, cap);
  }

  lemma EmptyInOrder()
    ensures InOrder(Trace([], [], [], [], 0))
  {
  }

  /** Over any run, the bytes read are an in-order selection from the bytes written, what is held
      is the end of the written stream, and written = read + dropped + held. */
  lemma {:induction false} RunInOrder(ops: seq<Op>, cap: nat)
    ensures InOrder(Run(ops, cap))
  {
    if ops != [] {
      hide InOrder, Apply;
      EmptyInOrder();
      RunInOrder(ops[..|ops| - 1], cap);
      OpInOrder(Run(ops[..|ops| - 1], cap), ops[|ops| - 1], cap);
    }
  }

  predicate EvenOp(op: Op)
  {
    match op case Write(data) => |data| % 2 == 0 case Read(n) => n % 2 == 0
  }

  // Bytes 2k and 2k+1 read are consecutive, the first at an even position
  ghost predicate Paired(from: seq<nat>)
  {
    forall k :: 0 <= 2 * k < |from| ==> 2 * k + 1 < |from| && from[2 * k] % 2 == 0 && from[2 * k + 1] == from[2 * k] + 1
  }

  ghost predicate Aligned(t: Trace)
  {
    |t.held| % 2 == 0 && |t.written| % 2 == 0 && |t.from| % 2 == 0 && Paired(t.from)
  }

  lemma AppendPairs(from: seq<nat>, start: nat, n: nat)
    requires |from| % 2 == 0 && start % 2 == 0 && n % 2 == 0 && Paired(from)
    ensures Paired(from + Positions(start, n))
  {
    var f := from + Positions(start, n);
    forall k | 0 <= 2 * k < |f| ensures 2 * k + 1 < |f| && f[2 * k] % 2 == 0 && f[2 * k + 1] == f[2 * k] + 1 {
      if 2 * k >= |from| {
        assert f[2 * k] == start + (2 * k - |from|);
      }
    }
  }

  lemma InOrderBound(t: Trace)
    requires InOrder(t)
    ensures |t.held| <= |t.written|
  {
  }

  lemma AlignedStep(t: Trace, op: Op, cap: nat)
    requires Aligned(t) && InOrder(t) && EvenOp(op) && cap % 2 == 0
    ensures Aligned(Apply(t, op, cap))
  {
    hide InOrder, Paired, Last;
    InOrderBound(t);
    if op.Read? {
      AppendPairs(t.from, Oldest(t), Min(op.n, |t.held|));
    }
  }

  /** With an even capacity and even lengths, no 16-bit sample is ever torn: bytes 2k and 2k+1 of
      the stream read are the two bytes of one written sample. */
  lemma {:induction false} SamplesStayWhole(ops: seq<Op>, cap: nat)
    requires cap % 2 == 0 && forall i :: 0 <= i < |ops| ==> EvenOp(ops[i])
    ensures Aligned(Run(ops, cap))
  {
    if ops != [] {
      var t, op := Run(ops[..|ops| - 1], cap), ops[|ops| - 1];
      assert EvenOp(op);
      assert forall i :: 0 <= i < |ops| - 1 ==> ops[..|ops| - 1][i] == ops[i];
      SamplesStayWhole(ops[..|ops| - 1], cap);
      RunInOrder(ops[..|ops| - 1], cap);
      AlignedStep(t, op, cap);
    }
  }
}
