/** Crash-safe installation of the runtime assets: two directories are replaced and a version
    marker is written last. A crash may stop the installation after any file system mutation. */
module RuntimeAssets {
  import opened Ordering
  import Strings

  // -------------------------------------------------------------------------
  // Versions as decimal text
  // -------------------------------------------------------------------------

  function Digit(d: nat): char
    requires d < 10
  {
    '0' + d as char
  }

  /** String(version) */
  function Decimal(n: nat): (s: string)
    ensures s != "" && forall i :: 0 <= i < |s| ==> '0' <= s[i] <= '9'
  {
    if n < 10 then [Digit(n)] else Decimal(n / 10) + [Digit(n % 10)]
  }

  lemma {:induction false} DecimalInjective(m: nat, n: nat)
    ensures Decimal(m) == Decimal(n) <==> m == n
    decreases m
  {
    var a, b := Decimal(m), Decimal(n);
    if a == b {
      assert a[|a| - 1] == Digit(m % 10) && b[|b| - 1] == Digit(n % 10);
      if m >= 10 && n >= 10 {
        assert a[..|a| - 1] == Decimal(m / 10) && b[..|b| - 1] == Decimal(n / 10);
        DecimalInjective(m / 10, n / 10);
      }
    }
  }

  lemma {:induction false} DecimalLength(m: nat, n: nat)
    requires m <= n
    ensures |Decimal(m)| <= |Decimal(n)|
    decreases n
  {
    if m >= 10 {
      DecimalLength(m / 10, n / 10);
    }
  }

  function ValueOf(s: string): int
  {
    if s == "" then 0 else ValueOf(s[..|s| - 1]) * 10 + (s[|s| - 1] as int - 48)
  }

  lemma NoDigits()
    ensures ValueOf("") == 0
  {
  }

  lemma LastDigit(s: string)
    requires s != ""
    ensures ValueOf(s) == ValueOf(s[..|s| - 1]) * 10 + (s[|s| - 1] as int - 48)
  {
  }

  /** The decimal text of a number: its digits, read in base ten, without a leading zero. */
  lemma {:induction false} DecimalIs(n: nat)
    ensures ValueOf(Decimal(n)) == n
    ensures n > 0 ==> Decimal(n)[0] != '0'
  {
    hide ValueOf;
    var s := Decimal(n);
    LastDigit(s);
    if n >= 10 {
      DecimalIs(n / 10);
      assert s[..|s| - 1] == Decimal(n / 10);
    } else {
      assert s[..0] == "";
      NoDigits();
    }
  }

  lemma StripDigits(s: string)
    requires forall i :: 0 <= i < |s| ==> '0' <= s[i] <= '9'
    ensures Strings.Strip(s) == s
  {
  }

  // -------------------------------------------------------------------------
  // The cache directory
  // -------------------------------------------------------------------------

  datatype Tree = Absent | Partial | Complete(version: nat)

  datatype Marker = NoMarker | Unreadable | Content(text: string)

  /** The marker file and the two directories, python-runtime and weights. */
  datatype Cache = Cache(marker: Marker, trees: seq<Tree>)

  /** needsRuntimeAssetFetch */
  function NeedsFetch(expected: nat, cache: Cache): bool
  {
    match cache.marker
    case NoMarker => true
    case Unreadable => true
    case Content(text) => Strings.Strip(text) != Decimal(expected)
  }

  /** A fetch is unnecessary only on the word of a readable marker whose text, without white space
      around it, is the expected version in decimal. */
  lemma FetchDecision(expected: nat, cache: Cache)
    ensures cache.marker in {NoMarker, Unreadable} ==> NeedsFetch(expected, cache)
    ensures !NeedsFetch(expected, cache) <==>
      exists text :: cache.marker == Content(text) && Strings.Strip(text) == Decimal(expected)
  {
  }

  datatype FsOp =
    | RemoveSome(i: nat)               // a recursive delete in progress
    | RemoveRest(i: nat)
    | Rename(i: nat, version: nat)     // the extracted tree moves into place
    | WriteMarker(text: string)        // the file now holds this much

  function Mutate(c: Cache, op: FsOp): Cache
    requires |c.trees| == 2
  {
    match op
    case RemoveSome(i) => if i < 2 && c.trees[i] != Absent then c.(trees := c.trees[i := Partial]) else c
    case RemoveRest(i) => if i < 2 then c.(trees := c.trees[i := Absent]) else c
    case Rename(i, v) => if i < 2 then c.(trees := c.trees[i := Complete(v)]) else c
    case WriteMarker(text) => c.(marker := Content(text))
  }

  function MutateAll(c: Cache, ops: seq<FsOp>): (d: Cache)
    requires |c.trees| == 2
    ensures |d.trees| == 2
  {
    if ops == [] then c else Mutate(MutateAll(c, ops[..|ops| - 1]), ops[|ops| - 1])
  }

  function TreeOps(i: nat, v: nat): seq<FsOp> { [RemoveSome(i), RemoveRest(i), Rename(i, v)] }

  // Truncating the marker file and writing it character by character
  function MarkerOps(v: nat): (ops: seq<FsOp>)
    ensures |ops| == |Decimal(v)| + 1
    ensures forall n :: 0 <= n < |ops| ==> ops[n] == WriteMarker(Decimal(v)[..n])
  {
    seq(|Decimal(v)| + 1, n requires 0 <= n < |Decimal(v)| + 1 => WriteMarker(Decimal(v)[..n]))
  }

  function InstallOps(v: nat): seq<FsOp>
  {
    TreeOps(0, v) + TreeOps(1, v) + MarkerOps(v)
  }

  /** One launch that expects a version and crashes after some mutations, if it installs at all. */
  datatype Launch = Launch(expected: nat, crashAfter: nat)

  function Step(c: Cache, l: Launch): (d: Cache)
    requires |c.trees| == 2
    ensures |d.trees| == 2
  {
    if !NeedsFetch(l.expected, c) then c
    else MutateAll(c, InstallOps(l.expected)[..Min(l.crashAfter, |InstallOps(l.expected)|)])
  }

  function Run(launches: seq<Launch>): (c: Cache)
    ensures |c.trees| == 2
  {
    if launches == [] then Cache(NoMarker, [Absent, Absent])
    else Step(Run(launches[..|launches| - 1]), launches[|launches| - 1])
  }

  // -------------------------------------------------------------------------
  // ensureRuntimeAssets
  // -------------------------------------------------------------------------

  lemma InstallOpsAre(v: nat)
    ensures
      var ops := InstallOps(v);
      && |ops| == 7 + |Decimal(v)|
      && ops[0] == RemoveSome(0) && ops[1] == RemoveRest(0) && ops[2] == Rename(0, v)
      && ops[3] == RemoveSome(1) && ops[4] == RemoveRest(1) && ops[5] == Rename(1, v)
      && forall n :: 0 <= n <= |Decimal(v)| ==> ops[6 + n] == WriteMarker(Decimal(v)[..n])
  {
    hide Decimal;
  }

  lemma NothingDone(c: Cache, ops: seq<FsOp>)
    requires |c.trees| == 2
    ensures MutateAll(c, ops[..0]) == c
  {
  }

  lemma OneMore(c: Cache, ops: seq<FsOp>, n: nat)
    requires |c.trees| == 2 && n < |ops|
    ensures MutateAll(c, ops[..n + 1]) == Mutate(MutateAll(c, ops[..n]), ops[n])
  {
    assert ops[..n + 1][..n] == ops[..n];
  }

  class RuntimeCache {
    var marker: Marker
    var trees: array<Tree>

    ghost predicate Valid()
      reads this
    {
      trees.Length == 2
    }

    ghost function View(): Cache
      requires Valid()
      reads this, trees
    {
      Cache(marker, trees[..])
    }

    /** Installs the expected version; false means that a crash stopped it. */
    method EnsureRuntimeAssets(expected: nat, crashAfter: nat) returns (ready: bool)
      requires Valid()
      modifies this`marker, trees
      ensures Valid() && trees == old(trees)
      ensures View() == Step(old(View()), Launch(expected, crashAfter))
      ensures ready <==> !NeedsFetch(expected, old(View())) || crashAfter >= |InstallOps(expected)|
    {
      hide Strings.Strip, Decimal;
      var needed := match marker
        case NoMarker => true
        case Unreadable => true
        case Content(text) => Strings.Strip(text) != Decimal(expected);
      if !needed {
        return true;
      }
      ghost var was := View();
      InstallOpsAre(expected);
      var done := ReplaceTrees(expected, crashAfter, was);
      if done < 6 {
        return false;
      }
      done := WriteVersion(expected, crashAfter, was);
      assert InstallOps(expected)[..|InstallOps(expected)|] == InstallOps(expected);
      ready := done == |Decimal(expected)| + 7;
    }

    // Deletes and replaces both directories; returns the number of mutations before a crash
    method ReplaceTrees(expected: nat, crashAfter: nat, ghost was: Cache) returns (done: nat)
      requires Valid() && View() == was
      modifies trees
      ensures Valid() && done == Min(crashAfter, 6)
      ensures View() == MutateAll(was, InstallOps(expected)[..done])
    {
      ghost var ops := InstallOps(expected);
      InstallOpsAre(expected);
      hide InstallOps, MutateAll, Mutate;
      NothingDone(was, ops);
      done := 0;
      for i := 0 to 2
        invariant done == 3 * i <= crashAfter && marker == old(marker)
        invariant View() == MutateAll(was, ops[..done])
      {
        if done == crashAfter { return; }
        Perform(RemoveSome(i));
        OneMore(was, ops, done);
        done := done + 1;
        if done == crashAfter { return; }
        Perform(RemoveRest(i));
        OneMore(was, ops, done);
        done := done + 1;
        if done == crashAfter { return; }
        Perform(Rename(i, expected));
        OneMore(was, ops, done);
        done := done + 1;
      }
    }

    // Truncates and writes the marker file
    method WriteVersion(expected: nat, crashAfter: nat, ghost was: Cache) returns (done: nat)
      requires Valid() && |was.trees| == 2 && crashAfter >= 6
      requires |InstallOps(expected)| >= 6 && View() == MutateAll(was, InstallOps(expected)[..6])
      modifies this`marker
      ensures Valid() && done == Min(crashAfter, |InstallOps(expected)|)
      ensures View() == MutateAll(was, InstallOps(expected)[..done])
    {
      ghost var ops := InstallOps(expected);
      InstallOpsAre(expected);
      hide InstallOps, MutateAll;
      var text := Decimal(expected);
      done := 6;
      for n := 0 to |text| + 1
        invariant done == 6 + n <= crashAfter
        invariant View() == MutateAll(was, ops[..done])
      {
        if done == crashAfter { return; }
        marker := Content(text[..n]);
        OneMore(was, ops, done);
        done := done + 1;
      }
    }

    // One file system call on a directory
    method Perform(op: FsOp)
      requires Valid() && !op.WriteMarker?
      modifies trees
      ensures View() == Mutate(old(View()), op)
    {
      match op
      case RemoveSome(i) => if i < 2 && trees[i] != Absent { trees[i] := Partial; }
      case RemoveRest(i) => if i < 2 { trees[i] := Absent; }
      case Rename(i, v) => if i < 2 { trees[i] := Complete(v); }
    }
  }

  // -------------------------------------------------------------------------
  // Safety over all launches
  // -------------------------------------------------------------------------

  predicate Installed(c: Cache, v: nat)
  {
    c.trees == [Complete(v), Complete(v)]
  }

  // From version `top` on, the marker can only vouch for `top`, and only for complete directories
  ghost predicate Inv(c: Cache, top: nat)
  {
    && |c.trees| == 2
    && forall w :: w >= top && !NeedsFetch(w, c) ==> w == top && Installed(c, top)
  }

  lemma SameMarker(c: Cache, d: Cache, v: nat)
    requires c.marker == d.marker
    ensures NeedsFetch(v, c) == NeedsFetch(v, d)
  {
  }

  // A marker that was only partly written vouches for no later version
  lemma PartialMarker(v: nat, n: nat, w: nat)
    requires n < |Decimal(v)| && v <= w
    ensures Strings.Strip(Decimal(v)[..n]) != Decimal(w)
  {
    StripDigits(Decimal(v)[..n]);
    DecimalLength(v, w);
  }

  lemma WholeMarker(v: nat, w: nat)
    ensures Strings.Strip(Decimal(v)) == Decimal(w) <==> v == w
  {
    StripDigits(Decimal(v));
    DecimalInjective(v, w);
  }

  // The marker and the directories after n mutations of an installation
  lemma {:induction false} InstallProgress(c: Cache, v: nat, n: nat)
    requires |c.trees| == 2 && n <= |InstallOps(v)|
    ensures
      var d := MutateAll(c, InstallOps(v)[..n]);
      && (n <= 6 ==> d.marker == c.marker)
      && (n > 6 ==> d.marker == Content(Decimal(v)[..n - 7]))
      && (n >= 3 ==> d.trees[0] == Complete(v))
      && (n >= 6 ==> Installed(d, v))
  {
    hide Decimal, InstallOps, MutateAll;
    InstallOpsAre(v);
    NothingDone(c, InstallOps(v));
    if n > 0 {
      InstallProgress(c, v, n - 1);
      OneMore(c, InstallOps(v), n - 1);
      assert n > 6 ==> InstallOps(v)[6 + (n - 7)] == WriteMarker(Decimal(v)[..n - 7]);
    }
  }

  lemma InstallKeepsInv(c: Cache, top: nat, v: nat, n: nat)
    requires Inv(c, top) && top <= v && NeedsFetch(v, c) && n <= |InstallOps(v)|
    ensures Inv(MutateAll(c, InstallOps(v)[..n]), v)
    ensures n == |InstallOps(v)| ==> !NeedsFetch(v, MutateAll(c, InstallOps(v)[..n]))
  {
    hide Decimal, Strings.Strip;
    var d := MutateAll(c, InstallOps(v)[..n]);
    InstallProgress(c, v, n);
    if n == |InstallOps(v)| {
      assert Decimal(v)[..n - 7] == Decimal(v);
      WholeMarker(v, v);
    }
    forall w | w >= v ensures NeedsFetch(w, d) || (w == v && Installed(d, v)) {
      if n <= 6 {
        SameMarker(c, d, w);
      } else if n < |InstallOps(v)| {
        PartialMarker(v, n - 7, w);
      } else {
        WholeMarker(v, w);
      }
    }
  }

  // The expected version never goes back
  predicate Ascending(launches: seq<Launch>)
  {
    forall i, j :: 0 <= i < j < |launches| ==> launches[i].expected <= launches[j].expected
  }

  function Top(launches: seq<Launch>): nat
  {
    if launches == [] then 0 else launches[|launches| - 1].expected
  }

  lemma {:induction false} InvAlways(launches: seq<Launch>)
    requires Ascending(launches)
    ensures Inv(Run(launches), Top(launches))
  {
    if launches != [] {
      var front, l := launches[..|launches| - 1], launches[|launches| - 1];
      InvAlways(front);
      var c := Run(front);
      assert Top(front) <= l.expected;
      hide NeedsFetch, Run;
      if NeedsFetch(l.expected, c) {
        InstallKeepsInv(c, Top(front), l.expected, Min(l.crashAfter, |InstallOps(l.expected)|));
      }
    }
  }

  /** With versions that never go back and a crash possible after any delete, rename or partly
      written marker: whenever no fetch is said to be needed, both directories are complete for
      the expected version. */
  lemma TrustworthyMarker(launches: seq<Launch>, expected: nat)
    requires Ascending(launches) && Top(launches) <= expected
    requires !NeedsFetch(expected, Run(launches))
    ensures Installed(Run(launches), expected)
  {
    InvAlways(launches);
  }

  /** A launch that is not interrupted leaves the expected version installed and trusted. */
  lemma UninterruptedInstalls(launches: seq<Launch>, expected: nat)
    requires Ascending(launches) && Top(launches) <= expected
    ensures
      var c := Step(Run(launches), Launch(expected, |InstallOps(expected)|));
      Installed(c, expected) && !NeedsFetch(expected, c)
  {
    InvAlways(launches);
    var c := Run(launches);
    hide NeedsFetch, Run;
    assert InstallOps(expected)[..|InstallOps(expected)|] == InstallOps(expected);
    if NeedsFetch(expected, c) {
      InstallProgress(c, expected, |InstallOps(expected)|);
      InstallKeepsInv(c, Top(launches), expected, |InstallOps(expected)|);
    }
  }

  /** The last launch that changed anything in the cache ran to its end. */
  ghost predicate Finished(launches: seq<Launch>)
  {
    launches != [] &&
    var front, l := launches[..|launches| - 1], launches[|launches| - 1];
    if NeedsFetch(l.expected, Run(front)) && l.crashAfter > 0
    then l.crashAfter >= |InstallOps(l.expected)|
    else Finished(front)
  }

  // A finished installation leaves its own version installed and vouched for, and no other
  ghost predicate Vouched(c: Cache, finished: bool)
  {
    |c.trees| == 2 && forall e :: !NeedsFetch(e, c) ==> (Installed(c, e) <==> finished)
  }

  // Once an installation has begun, the first directory holds nothing or the new version
  lemma {:induction false} FirstTree(c: Cache, v: nat, n: nat)
    requires |c.trees| == 2 && 0 < n <= |InstallOps(v)|
    ensures MutateAll(c, InstallOps(v)[..n]).trees[0] in {Absent, Partial, Complete(v)}
  {
    InstallOpsAre(v);
    if n >= 3 {
      InstallProgress(c, v, n);
    } else {
      hide Decimal, InstallOps, MutateAll;
      NothingDone(c, InstallOps(v));
      OneMore(c, InstallOps(v), 0);
      OneMore(c, InstallOps(v), 1);
    }
  }

  lemma InstallLength(v: nat)
    ensures |InstallOps(v)| == 7 + |Decimal(v)|
  {
    InstallOpsAre(v);
  }

  lemma InstallVouches(c: Cache, v: nat, n: nat)
    requires |c.trees| == 2 && NeedsFetch(v, c) && 0 < n <= |InstallOps(v)|
    ensures Vouched(MutateAll(c, InstallOps(v)[..n]), n == |InstallOps(v)|)
  {
    hide Decimal, Strings.Strip, InstallOps, MutateAll;
    var d := MutateAll(c, InstallOps(v)[..n]);
    InstallProgress(c, v, n);
    FirstTree(c, v, n);
    InstallLength(v);
    forall e | !NeedsFetch(e, d) ensures Installed(d, e) <==> n == |InstallOps(v)| {
      if n <= 6 {
        SameMarker(c, d, v);
      } else if n < |InstallOps(v)| {
        PartialMarker(v, n - 7, v);
      } else {
        assert Decimal(v)[..n - 7] == Decimal(v);
        WholeMarker(v, e);
      }
    }
  }

  /** Whatever versions were expected in whatever order, and wherever launches crashed: a marker
      that vouches for a version is right if and only if the last launch that changed the cache
      ran to its end. */
  lemma {:induction false} MarkerRightIffFinished(launches: seq<Launch>)
    ensures forall e :: !NeedsFetch(e, Run(launches)) ==> (Installed(Run(launches), e) <==> Finished(launches))
  {
    if launches != [] {
      var front, l := launches[..|launches| - 1], launches[|launches| - 1];
      MarkerRightIffFinished(front);
      hide NeedsFetch, Run;
      if NeedsFetch(l.expected, Run(front)) {
        NothingDone(Run(front), InstallOps(l.expected));
        if l.crashAfter > 0 {
          InstallOpsAre(l.expected);
          hide InstallOps;
          InstallVouches(Run(front), l.expected, Min(l.crashAfter, |InstallOps(l.expected)|));
        }
      }
    }
  }

  lemma OneMoreLaunch(front: seq<Launch>, v: nat, n: nat)
    requires NeedsFetch(v, Run(front)) && 0 < n <= |InstallOps(v)|
    ensures Run(front + [Launch(v, n)]) == MutateAll(Run(front), InstallOps(v)[..n])
    ensures Finished(front + [Launch(v, n)]) <==> n == |InstallOps(v)|
  {
    hide NeedsFetch, InstallOps, MutateAll;
    assert (front + [Launch(v, n)])[..|front|] == front;
  }

  // One launch on an empty cache
  lemma FirstLaunch(v: nat, n: nat)
    requires 0 < n <= |InstallOps(v)|
    ensures Run([Launch(v, n)]) == MutateAll(Cache(NoMarker, [Absent, Absent]), InstallOps(v)[..n])
    ensures Finished([Launch(v, n)]) <==> n == |InstallOps(v)|
  {
    hide InstallOps, MutateAll;
    assert Run([]) == Cache(NoMarker, [Absent, Absent]);
    OneMoreLaunch([], v, n);
    assert [] + [Launch(v, n)] == [Launch(v, n)];
  }

  lemma VouchesFor(c: Cache, v: nat, w: nat)
    requires c.marker == Content(Decimal(v))
    ensures NeedsFetch(w, c) <==> v != w
  {
    WholeMarker(v, w);
  }

  lemma AfterFirstLaunch(v: nat)
    ensures Run([Launch(v, |InstallOps(v)|)]).marker == Content(Decimal(v))
  {
    hide *;
    InstallLength(v);
    FirstLaunch(v, |InstallOps(v)|);
    InstallProgress(Cache(NoMarker, [Absent, Absent]), v, |InstallOps(v)|);
    assert Decimal(v)[..|Decimal(v)|] == Decimal(v);
  }

  /** Going back to an older version is what breaks the promise: with v installed, an installation
      of another version that stops before it writes the marker leaves a cache that still vouches
      for v, with the first directory gone or replaced. */
  lemma RollbackTrustsStaleMarker(v: nat, w: nat, n: nat)
    requires v != w && 0 < n <= 6
    ensures
      var c := Run([Launch(v, |InstallOps(v)|), Launch(w, n)]);
      !NeedsFetch(v, c) && !Installed(c, v) && c.trees[0] in {Absent, Partial, Complete(w)}
  {
    var first, both := [Launch(v, |InstallOps(v)|)], [Launch(v, |InstallOps(v)|), Launch(w, n)];
    assert both == first + [Launch(w, n)];
    hide *;
    InstallLength(w);
    AfterFirstLaunch(v);
    VouchesFor(Run(first), v, v);
    VouchesFor(Run(first), v, w);
    OneMoreLaunch(first, w, n);
    InstallProgress(Run(first), w, n);
    FirstTree(Run(first), w, n);
    SameMarker(Run(first), Run(both), v);
    MarkerRightIffFinished(both);
  }

  lemma ReadsAs(c: Cache, w: nat)
    requires w >= 10 && c.marker == Content(Decimal(w)[..|Decimal(w)| - 1])
    ensures !NeedsFetch(w / 10, c)
  {
    assert Decimal(w)[..|Decimal(w)| - 1] == Decimal(w / 10);
    StripDigits(Decimal(w / 10));
  }

  /** A marker that was cut short can vouch as well: an installation of a version of two digits or
      more that stops one character early vouches for the version without its last digit. */
  lemma CutMarkerVouches(w: nat)
    requires w >= 10
    ensures
      var c := Run([Launch(w, |InstallOps(w)| - 1)]);
      !NeedsFetch(w / 10, c) && !Installed(c, w / 10)
  {
    hide *;
    var n := |InstallOps(w)| - 1;
    InstallOpsAre(w);
    FirstLaunch(w, n);
    MarkerRightIffFinished([Launch(w, n)]);
    InstallProgress(Cache(NoMarker, [Absent, Absent]), w, n);
    assert |Decimal(w)| - 1 == n - 7;
    ReadsAs(Run([Launch(w, n)]), w);
  }
}
