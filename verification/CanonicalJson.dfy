/** The canonical serialiser behind the attestation signature, on flat objects of strings,
    integers, booleans and null. Strings are sequences of UTF-16 code units. */
module CanonicalJson {
  import opened Ordering
  import opened Wrappers

  type Unit = u: int | 0 <= u < 0x10000
  type Text = seq<Unit>

  datatype Val = Str(s: Text) | Num(n: int) | Bool(b: bool) | Null

  /** An object: its keys in insertion order, and its contents. */
  datatype Obj = Obj(keys: seq<Text>, vals: map<Text, Val>) {
    ghost predicate Valid()
    {
      && (forall i, j :: 0 <= i < j < |keys| ==> keys[i] != keys[j])
      && (forall k :: k in keys <==> k in vals)
    }
  }

  const QUOTE: Unit := 34
  const BACKSLASH: Unit := 92
  const COMMA: Unit := 44
  const COLON: Unit := 58
  const OPEN: Unit := 123
  const CLOSE: Unit := 125
  const MINUS: Unit := 45

  // -------------------------------------------------------------------------
  // Array.prototype.sort on keys: by code units
  // -------------------------------------------------------------------------

  ghost predicate Ascending(ks: seq<Text>)
  {
    forall i, j :: 0 <= i < j < |ks| ==> Less(ks[i], ks[j])
  }

  function Insert(k: Text, ks: seq<Text>): seq<Text>
  {
    if ks == [] || Less(k, ks[0]) then [k] + ks else [ks[0]] + Insert(k, ks[1..])
  }

  function Sort(ks: seq<Text>): seq<Text>
  {
    if ks == [] then [] else Insert(ks[0], Sort(ks[1..]))
  }

  lemma {:induction false} InsertAscends(k: Text, ks: seq<Text>)
    requires Ascending(ks) && k !in ks
    ensures Ascending(Insert(k, ks))
    ensures forall x :: x in Insert(k, ks) <==> x == k || x in ks
  {
    if ks != [] {
      LessTotal(k, ks[0]);
      if Less(k, ks[0]) {
        forall j | 0 <= j < |ks| ensures Less(k, ks[j]) {
          if j > 0 {
            LessTransitive(k, ks[0], ks[j]);
          }
        }
      } else {
        var rest := ks[1..];
        InsertAscends(k, rest);
        assert ks == [ks[0]] + rest;
        forall x | x in Insert(k, rest) ensures Less(ks[0], x) {
          if x != k {
            var j :| 0 <= j < |rest| && rest[j] == x;
            assert ks[j + 1] == x;
          }
        }
      }
    }
  }

  lemma {:induction false} SortAscends(ks: seq<Text>)
    requires forall i, j :: 0 <= i < j < |ks| ==> ks[i] != ks[j]
    ensures Ascending(Sort(ks))
    ensures forall x :: x in Sort(ks) <==> x in ks
  {
    if ks != [] {
      assert ks == [ks[0]] + ks[1..];
      SortAscends(ks[1..]);
      InsertAscends(ks[0], Sort(ks[1..]));
    }
  }

  lemma FirstIsLeast(a: seq<Text>, b: seq<Text>)
    requires a != [] && b != [] && Ascending(a) && Ascending(b)
    requires forall x :: x in a <==> x in b
    ensures a[0] == b[0]
  {
    assert a[0] in b && b[0] in a;
    var i :| 0 <= i < |b| && b[i] == a[0];
    var j :| 0 <= j < |a| && a[j] == b[0];
    LessTotal(a[0], b[0]);
  }

  lemma NotAgain(a: seq<Text>)
    requires a != [] && Ascending(a)
    ensures a[0] !in a[1..]
  {
    forall j | 0 < j < |a| ensures a[0] != a[j] {
      LessTotal(a[0], a[j]);
    }
  }

  // Only one ascending list has a given set of keys
  lemma {:induction false} AscendingUnique(a: seq<Text>, b: seq<Text>)
    requires Ascending(a) && Ascending(b)
    requires forall x :: x in a <==> x in b
    ensures a == b
  {
    assert a != [] ==> a[0] in a;
    assert b != [] ==> b[0] in b;
    if a != [] && b != [] {
      FirstIsLeast(a, b);
      assert a == [a[0]] + a[1..] && b == [b[0]] + b[1..];
      NotAgain(a);
      NotAgain(b);
      hide Ascending;
      forall x ensures x in a[1..] <==> x in b[1..] {
        assert x in a <==> x == a[0] || x in a[1..];
        assert x in b <==> x == b[0] || x in b[1..];
      }
      AscendingUnique(a[1..], b[1..]);
    }
  }

  // -------------------------------------------------------------------------
  // JSON.stringify
  // -------------------------------------------------------------------------

  function Hex(d: nat): Unit
    requires d < 16
  {
    if d < 10 then 48 + d else 87 + d
  }

  // \uXXXX with lower-case digits
  function UnicodeEscape(u: Unit): Text
  {
    [BACKSLASH, 117, Hex(u / 4096), Hex(u / 256 % 16), Hex(u / 16 % 16), Hex(u % 16)]
  }

  predicate Lead(u: Unit) { 0xD800 <= u < 0xDC00 }
  predicate Trail(u: Unit) { 0xDC00 <= u < 0xE000 }

  // One code unit that is not half of a surrogate pair
  function Escape(u: Unit): Text
  {
    if u == QUOTE || u == BACKSLASH then [BACKSLASH, u]
    else if u == 8 then [BACKSLASH, 98]
    else if u == 9 then [BACKSLASH, 116]
    else if u == 10 then [BACKSLASH, 110]
    else if u == 12 then [BACKSLASH, 102]
    else if u == 13 then [BACKSLASH, 114]
    else if u < 32 || Lead(u) || Trail(u) then UnicodeEscape(u)
    else [u]
  }

  function EscapeAll(s: Text): Text
    decreases |s|
  {
    if s == [] then []
    else if |s| >= 2 && Lead(s[0]) && Trail(s[1]) then [s[0], s[1]] + EscapeAll(s[2..])
    else Escape(s[0]) + EscapeAll(s[1..])
  }

  function Quoted(s: Text): Text { [QUOTE] + EscapeAll(s) + [QUOTE] }

  function Digits(n: nat): (t: Text)
    ensures t != [] && forall i :: 0 <= i < |t| ==> 48 <= t[i] <= 57
    ensures n > 0 ==> t[0] != 48
  {
    if n < 10 then [48 + n] else Digits(n / 10) + [48 + n % 10]
  }

  function Stringify(v: Val): Text
  {
    match v
    case Str(s) => Quoted(s)
    case Num(n) => if n < 0 then [MINUS] + Digits(-n) else Digits(n)
    case Bool(b) => if b then [116, 114, 117, 101] else [102, 97, 108, 115, 101]
    case Null => [110, 117, 108, 108]
  }

  // "key":value for each key, separated by commas
  function Parts(keys: seq<Text>, vals: map<Text, Val>): Text
    requires forall k :: k in keys ==> k in vals
  {
    if keys == [] then [] else
    var part := Quoted(keys[0]) + [COLON] + Stringify(vals[keys[0]]);
    if |keys| == 1 then part else part + [COMMA] + Parts(keys[1..], vals)
  }

  /** canonicalJSON */
  function Canonical(o: Obj): Text
    requires o.Valid()
  {
    SortAscends(o.keys);
    [OPEN] + Parts(Sort(o.keys), o.vals) + [CLOSE]
  }

  // -------------------------------------------------------------------------
  // A parser (sections 4, 6 and 7 of RFC 8259) for such objects
  // -------------------------------------------------------------------------

  datatype Parsed<T> = Bad | Got(value: T, rest: Text)

  function HexValue(u: Unit): (v: Option<nat>)
    ensures v.Some? ==> v.value < 16
  {
    if 48 <= u <= 57 then Some(u - 48)
    else if 97 <= u <= 102 then Some(u - 87)
    else if 65 <= u <= 70 then Some(u - 55)
    else None
  }

  // One character of a string; the text starts after the opening quote
  function ParseUnit(t: Text): (p: Parsed<Unit>)
    ensures p.Got? ==> |p.rest| < |t|
  {
    if t == [] || t[0] == QUOTE || t[0] < 32 then Bad
    else if t[0] != BACKSLASH then Got(t[0], t[1..])
    else if |t| < 2 then Bad
    else if t[1] == QUOTE || t[1] == BACKSLASH || t[1] == 47 then Got(t[1], t[2..])
    else if t[1] == 98 then Got(8, t[2..])
    else if t[1] == 116 then Got(9, t[2..])
    else if t[1] == 110 then Got(10, t[2..])
    else if t[1] == 102 then Got(12, t[2..])
    else if t[1] == 114 then Got(13, t[2..])
    else if t[1] == 117 && |t| >= 6 then
      match (HexValue(t[2]), HexValue(t[3]), HexValue(t[4]), HexValue(t[5]))
      case (Some(a), Some(b), Some(c), Some(d)) =>
        Got(a * 4096 + b * 256 + c * 16 + d, t[6..])
      case _ => Bad
    else Bad
  }

  function ParseString(t: Text): (p: Parsed<Text>)
    ensures p.Got? ==> |p.rest| < |t|
    decreases |t|
  {
    if t == [] then Bad
    else if t[0] == QUOTE then Got([], t[1..])
    else match ParseUnit(t)
      case Bad => Bad
      case Got(u, rest) =>
        match ParseString(rest)
        case Bad => Bad
        case Got(s, rest') => Got([u] + s, rest')
  }

  predicate IsDigit(u: Unit) { 48 <= u <= 57 }

  function DigitCount(t: Text): (n: nat)
    ensures n <= |t|
  {
    if t != [] && IsDigit(t[0]) then 1 + DigitCount(t[1..]) else 0
  }

  function NatOf(t: Text): nat
    requires forall i :: 0 <= i < |t| ==> IsDigit(t[i])
  {
    if t == [] then 0 else
    assert IsDigit(t[|t| - 1]);
    NatOf(t[..|t| - 1]) * 10 + (t[|t| - 1] - 48)
  }

  lemma {:induction false} DigitsCounted(t: Text)
    ensures forall i :: 0 <= i < DigitCount(t) ==> IsDigit(t[i])
    ensures DigitCount(t) < |t| ==> !IsDigit(t[DigitCount(t)])
  {
    if t != [] && IsDigit(t[0]) {
      DigitsCounted(t[1..]);
      assert forall i :: 0 < i < |t| ==> t[i] == t[1..][i - 1];
    }
  }

  // int = zero / ( digit1-9 *DIGIT )
  function ParseNat(t: Text): (p: Parsed<nat>)
    ensures p.Got? ==> |p.rest| < |t|
  {
    var n := DigitCount(t);
    DigitsCounted(t);
    if n == 0 || (n > 1 && t[0] == 48) then Bad else Got(NatOf(t[..n]), t[n..])
  }

  function Negative(n: int): Val { Num(-n) }

  function ParseVal(t: Text): (p: Parsed<Val>)
    ensures p.Got? ==> |p.rest| < |t|
  {
    if t == [] then Bad
    else if t[0] == QUOTE then
      match ParseString(t[1..]) case Bad => Bad case Got(s, rest) => Got(Str(s), rest)
    else if t[0] == MINUS then
      match ParseNat(t[1..]) case Bad => Bad case Got(n, rest) => Got(Negative(n), rest)
    else if IsDigit(t[0]) then
      match ParseNat(t) case Bad => Bad case Got(n, rest) => Got(Num(n), rest)
    else if |t| >= 4 && t[..4] == [116, 114, 117, 101] then Got(Bool(true), t[4..])
    else if |t| >= 5 && t[..5] == [102, 97, 108, 115, 101] then Got(Bool(false), t[5..])
    else if |t| >= 4 && t[..4] == [110, 117, 108, 108] then Got(Null, t[4..])
    else Bad
  }

  type Member = (Text, Val)

  // One or more members and the closing brace; the members are in the order of the text
  function ParseMembers(t: Text): Parsed<seq<Member>>
    decreases |t|
  {
    if t == [] || t[0] != QUOTE then Bad else
    match ParseString(t[1..])
    case Bad => Bad
    case Got(k, t1) =>
      if t1 == [] || t1[0] != COLON then Bad else
      match ParseVal(t1[1..])
      case Bad => Bad
      case Got(v, t2) =>
        if t2 == [] then Bad
        else if t2[0] == CLOSE then Got([(k, v)], t2[1..])
        else if t2[0] == COMMA then
          match ParseMembers(t2[1..])
          case Bad => Bad
          case Got(ms, rest) => Got([(k, v)] + ms, rest)
        else Bad
  }

  /** The members of an object text, in the order of the text. */
  function Parse(t: Text): Option<seq<Member>>
  {
    if t == [OPEN, CLOSE] then Some([])
    else if t == [] || t[0] != OPEN then None
    else
      var p := ParseMembers(t[1..]);
      if p.Got? && p.rest == [] then Some(p.value) else None
  }

  // -------------------------------------------------------------------------
  // The parser inverts the serialiser
  // -------------------------------------------------------------------------

  lemma HexRoundTrip(d: nat)
    requires d < 16
    ensures HexValue(Hex(d)) == Some(d)
  {
  }

  lemma FourHexDigits(u: Unit)
    ensures u == (u / 4096) * 4096 + (u / 256 % 16) * 256 + (u / 16 % 16) * 16 + u % 16
  {
    assert u / 16 == (u / 256) * 16 + u / 16 % 16;
    assert u / 256 == (u / 4096) * 16 + u / 256 % 16;
  }

  lemma UnicodeRoundTrip(u: Unit, rest: Text)
    ensures ParseUnit(UnicodeEscape(u) + rest) == Got(u, rest)
  {
    var t := UnicodeEscape(u) + rest;
    assert t[6..] == rest;
    HexRoundTrip(u / 4096);
    HexRoundTrip(u / 256 % 16);
    HexRoundTrip(u / 16 % 16);
    HexRoundTrip(u % 16);
    FourHexDigits(u);
    hide Hex, HexValue;
  }

  lemma EscapeRoundTrip(u: Unit, rest: Text)
    ensures Escape(u) != [] && Escape(u)[0] != QUOTE
    ensures ParseUnit(Escape(u) + rest) == Got(u, rest)
  {
    if Escape(u) == UnicodeEscape(u) {
      UnicodeRoundTrip(u, rest);
    } else {
      hide UnicodeEscape, HexValue;
      var t := Escape(u) + rest;
      assert t[|Escape(u)|..] == rest;
    }
  }

  // Reading one escaped or literal unit, then the rest of the string
  lemma StringStep(e: Text, u: Unit, s: Text, text: Text, rest: Text)
    requires e != [] && e[0] != QUOTE && ParseUnit(e + text) == Got(u, text)
    requires ParseString(text) == Got(s, rest)
    ensures ParseString(e + text) == Got([u] + s, rest)
  {
    hide ParseUnit;
  }

  lemma LiteralUnit(u: Unit, text: Text)
    requires Lead(u) || Trail(u)
    ensures ParseUnit([u] + text) == Got(u, text)
  {
    assert ([u] + text)[1..] == text;
  }

  lemma ClosingQuote(rest: Text)
    ensures ParseString([QUOTE] + rest) == Got([], rest)
  {
  }

  lemma {:induction false} StringRoundTrip(s: Text, rest: Text)
    ensures ParseString(EscapeAll(s) + [QUOTE] + rest) == Got(s, rest)
    decreases |s|
  {
    hide ParseUnit, Escape, ParseString;
    var t := EscapeAll(s) + [QUOTE] + rest;
    if s == [] {
      ClosingQuote(rest);
      assert t == [QUOTE] + rest;
    } else if |s| >= 2 && Lead(s[0]) && Trail(s[1]) {
      var u := EscapeAll(s[2..]) + [QUOTE] + rest;
      StringRoundTrip(s[2..], rest);
      LiteralUnit(s[1], u);
      StringStep([s[1]], s[1], s[2..], u, rest);
      LiteralUnit(s[0], [s[1]] + u);
      StringStep([s[0]], s[0], [s[1]] + s[2..], [s[1]] + u, rest);
      assert t == [s[0]] + ([s[1]] + u);
      assert [s[0]] + ([s[1]] + s[2..]) == s;
    } else {
      var u := EscapeAll(s[1..]) + [QUOTE] + rest;
      StringRoundTrip(s[1..], rest);
      EscapeRoundTrip(s[0], u);
      StringStep(Escape(s[0]), s[0], s[1..], u, rest);
      assert t == Escape(s[0]) + u;
      assert [s[0]] + s[1..] == s;
    }
  }

  lemma {:induction false} DigitsRoundTrip(n: nat)
    ensures NatOf(Digits(n)) == n
  {
    if n >= 10 {
      DigitsRoundTrip(n / 10);
      assert Digits(n)[..|Digits(n)| - 1] == Digits(n / 10);
    } else {
      assert Digits(n)[..0] == [];
    }
  }

  lemma {:induction false} DigitCountOf(a: Text, rest: Text)
    requires forall i :: 0 <= i < |a| ==> IsDigit(a[i])
    requires rest == [] || !IsDigit(rest[0])
    ensures DigitCount(a + rest) == |a|
  {
    if a == [] {
      assert a + rest == rest;
    } else {
      assert (a + rest)[1..] == a[1..] + rest;
      DigitCountOf(a[1..], rest);
    }
  }

  lemma NatRoundTrip(n: nat, rest: Text)
    requires rest == [] || !IsDigit(rest[0])
    ensures ParseNat(Digits(n) + rest) == Got(n, rest)
  {
    var t := Digits(n) + rest;
    DigitCountOf(Digits(n), rest);
    DigitsRoundTrip(n);
    assert t[..|Digits(n)|] == Digits(n) && t[|Digits(n)|..] == rest;
  }

  lemma StrRoundTrip(s: Text, rest: Text)
    ensures ParseVal(Quoted(s) + rest) == Got(Str(s), rest)
  {
    hide ParseString, EscapeAll;
    assert (Quoted(s) + rest)[1..] == EscapeAll(s) + [QUOTE] + rest;
    StringRoundTrip(s, rest);
  }

  lemma NegativeRoundTrip(n: nat, rest: Text)
    requires rest == [] || !IsDigit(rest[0])
    ensures ParseVal([MINUS] + Digits(n) + rest) == Got(Negative(n), rest)
  {
    hide ParseNat, Digits;
    NatRoundTrip(n, rest);
    assert ([MINUS] + Digits(n) + rest)[1..] == Digits(n) + rest;
  }

  lemma NumRoundTrip(n: int, rest: Text)
    requires rest == [] || !IsDigit(rest[0])
    ensures ParseVal(Stringify(Num(n)) + rest) == Got(Num(n), rest)
  {
    hide ParseNat, Digits;
    if n < 0 {
      hide ParseVal;
      NegativeRoundTrip(-n, rest);
    } else {
      NatRoundTrip(n, rest);
      assert IsDigit((Digits(n) + rest)[0]);
    }
  }

  lemma WordRoundTrip(v: Val, rest: Text)
    requires v.Bool? || v.Null?
    ensures ParseVal(Stringify(v) + rest) == Got(v, rest)
  {
    var word, t := Stringify(v), Stringify(v) + rest;
    assert t[..|word|] == word && t[|word|..] == rest;
  }

  lemma ValRoundTrip(v: Val, rest: Text)
    requires rest != [] && (rest[0] == COMMA || rest[0] == CLOSE)
    ensures ParseVal(Stringify(v) + rest) == Got(v, rest)
  {
    hide ParseVal;
    match v
    case Str(s) => StrRoundTrip(s, rest);
    case Num(n) => NumRoundTrip(n, rest);
    case _ => WordRoundTrip(v, rest);
  }

  // The members that a list of keys selects
  function Members(keys: seq<Text>, vals: map<Text, Val>): seq<Member>
    requires forall k :: k in keys ==> k in vals
  {
    seq(|keys|, i requires 0 <= i < |keys| => assert keys[i] in keys; (keys[i], vals[keys[i]]))
  }

  // Reading one member and what follows it
  lemma OneMember(k: Text, v: Val, more: Text, t: Text)
    requires t != [] && t[0] == QUOTE
    requires t[1..] == EscapeAll(k) + [QUOTE] + ([COLON] + Stringify(v) + more)
    requires more != [] && (more[0] == COMMA || more[0] == CLOSE)
    ensures ParseMembers(t) ==
      if more[0] == CLOSE then Got([(k, v)], more[1..])
      else match ParseMembers(more[1..])
        case Bad => Bad
        case Got(ms, rest) => Got([(k, v)] + ms, rest)
  {
    hide EscapeAll, Stringify, ParseString, ParseVal;
    var t1 := [COLON] + Stringify(v) + more;
    StringRoundTrip(k, t1);
    assert t1[1..] == Stringify(v) + more;
    ValRoundTrip(v, more);
  }

  lemma QuotedIs(k: Text)
    ensures Quoted(k) == [QUOTE] + EscapeAll(k) + [QUOTE]
  {
    hide EscapeAll;
  }

  lemma Regroup(e: Text, s: Text, more: Text)
    ensures
      var t := [QUOTE] + e + [QUOTE] + [COLON] + s + more;
      t[0] == QUOTE && t[1..] == e + [QUOTE] + ([COLON] + s + more)
  {
  }

  lemma PartsOpen(keys: seq<Text>, vals: map<Text, Val>)
    requires keys != [] && forall k :: k in keys ==> k in vals
    ensures
      var more := if |keys| == 1 then [CLOSE] else [COMMA] + (Parts(keys[1..], vals) + [CLOSE]);
      Parts(keys, vals) + [CLOSE] == Quoted(keys[0]) + [COLON] + Stringify(vals[keys[0]]) + more
  {
    hide Quoted, Stringify;
  }

  lemma MembersSplit(keys: seq<Text>, vals: map<Text, Val>)
    requires keys != [] && forall k :: k in keys ==> k in vals
    ensures
      var k, v := keys[0], vals[keys[0]];
      var more := if |keys| == 1 then [CLOSE] else [COMMA] + (Parts(keys[1..], vals) + [CLOSE]);
      var t := Parts(keys, vals) + [CLOSE];
      && t[0] == QUOTE
      && t[1..] == EscapeAll(k) + [QUOTE] + ([COLON] + Stringify(v) + more)
  {
    PartsOpen(keys, vals);
    var k, v := keys[0], vals[keys[0]];
    var more := if |keys| == 1 then [CLOSE] else [COMMA] + (Parts(keys[1..], vals) + [CLOSE]);
    hide *;
    Regroup(EscapeAll(k), Stringify(v), more);
    assert Quoted(k) == [QUOTE] + EscapeAll(k) + [QUOTE] by { QuotedIs(k); }
  }

  lemma {:induction false} MembersRoundTrip(keys: seq<Text>, vals: map<Text, Val>)
    requires keys != [] && forall k :: k in keys ==> k in vals
    ensures ParseMembers(Parts(keys, vals) + [CLOSE]) == Got(Members(keys, vals), [])
    decreases |keys|
  {
    hide ParseMembers, EscapeAll, Stringify, Parts;
    var k, v := keys[0], vals[keys[0]];
    var more := if |keys| == 1 then [CLOSE] else [COMMA] + (Parts(keys[1..], vals) + [CLOSE]);
    MembersSplit(keys, vals);
    OneMember(k, v, more, Parts(keys, vals) + [CLOSE]);
    if |keys| == 1 {
      assert more[1..] == [];
      assert Members(keys, vals) == [(k, v)];
    } else {
      assert more[1..] == Parts(keys[1..], vals) + [CLOSE];
      MembersRoundTrip(keys[1..], vals);
      assert keys == [k] + keys[1..];
      assert Members(keys, vals) == [(k, v)] + Members(keys[1..], vals);
    }
  }

  lemma Opened(body: Text)
    requires body != [] && body[0] == QUOTE
    ensures Parse([OPEN] + body) == (var p := ParseMembers(body); if p.Got? && p.rest == [] then Some(p.value) else None)
  {
    hide ParseMembers;
    assert ([OPEN] + body)[1..] == body;
  }

  lemma BodyParses(keys: seq<Text>, vals: map<Text, Val>)
    requires keys != [] && forall k :: k in keys ==> k in vals
    ensures Parse([OPEN] + Parts(keys, vals) + [CLOSE]) == Some(Members(keys, vals))
  {
    hide *;
    MembersRoundTrip(keys, vals);
    MembersSplit(keys, vals);
    Opened(Parts(keys, vals) + [CLOSE]);
    assert [OPEN] + Parts(keys, vals) + [CLOSE] == [OPEN] + (Parts(keys, vals) + [CLOSE]);
  }

  lemma NothingParsed()
    ensures Parse([OPEN, CLOSE]) == Some([])
  {
  }

  lemma CanonicalIs(o: Obj)
    requires o.Valid()
    ensures (forall k :: k in Sort(o.keys) ==> k in o.vals)
    ensures Canonical(o) == [OPEN] + Parts(Sort(o.keys), o.vals) + [CLOSE]
    ensures Sort(o.keys) == [] ==> Canonical(o) == [OPEN, CLOSE]
  {
    SortAscends(o.keys);
  }

  lemma NoMembers(vals: map<Text, Val>)
    ensures Members([], vals) == []
  {
  }

  lemma ParsesToMembers(o: Obj)
    requires o.Valid()
    ensures (forall k :: k in Sort(o.keys) ==> k in o.vals)
    ensures Parse(Canonical(o)) == Some(Members(Sort(o.keys), o.vals))
  {
    hide *;
    CanonicalIs(o);
    if Sort(o.keys) == [] {
      NothingParsed();
      assert Members(Sort(o.keys), o.vals) == [] by { NoMembers(o.vals); }
    } else {
      BodyParses(Sort(o.keys), o.vals);
    }
  }

  /** A canonical text reads as the object's contents, each key once, with the keys in ascending
      order of code units: at the first place where two keys differ the earlier one ends or has the
      smaller unit. */
  lemma {:induction false} CanonicalRoundTrip(o: Obj)
    requires o.Valid()
    ensures
      var p := Parse(Canonical(o));
      && p.Some?
      && (forall m :: m in p.value <==> m.0 in o.vals && m.1 == o.vals[m.0])
      && (forall i, j :: 0 <= i < j < |p.value| ==> FirstDifference(p.value[i].0, p.value[j].0))
  {
    ParsesToMembers(o);
    SortAscends(o.keys);
    hide Parse, Canonical, Sort, Less, FirstDifference;
    var keys, ms := Sort(o.keys), Members(Sort(o.keys), o.vals);
    forall m ensures m in ms <==> m.0 in o.vals && m.1 == o.vals[m.0] {
      if m.0 in o.vals && m.1 == o.vals[m.0] {
        assert m.0 in keys;
        var i :| 0 <= i < |keys| && keys[i] == m.0;
        assert ms[i] == m;
      }
    }
    forall i, j | 0 <= i < j < |ms| ensures FirstDifference(ms[i].0, ms[j].0) {
      LessIsFirstDifference(ms[i].0, ms[j].0);
    }
  }

  lemma SameMembers(a: Obj, b: Obj)
    requires a.Valid() && b.Valid() && Canonical(a) == Canonical(b)
    ensures forall k :: k in a.vals ==> k in b.vals && a.vals[k] == b.vals[k]
  {
    CanonicalRoundTrip(a);
    CanonicalRoundTrip(b);
    hide Parse, Canonical;
    forall k | k in a.vals ensures k in b.vals && a.vals[k] == b.vals[k] {
      assert (k, a.vals[k]) in Parse(Canonical(a)).value;
    }
  }

  /** Two objects have the same canonical text exactly when they have the same contents: the order
      in which keys were added does not show, and nothing else is lost. */
  lemma CanonicalInjective(a: Obj, b: Obj)
    requires a.Valid() && b.Valid()
    ensures Canonical(a) == Canonical(b) <==> a.vals == b.vals
  {
    if a.vals == b.vals {
      SortAscends(a.keys);
      SortAscends(b.keys);
      AscendingUnique(Sort(a.keys), Sort(b.keys));
    }
    if Canonical(a) == Canonical(b) {
      SameMembers(a, b);
      SameMembers(b, a);
      hide *;
      assert a.vals == b.vals;
    }
  }

  // -------------------------------------------------------------------------
  // The text itself
  // -------------------------------------------------------------------------

  // The code units of an ASCII literal
  function Units(s: string): Text
    requires forall i :: 0 <= i < |s| ==> s[i] < 128 as char
  {
    seq(|s|, i requires 0 <= i < |s| => s[i] as int)
  }

  lemma {:induction false} PlainUnits(s: Text)
    requires forall i :: 0 <= i < |s| ==> s[i] >= 32 && s[i] != 34 && s[i] != 92 && !(0xD800 <= s[i] < 0xE000)
    ensures EscapeAll(s) == s
  {
    if s != [] {
      PlainUnits(s[1..]);
      assert Escape(s[0]) == [s[0]];
      hide Escape;
      assert s == [s[0]] + s[1..];
    }
  }

  /** Apart from quotes, backslashes, control characters and lone surrogates, a string is written
      as it is; no space is ever added. */
  lemma {:induction false} PlainText(s: Text)
    requires forall i :: 0 <= i < |s| ==> s[i] >= 32 && s[i] != 34 && s[i] != 92 && !(0xD800 <= s[i] < 0xE000)
    ensures Quoted(s) == [34] + s + [34]
  {
    PlainUnits(s);
    hide EscapeAll;
  }

  lemma OneUnit(u: Unit)
    ensures Quoted([u]) == [34] + Escape(u) + [34]
  {
    hide Escape;
    assert [u][1..] == [] && EscapeAll([]) == [];
  }

  // A backslash and one letter
  lemma ShortEscape(u: Unit, letter: char)
    requires (u, letter) in {(34, '"'), (92, '\\'), (8, 'b'), (9, 't'), (10, 'n'), (12, 'f'), (13, 'r')}
    ensures Quoted([u]) == Units(['"', '\\', letter, '"'])
  {
    OneUnit(u);
    hide Quoted;
  }

  /** The other escapes are four lower-case hexadecimal digits. */
  lemma LongEscapes()
    ensures Quoted([31]) == Units("\"\\u001f\"") && Quoted([0xDABC]) == Units("\"\\udabc\"")
  {
    OneUnit(31);
    OneUnit(0xDABC);
  }

  lemma TwoUnits(a: Unit, b: Unit)
    ensures Quoted([a, b]) ==
      if Lead(a) && Trail(b) then [34, a, b, 34] else [34] + (Escape(a) + Escape(b)) + [34]
  {
    hide Escape;
    assert [a, b][1..] == [b] && [a, b][2..] == [] && [b][1..] == [];
    assert EscapeAll([]) == [];
    assert EscapeAll([b]) == Escape(b);
  }

  /** Half of a surrogate pair is escaped wherever it stands alone; two halves are written as they are
      exactly when they make a pair. */
  lemma Surrogates(a: Unit, b: Unit)
    requires 0xD800 <= a < 0xE000
    ensures |Quoted([a])| == 8 && Quoted([a])[..3] == [34, 92, 117]
    ensures 0xD800 <= b < 0xE000 ==> (Quoted([a, b]) == [34, a, b, 34] <==> a < 0xDC00 <= b)
  {
    OneUnit(a);
    OneUnit(b);
    TwoUnits(a, b);
    hide Quoted, EscapeAll;
  }

  lemma WordsAndSigns()
    ensures Stringify(Bool(true)) == Units("true") && Stringify(Bool(false)) == Units("false")
    ensures Stringify(Null) == Units("null") && Stringify(Num(-105)) == Units("-105")
  {
    assert Digits(1) == [49] && Digits(10) == [49, 48] && Digits(105) == [49, 48, 53];
  }

  lemma SortTwo(a: Text, b: Text)
    requires Less(b, a)
    ensures Sort([a, b]) == [b, a]
  {
    LessTotal(a, b);
    assert [a, b][1..] == [b] && [b][1..] == [];
    assert Sort([b]) == [b];
    assert Insert(a, [b]) == [b] + Insert(a, []);
  }

  lemma PartsTwo(a: Text, b: Text, vals: map<Text, Val>)
    requires a in vals && b in vals
    ensures Parts([a, b], vals)
      == Quoted(a) + [COLON] + Stringify(vals[a]) + [COMMA] + (Quoted(b) + [COLON] + Stringify(vals[b]))
  {
    hide Quoted, Stringify;
    assert [a, b][1..] == [b];
  }

  lemma SmallNumber(n: nat)
    requires n < 10
    ensures Stringify(Num(n)) == [48 + n]
  {
  }

  lemma ShortTexts()
    ensures Units("v") == [118] && Units("ts") == [116, 115] && Units("\"") == [34]
    ensures Units("{\"ts\":0,\"v\":2}") == [123, 34, 116, 115, 34, 58, 48, 44, 34, 118, 34, 58, 50, 125]
  {
  }

  /** An object to which "v" and then "ts" are added is written with "ts" first. */
  lemma TwoMembers(o: Obj)
    requires o == Obj([Units("v"), Units("ts")], map[Units("v") := Num(2), Units("ts") := Num(0)])
    ensures o.Valid() && Canonical(o) == Units("{\"ts\":0,\"v\":2}")
  {
    hide Sort, Quoted, Stringify, Units, Parts, Canonical;
    ShortTexts();
    SortTwo(Units("v"), Units("ts"));
    PlainText(Units("v"));
    PlainText(Units("ts"));
    SmallNumber(0);
    SmallNumber(2);
    PartsTwo(Units("ts"), Units("v"), o.vals);
    CanonicalIs(o);
  }
}
