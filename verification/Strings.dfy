/** The Python string operations that the filter compiler relies on. */
module Strings {
  import opened Wrappers

  /** Index of the first `sep` in `s`, or |s| when there is none. */
  function Find(s: string, sep: char): (i: nat)
    ensures i <= |s|
    ensures sep !in s[..i]
    ensures i < |s| ==> s[i] == sep
  {
    if s == "" || s[0] == sep then 0 else
    var i := 1 + Find(s[1..], sep);
    assert s[..i] == [s[0]] + s[1..][..i - 1];
    i
  }

  /** `s.split(sep)`: never empty, keeps empty pieces. */
  function Split(s: string, sep: char): (pieces: seq<string>)
    ensures |pieces| > 0
    decreases |s|
  {
    var i := Find(s, sep);
    if i == |s| then [s] else [s[..i]] + Split(s[i + 1..], sep)
  }

  /** `sep.join(pieces)` */
  function Join<T>(pieces: seq<seq<T>>, sep: seq<T>): seq<T>
  {
    if |pieces| == 0 then []
    else if |pieces| == 1 then pieces[0]
    else pieces[0] + sep + Join(pieces[1..], sep)
  }

  // str.isspace for the code points that str.strip() removes
  predicate IsSpace(c: char)
  {
    var n := c as int;
    || 9 <= n <= 13 || 28 <= n <= 32 || n == 0x85 || n == 0xA0 || n == 0x1680
    || 0x2000 <= n <= 0x200A || n == 0x2028 || n == 0x2029 || n == 0x202F || n == 0x205F || n == 0x3000
  }

  function TrimLeft(s: string): (r: string)
    ensures |r| <= |s|
  {
    if s != "" && IsSpace(s[0]) then TrimLeft(s[1..]) else s
  }

  function TrimRight(s: string): (r: string)
    ensures |r| <= |s| && r == s[..|r|]
    ensures r == "" || !IsSpace(r[|r| - 1])
  {
    if s != "" && IsSpace(s[|s| - 1]) then TrimRight(s[..|s| - 1]) else s
  }

  /** `s.strip()` */
  function Strip(s: string): (r: string)
    ensures |r| <= |s|
  {
    TrimRight(TrimLeft(s))
  }

  /** `s.split(".", 2)` when it has three parts. */
  function SplitTriple(s: string): Option<(string, string, string)>
  {
    var i := Find(s, '.');
    if i == |s| then None else
    var rest := s[i + 1..];
    var j := Find(rest, '.');
    if j == |rest| then None else
    Some((s[..i], rest[..j], rest[j + 1..]))
  }

  /** `s.replace(from, to)` for a one-character `from`. */
  function Replace(s: string, from: char, to: string): string
  {
    if s == "" then ""
    else (if s[0] == from then to else [s[0]]) + Replace(s[1..], from, to)
  }

  lemma {:induction false} FindFirst(head: string, sep: char, tail: string)
    requires sep !in head
    ensures Find(head + [sep] + tail, sep) == |head|
  {
    if head == "" {
    } else {
      assert (head + [sep] + tail)[1..] == head[1..] + [sep] + tail;
      FindFirst(head[1..], sep, tail);
    }
  }

  lemma FindNone(s: string, sep: char)
    ensures Find(s, sep) == |s| <==> sep !in s
  {
    assert s[..|s|] == s;
  }

  /** The first separator decides the first piece. */
  lemma SplitCons(head: string, sep: char, tail: string)
    requires sep !in head
    ensures Split(head + [sep] + tail, sep) == [head] + Split(tail, sep)
  {
    var s := head + [sep] + tail;
    FindFirst(head, sep, tail);
    assert s[..|head|] == head && s[|head| + 1..] == tail;
  }

  lemma SplitTripleOf(a: string, b: string, c: string)
    requires '.' !in a && '.' !in b
    ensures SplitTriple(a + "." + b + "." + c) == Some((a, b, c))
  {
    var s := a + "." + b + "." + c;
    assert s == a + ['.'] + (b + ['.'] + c);
    FindFirst(a, '.', b + ['.'] + c);
    assert s[..|a|] == a && s[|a| + 1..] == b + ['.'] + c;
    FindFirst(b, '.', c);
    assert (b + ['.'] + c)[..|b|] == b && (b + ['.'] + c)[|b| + 1..] == c;
  }

  lemma {:induction false} FindAfter(head: string, tail: string, sep: char)
    requires sep !in head
    ensures Find(head + tail, sep) == |head| + Find(tail, sep)
  {
    if head == "" {
      assert head + tail == tail;
    } else {
      assert (head + tail)[1..] == head[1..] + tail;
      FindAfter(head[1..], tail, sep);
    }
  }

  lemma CutAfter(head: string, tail: string, sep: char)
    requires sep !in head
    ensures (head + tail)[..Find(head + tail, sep)] == head + tail[..Find(tail, sep)]
  {
    FindAfter(head, tail, sep);
  }

  /** What splitting a joined list gives first: the first part, or a proper prefix of it. */
  lemma SplitJoined(parts: seq<string>, sep: char)
    requires parts != []
    ensures
      var pieces := Split(Join(parts, [sep]), sep);
      if sep in parts[0] then pieces[0] == parts[0][..Find(parts[0], sep)] && Find(parts[0], sep) < |parts[0]|
      else if |parts| == 1 then pieces == parts
      else pieces == [parts[0]] + Split(Join(parts[1..], [sep]), sep)
  {
    var first := parts[0];
    FindNone(first, sep);
    if sep !in first && |parts| == 1 {
      assert Join(parts, [sep]) == first;
    }
    hide Find, Split;
    if sep in first {
      var m := Find(first, sep);
      var tail := if |parts| == 1 then "" else [sep] + Join(parts[1..], [sep]);
      assert Join(parts, [sep]) == first + tail;
      assert first + tail == first[..m] + [sep] + (first[m + 1..] + tail);
      SplitCons(first[..m], sep, first[m + 1..] + tail);
    } else if |parts| > 1 {
      assert Join(parts, [sep]) == first + [sep] + Join(parts[1..], [sep]);
      SplitCons(first, sep, Join(parts[1..], [sep]));
    }
  }

  /** The first piece of a joined list is its first part, cut at its first separator. */
  lemma FirstPieceOfJoined(parts: seq<string>, sep: char)
    requires parts != []
    ensures Split(Join(parts, [sep]), sep)[0] == parts[0][..Find(parts[0], sep)]
  {
    SplitJoined(parts, sep);
    FindNone(parts[0], sep);
    assert parts[0][..|parts[0]|] == parts[0];
  }

  lemma {:induction false} ReplaceNothing(s: string, from: char, to: string)
    requires from !in s
    ensures Replace(s, from, to) == s
  {
    if s != "" {
      ReplaceNothing(s[1..], from, to);
      assert s == [s[0]] + s[1..];
    }
  }

  lemma {:induction false} ReplaceFirst(head: string, from: char, to: string, tail: string)
    requires from !in head
    ensures Replace(head + [from] + tail, from, to) == head + to + Replace(tail, from, to)
  {
    var s := head + [from] + tail;
    if head == "" {
      assert s[1..] == tail;
    } else {
      assert s[1..] == head[1..] + [from] + tail;
      ReplaceFirst(head[1..], from, to, tail);
      assert head == [head[0]] + head[1..];
    }
  }

  /** Replacing a character is splitting at it and joining again. */
  lemma {:induction false} ReplaceIsJoin(s: string, from: char, to: string)
    ensures Replace(s, from, to) == Join(Split(s, from), to)
    decreases |s|
  {
    var i := Find(s, from);
    if i == |s| {
      assert s[..i] == s;
      ReplaceNothing(s, from, to);
    } else {
      assert s == s[..i] + [from] + s[i + 1..];
      ReplaceFirst(s[..i], from, to, s[i + 1..]);
      ReplaceIsJoin(s[i + 1..], from, to);
    }
  }

  /** Joining what was split gives the text back, and no piece holds the separator. */
  lemma {:induction false} SplitIs(s: string, sep: char)
    ensures Join(Split(s, sep), [sep]) == s
    ensures forall i :: 0 <= i < |Split(s, sep)| ==> sep !in Split(s, sep)[i]
    decreases |s|
  {
    hide Find;
    var i := Find(s, sep);
    if i == |s| {
      assert s[..i] == s;
    } else {
      SplitIs(s[i + 1..], sep);
      var rest := Split(s[i + 1..], sep);
      assert Split(s, sep) == [s[..i]] + rest;
      assert ([s[..i]] + rest)[1..] == rest;
      assert s == s[..i] + [sep] + s[i + 1..];
    }
  }

  lemma StripClean(s: string)
    requires forall i :: 0 <= i < |s| ==> !IsSpace(s[i])
    ensures Strip(s) == s
  {
  }

  lemma {:induction false} TrimLeftIs(s: string)
    ensures |TrimLeft(s)| <= |s| && s[|s| - |TrimLeft(s)|..] == TrimLeft(s)
    ensures forall i :: 0 <= i < |s| - |TrimLeft(s)| ==> IsSpace(s[i])
    ensures TrimLeft(s) == "" || !IsSpace(TrimLeft(s)[0])
  {
    if s != "" && IsSpace(s[0]) {
      TrimLeftIs(s[1..]);
      assert forall i :: 0 < i < |s| ==> s[i] == s[1..][i - 1];
    }
  }

  lemma {:induction false} TrimRightIs(s: string)
    ensures forall i :: |TrimRight(s)| <= i < |s| ==> IsSpace(s[i])
  {
    if s != "" && IsSpace(s[|s| - 1]) {
      TrimRightIs(s[..|s| - 1]);
    }
  }

  /** What `strip` removes at both ends is white space, and what is left neither starts nor ends
      with any. */
  lemma StripIs(s: string)
    ensures exists a: string, b: string :: s == a + Strip(s) + b && (forall c :: c in a + b ==> IsSpace(c))
    ensures Strip(s) == "" || (!IsSpace(Strip(s)[0]) && !IsSpace(Strip(s)[|Strip(s)| - 1]))
  {
    hide TrimLeft, TrimRight, IsSpace;
    TrimLeftIs(s);
    TrimRightIs(TrimLeft(s));
    var mid := TrimLeft(s);
    var a, b := s[..|s| - |mid|], mid[|Strip(s)|..];
    assert s == a + Strip(s) + b;
  }

  /** The white space that `strip` knows. */
  lemma Spaces(c: char)
    ensures
      var spaces := "\t\n\U{000b}\U{000c}\r\U{001c}\U{001d}\U{001e}\U{001f} \U{0085}\U{00a0}\U{1680}"
        + "\U{2000}\U{2001}\U{2002}\U{2003}\U{2004}\U{2005}\U{2006}\U{2007}\U{2008}\U{2009}\U{200a}"
        + "\U{2028}\U{2029}\U{202f}\U{205f}\U{3000}";
      IsSpace(c) <==> c in spaces
  {
  }
}
