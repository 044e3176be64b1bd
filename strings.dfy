/** The few operations of Python's `str` that the skill manager relies on:
    `strip()`, `startswith`, `in`, `split(sep, 1)` and `split("\n")`. */
module Strings {

  datatype Option<T> = None | Some(value: T)

  /** Python's `str.isspace()` for one character (the characters `strip()` removes). */
  predicate IsSpace(c: char) {
    ('\t' <= c <= '\r') || ('\U{1C}' <= c <= '\U{1F}') || c == ' ' || c == '\U{85}' || c == '\U{A0}'
    || c == '\U{1680}' || ('\U{2000}' <= c <= '\U{200A}') || c == '\U{2028}' || c == '\U{2029}'
    || c == '\U{202F}' || c == '\U{205F}' || c == '\U{3000}'
  }

  /** `s.lstrip()`: the longest suffix of `s` that does not start with white space. */
  function LStrip(s: string): (r: string)
    ensures |r| <= |s|
  {
    if s != [] && IsSpace(s[0]) then LStrip(s[1..]) else s
  }

  /** What `lstrip()` removes is white space, and what it keeps is a suffix that
      does not start with white space. */
  lemma {:induction false} LStripShape(s: string)
    ensures LStrip(s) == s[|s| - |LStrip(s)|..]
    ensures forall k :: 0 <= k < |s| - |LStrip(s)| ==> IsSpace(s[k])
    ensures LStrip(s) == [] || !IsSpace(LStrip(s)[0])
    decreases |s|
  {
    if s != [] && IsSpace(s[0]) {
      LStripShape(s[1..]);
      assert s[1..][|s| - 1 - |LStrip(s)|..] == s[|s| - |LStrip(s)|..];
      forall k | 0 <= k < |s| - |LStrip(s)| ensures IsSpace(s[k]) {
        if k > 0 { assert s[k] == s[1..][k - 1]; }
      }
    }
  }

  /** `s.rstrip()`: the longest prefix of `s` that does not end with white space. */
  function RStrip(s: string): (r: string)
    ensures |r| <= |s|
  {
    if s != [] && IsSpace(s[|s| - 1]) then RStrip(s[..|s| - 1]) else s
  }

  /** What `rstrip()` removes is white space, and what it keeps is a prefix that
      does not end with white space. */
  lemma {:induction false} RStripShape(s: string)
    ensures RStrip(s) == s[..|RStrip(s)|]
    ensures forall k :: |RStrip(s)| <= k < |s| ==> IsSpace(s[k])
    ensures RStrip(s) == [] || !IsSpace(RStrip(s)[|RStrip(s)| - 1])
    decreases |s|
  {
    if s != [] && IsSpace(s[|s| - 1]) {
      RStripShape(s[..|s| - 1]);
      assert s[..|s| - 1][..|RStrip(s)|] == s[..|RStrip(s)|];
      forall k | |RStrip(s)| <= k < |s| ensures IsSpace(s[k]) {
        if k < |s| - 1 { assert s[k] == s[..|s| - 1][k]; }
      }
    }
  }

  /** `s.strip()` */
  function Strip(s: string): string {
    RStrip(LStrip(s))
  }

  /** `s.strip()` is the slice s[i..j] that leaves only white space outside it
      and neither starts nor ends with white space. */
  lemma StripIsCore(s: string, i: nat, j: nat)
    requires i <= j <= |s|
    requires forall k :: 0 <= k < i ==> IsSpace(s[k])
    requires forall k :: j <= k < |s| ==> IsSpace(s[k])
    requires i < j ==> !IsSpace(s[i]) && !IsSpace(s[j - 1])
    ensures Strip(s) == s[i..j]
  {
    var l := LStrip(s);
    LStripShape(s);
    RStripShape(l);
    var p := |s| - |l|;
    assert p < |s| ==> l[0] == s[p];
    var r := RStrip(l);
    if i < j {
      assert p == i;
      assert l[j - i - 1] == s[j - 1];
      assert 0 < |r| ==> l[|r| - 1] == s[i + |r| - 1];
      assert |r| == j - i;
    }
  }

  /** Left-stripping skips a prefix made of white space. */
  lemma {:induction false} LStripSpaces(a: string, s: string)
    requires forall k :: 0 <= k < |a| ==> IsSpace(a[k])
    ensures LStrip(a + s) == LStrip(s)
    decreases |a|
  {
    if a != [] {
      assert (a + s)[0] == a[0];
      assert (a + s)[1..] == a[1..] + s;
      LStripSpaces(a[1..], s);
    } else {
      assert a + s == s;
    }
  }

  /** Right-stripping skips a suffix made of white space. */
  lemma {:induction false} RStripSpaces(s: string, b: string)
    requires forall k :: 0 <= k < |b| ==> IsSpace(b[k])
    ensures RStrip(s + b) == RStrip(s)
    decreases |b|
  {
    if b != [] {
      assert (s + b)[|s + b| - 1] == b[|b| - 1];
      assert (s + b)[..|s + b| - 1] == s + b[..|b| - 1];
      RStripSpaces(s, b[..|b| - 1]);
    } else {
      assert s + b == s;
    }
  }

  /** Left-stripping a concatenation: the second part is reached only when the
      first is all white space. */
  lemma {:induction false} LStripAppend(s: string, b: string)
    ensures LStrip(s + b) == if LStrip(s) == [] then LStrip(b) else LStrip(s) + b
    decreases |s|
  {
    if s == [] {
      assert s + b == b;
    } else {
      assert (s + b)[0] == s[0];
      if IsSpace(s[0]) {
        assert (s + b)[1..] == s[1..] + b;
        LStripAppend(s[1..], b);
      }
    }
  }

  /** Stripping is insensitive to extra white space around the argument. */
  lemma StripPadded(a: string, s: string, b: string)
    requires forall k :: 0 <= k < |a| ==> IsSpace(a[k])
    requires forall k :: 0 <= k < |b| ==> IsSpace(b[k])
    ensures Strip(a + s + b) == Strip(s)
  {
    assert a + s + b == a + (s + b);
    LStripSpaces(a, s + b);
    LStripAppend(s, b);
    if LStrip(s) == [] {
      assert b + [] == b;
      LStripSpaces(b, []);
    } else {
      RStripSpaces(LStrip(s), b);
    }
  }

  /** Stripping an already right-stripped string is the same as stripping it. */
  lemma StripOfRStrip(s: string)
    ensures Strip(RStrip(s)) == Strip(s)
  {
    var r := RStrip(s);
    RStripShape(s);
    assert s == [] + r + s[|r|..];
    StripPadded([], r, s[|r|..]);
  }

  /** A space in front changes nothing for `strip()`, with or without a right-strip first. */
  lemma StripAfterSpace(s: string)
    ensures Strip(" " + s) == Strip(s)
    ensures Strip(RStrip(" " + s)) == Strip(s)
  {
    StripOfRStrip(" " + s);
    StripPadded(" ", s, []);
    assert " " + s + [] == " " + s;
  }

  /** Right-stripping introduces no character. */
  lemma RStripKeeps(s: string, c: char)
    requires c !in s
    ensures c !in RStrip(s)
  {
    RStripShape(s);
    var r := RStrip(s);
    forall k | 0 <= k < |r| ensures r[k] != c {
      assert r[k] == s[k];
    }
  }

  /** A line break in front of a word is all that `lstrip()` removes. */
  lemma LStripNewline(s: string)
    requires s != [] && !IsSpace(s[0])
    ensures LStrip("\n" + s) == s
  {
    assert ("\n" + s)[1..] == s;
  }

  /** Stripping text that opens with a line break and closes with a space, a
      value and a line break keeps the text up to the value's trailing white space. */
  lemma StripBetweenBreaks(x: string, y: string)
    requires x != [] && !IsSpace(x[0]) && !IsSpace(x[|x| - 1])
    ensures Strip("\n" + (x + (" " + y + "\n"))) == x + RStrip(" " + y)
  {
    var tail := " " + y + "\n";
    assert (x + tail)[0] == x[0];
    LStripNewline(x + tail);
    RStripAfter(x, tail);
    RStripSpaces(" " + y, "\n");
  }

  /** Right-stripping leaves alone a prefix that ends with a non-space character. */
  lemma {:induction false} RStripAfter(x: string, y: string)
    requires x != [] && !IsSpace(x[|x| - 1])
    ensures RStrip(x + y) == x + RStrip(y)
    decreases |y|
  {
    if y == [] {
      assert x + y == x;
    } else if IsSpace(y[|y| - 1]) {
      assert (x + y)[..|x + y| - 1] == x + y[..|y| - 1];
      RStripAfter(x, y[..|y| - 1]);
    }
  }

  /** `s.startswith(p)` */
  predicate StartsWith(s: string, p: string) {
    |p| <= |s| && s[..|p|] == p
  }

  lemma FirstCharMismatch(s: string, p: string)
    requires s != [] && p != [] && s[0] != p[0]
    ensures !StartsWith(s, p)
  {
    if |p| <= |s| { assert s[..|p|][0] == s[0]; }
  }

  /** `p` occurs in `s` at position `i`. */
  predicate OccursAt(s: string, p: string, i: nat) {
    i + |p| <= |s| && s[i..i + |p|] == p
  }

  /** `p` occurs nowhere in `s`. */
  ghost predicate Free(s: string, p: string) {
    forall j: nat :: !OccursAt(s, p, j)
  }

  /** The first position at or after `from` where `p` occurs in `s`. */
  function FindFrom(s: string, p: string, from: nat): (r: Option<nat>)
    requires from <= |s|
    ensures r.Some? ==> from <= r.value && OccursAt(s, p, r.value)
    ensures forall j: nat :: from <= j && (r.None? || j < r.value) ==> !OccursAt(s, p, j)
    decreases |s| - from
  {
    if from + |p| > |s| then None
    else if s[from..from + |p|] == p then Some(from)
    else FindFrom(s, p, from + 1)
  }

  /** `s.find(p)`, with None for -1. */
  function Find(s: string, p: string): (r: Option<nat>)
    ensures r.Some? ==> OccursAt(s, p, r.value)
    ensures forall j: nat :: (r.None? || j < r.value) ==> !OccursAt(s, p, j)
  {
    FindFrom(s, p, 0)
  }

  /** `p in s` */
  predicate Contains(s: string, p: string) {
    Find(s, p).Some?
  }

  /** `s.split(sep, 1)`: None when `sep` does not occur (Python's one-element list),
      otherwise the text before and after the first occurrence. */
  function SplitOnce(s: string, sep: string): (r: Option<(string, string)>)
    requires sep != []
    ensures r.None? <==> !Contains(s, sep)
    ensures r.Some? ==> s == r.value.0 + sep + r.value.1
    ensures r.Some? ==> forall j: nat :: j < |r.value.0| ==> !OccursAt(s, sep, j)
  {
    match Find(s, sep)
    case None => None
    case Some(i) =>
      assert s == s[..i] + sep + s[i + |sep|..] by { assert s[i..i + |sep|] == sep; }
      Some((s[..i], s[i + |sep|..]))
  }

  /** A string in which some character of `p` never appears does not contain `p`. */
  lemma FreeOfMissing(s: string, p: string, k: nat)
    requires k < |p| && p[k] !in s
    ensures Free(s, p)
  {
    forall j: nat ensures !OccursAt(s, p, j) {
      if j + |p| <= |s| {
        assert s[j..j + |p|][k] == s[j + k];
      }
    }
  }

  /** `p` does not occur in `a + b` when it occurs in neither and cannot straddle the seam. */
  lemma FreeConcat(a: string, b: string, p: string)
    requires Free(a, p) && Free(b, p)
    requires (a != [] && a[|a| - 1] !in p) || (b != [] && b[0] !in p)
    ensures Free(a + b, p)
  {
    var s := a + b;
    forall j: nat | j + |p| <= |s| ensures !OccursAt(s, p, j) {
      if j + |p| <= |a| {
        assert a[j..j + |p|] == s[j..j + |p|];
        assert !OccursAt(a, p, j);
      } else if j >= |a| {
        assert b[j - |a|..j - |a| + |p|] == s[j..j + |p|];
        assert !OccursAt(b, p, j - |a|);
      } else {
        assert s[j..j + |p|][|a| - 1 - j] == a[|a| - 1];
        assert s[j..j + |p|][|a| - j] == b[0];
      }
    }
  }

  /** A suffix of a text without `p` is without `p`. */
  lemma FreeSuffix(s: string, p: string, k: nat)
    requires k <= |s| && Free(s, p)
    ensures Free(s[k..], p)
  {
    forall j: nat | j + |p| <= |s[k..]| ensures !OccursAt(s[k..], p, j) {
      assert s[k..][j..j + |p|] == s[k + j..k + j + |p|];
      assert !OccursAt(s, p, k + j);
    }
  }

  /** In `a + p + rest`, the first occurrence of `p` is right after `a` when `a`
      does not contain `p` and ends with a character outside `p`. */
  lemma FindAfterFree(a: string, p: string, rest: string)
    requires Free(a, p) && a != [] && a[|a| - 1] !in p
    ensures Find(a + p + rest, p) == Some(|a|)
  {
    var s := a + p + rest;
    assert OccursAt(s, p, |a|) by { assert s[|a|..|a| + |p|] == p; }
    forall j: nat | j < |a| && j + |p| <= |s| ensures !OccursAt(s, p, j) {
      if j + |p| <= |a| {
        assert a[j..j + |p|] == s[j..j + |p|];
        assert !OccursAt(a, p, j);
      } else {
        assert s[j..j + |p|][|a| - 1 - j] == a[|a| - 1];
      }
    }
  }

  /** The position of the first `c` in `s`. */
  function IndexOf(s: string, c: char): (i: nat)
    requires c in s
    ensures i < |s| && s[i] == c && c !in s[..i]
  {
    if s[0] == c then 0 else 1 + IndexOf(s[1..], c)
  }

  /** The first occurrence of `c` is at `i` when `c` is at `i` and not before it. */
  lemma IndexOfAt(s: string, c: char, i: nat)
    requires i < |s| && s[i] == c && c !in s[..i]
    ensures IndexOf(s, c) == i
  {
    var k := IndexOf(s, c);
    assert k <= i by {
      forall j | i < j <= |s| ensures c in s[..j] { assert s[..j][i] == c; }
    }
  }

  /** The inverse of `Split`: `sep.join(parts)`. */
  function Join(parts: seq<string>, sep: char): string
    requires parts != []
  {
    if |parts| == 1 then parts[0] else parts[0] + [sep] + Join(parts[1..], sep)
  }

  /** `s.split(sep)` for a one-character separator. */
  function Split(s: string, sep: char): (parts: seq<string>)
    ensures parts != []
    ensures forall i :: 0 <= i < |parts| ==> sep !in parts[i]
    decreases |s|
  {
    if sep in s then
      var i := IndexOf(s, sep);
      [s[..i]] + Split(s[i + 1..], sep)
    else
      [s]
  }

  /** Joining undoes splitting. */
  lemma {:induction false} JoinSplit(s: string, sep: char)
    ensures Join(Split(s, sep), sep) == s
    decreases |s|
  {
    if sep in s {
      var i := IndexOf(s, sep);
      var rest := Split(s[i + 1..], sep);
      JoinSplit(s[i + 1..], sep);
      assert ([s[..i]] + rest)[1..] == rest;
      assert s == s[..i] + [sep] + s[i + 1..];
    }
  }

  /** Splitting `a + [sep] + b` at its first separator. */
  lemma SplitAfter(a: string, sep: char, b: string)
    requires sep !in a
    ensures Split(a + [sep] + b, sep) == [a] + Split(b, sep)
  {
    var s := a + [sep] + b;
    assert s[|a|] == sep;
    var i := IndexOf(s, sep);
    assert s[..|a|] == a;
    assert forall k :: 0 <= k < i ==> s[k] != sep by {
      forall k | 0 <= k < i ensures s[k] != sep { assert s[..i][k] == s[k]; }
    }
    assert i == |a|;
    assert s[..i] == a && s[i + 1..] == b;
  }

  /** Splitting undoes joining: the two are inverses on separator-free parts. */
  lemma {:induction false} SplitJoin(parts: seq<string>, sep: char)
    requires parts != []
    requires forall i :: 0 <= i < |parts| ==> sep !in parts[i]
    ensures Split(Join(parts, sep), sep) == parts
    decreases |parts|
  {
    if |parts| > 1 {
      var rest := parts[1..];
      assert Join(parts, sep) == parts[0] + [sep] + Join(rest, sep);
      forall i | 0 <= i < |rest| ensures sep !in rest[i] { assert rest[i] == parts[i + 1]; }
      SplitJoin(rest, sep);
      SplitAfter(parts[0], sep, Join(rest, sep));
      assert parts == [parts[0]] + rest;
    } else {
      assert Join(parts, sep) == parts[0];
    }
  }

  /** Three separator-free lines followed by the rest of a text. */
  lemma SplitThreeLines(l1: string, l2: string, l3: string, rest: string)
    requires '\n' !in l1 && '\n' !in l2 && '\n' !in l3
    ensures Split(l1 + "\n" + (l2 + "\n" + (l3 + "\n" + rest)), '\n') == [l1] + ([l2] + ([l3] + Split(rest, '\n')))
  {
    var t3 := l3 + "\n" + rest;
    var t2 := l2 + "\n" + t3;
    SplitAfter(l1, '\n', t2);
    SplitAfter(l2, '\n', t3);
    SplitAfter(l3, '\n', rest);
  }

  /** `sep.join([first] + rest)` for a nonempty `rest`. */
  lemma JoinCons(first: string, rest: seq<string>, sep: char)
    requires rest != []
    ensures Join([first] + rest, sep) == first + [sep] + Join(rest, sep)
  {
    assert ([first] + rest)[1..] == rest;
  }

  /** `sep.join(parts + [last])` ends with the separator and `last`. */
  lemma {:induction false} JoinSnoc(parts: seq<string>, last: string, sep: char)
    requires parts != []
    ensures Join(parts + [last], sep) == Join(parts, sep) + [sep] + last
    decreases |parts|
  {
    if |parts| > 1 {
      JoinSnoc(parts[1..], last, sep);
      assert (parts + [last])[1..] == parts[1..] + [last];
    }
  }

  /** The text `Path.read_text()` returns for the bytes on disk: in its
      universal-newlines mode "\r\n" and a lone "\r" both come back as "\n". */
  function UniversalNewlines(s: string): (r: string)
    ensures |r| <= |s|
    decreases |s|
  {
    if s == [] then []
    else if s[0] == '\r' && |s| > 1 && s[1] == '\n' then "\n" + UniversalNewlines(s[2..])
    else if s[0] == '\r' then "\n" + UniversalNewlines(s[1..])
    else [s[0]] + UniversalNewlines(s[1..])
  }

  /** Text as read holds no carriage return. */
  lemma {:induction false} UniversalNewlinesFree(s: string)
    ensures '\r' !in UniversalNewlines(s)
    decreases |s|
  {
    if s != [] {
      if s[0] == '\r' && |s| > 1 && s[1] == '\n' {
        UniversalNewlinesFree(s[2..]);
      } else {
        UniversalNewlinesFree(s[1..]);
      }
    }
  }

  /** Text without a carriage return reads back as written. */
  lemma {:induction false} UniversalNewlinesPlain(s: string)
    requires '\r' !in s
    ensures UniversalNewlines(s) == s
    decreases |s|
  {
    if s != [] {
      assert s[0] in s;
      assert forall c :: c in s[1..] ==> c in s;
      UniversalNewlinesPlain(s[1..]);
    }
  }

  /** Reading is idempotent: text already read reads back unchanged. */
  lemma UniversalNewlinesIdempotent(s: string)
    ensures UniversalNewlines(UniversalNewlines(s)) == UniversalNewlines(s)
  {
    UniversalNewlinesFree(s);
    UniversalNewlinesPlain(UniversalNewlines(s));
  }

  /** Text without a carriage return, followed by any text, reads as itself
      followed by what the rest reads as. */
  lemma {:induction false} UniversalNewlinesAfterPlain(a: string, b: string)
    requires '\r' !in a
    ensures UniversalNewlines(a + b) == a + UniversalNewlines(b)
    decreases |a|
  {
    if a == [] {
      assert a + b == b;
    } else {
      assert a[0] in a;
      assert forall c :: c in a[1..] ==> c in a;
      assert (a + b)[0] == a[0] && (a + b)[1..] == a[1..] + b;
      UniversalNewlinesAfterPlain(a[1..], b);
      assert a == [a[0]] + a[1..];
    }
  }

  /** A "\r\n" after plain text reads as one "\n". */
  lemma UniversalNewlinesCrLf(a: string, b: string)
    requires '\r' !in a
    ensures UniversalNewlines(a + "\r\n" + b) == a + "\n" + UniversalNewlines(b)
  {
    var t := "\r\n" + b;
    assert UniversalNewlines(t) == "\n" + UniversalNewlines(b) by {
      assert t[0] == '\r' && t[1] == '\n' && t[2..] == b;
    }
    UniversalNewlinesAfterPlain(a, t);
    assert a + "\r\n" + b == a + t;
  }

  /** A lone "\r" after plain text reads as one "\n". */
  lemma UniversalNewlinesCr(a: string, b: string)
    requires '\r' !in a && (b == [] || b[0] != '\n')
    ensures UniversalNewlines(a + "\r" + b) == a + "\n" + UniversalNewlines(b)
  {
    var t := "\r" + b;
    assert UniversalNewlines(t) == "\n" + UniversalNewlines(b) by {
      assert t[0] == '\r' && t[1..] == b;
    }
    UniversalNewlinesAfterPlain(a, t);
    assert a + "\r" + b == a + t;
  }

  /** Reading keeps a prefix free of line breaks: the text read starts with it
      exactly when the text written does. */
  lemma {:induction false} StartsWithUniversal(s: string, p: string)
    requires '\r' !in p && '\n' !in p
    ensures StartsWith(UniversalNewlines(s), p) <==> StartsWith(s, p)
    decreases |p|
  {
    if p != [] && s != [] {
      assert p[0] in p;
      if s[0] != '\r' {
        var u := UniversalNewlines(s[1..]);
        assert UniversalNewlines(s) == [s[0]] + u;
        assert forall c :: c in p[1..] ==> c in p;
        StartsWithUniversal(s[1..], p[1..]);
        assert StartsWith(s, p) <==> s[0] == p[0] && StartsWith(s[1..], p[1..]) by {
          if |p| <= |s| { assert s[..|p|] == [s[0]] + s[1..][..|p| - 1]; }
          assert p == [p[0]] + p[1..];
        }
        assert StartsWith([s[0]] + u, p) <==> s[0] == p[0] && StartsWith(u, p[1..]) by {
          if |p| <= 1 + |u| { assert ([s[0]] + u)[..|p|] == [s[0]] + u[..|p| - 1]; }
          assert p == [p[0]] + p[1..];
        }
      }
    }
  }

  /** Reading two texts one after the other is reading each, when the first
      does not end in a carriage return that the second could pair with. */
  lemma {:induction false} UniversalNewlinesAppend(a: string, b: string)
    requires a == [] || a[|a| - 1] != '\r'
    ensures UniversalNewlines(a + b) == UniversalNewlines(a) + UniversalNewlines(b)
    decreases |a|
  {
    if a == [] {
      assert a + b == b;
    } else {
      var k := NewlineWidth(a);
      assert NewlineWidth(a + b) == k by {
        assert (a + b)[0] == a[0];
        if a[0] == '\r' { assert |a| > 1 && (a + b)[1] == a[1]; }
      }
      calc {
        UniversalNewlines(a + b);
        { UniversalNewlinesUnfold(a + b); }
        [NewlineChar(a[0])] + UniversalNewlines((a + b)[k..]);
        { assert (a + b)[k..] == a[k..] + b; }
        [NewlineChar(a[0])] + UniversalNewlines(a[k..] + b);
        { UniversalNewlinesAppend(a[k..], b); }
        [NewlineChar(a[0])] + (UniversalNewlines(a[k..]) + UniversalNewlines(b));
        { UniversalNewlinesUnfold(a); }
        UniversalNewlines(a) + UniversalNewlines(b);
      }
    }
  }

  /** How many characters the first line break or character of `s` takes. */
  function NewlineWidth(s: string): (r: nat)
    requires s != []
    ensures 1 <= r <= |s|
    ensures r == 2 <==> s[0] == '\r' && |s| > 1 && s[1] == '\n'
  {
    if s[0] == '\r' && |s| > 1 && s[1] == '\n' then 2 else 1
  }

  /** The character that the first character of a text reads as. */
  function NewlineChar(c: char): (r: char)
    ensures r != '\r'
    ensures c != '\r' ==> r == c
  {
    if c == '\r' then '\n' else c
  }

  lemma UniversalNewlinesUnfold(s: string)
    requires s != []
    ensures UniversalNewlines(s) == [NewlineChar(s[0])] + UniversalNewlines(s[NewlineWidth(s)..])
  {
  }

  /** A line ended by "\n" still ends in "\n" once read. */
  lemma {:induction false} UniversalNewlinesEndsNewline(s: string)
    ensures var r := UniversalNewlines(s + "\n"); r != [] && r[|r| - 1] == '\n'
    decreases |s|
  {
    var w := s + "\n";
    if s == [] {
      assert w == "\n";
    } else if w[0] == '\r' && w[1] == '\n' {
      if |s| > 1 {
        assert w[2..] == s[2..] + "\n";
        UniversalNewlinesEndsNewline(s[2..]);
      }
    } else {
      assert w[1..] == s[1..] + "\n";
      UniversalNewlinesEndsNewline(s[1..]);
    }
  }

  /** Reading cannot create an occurrence of a pattern without line breaks. */
  lemma {:induction false} UniversalNewlinesKeepsFree(s: string, p: string)
    requires '\r' !in p && '\n' !in p && Free(s, p)
    ensures Free(UniversalNewlines(s), p)
    decreases |s|
  {
    if s != [] {
      var k := if s[0] == '\r' && |s| > 1 && s[1] == '\n' then 2 else 1;
      FreeSuffix(s, p, k);
      UniversalNewlinesKeepsFree(s[k..], p);
      var t := UniversalNewlines(s[k..]);
      var u := UniversalNewlines(s);
      assert u == [u[0]] + t;
      forall j: nat ensures !OccursAt(u, p, j) {
        if j == 0 {
          StartsWithUniversal(s, p);
          assert !OccursAt(s, p, 0);
          assert OccursAt(u, p, 0) <==> StartsWith(u, p);
          assert OccursAt(s, p, 0) <==> StartsWith(s, p);
        } else if j + |p| <= |u| {
          assert u[j..j + |p|] == t[j - 1..j - 1 + |p|];
          assert !OccursAt(t, p, j - 1);
        }
      }
    }
  }
}
